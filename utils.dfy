/**
 * The top-N ranker, `get_top_vacancies_for_salary`: build a Vacancy from every raw record, sort
 * them by salary in descending order with a stable sort, and keep the first `top`.
 */
module Ranking {
  import opened Wrappers
  import opened PyValues
  import opened Vacancies

  // ---------------------------------------------------------------------------------------------
  // Building every record

  /**
   * `[Vacancy(**vac) for vac in vacancies]`, with `build` standing for `Vacancy(**vac)`: the
   * vacancies in input order, or the error of the first record that cannot be built (no partial
   * list).
   */
  function BuildAll(raws: seq<Record>, build: Record -> Result<Vacancy, Error>): (r: Result<seq<Vacancy>, Error>)
    ensures r.Ok? <==> forall i :: 0 <= i < |raws| ==> build(raws[i]).Ok?
    ensures r.Ok? ==> |r.value| == |raws|
    ensures r.Ok? ==> forall i :: 0 <= i < |raws| ==> build(raws[i]) == Ok(r.value[i])
    ensures r.Err? ==> exists i :: 0 <= i < |raws| && build(raws[i]) == Err(r.error)
                                   && forall j :: 0 <= j < i ==> build(raws[j]).Ok?
  {
    if raws == [] then Ok([])
    else
      var head := build(raws[0]);
      if head.Err? then
        assert build(raws[0]) == Err(head.error);
        Err(head.error)
      else
        var rest := BuildAll(raws[1..], build);
        assert raws == [raws[0]] + raws[1..];
        if rest.Err? then
          ghost var i :| 0 <= i < |raws[1..]| && build(raws[1..][i]) == Err(rest.error)
                         && forall j :: 0 <= j < i ==> build(raws[1..][j]).Ok?;
          assert build(raws[i + 1]) == Err(rest.error);
          Err(rest.error)
        else
          Ok([head.value] + rest.value)
  }

  // ---------------------------------------------------------------------------------------------
  // Stable descending sort

  /** Higher salaries first. */
  predicate Descending(s: seq<Vacancy>) {
    forall i, j :: 0 <= i < j < |s| ==> s[i].salary >= s[j].salary
  }

  /** The vacancies of s whose salary is k, in the order s has them. */
  function WithSalary(s: seq<Vacancy>, k: int): seq<Vacancy> {
    if s == [] then []
    else (if s[0].salary == k then [s[0]] else []) + WithSalary(s[1..], k)
  }

  /**
   * x placed in front of the first vacancy whose salary is not above its own: after every higher
   * salary, before every equal one.
   */
  function Insert(x: Vacancy, s: seq<Vacancy>): seq<Vacancy> {
    if s == [] || s[0].salary <= x.salary then [x] + s
    else [s[0]] + Insert(x, s[1..])
  }

  /**
   * `sorted(vs, reverse=True)`: descending by salary; Python's sort is stable and `reverse=True`
   * keeps equal vacancies in their input order.
   */
  function SortDescending(vs: seq<Vacancy>): (r: seq<Vacancy>)
    ensures Descending(r)
    ensures multiset(r) == multiset(vs)
  {
    if vs == [] then []
    else
      var rest := SortDescending(vs[1..]);
      InsertMultiset(vs[0], rest);
      InsertDescending(vs[0], rest);
      assert vs == [vs[0]] + vs[1..];
      Insert(vs[0], rest)
  }

  lemma {:induction false} InsertMultiset(x: Vacancy, s: seq<Vacancy>)
    ensures multiset(Insert(x, s)) == multiset(s) + multiset{x}
  {
    if !(s == [] || s[0].salary <= x.salary) {
      InsertMultiset(x, s[1..]);
      assert s == [s[0]] + s[1..];
    }
  }

  /** Inserting below a bound keeps every salary below it. */
  lemma {:induction false} InsertBelow(x: Vacancy, s: seq<Vacancy>, bound: int)
    requires x.salary <= bound
    requires forall i :: 0 <= i < |s| ==> s[i].salary <= bound
    ensures forall i :: 0 <= i < |Insert(x, s)| ==> Insert(x, s)[i].salary <= bound
  {
    if !(s == [] || s[0].salary <= x.salary) {
      InsertBelow(x, s[1..], bound);
    }
  }

  lemma {:induction false} InsertDescending(x: Vacancy, s: seq<Vacancy>)
    requires Descending(s)
    ensures Descending(Insert(x, s))
  {
    if !(s == [] || s[0].salary <= x.salary) {
      var t := Insert(x, s[1..]);
      InsertDescending(x, s[1..]);
      InsertBelow(x, s[1..], s[0].salary);
      assert Insert(x, s) == [s[0]] + t;
    }
  }

  lemma {:induction false} InsertWithSalary(x: Vacancy, s: seq<Vacancy>, k: int)
    requires Descending(s)
    ensures WithSalary(Insert(x, s), k) == if x.salary == k then [x] + WithSalary(s, k) else WithSalary(s, k)
  {
    var r := Insert(x, s);
    if s == [] || s[0].salary <= x.salary {
      assert r[0] == x && r[1..] == s;
    } else {
      InsertWithSalary(x, s[1..], k);
      assert r[0] == s[0] && r[1..] == Insert(x, s[1..]);
    }
  }

  lemma {:induction false} SortDescendingStable(vs: seq<Vacancy>, k: int)
    ensures WithSalary(SortDescending(vs), k) == WithSalary(vs, k)
  {
    if vs != [] {
      var rest := SortDescending(vs[1..]);
      SortDescendingStable(vs[1..], k);
      InsertWithSalary(vs[0], rest, k);
    }
  }

  /**
   * SortDescending is a stable descending sort: the result is descending, holds the same vacancies,
   * and lists the vacancies of each salary in their input order.
   */
  lemma SortDescendingSpec(vs: seq<Vacancy>)
    ensures Descending(SortDescending(vs))
    ensures multiset(SortDescending(vs)) == multiset(vs)
    ensures |SortDescending(vs)| == |vs|
    ensures forall k :: WithSalary(SortDescending(vs), k) == WithSalary(vs, k)
  {
    assert |multiset(SortDescending(vs))| == |multiset(vs)|;
    forall k
      ensures WithSalary(SortDescending(vs), k) == WithSalary(vs, k)
    {
      SortDescendingStable(vs, k);
    }
  }

  lemma {:induction false} WithSalaryEmpty(s: seq<Vacancy>)
    requires s != []
    ensures WithSalary(s, s[0].salary) != [] && WithSalary(s, s[0].salary)[0] == s[0]
  {
  }

  lemma {:induction false} WithSalaryMember(s: seq<Vacancy>, k: int)
    requires WithSalary(s, k) != []
    ensures exists j :: 0 <= j < |s| && s[j].salary == k
  {
    if s[0].salary != k {
      WithSalaryMember(s[1..], k);
      var j :| 0 <= j < |s[1..]| && s[1..][j].salary == k;
      assert s[j + 1].salary == k;
    }
  }

  lemma WithSalaryNone(s: seq<Vacancy>)
    requires forall k :: WithSalary(s, k) == []
    ensures s == []
  {
    if s != [] {
      WithSalaryEmpty(s);
    }
  }

  /** Two descending lists with the same vacancies per salary start alike and continue alike. */
  lemma StableHeads(a: seq<Vacancy>, b: seq<Vacancy>)
    requires a != [] && b != []
    requires Descending(a) && Descending(b)
    requires forall k :: WithSalary(a, k) == WithSalary(b, k)
    ensures a[0] == b[0]
    ensures forall k :: WithSalary(a[1..], k) == WithSalary(b[1..], k)
  {
    var ka, kb := a[0].salary, b[0].salary;
    WithSalaryEmpty(a);
    WithSalaryEmpty(b);
    WithSalaryMember(b, ka);
    WithSalaryMember(a, kb);
    assert ka == kb;
    forall k
      ensures WithSalary(a[1..], k) == WithSalary(b[1..], k)
    {
      if k == ka {
        assert WithSalary(a[1..], k) == WithSalary(a, k)[1..];
        assert WithSalary(b[1..], k) == WithSalary(b, k)[1..];
      } else {
        assert WithSalary(a, k) == WithSalary(a[1..], k);
        assert WithSalary(b, k) == WithSalary(b[1..], k);
      }
    }
  }

  /**
   * Descending order and per-salary input order fix the result: a stable descending sort has
   * exactly one possible outcome.
   */
  lemma {:induction false} StableSortUnique(a: seq<Vacancy>, b: seq<Vacancy>)
    requires Descending(a) && Descending(b)
    requires forall k :: WithSalary(a, k) == WithSalary(b, k)
    ensures a == b
    decreases |a|
  {
    if a == [] {
      WithSalaryNone(b);
    } else if b == [] {
      WithSalaryNone(a);
    } else {
      StableHeads(a, b);
      StableSortUnique(a[1..], b[1..]);
      assert a == [a[0]] + a[1..] && b == [b[0]] + b[1..];
    }
  }

  /** Any stable descending arrangement of vs is SortDescending(vs). */
  lemma SortDescendingIsTheStableSort(vs: seq<Vacancy>, r: seq<Vacancy>)
    requires Descending(r) && forall k :: WithSalary(r, k) == WithSalary(vs, k)
    ensures r == SortDescending(vs)
  {
    SortDescendingSpec(vs);
    StableSortUnique(r, SortDescending(vs));
  }

  // ---------------------------------------------------------------------------------------------
  // The top of the list

  function Min(a: int, b: int): int {
    if a <= b then a else b
  }

  lemma {:induction false} WithSalaryPrefix(s: seq<Vacancy>, n: nat, k: int)
    requires n <= |s|
    ensures WithSalary(s[..n], k) <= WithSalary(s, k)
  {
    if n > 0 {
      assert s[..n][1..] == s[1..][..n - 1];
      WithSalaryPrefix(s[1..], n - 1, k);
    }
  }

  /**
   * The first n of a descending list are descending, drawn from the list, and paid at least as
   * much as the rest.
   */
  lemma DescendingSplit(s: seq<Vacancy>, n: nat)
    requires Descending(s) && n <= |s|
    ensures Descending(s[..n])
    ensures multiset(s[..n]) <= multiset(s)
    ensures forall v, w :: v in multiset(s) - multiset(s[..n]) && w in s[..n] ==> v.salary <= w.salary
  {
    SplitMultiset(s, n);
    forall v, w | v in multiset(s) - multiset(s[..n]) && w in s[..n]
      ensures v.salary <= w.salary
    {
      var i :| n <= i < |s| && s[i] == v;
      var j :| 0 <= j < n && s[j] == w;
    }
  }

  /** What a prefix leaves out is exactly the elements after it. */
  lemma SplitMultiset(s: seq<Vacancy>, n: nat)
    requires n <= |s|
    ensures multiset(s) == multiset(s[..n]) + multiset(s[n..])
    ensures forall v :: v in multiset(s) - multiset(s[..n]) ==> exists i :: n <= i < |s| && s[i] == v
  {
    assert s == s[..n] + s[n..];
    forall v | v in multiset(s) - multiset(s[..n])
      ensures exists i :: n <= i < |s| && s[i] == v
    {
      assert v in multiset(s[n..]);
      var i :| 0 <= i < |s[n..]| && s[n..][i] == v;
      assert s[n + i] == v;
    }
  }

  /** Where `s[:top]` ends in a list of length len: a negative `top` counts from the end. */
  function SliceEnd(top: int, len: nat): (n: nat)
    ensures n <= len
    ensures 0 <= top <= len ==> n == top
    ensures len < top ==> n == len
    ensures top < 0 && 0 <= len + top ==> n == len + top
    ensures len + top < 0 ==> n == 0
  {
    if 0 <= top then Min(top, len) else if len + top > 0 then len + top else 0
  }

  /**
   * `sorted(vs, reverse=True)[:top]`: min(top, |vs|) vacancies (all but the last -top when top is
   * negative), descending, drawn from vs, none of the left-out ones paid more than any kept one,
   * and the kept vacancies of each salary are the first ones of that salary in the input.
   */
  function TopOf(vs: seq<Vacancy>, top: int): (r: seq<Vacancy>)
    ensures 0 <= top ==> |r| == Min(top, |vs|)
    ensures top < 0 ==> |r| == if |vs| + top > 0 then |vs| + top else 0
    ensures Descending(r)
    ensures multiset(r) <= multiset(vs)
    ensures forall v, w :: v in multiset(vs) - multiset(r) && w in r ==> v.salary <= w.salary
    ensures forall k :: WithSalary(r, k) <= WithSalary(vs, k)
  {
    var s := SortDescending(vs);
    var n := SliceEnd(top, |vs|);
    SortDescendingSpec(vs);
    DescendingSplit(s, n);
    forall k
      ensures WithSalary(s[..n], k) <= WithSalary(vs, k)
    {
      WithSalaryPrefix(s, n, k);
    }
    s[..n]
  }

  /**
   * `get_top_vacancies_for_salary(vacancies, top)`: the error of the first record that cannot be
   * built, or the top of the built list.
   */
  function TopVacancies(raws: seq<Record>, top: int, convert: Converter): (r: Result<seq<Vacancy>, Error>)
    ensures r.Err? <==> exists i :: 0 <= i < |raws| && FromRecord(raws[i], convert).Err?
    ensures r.Err? ==> exists i :: 0 <= i < |raws| && FromRecord(raws[i], convert) == Err(r.error)
                                   && forall j :: 0 <= j < i ==> FromRecord(raws[j], convert).Ok?
    ensures r.Ok? ==> var built := BuildAll(raws, raw => FromRecord(raw, convert));
                      built.Ok? && r.value == TopOf(built.value, top)
    ensures r.Ok? ==> |r.value| == SliceEnd(top, |raws|) && Descending(r.value)
    ensures raws == [] ==> r == Ok([])
  {
    BuildAllRecords(raws, convert);
    match BuildAll(raws, raw => FromRecord(raw, convert))
    case Err(e) => Err(e)
    case Ok(vs) => Ok(TopOf(vs, top))
  }

  /** The top is made of vacancies built from the input records. */
  lemma TopVacanciesDrawn(raws: seq<Record>, top: int, convert: Converter)
    ensures var r := TopVacancies(raws, top, convert);
            r.Ok? ==> forall v :: v in r.value ==> exists i :: 0 <= i < |raws| && FromRecord(raws[i], convert) == Ok(v)
  {
    var r := TopVacancies(raws, top, convert);
    if r.Ok? {
      BuildAllRecords(raws, convert);
      var vs := BuildAll(raws, raw => FromRecord(raw, convert)).value;
      forall v | v in r.value
        ensures exists i :: 0 <= i < |raws| && FromRecord(raws[i], convert) == Ok(v)
      {
        assert v in multiset(vs);
        var i :| 0 <= i < |vs| && vs[i] == v;
      }
    }
  }

  /** No record whose vacancy was left out of the top is paid more than any vacancy kept. */
  lemma TopVacanciesLeavesOutLower(raws: seq<Record>, top: int, convert: Converter)
    ensures var r := TopVacancies(raws, top, convert);
            r.Ok? ==> forall i, w :: 0 <= i < |raws| && FromRecord(raws[i], convert).Ok? && w in r.value
                        && FromRecord(raws[i], convert).value !in r.value
                        ==> FromRecord(raws[i], convert).value.salary <= w.salary
  {
    var r := TopVacancies(raws, top, convert);
    if r.Ok? {
      BuildAllRecords(raws, convert);
      var vs := BuildAll(raws, raw => FromRecord(raw, convert)).value;
      forall i, w | 0 <= i < |raws| && FromRecord(raws[i], convert).Ok? && w in r.value
                    && FromRecord(raws[i], convert).value !in r.value
        ensures FromRecord(raws[i], convert).value.salary <= w.salary
      {
        assert vs[i] in multiset(vs) - multiset(r.value);
      }
    }
  }

  /** Building with the record constructor, stated in terms of that constructor. */
  lemma BuildAllRecords(raws: seq<Record>, convert: Converter)
    ensures var r := BuildAll(raws, raw => FromRecord(raw, convert));
            && (r.Err? <==> exists i :: 0 <= i < |raws| && FromRecord(raws[i], convert).Err?)
            && (r.Ok? ==> |r.value| == |raws|)
            && (r.Ok? ==> forall i :: 0 <= i < |raws| ==> FromRecord(raws[i], convert) == Ok(r.value[i]))
            && (r.Err? ==> exists i :: 0 <= i < |raws| && FromRecord(raws[i], convert) == Err(r.error)
                                       && forall j :: 0 <= j < i ==> FromRecord(raws[j], convert).Ok?)
  {
    var build := raw => FromRecord(raw, convert);
    assert forall i :: 0 <= i < |raws| ==> build(raws[i]) == FromRecord(raws[i], convert);
  }
}
