/**
 * The JSON file store of vacancies, `JSONWorker`: read the stored records back as vacancies,
 * append records whose names are not stored yet, and empty the file.
 *
 * The file is modelled by what `json.load` makes of it: missing, not valid JSON, or an array of
 * objects. Writing with `json.dump` and reading back with `json.load` gives the same records, so a
 * write is a new `Stored` state.
 */
module VacancyWorker {
  import opened Wrappers
  import opened PyValues
  import opened Vacancies
  import opened Ranking

  /** What `json.load` finds in the worker's file. */
  datatype FileState = Missing | Corrupt | Stored(records: seq<Record>)

  /** Which of the three outcomes a read had; the source reports the last two by printing. */
  datatype ReadStatus = Loaded | NotFound | InvalidJson

  /** The file a worker opens when it is given no name. */
  const DefaultFilename: string := "data/vacancies.json"

  /** The list `add_vacancy` starts from: the stored records, or `[]` when the read failed. */
  function Current(f: FileState): seq<Record> {
    if f.Stored? then f.records else []
  }

  // ---------------------------------------------------------------------------------------------
  // Appending without duplicate names

  /** `record.get("name")`: None without a "name" key, otherwise the value stored under it. */
  function NameOf(record: Record): (r: Value)
    ensures "name" !in Keys(record) ==> r == Null
    ensures "name" in Keys(record) ==> exists j :: 0 <= j < |record| && record[j] == ("name", r)
  {
    match Get(record, "name")
    case Some(v) => v
    case None => Null
  }

  /** The names of the records, each as Python's `==` sees it. */
  ghost function Names(cur: seq<Record>): set<Value> {
    set j | 0 <= j < |cur| :: Norm(NameOf(cur[j]))
  }

  /** `any(vac.get("name") == name for vac in cur)`. */
  predicate HasName(cur: seq<Record>, name: Value) {
    exists j :: 0 <= j < |cur| && PyEq(NameOf(cur[j]), name)
  }

  /** A list has a name exactly when that name, as `==` compares it, is among its names. */
  lemma HasNameSpec(cur: seq<Record>, name: Value)
    ensures HasName(cur, name) <==> Norm(name) in Names(cur)
  {
    if Norm(name) in Names(cur) {
      var j :| 0 <= j < |cur| && Norm(NameOf(cur[j])) == Norm(name);
      assert PyEq(NameOf(cur[j]), name);
    }
  }

  /** A record is appended when its name is truthy and no record in the list has that name. */
  predicate Admits(cur: seq<Record>, x: Record) {
    Truthy(NameOf(x)) && !HasName(cur, NameOf(x))
  }

  /**
   * One turn of the loop of `add_vacancy`: the list keeps its records and gains at most x, and
   * only when x has a truthy name that the list does not hold yet.
   */
  function AddOne(cur: seq<Record>, x: Record): (r: seq<Record>)
    ensures cur <= r && |r| <= |cur| + 1
    ensures |r| > |cur| ==> r[|cur|] == x && Truthy(NameOf(x)) && !HasName(cur, NameOf(x))
  {
    if Admits(cur, x) then cur + [x] else cur
  }

  /** After one turn the list holds the offered name whenever it is truthy. */
  lemma AddOneHoldsName(cur: seq<Record>, x: Record)
    requires Truthy(NameOf(x))
    ensures HasName(AddOne(cur, x), NameOf(x))
  {
    if Admits(cur, x) {
      assert (cur + [x])[|cur|] == x && PyEq(NameOf(x), NameOf(x));
    }
  }

  /**
   * The whole loop of `add_vacancy`: the records offered in order, each against the list so far.
   * The stored records stay, unchanged and first; each offer appends at most one record.
   */
  function AddAll(cur: seq<Record>, xs: seq<Record>): (r: seq<Record>)
    ensures cur <= r && |r| <= |cur| + |xs|
    decreases |xs|
  {
    if xs == [] then cur else AddOne(AddAll(cur, xs[..|xs| - 1]), xs[|xs| - 1])
  }

  /** a is b with some elements dropped, the rest in their order. */
  predicate IsSubsequence(a: seq<Record>, b: seq<Record>)
    decreases |b|
  {
    && |a| <= |b|
    && (|| a == []
        || (&& b != []
            && (|| (a[|a| - 1] == b[|b| - 1] && IsSubsequence(a[..|a| - 1], b[..|b| - 1]))
                || IsSubsequence(a, b[..|b| - 1]))))
  }

  /** No two records share a name, in the sense of Python's `==`. */
  predicate NamesDistinct(cur: seq<Record>) {
    forall i, j :: 0 <= i < j < |cur| ==> !PyEq(NameOf(cur[i]), NameOf(cur[j]))
  }

  /** The appended records are drawn from the offered ones, in their order. */
  lemma {:induction false} AddAllDrawsFromOffered(cur: seq<Record>, xs: seq<Record>)
    ensures |cur| <= |AddAll(cur, xs)| && IsSubsequence(AddAll(cur, xs)[|cur|..], xs)
    decreases |xs|
  {
    if xs != [] {
      var n := |xs| - 1;
      var p := AddAll(cur, xs[..n]);
      AddAllDrawsFromOffered(cur, xs[..n]);
      if Admits(p, xs[n]) {
        var r := p + [xs[n]];
        assert r[|cur|..] == p[|cur|..] + [xs[n]];
        assert r[|cur|..][..|r[|cur|..]| - 1] == p[|cur|..];
      }
    }
  }

  /** Each appended record had a truthy name that no record before it in the list had. */
  lemma {:induction false} AddAllAdmitsOnlyNew(cur: seq<Record>, xs: seq<Record>)
    ensures |cur| <= |AddAll(cur, xs)|
    ensures forall j :: |cur| <= j < |AddAll(cur, xs)| ==> Admits(AddAll(cur, xs)[..j], AddAll(cur, xs)[j])
    decreases |xs|
  {
    if xs != [] {
      var n := |xs| - 1;
      var p := AddAll(cur, xs[..n]);
      AddAllAdmitsOnlyNew(cur, xs[..n]);
      if Admits(p, xs[n]) {
        var r := p + [xs[n]];
        assert r[..|p|] == p;
        forall j | |cur| <= j < |p|
          ensures Admits(r[..j], r[j])
        {
          assert r[..j] == p[..j];
        }
      }
    }
  }

  /** Offering `a` and then `b` is offering `a + b`. */
  lemma {:induction false} AddAllConcat(cur: seq<Record>, a: seq<Record>, b: seq<Record>)
    ensures AddAll(AddAll(cur, a), b) == AddAll(cur, a + b)
    decreases |b|
  {
    if b == [] {
      assert a + b == a;
    } else {
      var n, ab := |b| - 1, a + b;
      calc {
        AddAll(AddAll(cur, a), b);
        AddOne(AddAll(AddAll(cur, a), b[..n]), b[n]);
        { AddAllConcat(cur, a, b[..n]); }
        AddOne(AddAll(cur, a + b[..n]), b[n]);
        { assert ab[..|ab| - 1] == a + b[..n] && ab[|ab| - 1] == b[n]; }
        AddAll(cur, ab);
      }
    }
  }

  /** A name once in the list stays in it. */
  lemma HasNameGrows(cur: seq<Record>, r: seq<Record>, name: Value)
    requires cur <= r
    requires HasName(cur, name)
    ensures HasName(r, name)
  {
    var j :| 0 <= j < |cur| && PyEq(NameOf(cur[j]), name);
    assert r[j] == cur[j];
  }

  /** Every truthy name offered is in the list afterwards. */
  lemma {:induction false} AddAllCovers(cur: seq<Record>, xs: seq<Record>)
    ensures forall i :: 0 <= i < |xs| && Truthy(NameOf(xs[i])) ==> HasName(AddAll(cur, xs), NameOf(xs[i]))
    decreases |xs|
  {
    if xs != [] {
      var n := |xs| - 1;
      var p := AddAll(cur, xs[..n]);
      var r := AddAll(cur, xs);
      AddAllCovers(cur, xs[..n]);
      assert p <= r;
      forall i | 0 <= i < |xs| && Truthy(NameOf(xs[i]))
        ensures HasName(r, NameOf(xs[i]))
      {
        if i < n {
          assert xs[..n][i] == xs[i];
          HasNameGrows(p, r, NameOf(xs[i]));
        } else if !HasName(p, NameOf(xs[n])) {
          PyEqIsEquivalence(NameOf(xs[n]), NameOf(xs[n]), NameOf(xs[n]));
          assert r[|p|] == xs[n];
        } else {
          HasNameGrows(p, r, NameOf(xs[n]));
        }
      }
    }
  }

  /** The names of a list with one more record: the names before and the new record's name. */
  lemma NamesSnoc(p: seq<Record>, x: Record)
    ensures Names(p + [x]) == Names(p) + {Norm(NameOf(x))}
  {
    var cur := p + [x];
    assert forall j :: 0 <= j < |p| ==> cur[j] == p[j];
    assert cur[|p|] == x;
  }

  /** One more record keeps the names distinct exactly when they were and its name is new. */
  lemma DistinctSnoc(p: seq<Record>, x: Record)
    ensures NamesDistinct(p + [x]) <==> NamesDistinct(p) && !HasName(p, NameOf(x))
  {
    var cur := p + [x];
    assert forall j :: 0 <= j < |p| ==> cur[j] == p[j];
    assert cur[|p|] == x;
    if HasName(p, NameOf(x)) {
      var i :| 0 <= i < |p| && PyEq(NameOf(p[i]), NameOf(x));
      assert PyEq(NameOf(cur[i]), NameOf(cur[|p|]));
    }
  }

  /**
   * A list has at most as many names as records, and exactly as many when no two records share a
   * name.
   */
  lemma {:induction false} NamesCount(cur: seq<Record>)
    ensures |Names(cur)| <= |cur|
    ensures NamesDistinct(cur) <==> |Names(cur)| == |cur|
  {
    if cur != [] {
      var p, x := cur[..|cur| - 1], cur[|cur| - 1];
      assert cur == p + [x];
      NamesCount(p);
      NamesSnoc(p, x);
      DistinctSnoc(p, x);
      HasNameSpec(p, NameOf(x));
    }
  }

  /** Appending keeps the names of the list distinct, so it has one name per record. */
  lemma {:induction false} AddAllKeepsNamesDistinct(cur: seq<Record>, xs: seq<Record>)
    requires NamesDistinct(cur)
    ensures NamesDistinct(AddAll(cur, xs))
    ensures |Names(AddAll(cur, xs))| == |AddAll(cur, xs)|
    decreases |xs|
  {
    NamesCount(AddAll(cur, xs));
    if xs != [] {
      var n := |xs| - 1;
      var p := AddAll(cur, xs[..n]);
      AddAllKeepsNamesDistinct(cur, xs[..n]);
      if Admits(p, xs[n]) {
        var r := p + [xs[n]];
        forall i, j | 0 <= i < j < |r|
          ensures !PyEq(NameOf(r[i]), NameOf(r[j]))
        {
          if j == |p| {
            assert r[i] == p[i];
          } else {
            assert r[i] == p[i] && r[j] == p[j];
          }
        }
      }
    }
  }

  /** Written to an empty or missing file, the offered records end up with distinct names. */
  lemma AddAllToEmptyDistinct(xs: seq<Record>)
    ensures NamesDistinct(AddAll([], xs))
  {
    AddAllKeepsNamesDistinct([], xs);
  }

  /** Every name in the list afterwards was stored before or offered. */
  lemma NamesComeFromInputs(cur: seq<Record>, xs: seq<Record>, name: Value)
    requires HasName(AddAll(cur, xs), name)
    ensures HasName(cur + xs, name)
  {
    var r := AddAll(cur, xs);
    AddAllDrawsFromOffered(cur, xs);
    var j :| 0 <= j < |r| && PyEq(NameOf(r[j]), name);
    if j < |cur| {
      assert (cur + xs)[j] == r[j];
    } else {
      SubsequenceMember(r[|cur|..], xs, j - |cur|);
      var k :| 0 <= k < |xs| && xs[k] == r[|cur|..][j - |cur|];
      assert (cur + xs)[|cur| + k] == r[j];
    }
  }

  /**
   * A record is stored when its name is truthy and not the name of any record stored before it
   * or offered before it: the first record of each name wins.
   */
  lemma FirstOfNameIsAdded(cur: seq<Record>, xs: seq<Record>, i: nat)
    requires i < |xs|
    requires Truthy(NameOf(xs[i]))
    requires !HasName(cur + xs[..i], NameOf(xs[i]))
    ensures xs[i] in AddAll(cur, xs)
  {
    var p := AddAll(cur, xs[..i]);
    if HasName(p, NameOf(xs[i])) {
      NamesComeFromInputs(cur, xs[..i], NameOf(xs[i]));
    }
    assert xs[..i + 1][..i] == xs[..i];
    AddAllPrefix(cur, xs, i + 1);
    assert AddAll(cur, xs)[|p|] == xs[i];
  }

  /** The list after offering a prefix of the records is a prefix of the list after all of them. */
  lemma AddAllPrefix(cur: seq<Record>, xs: seq<Record>, m: nat)
    requires m <= |xs|
    ensures AddAll(cur, xs[..m]) <= AddAll(cur, xs)
  {
    AddAllConcat(cur, xs[..m], xs[m..]);
    assert xs[..m] + xs[m..] == xs;
  }

  lemma {:induction false} SubsequenceMember(a: seq<Record>, b: seq<Record>, j: nat)
    requires IsSubsequence(a, b)
    requires j < |a|
    ensures exists k :: 0 <= k < |b| && b[k] == a[j]
    decreases |b|
  {
    var n := |b| - 1;
    if a[|a| - 1] == b[n] && IsSubsequence(a[..|a| - 1], b[..n]) {
      if j == |a| - 1 {
        assert b[n] == a[j];
      } else {
        SubsequenceMember(a[..|a| - 1], b[..n], j);
        var k :| 0 <= k < n && b[..n][k] == a[j];
        assert b[k] == a[j];
      }
    } else {
      SubsequenceMember(a, b[..n], j);
      var k :| 0 <= k < n && b[..n][k] == a[j];
      assert b[k] == a[j];
    }
  }

  /** Offering records whose names are falsy or already stored changes nothing. */
  lemma {:induction false} AddAllNothingNew(cur: seq<Record>, xs: seq<Record>)
    requires forall i :: 0 <= i < |xs| ==> !Truthy(NameOf(xs[i])) || HasName(cur, NameOf(xs[i]))
    ensures AddAll(cur, xs) == cur
    decreases |xs|
  {
    if xs != [] {
      var n := |xs| - 1;
      assert forall i :: 0 <= i < n ==> xs[..n][i] == xs[i];
      AddAllNothingNew(cur, xs[..n]);
    }
  }

  /** Adding the same records twice stores them once. */
  lemma AddAllIdempotent(cur: seq<Record>, xs: seq<Record>)
    ensures AddAll(AddAll(cur, xs), xs) == AddAll(cur, xs)
  {
    AddAllCovers(cur, xs);
    AddAllNothingNew(AddAll(cur, xs), xs);
  }

  /** `any(...)`, the scan for a stored record with the given name. */
  method ContainsName(cur: seq<Record>, name: Value) returns (found: bool)
    ensures found <==> HasName(cur, name)
  {
    var i := 0;
    while i < |cur|
      invariant 0 <= i <= |cur|
      invariant forall j :: 0 <= j < i ==> !PyEq(NameOf(cur[j]), name)
    {
      if PyEq(NameOf(cur[i]), name) {
        return true;
      }
      i := i + 1;
    }
    return false;
  }

  /** A record with a name and a salary text, as the worker's tests offer them. */
  function Offer(name: string, salary: string): Record {
    [("name", Str(name)), ("salary", Str(salary))]
  }

  lemma OfferName(name: string, salary: string)
    ensures NameOf(Offer(name, salary)) == Str(name)
  {
    var r := Offer(name, salary);
    assert r[|r| - 1].0 != "name" by {
      assert |r[|r| - 1].0| != |"name"|;
    }
    assert r[..|r| - 1] == [("name", Str(name))];
    assert Get(r[..|r| - 1], "name") == Some(Str(name));
  }

  /** Offering one record is one turn of the loop. */
  lemma AddAllSingle(cur: seq<Record>, x: Record)
    ensures AddAll(cur, [x]) == AddOne(cur, x)
  {
    assert [x][..0] == [];
  }

  /** Offering two records is two turns of the loop, in order. */
  lemma AddAllPair(cur: seq<Record>, x: Record, y: Record)
    ensures AddAll(cur, [x, y]) == AddOne(AddOne(cur, x), y)
  {
    assert [x, y][..1] == [x];
    AddAllSingle(cur, x);
  }

  /**
   * An offer with a non-empty name goes into an empty file; a second offer of that name, whatever
   * its salary, leaves the file holding the first.
   */
  lemma ReofferKeepsFirst(name: string, first: string, second: string)
    requires name != ""
    ensures AddAll([], [Offer(name, first)]) == [Offer(name, first)]
    ensures AddAll([Offer(name, first)], [Offer(name, second)]) == [Offer(name, first)]
  {
    var x, y := Offer(name, first), Offer(name, second);
    OfferName(name, first);
    OfferName(name, second);
    AddAllSingle([], x);
    AddAllSingle([x], y);
    assert !HasName([], NameOf(x));
    assert HasName([x], NameOf(y)) by {
      assert [x][0] == x;
    }
  }

  /** Two offers with truthy names that are not `==` both go into an empty file, in order. */
  lemma DistinctPairGoesIn(x: Record, y: Record)
    requires Truthy(NameOf(x)) && Truthy(NameOf(y))
    requires !PyEq(NameOf(x), NameOf(y))
    ensures AddAll([], [x, y]) == [x, y]
  {
    AddAllPair([], x, y);
    assert Admits([], x);
    assert Admits([x], y) by {
      assert [x][0] == x;
    }
    assert [x] + [y] == [x, y];
  }

  /**
   * Two differently named offers go into a new file in order; offering the first name again with
   * another salary leaves the file as it was, first salary included.
   */
  lemma ExampleNoDuplicates()
    ensures var python, data := Offer("Python Developer", "100000"), Offer("Data Scientist", "120000");
            && AddAll([], [python, data]) == [python, data]
            && AddAll([python, data], [Offer("Python Developer", "110000")]) == [python, data]
  {
    var python, data := Offer("Python Developer", "100000"), Offer("Data Scientist", "120000");
    var again := Offer("Python Developer", "110000");
    OfferName("Python Developer", "100000");
    OfferName("Data Scientist", "120000");
    OfferName("Python Developer", "110000");
    assert |"Python Developer"| != |"Data Scientist"|;
    DistinctPairGoesIn(python, data);
    assert HasName([python, data], NameOf(again)) by {
      assert [python, data][0] == python;
    }
    AddAllNothingNew([python, data], [again]);
  }

  // ---------------------------------------------------------------------------------------------
  // The worker

  /**
   * The file on disk. Every worker opened on the same name shares it, and each call reads it
   * afresh, so what one worker writes the next call of any other sees.
   */
  class JsonFile {
    var content: FileState

    constructor(found: FileState)
      ensures content == found
    {
      content := found;
    }
  }

  /** A worker bound to one file; `file` is the file its name opens. */
  class JSONWorker {
    const filename: string
    const file: JsonFile

    /** `JSONWorker(filename)`: nothing is read or written. */
    constructor(filename: string, file: JsonFile)
      ensures this.filename == filename && this.file == file
    {
      this.filename := filename;
      this.file := file;
    }

    /** `JSONWorker()`: the worker of the default file. */
    constructor Default(file: JsonFile)
      ensures filename == DefaultFilename && this.file == file
    {
      filename := DefaultFilename;
      this.file := file;
    }

    /**
     * `get_vacancy()`: no vacancies when the file is missing or not valid JSON; otherwise one
     * vacancy per stored record, in order, or the error the first bad record raises.
     */
    method GetVacancy(convert: Converter) returns (vacancies: Result<seq<Vacancy>, Error>, status: ReadStatus)
      ensures file.content.Missing? ==> vacancies == Ok([]) && status == NotFound
      ensures file.content.Corrupt? ==> vacancies == Ok([]) && status == InvalidJson
      ensures file.content.Stored? ==> status == Loaded
      ensures file.content.Stored? ==>
                (vacancies.Ok? <==> forall i :: 0 <= i < |file.content.records| ==>
                                      FromRecord(file.content.records[i], convert).Ok?)
      ensures file.content.Stored? && vacancies.Ok? ==>
                && |vacancies.value| == |file.content.records|
                && forall i :: 0 <= i < |file.content.records| ==>
                     FromRecord(file.content.records[i], convert) == Ok(vacancies.value[i])
      ensures file.content.Stored? && vacancies.Err? ==>
                exists i :: 0 <= i < |file.content.records| &&
                  FromRecord(file.content.records[i], convert) == Err(vacancies.error) &&
                  forall j :: 0 <= j < i ==> FromRecord(file.content.records[j], convert).Ok?
    {
      match file.content
      case Missing =>
        vacancies, status := Ok([]), NotFound;
      case Corrupt =>
        vacancies, status := Ok([]), InvalidJson;
      case Stored(records) =>
        BuildAllRecords(records, convert);
        vacancies, status := BuildAll(records, raw => FromRecord(raw, convert)), Loaded;
    }

    /**
     * `add_vacancy(vacancies)`: read the file (an unreadable one counts as empty), append every
     * record whose name is truthy and not yet in the list, and write the list back.
     */
    method AddVacancy(vacancies: seq<Record>)
      modifies file
      ensures file.content == Stored(AddAll(Current(old(file.content)), vacancies))
    {
      var cur := Current(file.content);
      ghost var base := cur;
      for i := 0 to |vacancies|
        invariant cur == AddAll(base, vacancies[..i])
      {
        var name := NameOf(vacancies[i]);
        if Truthy(name) {
          var taken := ContainsName(cur, name);
          if !taken {
            cur := cur + [vacancies[i]];
          }
        }
        assert vacancies[..i + 1][..i] == vacancies[..i];
      }
      assert vacancies[..|vacancies|] == vacancies;
      file.content := Stored(cur);
    }

    /** `del_vacancy()`: the file holds an empty array. */
    method DelVacancy()
      modifies file
      ensures file.content == Stored([])
    {
      file.content := Stored([]);
    }
  }

  /**
   * Two workers on the default file, as the command-line entry point and its menu helpers each
   * hold one: a record added through the first is in the file the second reads, so offering its
   * name again through the second leaves the file as the first wrote it.
   */
  method ExampleSharedFile() returns (stored: FileState)
    ensures stored == Stored([Offer("Python Developer", "100000")])
  {
    var disk := new JsonFile(Missing);
    var app := new JSONWorker.Default(disk);
    var menu := new JSONWorker.Default(disk);
    var python, again := Offer("Python Developer", "100000"), Offer("Python Developer", "110000");
    ReofferKeepsFirst("Python Developer", "100000", "110000");
    app.AddVacancy([python]);
    menu.AddVacancy([again]);
    stored := disk.content;
  }
}
