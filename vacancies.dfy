/**
 * A vacancy: built once from a raw record, with its link validated, its salary reduced to one
 * amount in roubles, and compared with other vacancies by that amount alone.
 */
module Vacancies {
  import opened Wrappers
  import opened PyValues
  import opened Links

  /** Why building a Vacancy raised. */
  datatype Error =
    | BadArguments            // TypeError from `Vacancy(**el)`: the keys are not the six parameters
    | InvalidLink             // ValueError("Некорректный url-адрес")
    | MissingKey(key: string) // KeyError on the salary dict
    | NotSubscriptable        // TypeError: the salary is truthy but not a dict
    | NotAnInteger            // `int()` of a salary bound raised
    | ConversionFailed        // the currency conversion raised
    | NoTitle                 // AttributeError: the area has no `title()`

  /**
   * The currency conversion service (`get_convert_salary`): an amount and the currency it is in,
   * to the amount in roubles; None where the call raises.
   */
  type Converter = (int, Value) -> Option<int>

  datatype Vacancy = Vacancy(
    name: Value,
    link: string,
    salary: int,
    description: string,
    area: string,
    contact: Value)

  // ---------------------------------------------------------------------------------------------
  // Construction

  /** `_validate_link`: a string the link pattern accepts is kept as it is; anything else raises. */
  function ValidateLink(link: Value): (r: Result<string, Error>)
    ensures r.Ok? <==> link.Str? && LinkMatches(link.s)
    ensures r.Ok? ==> r.value == link.s
    ensures r.Err? ==> r.error == InvalidLink
  {
    if link.Str? && LinkAccepted(link.s) then Ok(link.s) else Err(InvalidLink)
  }

  /** `salary["currency"] in ["RUR", "RUB"]`. */
  predicate IsRouble(currency: Value): (r: bool)
    ensures r <==> currency == Str("RUR") || currency == Str("RUB")
  {
    PyEq(currency, Str("RUR")) || PyEq(currency, Str("RUB"))
  }

  /** `salary[key] if salary[key] else 0`: a missing key raises, a falsy bound counts as 0. */
  function BoundOrZero(fields: seq<(string, Value)>, key: string): (r: Result<Value, Error>)
    ensures key !in Keys(fields) ==> r == Err(MissingKey(key))
    ensures key in Keys(fields) ==> r.Ok? && (Truthy(Get(fields, key).value) ==> r.value == Get(fields, key).value)
    ensures r.Ok? ==> (Truthy(r.value) ==> Get(fields, key) == Some(r.value))
    ensures r.Ok? ==> (!Truthy(Get(fields, key).value) <==> r.value == Int(0))
  {
    match Get(fields, key)
    case None => Err(MissingKey(key))
    case Some(v) => Ok(if Truthy(v) then v else Int(0))
  }

  /**
   * The two bounds of a salary dict as integers, `int(salary_from)` and `int(salary_to)`, with the
   * errors in the order the source meets them: the "from" key, the "to" key, then each `int()`.
   */
  function SalaryBounds(fields: seq<(string, Value)>): (r: Result<(int, int), Error>)
    ensures "from" !in Keys(fields) ==> r == Err(MissingKey("from"))
    ensures "from" in Keys(fields) && "to" !in Keys(fields) ==> r == Err(MissingKey("to"))
    ensures r.Ok? ==> "from" in Keys(fields) && "to" in Keys(fields)
    ensures r.Ok? ==> BoundOrZero(fields, "from").Ok? && IntOf(BoundOrZero(fields, "from").value) == Some(r.value.0)
    ensures r.Ok? ==> BoundOrZero(fields, "to").Ok? && IntOf(BoundOrZero(fields, "to").value) == Some(r.value.1)
    ensures "from" in Keys(fields) && "to" in Keys(fields) ==>
              (r.Ok? <==> IntOf(BoundOrZero(fields, "from").value).Some? && IntOf(BoundOrZero(fields, "to").value).Some?)
    ensures "from" in Keys(fields) && "to" in Keys(fields) && r.Err? ==> r.error == NotAnInteger
  {
    match BoundOrZero(fields, "from")
    case Err(e) => Err(e)
    case Ok(f) =>
      match BoundOrZero(fields, "to")
      case Err(e) => Err(e)
      case Ok(t) =>
        match IntOf(f)
        case None => Err(NotAnInteger)
        case Some(lo) =>
          match IntOf(t)
          case None => Err(NotAnInteger)
          case Some(hi) => Ok((lo, hi))
  }

  /** `(lo + hi) // 2`: Python's floor division, which Dafny's `/` agrees with for a positive divisor. */
  function Midpoint(lo: int, hi: int): (m: int)
    ensures 2 * m <= lo + hi <= 2 * m + 1
  {
    (lo + hi) / 2
  }

  /**
   * `_validate_salary`: no salary (None, an empty dict or any other falsy value) is 0; otherwise the
   * midpoint of the bounds, passed through the converter unless the currency is the rouble.
   */
  function NormalizeSalary(salary: Value, convert: Converter): (r: Result<int, Error>)
    ensures !Truthy(salary) ==> r == Ok(0)
    ensures Truthy(salary) && !salary.Obj? ==> r == Err(NotSubscriptable)
    ensures Truthy(salary) && salary.Obj? && "currency" !in Keys(salary.fields) ==> r == Err(MissingKey("currency"))
    ensures Truthy(salary) && r.Ok? ==> SalaryBounds(salary.fields).Ok?
    ensures Truthy(salary) && salary.Obj? && "currency" in Keys(salary.fields) && SalaryBounds(salary.fields).Err? ==>
              r == Err(SalaryBounds(salary.fields).error)
  {
    if !Truthy(salary) then Ok(0)
    else if !salary.Obj? then Err(NotSubscriptable)
    else
      match Get(salary.fields, "currency")
      case None => Err(MissingKey("currency"))
      case Some(currency) =>
        match SalaryBounds(salary.fields)
        case Err(e) => Err(e)
        case Ok((lo, hi)) =>
          var mid := Midpoint(lo, hi);
          if IsRouble(currency) then Ok(mid)
          else
            match convert(mid, currency)
            case None => Err(ConversionFailed)
            case Some(amount) => Ok(amount)
  }

  /**
   * The salary rule: in roubles the salary is the floor of the bounds' mean, whatever the
   * converter does; in any other currency it is the converter's answer for that floor mean and
   * that currency, and construction fails when the converter does.
   */
  lemma SalaryRule(fields: seq<(string, Value)>, convert: Converter, lo: int, hi: int)
    requires fields != []
    requires "currency" in Keys(fields)
    requires SalaryBounds(fields) == Ok((lo, hi))
    ensures var currency := Get(fields, "currency").value;
            var r := NormalizeSalary(Obj(fields), convert);
            && (IsRouble(currency) ==> r.Ok? && 2 * r.value <= lo + hi <= 2 * r.value + 1)
            && (!IsRouble(currency) ==>
                  exists mid :: 2 * mid <= lo + hi <= 2 * mid + 1 &&
                    r == (if convert(mid, currency).Some? then Ok(convert(mid, currency).value)
                          else Err(ConversionFailed)))
  {
    var currency := Get(fields, "currency").value;
    var mid := Midpoint(lo, hi);
    assert Truthy(Obj(fields));
    var r := NormalizeSalary(Obj(fields), convert);
    if IsRouble(currency) {
      assert r == Ok(mid);
    } else {
      assert r == (if convert(mid, currency).Some? then Ok(convert(mid, currency).value) else Err(ConversionFailed));
    }
  }

  /**
   * The description: a string is stored verbatim, anything else as its `str()`. The placeholder
   * "Требования не указаны." sits in a branch no input reaches (a str is never None).
   */
  function Describe(description: Value): (d: string)
    ensures description.Str? ==> d == description.s
    ensures description.Null? ==> d == "None"
  {
    if description.Str? then description.s else PyStr(description)
  }

  /** The type test before `str()` changes nothing: the description is always `str(description)`. */
  lemma DescribeIsStr(description: Value)
    ensures Describe(description) == PyStr(description)
  {
  }

  /**
   * `Vacancy.__init__`: the name is stored, the link validated, the salary normalised, the
   * description made text, the area title-cased and the contact stored, in that order; the first
   * step that raises decides the error.
   */
  function NewVacancy(name: Value, link: Value, salary: Value, description: Value, area: Value,
                      contact: Value, convert: Converter): (r: Result<Vacancy, Error>)
    ensures r.Ok? <==> ValidateLink(link).Ok? && NormalizeSalary(salary, convert).Ok? && area.Str?
    ensures ValidateLink(link).Err? ==> r == Err(InvalidLink)
    ensures ValidateLink(link).Ok? && NormalizeSalary(salary, convert).Err? ==>
              r == Err(NormalizeSalary(salary, convert).error)
    ensures ValidateLink(link).Ok? && NormalizeSalary(salary, convert).Ok? && !area.Str? ==> r == Err(NoTitle)
    ensures r.Ok? ==> && r.value.name == name
                      && r.value.link == link.s
                      && r.value.salary == NormalizeSalary(salary, convert).value
                      && r.value.description == Describe(description)
                      && r.value.area == Title(area.s)
                      && r.value.contact == contact
  {
    match ValidateLink(link)
    case Err(e) => Err(e)
    case Ok(url) =>
      match NormalizeSalary(salary, convert)
      case Err(e) => Err(e)
      case Ok(amount) =>
        if area.Str? then Ok(Vacancy(name, url, amount, Describe(description), Title(area.s), contact))
        else Err(NoTitle)
  }

  /** The keyword parameters of `Vacancy.__init__`. */
  const Parameters: set<string> := {"name", "link", "salary", "description", "area", "contact"}

  /** `Vacancy(**raw)`: the keys must be exactly the parameters, else Python raises TypeError. */
  function FromRecord(raw: Record, convert: Converter): (r: Result<Vacancy, Error>)
    ensures Keys(raw) != Parameters ==> r == Err(BadArguments)
    ensures Keys(raw) == Parameters ==>
              r == NewVacancy(Get(raw, "name").value, Get(raw, "link").value, Get(raw, "salary").value,
                              Get(raw, "description").value, Get(raw, "area").value,
                              Get(raw, "contact").value, convert)
  {
    if Keys(raw) != Parameters then Err(BadArguments)
    else
      assert "name" in Keys(raw) && "link" in Keys(raw) && "salary" in Keys(raw);
      assert "description" in Keys(raw) && "area" in Keys(raw) && "contact" in Keys(raw);
      NewVacancy(Get(raw, "name").value, Get(raw, "link").value, Get(raw, "salary").value,
                 Get(raw, "description").value, Get(raw, "area").value, Get(raw, "contact").value,
                 convert)
  }

  // ---------------------------------------------------------------------------------------------
  // Comparison: by salary only

  /** `__eq__`: equal exactly when neither is less than the other. */
  predicate Eq(a: Vacancy, b: Vacancy): (r: bool)
    ensures r <==> !Lt(a, b) && !Lt(b, a)
  {
    a.salary == b.salary
  }

  /** `__lt__`: no vacancy is less than itself. */
  predicate Lt(a: Vacancy, b: Vacancy): (r: bool)
    ensures r ==> a != b
  {
    a.salary < b.salary
  }

  /** `__ne__`, Python's default negation of `__eq__`. */
  predicate Ne(a: Vacancy, b: Vacancy): (r: bool)
    ensures r <==> Lt(a, b) || Lt(b, a)
  {
    !Eq(a, b)
  }

  /** `__le__` as `total_ordering` derives it from `__lt__`: `a < b or a == b`. */
  predicate Le(a: Vacancy, b: Vacancy): (r: bool)
    ensures r <==> !Lt(b, a)
  {
    Lt(a, b) || Eq(a, b)
  }

  /** `__gt__` as `total_ordering` derives it: `not a < b and a != b`. */
  predicate Gt(a: Vacancy, b: Vacancy): (r: bool)
    ensures r <==> Lt(b, a)
  {
    !Lt(a, b) && Ne(a, b)
  }

  /** `__ge__` as `total_ordering` derives it: `not a < b`. */
  predicate Ge(a: Vacancy, b: Vacancy): (r: bool)
    ensures r <==> Le(b, a)
  {
    !Lt(a, b)
  }

  /**
   * The comparisons make a total preorder on vacancies: exactly one of a < b, a == b, b < a holds,
   * `<` is irreflexive and transitive, `==` is an equivalence, and `<=` is total and transitive.
   * Two vacancies that differ in every other field are still equal when their salaries are.
   */
  lemma SalaryOrder(a: Vacancy, b: Vacancy, c: Vacancy)
    ensures (if Lt(a, b) then 1 else 0) + (if Eq(a, b) then 1 else 0) + (if Lt(b, a) then 1 else 0) == 1
    ensures !Lt(a, a) && Eq(a, a)
    ensures Lt(a, b) && Lt(b, c) ==> Lt(a, c)
    ensures Eq(a, b) ==> Eq(b, a)
    ensures Eq(a, b) && Eq(b, c) ==> Eq(a, c)
    ensures Le(a, b) || Le(b, a)
    ensures Le(a, b) && Le(b, c) ==> Le(a, c)
    ensures Eq(a, b) <==> a.salary == b.salary
  {
  }

  // ---------------------------------------------------------------------------------------------
  // Rendering

  const Negotiable := "По договоренности!"

  /** What `__str__` shows for the salary: the amount, or "По договоренности!" when it is 0. */
  function SalaryText(salary: int): string {
    if salary != 0 then IntText(salary) else Negotiable
  }

  /** The first line of `__str__`: what is sought, and where. */
  function Heading(v: Vacancy): string {
    "Ищем " + PyStr(v.name) + " в " + v.area + "\n"
  }

  /** The lines of `__str__` after the salary. */
  function Details(v: Vacancy): string {
    "\nЧто нужно?\n" + v.description + "\n"
    + "Контакты: " + PyStr(v.contact) + "\n"
    + "Подробнее: " + v.link + "\n"
    + "Удачи!\n"
    + "----------"
  }

  /** `__str__`: a card that opens with "Ищем " and closes with a rule of ten dashes. */
  function Render(v: Vacancy): (r: string)
    ensures "Ищем " <= r
    ensures |r| >= 10 && r[|r| - 10..] == "----------"
  {
    Heading(v) + ("ЗПшечка: " + SalaryText(v.salary)) + Details(v)
  }

  ghost predicate OccursAt(s: string, part: string, i: int) {
    0 <= i <= |s| - |part| && s[i..i + |part|] == part
  }

  ghost predicate Contains(s: string, part: string) {
    exists i :: OccursAt(s, part, i)
  }

  lemma ContainsLeft(b: string, c: string, part: string)
    requires Contains(b, part)
    ensures Contains(b + c, part)
  {
    var i :| OccursAt(b, part, i);
    assert (b + c)[i..i + |part|] == b[i..i + |part|];
    assert OccursAt(b + c, part, i);
  }

  lemma ContainsRight(a: string, b: string, part: string)
    requires Contains(b, part)
    ensures Contains(a + b, part)
  {
    var i :| OccursAt(b, part, i);
    assert (a + b)[|a| + i..|a| + i + |part|] == b[i..i + |part|];
    assert OccursAt(a + b, part, |a| + i);
  }

  lemma ContainsItself(s: string)
    ensures Contains(s, s)
  {
    assert OccursAt(s, s, 0);
  }

  /** The rendering shows the salary, or the "negotiable" text in its place when the salary is 0. */
  lemma RenderShowsSalary(v: Vacancy)
    ensures v.salary != 0 ==> Contains(Render(v), "ЗПшечка: " + IntText(v.salary))
    ensures v.salary == 0 ==> Contains(Render(v), "ЗПшечка: " + Negotiable)
    ensures v.salary == 0 ==> Contains(Render(v), Negotiable)
  {
    var shown := "ЗПшечка: " + SalaryText(v.salary);
    ContainsItself(shown);
    ContainsRight(Heading(v), shown, shown);
    ContainsLeft(Heading(v) + shown, Details(v), shown);
    if v.salary == 0 {
      ContainsItself(Negotiable);
      ContainsRight("ЗПшечка: ", Negotiable, Negotiable);
      ContainsRight(Heading(v), shown, Negotiable);
      ContainsLeft(Heading(v) + shown, Details(v), Negotiable);
    }
  }

  /** The rendering names the vacancy. */
  lemma RenderShowsName(v: Vacancy)
    ensures Contains(Render(v), PyStr(v.name))
  {
    var name := PyStr(v.name);
    ContainsItself(name);
    ContainsRight("Ищем ", name, name);
    ContainsLeft("Ищем " + name, " в ", name);
    ContainsLeft("Ищем " + name + " в ", v.area, name);
    ContainsLeft("Ищем " + name + " в " + v.area, "\n", name);
    ContainsLeft(Heading(v), "ЗПшечка: " + SalaryText(v.salary), name);
    ContainsLeft(Heading(v) + ("ЗПшечка: " + SalaryText(v.salary)), Details(v), name);
  }

  // ---------------------------------------------------------------------------------------------
  // The cases the test suite pins

  function SalaryDict(from: Value, to: Value, currency: string): Value {
    Obj([("from", from), ("to", to), ("currency", Str(currency))])
  }

  lemma SalaryDictFields(from: Value, to: Value, currency: string)
    ensures var f := SalaryDict(from, to, currency).fields;
            Get(f, "from") == Some(from) && Get(f, "to") == Some(to) && Get(f, "currency") == Some(Str(currency))
  {
    var f := SalaryDict(from, to, currency).fields;
    assert f[..2] == [("from", from), ("to", to)] && f[..2][..1] == [("from", from)];
    assert "currency" != "from" && "currency" != "to" && "to" != "from";
    assert Get(f, "from") == Get(f[..2], "from") == Get(f[..2][..1], "from");
    assert Get(f, "to") == Get(f[..2], "to");
  }

  /** The salary rule for a dict whose bounds read as lo and hi. */
  lemma SalaryDictRule(from: Value, to: Value, currency: string, lo: int, hi: int, convert: Converter)
    requires IntOf(if Truthy(from) then from else Int(0)) == Some(lo)
    requires IntOf(if Truthy(to) then to else Int(0)) == Some(hi)
    ensures var r := NormalizeSalary(SalaryDict(from, to, currency), convert);
            var mid := Midpoint(lo, hi);
            && (IsRouble(Str(currency)) ==> r == Ok(mid))
            && (!IsRouble(Str(currency)) ==>
                  r == if convert(mid, Str(currency)).Some? then Ok(convert(mid, Str(currency)).value)
                       else Err(ConversionFailed))
  {
    var f := SalaryDict(from, to, currency).fields;
    SalaryDictFields(from, to, currency);
    assert BoundOrZero(f, "from") == Ok(if Truthy(from) then from else Int(0));
    assert BoundOrZero(f, "to") == Ok(if Truthy(to) then to else Int(0));
    assert SalaryBounds(f) == Ok((lo, hi));
    assert Truthy(SalaryDict(from, to, currency));
  }

  /** Both bounds in roubles give the floor midpoint. */
  lemma ExampleRoubleSalaries(convert: Converter)
    ensures NormalizeSalary(SalaryDict(Int(100000), Int(150000), "RUR"), convert) == Ok(125000)
  {
    assert IsRouble(Str("RUR"));
    SalaryDictRule(Int(100000), Int(150000), "RUR", 100000, 150000, convert);
    assert Midpoint(100000, 150000) == 125000;
  }

  /** A missing upper bound counts as 0. */
  lemma ExampleLowerBoundOnly(convert: Converter)
    ensures NormalizeSalary(SalaryDict(Int(80000), Null, "RUR"), convert) == Ok(40000)
  {
    assert IsRouble(Str("RUR"));
    SalaryDictRule(Int(80000), Null, "RUR", 80000, 0, convert);
    assert Midpoint(80000, 0) == 40000;
  }

  /** A missing lower bound counts as 0; no salary at all is 0. */
  lemma ExampleUpperBoundOnly(convert: Converter)
    ensures NormalizeSalary(SalaryDict(Null, Int(120000), "RUR"), convert) == Ok(60000)
    ensures NormalizeSalary(Null, convert) == Ok(0) && NormalizeSalary(Obj([]), convert) == Ok(0)
  {
    assert IsRouble(Str("RUR"));
    SalaryDictRule(Null, Int(120000), "RUR", 0, 120000, convert);
    assert Midpoint(0, 120000) == 60000;
  }

  /** A dollar salary is the converter's answer for the midpoint 11000 and the currency "USD". */
  lemma ExampleForeignSalary(convert: Converter)
    requires convert(11000, Str("USD")) == Some(750000)
    ensures NormalizeSalary(SalaryDict(Int(10000), Int(12000), "USD"), convert) == Ok(750000)
  {
    assert !IsRouble(Str("USD"));
    SalaryDictRule(Int(10000), Int(12000), "USD", 10000, 12000, convert);
    assert Midpoint(10000, 12000) == 11000;
  }

  lemma ExampleAreas()
    ensures Title("Москва") == "Москва"
  {
    var s := "Москва";
    TitleSpec(s);
    forall k | 0 <= k < |s|
      ensures Title(s)[k] == s[k]
    {
      assert IsCased(s[k]);
    }
  }

  lemma ExampleLinks()
    ensures ValidateLink(Str("https://example.com")) == Ok("https://example.com")
    ensures ValidateLink(Str("not-a-url")) == Err(InvalidLink)
    ensures ValidateLink(Null) == Err(InvalidLink)
  {
    assert SplitsAsLink("https://example.com", "https://", "example", "com", "");
    assert forall k :: 0 <= k < |"not-a-url"| ==> "not-a-url"[k] != '.';
    AcceptedLinkHasDot("not-a-url");
  }

  /** The test fixture: every field as given, the area title-cased, the salary the midpoint. */
  lemma ExampleVacancy(convert: Converter)
    ensures NewVacancy(Str("Python Developer"), Str("https://example.com"),
                       SalaryDict(Int(100000), Int(150000), "RUR"), Str("Опыт работы 3+ года"),
                       Str("Москва"), Str("hr@example.com"), convert)
            == Ok(Vacancy(Str("Python Developer"), "https://example.com", 125000, "Опыт работы 3+ года",
                          "Москва", Str("hr@example.com")))
  {
    ExampleLinks();
    ExampleRoubleSalaries(convert);
    ExampleAreas();
  }
}
