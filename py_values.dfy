/**
 * The Python values the vacancy code handles: what `json.load` produces (floats aside),
 * and the built-in operations the code applies to them — truth value, `dict.get`, `==`,
 * `int()`, `str()`/`repr()` and `str.title()`.
 */
module PyValues {
  import opened Wrappers

  /** A JSON value. An object keeps its entries in insertion order, as a Python dict does. */
  datatype Value =
    | Null
    | Bool(b: bool)
    | Int(i: int)
    | Str(s: string)
    | Arr(items: seq<Value>)
    | Obj(fields: seq<(string, Value)>)

  /** A raw vacancy record: one JSON object, as received from the listing service or read back from the file. */
  type Record = seq<(string, Value)>

  // ---------------------------------------------------------------------------------------------
  // Truth value, lookup, equality

  /** Python's truth value (`if v:`): None, False, 0 and empty strings, lists and dicts are false. */
  predicate Truthy(v: Value) {
    match v
    case Null => false
    case Bool(b) => b
    case Int(i) => i != 0
    case Str(s) => s != ""
    case Arr(items) => items != []
    case Obj(fields) => fields != []
  }

  /** The keys an object holds. */
  function Keys(fields: seq<(string, Value)>): (ks: set<string>)
    ensures forall key :: key in ks <==> exists j :: 0 <= j < |fields| && fields[j].0 == key
  {
    set j | 0 <= j < |fields| :: fields[j].0
  }

  /**
   * `d.get(key)` on a JSON object: the value stored under `key`, or None when the key is absent.
   * When a key is repeated, the last entry wins, as it does in `json.load`.
   */
  function Get(fields: seq<(string, Value)>, key: string): (r: Option<Value>)
    ensures r.None? <==> key !in Keys(fields)
    ensures r.Some? ==> exists j :: 0 <= j < |fields| && fields[j] == (key, r.value)
  {
    if fields == [] then None
    else if fields[|fields| - 1].0 == key then Some(fields[|fields| - 1].1)
    else Get(fields[..|fields| - 1], key)
  }

  /** The value Python's `==` compares: a bool stands for the integer it equals (`True == 1`). */
  function Norm(v: Value): Value {
    if v.Bool? then Int(if v.b then 1 else 0) else v
  }

  /** Python's `==` between two JSON values. */
  predicate PyEq(a: Value, b: Value)
  {
    Norm(a) == Norm(b)
  }

  /**
   * Python's `==` on JSON values: values of the same kind are equal exactly when they are the
   * same value, and a bool equals exactly the integer it stands for.
   */
  lemma PyEqSpec(a: Value, b: Value)
    ensures a.Bool? == b.Bool? ==> (PyEq(a, b) <==> a == b)
    ensures a.Bool? && !b.Bool? ==> (PyEq(a, b) <==> b == Int(if a.b then 1 else 0))
    ensures !a.Bool? && b.Bool? ==> (PyEq(a, b) <==> a == Int(if b.b then 1 else 0))
  {
  }

  /** A value is false exactly when it is None or `==` one of 0, "", [] and {} (False being `==` 0). */
  lemma TruthySpec(v: Value)
    ensures !Truthy(v) <==> v == Null || PyEq(v, Int(0)) || v == Str("") || v == Arr([]) || v == Obj([])
  {
  }

  lemma PyEqIsEquivalence(a: Value, b: Value, c: Value)
    ensures PyEq(a, a)
    ensures PyEq(a, b) ==> PyEq(b, a)
    ensures PyEq(a, b) && PyEq(b, c) ==> PyEq(a, c)
    ensures PyEq(Bool(true), Int(1)) && PyEq(Bool(false), Int(0)) && !PyEq(Null, Bool(false))
  {
  }

  // ---------------------------------------------------------------------------------------------
  // Decimal text of integers, and `int()`

  predicate IsDigit(c: char) {
    '0' <= c <= '9'
  }

  predicate AllDigits(s: string) {
    forall k :: 0 <= k < |s| ==> IsDigit(s[k])
  }

  function DigitChar(d: nat): (c: char)
    requires d < 10
    ensures IsDigit(c) && c as int - '0' as int == d
  {
    ('0' as int + d) as char
  }

  /** The value of a string of decimal digits. */
  function DigitsValue(s: string): nat
    requires AllDigits(s)
  {
    if s == [] then 0 else DigitsValue(s[..|s| - 1]) * 10 + (s[|s| - 1] as int - '0' as int)
  }

  /** The decimal text of a natural number, without leading zeros. */
  function NatText(n: nat): (s: string)
    ensures |s| > 0 && AllDigits(s)
    ensures |s| > 1 ==> s[0] != '0'
  {
    if n < 10 then [DigitChar(n)] else NatText(n / 10) + [DigitChar(n % 10)]
  }

  /** `str(i)` for a Python int. */
  function IntText(i: int): (s: string)
    ensures |s| > 0
    ensures i < 0 ==> s[0] == '-'
    ensures i >= 0 ==> AllDigits(s)
  {
    if i < 0 then "-" + NatText(-i) else NatText(i)
  }

  /**
   * `int(s)` for a string: an optional sign followed by at least one ASCII digit; None where
   * Python raises ValueError.
   */
  function ParseInt(s: string): (r: Option<int>)
    ensures r.Some? ==> |s| > 0
  {
    if |s| > 0 && (s[0] == '-' || s[0] == '+') then
      if |s| > 1 && AllDigits(s[1..]) then
        var n: int := DigitsValue(s[1..]);
        Some(if s[0] == '-' then -n else n)
      else None
    else if |s| > 0 && AllDigits(s) then Some(DigitsValue(s))
    else None
  }

  lemma {:induction false} NatTextValue(n: nat)
    ensures DigitsValue(NatText(n)) == n
  {
    if n >= 10 {
      var s := NatText(n / 10) + [DigitChar(n % 10)];
      assert s[..|s| - 1] == NatText(n / 10);
      NatTextValue(n / 10);
    }
  }

  /** Reading back the decimal text of an integer gives the integer. */
  lemma ParseIntText(i: int)
    ensures ParseInt(IntText(i)) == Some(i)
  {
    var s := IntText(i);
    if i < 0 {
      assert s[1..] == NatText(-i);
      NatTextValue(-i);
      assert ParseInt(s) == Some(-(DigitsValue(s[1..]) as int));
    } else {
      NatTextValue(i);
      assert IsDigit(s[0]);
      assert ParseInt(s) == Some(DigitsValue(s));
    }
  }

  /**
   * `int(v)` for a JSON value: integers as they are, booleans as 0 or 1, strings parsed;
   * None where Python raises (TypeError for None, lists and dicts; ValueError for bad text).
   */
  function IntOf(v: Value): (r: Option<int>)
    ensures v.Int? ==> r == Some(v.i)
    ensures v.Bool? ==> r == Some(if v.b then 1 else 0)
    ensures v.Str? ==> r == ParseInt(v.s)
    ensures v.Null? || v.Arr? || v.Obj? ==> r.None?
  {
    match v
    case Int(i) => Some(i)
    case Bool(b) => Some(if b then 1 else 0)
    case Str(s) => ParseInt(s)
    case _ => None
  }

  // ---------------------------------------------------------------------------------------------
  // `str()` and `repr()`

  /** The parts joined with `sep` between them (`sep.join(parts)`). */
  function Join(parts: seq<string>, sep: string): string {
    if |parts| == 0 then ""
    else if |parts| == 1 then parts[0]
    else Join(parts[..|parts| - 1], sep) + sep + parts[|parts| - 1]
  }

  /** Two lower-case hexadecimal digits of a code point below 256. */
  function Hex2(n: nat): string
    requires n < 256
  {
    var digits := "0123456789abcdef";
    [digits[n / 16], digits[n % 16]]
  }

  /** How `repr()` writes one character of a string quoted with `q`. */
  function EscapeChar(c: char, q: char): string {
    if c == '\\' then "\\\\"
    else if c == q then ['\\', q]
    else if c == '\n' then "\\n"
    else if c == '\r' then "\\r"
    else if c == '\t' then "\\t"
    else if c < ' ' || ('\U{007F}' <= c <= '\U{00A0}') || c == '\U{00AD}' then "\\x" + Hex2(c as int)
    else [c]
  }

  function Escape(s: string, q: char): string {
    if s == [] then "" else Escape(s[..|s| - 1], q) + EscapeChar(s[|s| - 1], q)
  }

  /** `repr(s)` for a string: double quotes when it holds a single quote and no double quote, else single quotes. */
  function QuoteStr(s: string): string {
    var q := if '\'' in s && '"' !in s then '"' else '\'';
    [q] + Escape(s, q) + [q]
  }

  /** `repr(v)`: what Python writes for a value nested in a list or dict. */
  function PyRepr(v: Value): string
    decreases v, 0
  {
    match v
    case Null => "None"
    case Bool(b) => if b then "True" else "False"
    case Int(i) => IntText(i)
    case Str(s) => QuoteStr(s)
    case Arr(items) =>
      "[" + Join(seq(|items|, k requires 0 <= k < |items| => PyRepr(items[k])), ", ") + "]"
    case Obj(fields) =>
      "{" + Join(seq(|fields|, k requires 0 <= k < |fields| =>
                       QuoteStr(fields[k].0) + ": " + PyRepr(fields[k].1)), ", ") + "}"
  }

  /** `str(v)`: a string is its own text; any other value is written as `repr` writes it. */
  function PyStr(v: Value): (s: string)
    ensures v.Str? ==> s == v.s
    ensures v.Null? ==> s == "None"
    ensures v.Int? ==> s == IntText(v.i)
  {
    if v.Str? then v.s else PyRepr(v)
  }

  // ---------------------------------------------------------------------------------------------
  // `str.title()` over the ASCII and basic Cyrillic letters

  /** Upper-case letters: A-Z and the basic Cyrillic capitals U+0400..U+042F. */
  predicate IsUpper(c: char) {
    'A' <= c <= 'Z' || 'Ѐ' <= c <= 'Я'
  }

  /** Lower-case letters: a-z and the basic Cyrillic small letters U+0430..U+045F. */
  predicate IsLower(c: char) {
    'a' <= c <= 'z' || 'а' <= c <= 'џ'
  }

  predicate IsCased(c: char) {
    IsUpper(c) || IsLower(c)
  }

  function ToUpper(c: char): (u: char)
    ensures IsCased(c) ==> IsUpper(u)
    ensures !IsLower(c) ==> u == c
  {
    if 'a' <= c <= 'z' then (c as int - 32) as char
    else if 'а' <= c <= 'я' then (c as int - 0x20) as char
    else if 'ѐ' <= c <= 'џ' then (c as int - 0x50) as char
    else c
  }

  function ToLower(c: char): (l: char)
    ensures IsCased(c) ==> IsLower(l)
    ensures !IsUpper(c) ==> l == c
  {
    if 'A' <= c <= 'Z' then (c as int + 32) as char
    else if 'А' <= c <= 'Я' then (c as int + 0x20) as char
    else if 'Ѐ' <= c <= 'Џ' then (c as int + 0x50) as char
    else c
  }

  /** The character `str.title()` makes of `c`, given whether the character before it was cased. */
  function TitleChar(c: char, prevCased: bool): char {
    if !IsCased(c) then c else if prevCased then ToLower(c) else ToUpper(c)
  }

  /**
   * `str.title()` as a scan: a cased character following a cased character is lower-cased,
   * any other cased character is upper-cased, uncased characters are kept; `prevCased` says
   * whether the character before `s` was cased.
   */
  function TitleFrom(s: string, prevCased: bool): (t: string)
    ensures |t| == |s|
    ensures forall k :: 0 <= k < |s| ==> IsCased(t[k]) == IsCased(s[k])
  {
    if s == [] then []
    else
      [TitleChar(s[0], prevCased)] + TitleFrom(s[1..], IsCased(s[0]))
  }

  /** `str.title()`: the same number of characters, letters where `s` has letters. */
  function Title(s: string): (t: string)
    ensures |t| == |s|
    ensures forall k :: 0 <= k < |s| ==> IsCased(t[k]) == IsCased(s[k])
  {
    TitleFrom(s, false)
  }

  /** The character `Title(s)` puts at position k, stated without the scan. */
  function TitleCharAt(s: string, k: nat): char
    requires k < |s|
  {
    if !IsCased(s[k]) then s[k]
    else if k > 0 && IsCased(s[k - 1]) then ToLower(s[k])
    else ToUpper(s[k])
  }

  lemma {:induction false} TitleFromAt(s: string, prevCased: bool, k: nat)
    requires k < |s|
    ensures TitleFrom(s, prevCased)[k] == TitleChar(s[k], if k == 0 then prevCased else IsCased(s[k - 1]))
  {
    if k > 0 {
      TitleFromAt(s[1..], IsCased(s[0]), k - 1);
      assert TitleFrom(s, prevCased)[k] == TitleFrom(s[1..], IsCased(s[0]))[k - 1];
      assert s[1..][k - 1] == s[k];
      assert k > 1 ==> s[1..][k - 2] == s[k - 1];
    }
  }

  /**
   * `str.title()` keeps the length and, at every position, upper-cases the first letter of
   * each run of cased characters and lower-cases the rest.
   */
  lemma TitleSpec(s: string)
    ensures |Title(s)| == |s|
    ensures forall k :: 0 <= k < |s| ==> Title(s)[k] == TitleCharAt(s, k)
  {
    forall k | 0 <= k < |s|
      ensures Title(s)[k] == TitleCharAt(s, k)
    {
      TitleFromAt(s, false, k);
    }
  }

  /** Title-casing an already title-cased string changes nothing. */
  lemma TitleIdempotent(s: string)
    ensures Title(Title(s)) == Title(s)
  {
    var t := Title(s);
    TitleSpec(s);
    TitleSpec(t);
    forall k | 0 <= k < |t|
      ensures Title(t)[k] == t[k]
    {
      assert IsCased(t[k]) == IsCased(s[k]);
      if k > 0 {
        assert IsCased(t[k - 1]) == IsCased(s[k - 1]);
      }
    }
  }
}
