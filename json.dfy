/**
  Decoded JSON values as Python's json module hands them over (dicts keep
  their key order), with the Python operations the scripts apply to them:
  truthiness, dict.get, hashability, int() and str().
*/
module Json {
  import opened Wrappers
  import opened Dicts
  import opened PyText

  /** A JSON value; an object is its ordered list of (key, value) pairs. */
  datatype Value =
    | Null
    | Bool(b: bool)
    | Int(i: int)
    | Str(s: string)
    | Arr(items: seq<Value>)
    | Obj(fields: seq<(string, Value)>)

  /** Python truthiness (`if v:`). */
  predicate Truthy(v: Value)
  {
    match v
    case Null => false
    case Bool(b) => b
    case Int(i) => i != 0
    case Str(s) => s != ""
    case Arr(items) => items != []
    case Obj(fields) => fields != []
  }

  /** Lists and dicts cannot be dict keys or set members (TypeError). */
  predicate Hashable(v: Value)
  {
    !v.Arr? && !v.Obj?
  }

  /** d.get(key): a missing key reads as None. */
  function Get(fields: seq<(string, Value)>, key: string): (r: Value)
    ensures r != Null ==> (key, r) in fields
  {
    Lookup(fields, key).GetOr(Null)
  }

  /** The number a bool or int stands for in comparisons (True == 1). */
  function NumberOf(v: Value): Option<int>
  {
    match v
    case Int(i) => Some(i)
    case Bool(b) => Some(if b then 1 else 0)
    case _ => None
  }

  /** a == b for hashable values, as dict keys and set members compare:
      None equals None, numbers (bools included) by value, strings by content. */
  predicate PyEq(a: Value, b: Value)
  {
    (a.Null? && b.Null?)
    || (NumberOf(a).Some? && NumberOf(a) == NumberOf(b))
    || (a.Str? && b.Str? && a.s == b.s)
  }

  lemma PyEqEquivalence(a: Value, b: Value, c: Value)
    ensures Hashable(a) ==> PyEq(a, a)
    ensures PyEq(a, b) ==> PyEq(b, a)
    ensures PyEq(a, b) && PyEq(b, c) ==> PyEq(a, c)
  {
  }

  /** int(v); None stands for the ValueError or TypeError it raises.
      JSON floats are not part of this model. */
  function PyInt(v: Value): Option<int>
  {
    match v
    case Int(i) => Some(i)
    case Bool(b) => Some(if b then 1 else 0)
    case Str(s) => ParseInt(s)
    case _ => None
  }

  // ---------------------------------------------------------------- str() and repr()

  /** str.isprintable() for one character, exact for code points below 256;
      higher code points are taken as printable. */
  predicate Printable(c: char)
  {
    !(c < ' ' || ('\U{7f}' <= c <= '\U{a0}') || c == '\U{ad}')
  }

  function HexDigit(n: nat): char
    requires n < 16
  {
    if n < 10 then DigitChar(n) else ('a' as int + n - 10) as char
  }

  /** How repr() writes one character of a string quoted with q. */
  function EscapeChar(c: char, q: char): string
  {
    if c == q || c == '\\' then ['\\', c]
    else if c == '\t' then "\\t"
    else if c == '\n' then "\\n"
    else if c == '\r' then "\\r"
    else if !Printable(c) then "\\x" + [HexDigit(c as int / 16), HexDigit(c as int % 16)]
    else [c]
  }

  function EscapeAll(s: string, q: char): string
  {
    if |s| == 0 then "" else EscapeChar(s[0], q) + EscapeAll(s[1..], q)
  }

  /** repr() quotes with ' unless the string holds a ' and no ". */
  function QuoteFor(s: string): char
  {
    if '\'' in s && '"' !in s then '"' else '\''
  }

  /** repr(s) for a string. */
  function ReprString(s: string): string
  {
    var q := QuoteFor(s);
    [q] + EscapeAll(s, q) + [q]
  }

  /** repr(v) */
  function Repr(v: Value): string
  {
    match v
    case Null => "None"
    case Bool(b) => if b then "True" else "False"
    case Int(i) => Decimal(i)
    case Str(s) => ReprString(s)
    case Arr(items) =>
      "[" + Join(", ", seq(|items|, k requires 0 <= k < |items| => Repr(items[k]))) + "]"
    case Obj(fields) =>
      "{" + Join(", ", seq(|fields|, k requires 0 <= k < |fields| =>
        ReprString(fields[k].0) + ": " + Repr(fields[k].1))) + "}"
  }

  /** str(v): a string is itself, everything else is its repr. */
  function PyStr(v: Value): string
  {
    if v.Str? then v.s else Repr(v)
  }

  /** A character repr() copies unchanged whichever quote it picks. */
  predicate Plain(c: char)
  {
    Printable(c) && c != '\'' && c != '"' && c != '\\'
  }

  lemma {:induction false} EscapePlain(s: string, q: char)
    requires q == '\'' || q == '"'
    requires forall i :: 0 <= i < |s| ==> Plain(s[i])
    ensures EscapeAll(s, q) == s
  {
    if |s| > 0 {
      EscapePlain(s[1..], q);
      assert s == [s[0]] + s[1..];
    }
  }

  /** repr() of a string of plain characters is the string in single quotes. */
  lemma ReprPlainString(s: string)
    requires forall i :: 0 <= i < |s| ==> Plain(s[i])
    ensures ReprString(s) == "'" + s + "'"
  {
    assert '\'' !in s;
    EscapePlain(s, '\'');
  }
}
