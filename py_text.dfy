/**
  The pieces of Python's built-in string behaviour that the scripts rely on:
  str.isspace / str.strip, strip with an explicit character, str.lower,
  str.split with a one-character separator, str.join, str.replace of one
  character, str.startswith / str.endswith, int() on a string, str() on an
  int, substring search and the ordering of strings.
*/
module PyText {
  import opened Wrappers

  /** Python's str.isspace() for one character: the characters whose Unicode
      bidirectional class is WS, B or S, or whose category is Zs. */
  predicate IsSpace(c: char)
  {
    ('\t' <= c <= '\r') || ('\U{1c}' <= c <= ' ') || c == '\U{85}' || c == '\U{a0}'
    || c == '\U{1680}' || ('\U{2000}' <= c <= '\U{200a}') || c == '\U{2028}' || c == '\U{2029}'
    || c == '\U{202f}' || c == '\U{205f}' || c == '\U{3000}'
  }

  predicate IsDigit(c: char) { '0' <= c <= '9' }

  predicate IsAsciiLetter(c: char) { ('a' <= c <= 'z') || ('A' <= c <= 'Z') }

  /** Membership in the regular-expression class [a-zA-Z0-9]. */
  predicate IsAsciiAlnum(c: char) { IsAsciiLetter(c) || IsDigit(c) }

  /** str.lower() on one character, for the ASCII letters. */
  function LowerChar(c: char): char
  {
    if 'A' <= c <= 'Z' then (c as int + 32) as char else c
  }

  function Lower(s: string): string
  {
    seq(|s|, i requires 0 <= i < |s| => LowerChar(s[i]))
  }

  // ---------------------------------------------------------------- strip

  /** Removes the leading characters that satisfy p (lstrip). */
  function StripLeft(s: string, p: char -> bool): string
  {
    if |s| > 0 && p(s[0]) then StripLeft(s[1..], p) else s
  }

  /** Removes the trailing characters that satisfy p (rstrip). */
  function StripRight(s: string, p: char -> bool): string
  {
    if |s| > 0 && p(s[|s| - 1]) then StripRight(s[..|s| - 1], p) else s
  }

  /** lstrip removes a leading run of strippable characters and stops at the first other one. */
  lemma {:induction false} StripLeftShape(s: string, p: char -> bool)
    ensures var r := StripLeft(s, p);
      |r| <= |s| && r == s[|s| - |r|..]
      && (r == [] || !p(r[0]))
      && forall i :: 0 <= i < |s| - |r| ==> p(s[i])
  {
    if |s| > 0 && p(s[0]) {
      StripLeftShape(s[1..], p);
      var r := StripLeft(s, p);
      assert r == StripLeft(s[1..], p);
      assert s[1..][|s| - 1 - |r|..] == s[|s| - |r|..];
      forall i | 0 <= i < |s| - |r| ensures p(s[i]) {
        if i > 0 { assert s[i] == s[1..][i - 1]; }
      }
    }
  }

  /** rstrip removes a trailing run of strippable characters and stops at the last other one. */
  lemma {:induction false} StripRightShape(s: string, p: char -> bool)
    ensures var r := StripRight(s, p);
      |r| <= |s| && r == s[..|r|]
      && (r == [] || !p(r[|r| - 1]))
      && forall i :: |r| <= i < |s| ==> p(s[i])
  {
    if |s| > 0 && p(s[|s| - 1]) {
      var s' := s[..|s| - 1];
      StripRightShape(s', p);
      var r := StripRight(s, p);
      assert r == StripRight(s', p);
      assert s'[..|r|] == s[..|r|];
      forall i | |r| <= i < |s| ensures p(s[i]) {
        if i < |s| - 1 { assert s[i] == s'[i]; }
      }
    }
  }

  function StripWith(s: string, p: char -> bool): string
  {
    StripRight(StripLeft(s, p), p)
  }

  /** s.strip() */
  function Strip(s: string): string
  {
    StripWith(s, IsSpace)
  }

  /** s.strip(c) for a one-character argument. */
  function StripChar(s: string, c: char): string
  {
    StripWith(s, x => x == c)
  }

  /** Stripping leaves neither end strippable and never lengthens the string. */
  lemma StripWithEnds(s: string, p: char -> bool)
    ensures var r := StripWith(s, p);
      |r| <= |s| && (r == [] || (!p(r[0]) && !p(r[|r| - 1])))
  {
    var l := StripLeft(s, p);
    StripLeftShape(s, p);
    var r := StripRight(l, p);
    StripRightShape(l, p);
    if r != [] {
      assert r[0] == l[0];
    }
  }

  /** A string whose ends are not strippable is left unchanged. */
  lemma StripWithFixed(s: string, p: char -> bool)
    requires s == [] || (!p(s[0]) && !p(s[|s| - 1]))
    ensures StripWith(s, p) == s
  {
  }

  lemma StripWithIdempotent(s: string, p: char -> bool)
    ensures StripWith(StripWith(s, p), p) == StripWith(s, p)
  {
    StripWithEnds(s, p);
    StripWithFixed(StripWith(s, p), p);
  }

  // ---------------------------------------------------------------- split / join

  /** s.split(sep) for a one-character separator: always one more piece
      than there are separators, and no piece contains the separator. */
  function Split(s: string, sep: char): (r: seq<string>)
    ensures |r| >= 1
    ensures forall k :: 0 <= k < |r| ==> sep !in r[k]
  {
    if |s| == 0 then [""]
    else
      var rest := Split(s[1..], sep);
      if s[0] == sep then [""] + rest else [[s[0]] + rest[0]] + rest[1..]
  }

  /** sep.join(parts) */
  function Join(sep: string, parts: seq<string>): string
  {
    if |parts| == 0 then ""
    else if |parts| == 1 then parts[0]
    else parts[0] + sep + Join(sep, parts[1..])
  }

  /** Joining the pieces with the separator gives back the string. */
  lemma {:induction false} JoinSplit(s: string, sep: char)
    ensures Join([sep], Split(s, sep)) == s
  {
    if |s| > 0 {
      var rest := Split(s[1..], sep);
      JoinSplit(s[1..], sep);
      if s[0] == sep {
        assert Split(s, sep) == [""] + rest;
        assert s == [sep] + s[1..];
      } else {
        var r := [[s[0]] + rest[0]] + rest[1..];
        assert Split(s, sep) == r;
        if |rest| == 1 {
          assert s == [s[0]] + rest[0];
        } else {
          assert rest == [rest[0]] + rest[1..];
          assert Join([sep], rest) == rest[0] + [sep] + Join([sep], rest[1..]);
          assert r[1..] == rest[1..];
          assert s == [s[0]] + s[1..];
        }
      }
    }
  }

  /** A separator-free prefix is glued onto the first piece. */
  lemma {:induction false} SplitPrefix(a: string, t: string, sep: char)
    requires sep !in a
    ensures Split(a + t, sep) == [a + Split(t, sep)[0]] + Split(t, sep)[1..]
  {
    if |a| > 0 {
      SplitPrefix(a[1..], t, sep);
      var st := Split(t, sep);
      assert (a + t)[1..] == a[1..] + t;
      assert (a + t)[0] == a[0] && a[0] != sep;
      var rest := Split(a[1..] + t, sep);
      assert Split(a + t, sep) == [[a[0]] + rest[0]] + rest[1..];
      assert rest[0] == a[1..] + st[0] && rest[1..] == st[1..];
      assert [a[0]] + (a[1..] + st[0]) == a + st[0];
    } else {
      assert a + t == t;
      assert a + Split(t, sep)[0] == Split(t, sep)[0];
      assert [Split(t, sep)[0]] + Split(t, sep)[1..] == Split(t, sep);
    }
  }

  /** Splitting a join of separator-free pieces gives the pieces back. */
  lemma {:induction false} SplitJoin(parts: seq<string>, sep: char)
    requires |parts| >= 1
    requires forall k :: 0 <= k < |parts| ==> sep !in parts[k]
    ensures Split(Join([sep], parts), sep) == parts
  {
    if |parts| == 1 {
      SplitPrefix(parts[0], "", sep);
      assert Split("", sep) == [""];
      assert parts[0] + "" == parts[0];
    } else {
      var tail := Join([sep], parts[1..]);
      SplitJoin(parts[1..], sep);
      assert Join([sep], parts) == parts[0] + ([sep] + tail);
      SplitPrefix(parts[0], [sep] + tail, sep);
      var t := [sep] + tail;
      assert t[0] == sep && t[1..] == tail;
      assert Split(t, sep) == [""] + Split(tail, sep);
      assert Split(t, sep)[0] == "" && Split(t, sep)[1..] == parts[1..];
      assert parts[0] + "" == parts[0];
      assert parts == [parts[0]] + parts[1..];
    }
  }

  // ---------------------------------------------------------------- other str methods

  /** s.startswith(p) */
  predicate StartsWith(s: string, p: string) { |p| <= |s| && s[..|p|] == p }

  /** s.endswith(p) */
  predicate EndsWith(s: string, p: string) { |p| <= |s| && s[|s| - |p|..] == p }

  /** s.replace(c, r) for a one-character pattern. */
  function Replace(s: string, c: char, r: string): string
  {
    if |s| == 0 then "" else (if s[0] == c then r else [s[0]]) + Replace(s[1..], c, r)
  }

  lemma {:induction false} ReplaceAbsent(s: string, c: char, r: string)
    requires c !in s
    ensures Replace(s, c, r) == s
  {
    if |s| > 0 {
      ReplaceAbsent(s[1..], c, r);
      assert s == [s[0]] + s[1..];
    }
  }

  predicate OccursAt(hay: string, needle: string, i: int)
  {
    0 <= i <= |hay| - |needle| && hay[i..i + |needle|] == needle
  }

  /** `needle in hay` for strings. */
  predicate Contains(hay: string, needle: string)
  {
    exists i :: 0 <= i <= |hay| - |needle| && OccursAt(hay, needle, i)
  }

  // ---------------------------------------------------------------- int(str) and str(int)

  function DigitValue(c: char): nat
    requires IsDigit(c)
  {
    c as int - '0' as int
  }

  predicate DigitsOrUnderscores(d: string)
  {
    forall i :: 0 <= i < |d| ==> IsDigit(d[i]) || d[i] == '_'
  }

  /** The digit part int() accepts: ASCII digits, with single underscores
      allowed between two digits. */
  predicate ValidDigits(d: string)
  {
    && |d| > 0 && IsDigit(d[0]) && IsDigit(d[|d| - 1])
    && DigitsOrUnderscores(d)
    && forall i :: 0 < i < |d| && d[i] == '_' ==> d[i - 1] != '_'
  }

  /** The base-10 value of the digits, underscores ignored. */
  function DigitsValue(d: string): nat
    requires DigitsOrUnderscores(d)
  {
    if |d| == 0 then 0
    else if d[|d| - 1] == '_' then DigitsValue(d[..|d| - 1])
    else 10 * DigitsValue(d[..|d| - 1]) + DigitValue(d[|d| - 1])
  }

  /** int(s) on a string: surrounding whitespace is ignored, one optional sign;
      None stands for the ValueError. */
  function ParseInt(s: string): Option<int>
  {
    var t := Strip(s);
    if |t| > 0 && (t[0] == '-' || t[0] == '+') then
      if ValidDigits(t[1..]) then
        Some(if t[0] == '-' then -(DigitsValue(t[1..]) as int) else DigitsValue(t[1..]))
      else None
    else if ValidDigits(t) then Some(DigitsValue(t))
    else None
  }

  function DigitChar(n: nat): char
    requires n < 10
  {
    ('0' as int + n) as char
  }

  function NatDigits(n: nat): (r: string)
    ensures |r| >= 1
    ensures forall i :: 0 <= i < |r| ==> IsDigit(r[i])
  {
    if n < 10 then [DigitChar(n)] else NatDigits(n / 10) + [DigitChar(n % 10)]
  }

  /** str(n) for an int. */
  function Decimal(n: int): string
  {
    if n < 0 then "-" + NatDigits(-n) else NatDigits(n)
  }

  lemma {:induction false} NatDigitsValue(n: nat)
    ensures DigitsOrUnderscores(NatDigits(n)) && DigitsValue(NatDigits(n)) == n
  {
    var d := NatDigits(n);
    if n >= 10 {
      NatDigitsValue(n / 10);
      assert d[..|d| - 1] == NatDigits(n / 10);
    }
  }

  /** int(str(n)) == n */
  lemma DecimalRoundTrip(n: int)
    ensures ParseInt(Decimal(n)) == Some(n)
  {
    var m: nat := if n < 0 then -n else n;
    var d := NatDigits(m);
    NatDigitsValue(m);
    assert ValidDigits(d);
    var s := Decimal(n);
    assert !IsSpace(s[0]) && !IsSpace(s[|s| - 1]);
    StripWithFixed(s, IsSpace);
    assert Strip(s) == s;
    if n < 0 {
      assert s[0] == '-' && s[1..] == d;
    } else {
      assert s == d && IsDigit(s[0]);
    }
  }

  // ---------------------------------------------------------------- ordering

  /** Python's a < b on strings: code point by code point, a proper prefix first. */
  predicate LexLess(a: string, b: string)
  {
    if |a| == 0 then |b| > 0
    else if |b| == 0 then false
    else if a[0] != b[0] then a[0] < b[0]
    else LexLess(a[1..], b[1..])
  }

  lemma {:induction false} LexLessIrreflexive(a: string)
    ensures !LexLess(a, a)
  {
    if |a| > 0 { LexLessIrreflexive(a[1..]); }
  }

  lemma {:induction false} LexLessTransitive(a: string, b: string, c: string)
    requires LexLess(a, b) && LexLess(b, c)
    ensures LexLess(a, c)
  {
    if |a| > 0 && |b| > 0 && |c| > 0 && a[0] == b[0] == c[0] {
      LexLessTransitive(a[1..], b[1..], c[1..]);
    }
  }

  lemma {:induction false} LexLessTotal(a: string, b: string)
    ensures a == b || LexLess(a, b) || LexLess(b, a)
  {
    if |a| > 0 && |b| > 0 && a[0] == b[0] {
      LexLessTotal(a[1..], b[1..]);
      if a[1..] == b[1..] {
        assert a == [a[0]] + a[1..] && b == [b[0]] + b[1..];
      }
    }
  }

  lemma {:induction false} LexLessAsymmetric(a: string, b: string)
    requires LexLess(a, b)
    ensures !LexLess(b, a)
  {
    if |a| > 0 && |b| > 0 && a[0] == b[0] {
      LexLessAsymmetric(a[1..], b[1..]);
    }
  }
}
