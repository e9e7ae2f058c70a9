/**
 * The few pieces of Python's string handling the scripts rely on:
 * `str.split(c)`, `str.strip(chars)`, `str.replace(a, b)` for single
 * characters, and `int(text)` for decimal integers.
 */
module Text {
  import opened Wrappers

  /** Python's `sep.join(parts)`. */
  function Join(parts: seq<string>, sep: char): string
  {
    if |parts| == 0 then ""
    else if |parts| == 1 then parts[0]
    else parts[0] + [sep] + Join(parts[1..], sep)
  }

  /** Python's `s.split(sep)` for a one-character separator; empty parts are kept. */
  function Split(s: string, sep: char): (parts: seq<string>)
    ensures |parts| >= 1
    decreases |s|
  {
    if s == [] then [""]
    else
      var rest := Split(s[1..], sep);
      if s[0] == sep then [""] + rest
      else [[s[0]] + rest[0]] + rest[1..]
  }

  /** No part holds the separator, and joining the parts gives `s` back. */
  lemma {:induction false} SplitParts(s: string, sep: char)
    ensures forall i :: 0 <= i < |Split(s, sep)| ==> sep !in Split(s, sep)[i]
    ensures Join(Split(s, sep), sep) == s
    decreases |s|
  {
    if s != [] {
      SplitParts(s[1..], sep);
      var rest := Split(s[1..], sep);
      var parts := Split(s, sep);
      if s[0] == sep {
        assert parts[1..] == rest;
      } else {
        assert parts[1..] == rest[1..];
        assert Join(parts, sep) == [s[0]] + Join(rest, sep);
        assert forall i :: 1 <= i < |parts| ==> parts[i] == rest[i];
      }
    }
  }

  lemma {:induction false} SplitNoSeparator(a: string, sep: char)
    requires sep !in a
    ensures Split(a, sep) == [a]
    decreases |a|
  {
    if a != [] {
      SplitNoSeparator(a[1..], sep);
      assert [a[0]] + a[1..] == a;
    }
  }

  /** Splitting at the first separator. */
  lemma {:induction false} SplitAtFirst(a: string, sep: char, b: string)
    requires sep !in a
    ensures Split(a + [sep] + b, sep) == [a] + Split(b, sep)
    decreases |a|
  {
    var s := a + [sep] + b;
    if a == [] {
      assert s[1..] == b;
    } else {
      assert s[1..] == a[1..] + [sep] + b;
      SplitAtFirst(a[1..], sep, b);
      var rest := Split(s[1..], sep);
      assert rest == [a[1..]] + Split(b, sep);
      assert [s[0]] + rest[0] == a;
    }
  }

  /** `Split` inverts `Join` on parts that hold no separator. */
  lemma {:induction false} SplitJoin(parts: seq<string>, sep: char)
    requires |parts| >= 1
    requires forall i :: 0 <= i < |parts| ==> sep !in parts[i]
    ensures Split(Join(parts, sep), sep) == parts
    decreases |parts|
  {
    if |parts| == 1 {
      SplitNoSeparator(parts[0], sep);
    } else {
      SplitJoin(parts[1..], sep);
      SplitAtFirst(parts[0], sep, Join(parts[1..], sep));
    }
  }

  /** Joining one more part appends the separator and the part. */
  lemma {:induction false} JoinAppend(parts: seq<string>, sep: char, y: string)
    requires |parts| >= 1
    ensures Join(parts + [y], sep) == Join(parts, sep) + [sep] + y
    decreases |parts|
  {
    if |parts| > 1 {
      JoinAppend(parts[1..], sep, y);
      assert (parts + [y])[1..] == parts[1..] + [y];
    } else {
      assert (parts + [y])[1..] == [y];
    }
  }

  /** The last part of `x + [sep] + y` is `y` when `y` holds no separator. */
  lemma SplitLast(x: string, sep: char, y: string)
    requires sep !in y
    ensures var parts := Split(x + [sep] + y, sep); parts[|parts| - 1] == y
  {
    var ps := Split(x, sep);
    SplitParts(x, sep);
    JoinAppend(ps, sep, y);
    SplitJoin(ps + [y], sep);
  }

  lemma SplitTwo(x: string, y: string, sep: char)
    requires sep !in x && sep !in y
    ensures Split(x + [sep] + y, sep) == [x, y]
  {
    SplitAtFirst(x, sep, y);
    SplitNoSeparator(y, sep);
  }

  lemma SplitThree(x: string, y: string, z: string, sep: char)
    requires sep !in x && sep !in y && sep !in z
    ensures Split(x + [sep] + y + [sep] + z, sep) == [x, y, z]
  {
    assert x + [sep] + y + [sep] + z == x + [sep] + (y + [sep] + z);
    SplitAtFirst(x, sep, y + [sep] + z);
    SplitTwo(y, z, sep);
  }

  /** Drops the leading characters that belong to `cs`. */
  function TrimStart(s: string, cs: set<char>): (r: string)
    ensures |r| <= |s|
    decreases |s|
  {
    if |s| > 0 && s[0] in cs then TrimStart(s[1..], cs) else s
  }

  /** Drops the trailing characters that belong to `cs`. */
  function TrimEnd(s: string, cs: set<char>): (r: string)
    ensures |r| <= |s|
    decreases |s|
  {
    if |s| > 0 && s[|s| - 1] in cs then TrimEnd(s[..|s| - 1], cs) else s
  }

  /** Python's `s.strip(chars)`. */
  function Strip(s: string, cs: set<char>): string
  {
    TrimEnd(TrimStart(s, cs), cs)
  }

  /** `TrimStart` removes a prefix made of `cs` and stops at the first other character. */
  lemma {:induction false} TrimStartRemovesPrefix(s: string, cs: set<char>)
    ensures var r := TrimStart(s, cs);
      && r == s[|s| - |r|..]
      && (r == [] || r[0] !in cs)
      && forall i :: 0 <= i < |s| - |r| ==> s[i] in cs
    decreases |s|
  {
    if |s| > 0 && s[0] in cs {
      TrimStartRemovesPrefix(s[1..], cs);
    }
  }

  /** `TrimEnd` removes a suffix made of `cs` and stops at the last other character. */
  lemma {:induction false} TrimEndRemovesSuffix(s: string, cs: set<char>)
    ensures var r := TrimEnd(s, cs);
      && r == s[..|r|]
      && (r == [] || r[|r| - 1] !in cs)
      && forall i :: |r| <= i < |s| ==> s[i] in cs
    decreases |s|
  {
    if |s| > 0 && s[|s| - 1] in cs {
      TrimEndRemovesSuffix(s[..|s| - 1], cs);
    }
  }

  /** A stripped string neither starts nor ends with a character of `cs`. */
  lemma StripEnds(s: string, cs: set<char>)
    ensures var r := Strip(s, cs); r == [] || (r[0] !in cs && r[|r| - 1] !in cs)
  {
    var t := TrimStart(s, cs);
    TrimStartRemovesPrefix(s, cs);
    TrimEndRemovesSuffix(t, cs);
  }

  /** Stripping leaves a string that starts and ends outside `cs` as it is. */
  lemma StripNothing(s: string, cs: set<char>)
    requires s == [] || (s[0] !in cs && s[|s| - 1] !in cs)
    ensures Strip(s, cs) == s
  {
  }

  /** Stripping `c` from a line that ends in one `c` and holds no other. */
  lemma StripTrailing(body: string, c: char)
    requires c !in body
    ensures Strip(body + [c], {c}) == body
  {
    var line := body + [c];
    if body == [] {
      assert TrimStart(line, {c}) == [];
    } else {
      assert line[0] == body[0];
      assert TrimStart(line, {c}) == line;
      assert line[..|line| - 1] == body;
      assert TrimEnd(body, {c}) == body;
    }
  }

  /** Python's `s.replace(from, to)` for single characters. */
  function ReplaceChar(s: string, from: char, to: char): string
    decreases |s|
  {
    if s == [] then []
    else [if s[0] == from then to else s[0]] + ReplaceChar(s[1..], from, to)
  }

  /** Every `from` is replaced by `to` and every other character is kept, in place. */
  lemma {:induction false} ReplaceCharMeaning(s: string, from: char, to: char)
    ensures |ReplaceChar(s, from, to)| == |s|
    ensures forall i :: 0 <= i < |s| ==> ReplaceChar(s, from, to)[i] == (if s[i] == from then to else s[i])
    ensures from != to ==> from !in ReplaceChar(s, from, to)
    decreases |s|
  {
    if s != [] {
      ReplaceCharMeaning(s[1..], from, to);
      var r := ReplaceChar(s, from, to);
      assert forall i :: 1 <= i < |s| ==> r[i] == ReplaceChar(s[1..], from, to)[i - 1];
    }
  }

  /**
   * The ASCII characters `str.isspace()` accepts, which `int()` strips:
   * tab, line feed, vertical tab, form feed, carriage return, the four
   * information separators 0x1C-0x1F, and space.
   */
  const Whitespace: set<char> :=
    {' ', '\t', '\n', '\r', '\U{000B}', '\U{000C}', '\U{001C}', '\U{001D}', '\U{001E}', '\U{001F}'}

  predicate IsDigit(c: char)
  {
    '0' <= c <= '9'
  }

  predicate AllDigits(s: string)
  {
    forall i :: 0 <= i < |s| ==> IsDigit(s[i])
  }

  /**
   * The value of a string of decimal digits, most significant first, or
   * `None` when some character is not a digit.
   */
  function DigitsOf(s: string): Option<nat>
    decreases |s|
  {
    if s == [] then Some(0)
    else if !IsDigit(s[|s| - 1]) then None
    else
      match DigitsOf(s[..|s| - 1])
      case None => None
      case Some(high) => Some(high * 10 + (s[|s| - 1] as int - '0' as int))
  }

  /** A string has a value exactly when all its characters are digits. */
  lemma {:induction false} DigitsOfMeaning(s: string)
    ensures DigitsOf(s).Some? <==> AllDigits(s)
    decreases |s|
  {
    if s != [] {
      var init := s[..|s| - 1];
      DigitsOfMeaning(init);
      assert forall i :: 0 <= i < |init| ==> init[i] == s[i];
    }
  }

  /**
   * Python's `int(text)` in base 10: surrounding white space is ignored,
   * one optional sign, then one or more decimal digits; anything else
   * raises `ValueError` (here `None`).
   */
  function ParseInt(text: string): Option<int>
  {
    ParseSignedDigits(Strip(text, Whitespace))
  }

  /** `int()` on text already stripped of white space. */
  function ParseSignedDigits(t: string): Option<int>
  {
    var negative := |t| > 0 && t[0] == '-';
    var digits := if |t| > 0 && (t[0] == '-' || t[0] == '+') then t[1..] else t;
    if |digits| == 0 then None
    else
      match DigitsOf(digits)
      case None => None
      case Some(magnitude) => Some(if negative then -(magnitude as int) else magnitude as int)
  }

  /** `int()` accepts a stripped text iff it is an optional sign followed by at least one digit. */
  lemma ParseSignedDigitsMeaning(t: string)
    ensures var digits := if |t| > 0 && (t[0] == '-' || t[0] == '+') then t[1..] else t;
      ParseSignedDigits(t).Some? <==> |digits| > 0 && AllDigits(digits)
  {
    var digits := if |t| > 0 && (t[0] == '-' || t[0] == '+') then t[1..] else t;
    DigitsOfMeaning(digits);
  }

  /** The decimal digits of `n` (Python's `str(n)` for a natural number). */
  function Show(n: nat): (s: string)
    ensures |s| >= 1 && AllDigits(s)
    ensures DigitsOf(s) == Some(n)
  {
    if n < 10 then [('0' as int + n) as char]
    else
      var s := Show(n / 10) + [('0' as int + n % 10) as char];
      assert s[..|s| - 1] == Show(n / 10);
      s
  }

  /** Digits are not white space, nor any separator the scripts split on. */
  lemma DigitsHaveNoSeparator(s: string)
    requires AllDigits(s)
    ensures forall i :: 0 <= i < |s| ==> s[i] !in Whitespace
    ensures ' ' !in s && '\n' !in s && ':' !in s && '.' !in s && '_' !in s
  {
  }

  /** `int(str(n)) == n`. */
  lemma ParseIntShow(n: nat)
    ensures ParseInt(Show(n)) == Some(n)
  {
    var s := Show(n);
    DigitsHaveNoSeparator(s);
    StripNothing(s, Whitespace);
    assert IsDigit(s[0]);
  }

  /** `int("-" + str(n)) == -n`. */
  lemma ParseIntShowNegative(n: nat)
    ensures ParseInt("-" + Show(n)) == Some(-(n as int))
  {
    var d := Show(n);
    var s := "-" + d;
    DigitsHaveNoSeparator(d);
    assert s[|s| - 1] == d[|d| - 1];
    StripNothing(s, Whitespace);
    assert s[1..] == d;
  }
}
