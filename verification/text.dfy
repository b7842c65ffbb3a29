/**
  The JavaScript string operations the scripts rely on: `trim`, the `\s`
  character class, `split` on one character, `join`, `includes`, removing every
  occurrence of some characters, and runs of decimal digits.
*/
module Text {

  /** `value || fallback` on a string: the empty string counts as missing. */
  function OrElse(value: string, fallback: string): (r: string)
    ensures value != "" ==> r == value
    ensures value == "" ==> r == fallback
  {
    if value != "" then value else fallback
  }

  /** The single ECMAScript WhiteSpace and LineTerminator code points. */
  const SpaceChars: set<char> := {
    '\t', '\n', '\U{000B}', '\U{000C}', '\r', ' ', '\U{00A0}', '\U{1680}',
    '\U{2028}', '\U{2029}', '\U{202F}', '\U{205F}', '\U{3000}', '\U{FEFF}'}

  /** What `trim` strips and `\s` matches: those code points and the range U+2000 to U+200A. */
  predicate IsSpace(c: char) {
    c in SpaceChars || ('\U{2000}' <= c <= '\U{200A}')
  }

  predicate IsDigit(c: char) {
    '0' <= c <= '9'
  }

  predicate AllDigits(s: string) {
    forall i :: 0 <= i < |s| ==> IsDigit(s[i])
  }

  /** Neither end of `s` is white space. */
  predicate Trimmed(s: string) {
    s == [] || (!IsSpace(s[0]) && !IsSpace(s[|s| - 1]))
  }

  /** Leading white space removed. */
  function TrimStart(s: string): (r: string)
    ensures |r| <= |s| && r == s[|s| - |r|..]
    ensures r != [] ==> !IsSpace(r[0])
    ensures forall i :: 0 <= i < |s| - |r| ==> IsSpace(s[i])
    decreases |s|
  {
    if s != [] && IsSpace(s[0]) then TrimStart(s[1..]) else s
  }

  /** Trailing white space removed. */
  function TrimEnd(s: string): (r: string)
    ensures |r| <= |s| && r == s[..|r|]
    ensures r != [] ==> !IsSpace(r[|r| - 1])
    ensures forall i :: |r| <= i < |s| ==> IsSpace(s[i])
    decreases |s|
  {
    if s != [] && IsSpace(s[|s| - 1]) then TrimEnd(s[..|s| - 1]) else s
  }

  /** `String.prototype.trim`: the longest infix of `s` with no white space at either end. */
  function Trim(s: string): (r: string)
    ensures Trimmed(r)
    ensures exists i: nat :: SurroundedBySpace(s, i, r)
  {
    var t := TrimStart(s);
    var r := TrimEnd(t);
    ShiftSurrounded(s, |s| - |t|, t, r);
    r
  }

  /** `r` sits at offset `i` of `s`, with only white space before and after it. */
  predicate SurroundedBySpace(s: string, i: nat, r: string) {
    && i + |r| <= |s| && r == s[i..i + |r|]
    && (forall k :: 0 <= k < i ==> IsSpace(s[k]))
    && (forall k :: i + |r| <= k < |s| ==> IsSpace(s[k]))
  }

  /** White space in front of a surrounded infix only moves its offset. */
  lemma ShiftSurrounded(s: string, i: nat, t: string, r: string)
    requires i <= |s| && t == s[i..]
    requires forall k :: 0 <= k < i ==> IsSpace(s[k])
    requires |r| <= |t| && r == t[..|r|]
    requires forall k :: |r| <= k < |t| ==> IsSpace(t[k])
    ensures SurroundedBySpace(s, i, r)
  {
    forall k | i + |r| <= k < |s|
      ensures IsSpace(s[k])
    {
      assert s[k] == t[k - i];
    }
  }

  lemma TrimOfTrimmed(s: string)
    requires Trimmed(s)
    ensures Trim(s) == s
  {
  }

  /** The text a comma-and-space join puts in front of an item comes off again. */
  lemma TrimAfterSpace(s: string)
    requires Trimmed(s)
    ensures Trim([' '] + s) == s
  {
    var t := [' '] + s;
    assert t[0] == ' ';
    assert IsSpace(t[0]);
    assert t[1..] == s;
    assert TrimStart(t) == TrimStart(t[1..]);
    assert TrimStart(s) == s;
    assert TrimEnd(s) == s;
  }

  /** `String.prototype.split` with a one-character separator. */
  function Split(s: string, sep: char): (parts: seq<string>)
    ensures |parts| >= 1
    ensures forall i :: 0 <= i < |parts| ==> sep !in parts[i]
    decreases |s|
  {
    if s == [] then [""]
    else
      var rest := Split(s[1..], sep);
      if s[0] == sep then [""] + rest
      else [[s[0]] + rest[0]] + rest[1..]
  }

  /** `Array.prototype.join`. */
  function Join(parts: seq<string>, sep: string): string
  {
    if parts == [] then ""
    else if |parts| == 1 then parts[0]
    else parts[0] + sep + Join(parts[1..], sep)
  }

  /** Joining the pieces of a split with the separator gives the string back. */
  lemma {:induction false} JoinSplit(s: string, sep: char)
    ensures Join(Split(s, sep), [sep]) == s
    decreases |s|
  {
    if s != [] {
      var rest := Split(s[1..], sep);
      JoinSplit(s[1..], sep);
      if s[0] == sep {
        assert Split(s, sep) == [""] + rest;
        assert s == [sep] + s[1..];
      } else {
        var parts := Split(s, sep);
        assert parts == [[s[0]] + rest[0]] + rest[1..];
        if |rest| == 1 {
          assert s == [s[0]] + rest[0];
        } else {
          assert parts[1..] == rest[1..];
          assert Join(rest, [sep]) == rest[0] + [sep] + Join(rest[1..], [sep]);
          assert s == [s[0]] + s[1..];
        }
      }
    }
  }

  lemma {:induction false} SplitWithoutSeparator(p: string, sep: char)
    requires sep !in p
    ensures Split(p, sep) == [p]
    decreases |p|
  {
    if p != [] {
      SplitWithoutSeparator(p[1..], sep);
      assert [p[0]] + p[1..] == p;
    }
  }

  lemma {:induction false} SplitAtSeparator(p: string, sep: char, t: string)
    requires sep !in p
    ensures Split(p + [sep] + t, sep) == [p] + Split(t, sep)
    decreases |p|
  {
    var s := p + [sep] + t;
    if p == [] {
      assert s[1..] == t;
    } else {
      assert s[1..] == p[1..] + [sep] + t;
      SplitAtSeparator(p[1..], sep, t);
      assert [p[0]] + p[1..] == p;
    }
  }

  /** Splitting a join gives back the pieces, when no piece holds the separator. */
  lemma {:induction false} SplitJoin(parts: seq<string>, sep: char)
    requires |parts| >= 1
    requires forall i :: 0 <= i < |parts| ==> sep !in parts[i]
    ensures Split(Join(parts, [sep]), sep) == parts
  {
    if |parts| == 1 {
      SplitWithoutSeparator(parts[0], sep);
    } else {
      SplitJoin(parts[1..], sep);
      SplitAtSeparator(parts[0], sep, Join(parts[1..], [sep]));
      assert [parts[0]] + parts[1..] == parts;
    }
  }

  /** `String.prototype.includes`. */
  predicate Includes(s: string, t: string) {
    exists i :: 0 <= i <= |s| && t <= s[i..]
  }

  /** Every character for which `drop` holds removed (`replace(/…/g, '')`). */
  function Erase(s: string, drop: char -> bool): (r: string)
    ensures |r| <= |s|
    ensures forall i :: 0 <= i < |r| ==> !drop(r[i])
  {
    if s == [] then []
    else (if drop(s[0]) then [] else [s[0]]) + Erase(s[1..], drop)
  }

  lemma {:induction false} EraseConcat(a: string, b: string, drop: char -> bool)
    ensures Erase(a + b, drop) == Erase(a, drop) + Erase(b, drop)
  {
    if a == [] {
      assert a + b == b;
    } else {
      assert (a + b)[0] == a[0] && (a + b)[1..] == a[1..] + b;
      EraseConcat(a[1..], b, drop);
    }
  }

  lemma {:induction false} EraseNothing(s: string, drop: char -> bool)
    requires forall i :: 0 <= i < |s| ==> !drop(s[i])
    ensures Erase(s, drop) == s
  {
    if s != [] {
      EraseNothing(s[1..], drop);
    }
  }

  /** `replace(a, b)` with a string pattern: only the first occurrence changes. */
  function ReplaceFirst(s: string, a: char, b: char): (r: string)
    ensures |r| == |s|
    ensures a !in s ==> r == s
  {
    if s == [] then []
    else if s[0] == a then [b] + s[1..]
    else [s[0]] + ReplaceFirst(s[1..], a, b)
  }

  /** The longest prefix of `s` made of decimal digits. */
  function LeadingDigits(s: string): (d: string)
    ensures |d| <= |s| && d == s[..|d|]
    ensures AllDigits(d)
    ensures |d| < |s| ==> !IsDigit(s[|d|])
  {
    if s != [] && IsDigit(s[0]) then [s[0]] + LeadingDigits(s[1..]) else []
  }

  /** The leading digits of digits followed by a non-digit are those digits. */
  lemma {:induction false} LeadingDigitsOf(whole: string, rest: string)
    requires AllDigits(whole)
    requires rest != [] ==> !IsDigit(rest[0])
    ensures LeadingDigits(whole + rest) == whole
  {
    if whole != [] {
      LeadingDigitsOf(whole[1..], rest);
      assert (whole + rest)[1..] == whole[1..] + rest;
    } else {
      assert whole + rest == rest;
    }
  }

  /** The number a run of decimal digits spells. */
  function DigitsValue(d: string): nat
    requires AllDigits(d)
  {
    if d == [] then 0 else DigitsValue(d[..|d| - 1]) * 10 + (d[|d| - 1] as int - '0' as int)
  }

  function Pow10(n: nat): (p: nat)
    ensures p >= 1
  {
    if n == 0 then 1 else 10 * Pow10(n - 1)
  }
}
