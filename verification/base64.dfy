/**
  The browser's `btoa` and `atob`: the base64 encoding of section 4 of RFC 4648
  over "binary strings" (strings whose characters all have codes below 256),
  and the WHATWG forgiving-base64 decoding that `atob` performs.
*/
module Base64 {
  import opened Wrappers
  import Text

  type byte = x: int | 0 <= x < 256
  type sextet = x: int | 0 <= x < 64

  /** The base64 alphabet, table 1 of RFC 4648. */
  function Letter(v: sextet): char {
    if v < 26 then ('A' as int + v) as char
    else if v < 52 then ('a' as int + (v - 26)) as char
    else if v < 62 then ('0' as int + (v - 52)) as char
    else if v == 62 then '+'
    else '/'
  }

  predicate InAlphabet(c: char) {
    'A' <= c <= 'Z' || 'a' <= c <= 'z' || '0' <= c <= '9' || c == '+' || c == '/'
  }

  function ValueOf(c: char): (v: sextet)
    requires InAlphabet(c)
    ensures Letter(v) == c
  {
    if 'A' <= c <= 'Z' then c as int - 'A' as int
    else if 'a' <= c <= 'z' then c as int - 'a' as int + 26
    else if '0' <= c <= '9' then c as int - '0' as int + 52
    else if c == '+' then 62
    else 63
  }

  lemma ValueOfLetter(v: sextet)
    ensures InAlphabet(Letter(v)) && ValueOf(Letter(v)) == v
  {
  }

  /** The binary string whose character codes are `b`. */
  function Binary(b: seq<byte>): (r: string)
    ensures |r| == |b|
    ensures forall i :: 0 <= i < |b| ==> r[i] as int == b[i]
  {
    seq(|b|, i requires 0 <= i < |b| => b[i] as char)
  }

  predicate IsBinary(s: string) {
    forall i :: 0 <= i < |s| ==> s[i] as int < 256
  }

  /** The character codes of a binary string. */
  function Codes(s: string): (b: seq<byte>)
    requires IsBinary(s)
    ensures |b| == |s|
    ensures forall i :: 0 <= i < |s| ==> b[i] == s[i] as int
  {
    seq(|s|, i requires 0 <= i < |s| => s[i] as int)
  }

  /**
    The 6-bit groups of `b`, most significant bits first; a final group of one
    or two bytes is padded with zero bits to two or three letters (the
    "final quantum" cases of section 4 of RFC 4648).
  */
  function Sextets(b: seq<byte>): (r: seq<sextet>)
    ensures |r| == 4 * (|b| / 3) + (if |b| % 3 == 0 then 0 else |b| % 3 + 1)
    decreases |b|
  {
    if |b| == 0 then []
    else if |b| == 1 then [b[0] / 4, (b[0] % 4) * 16]
    else if |b| == 2 then [b[0] / 4, (b[0] % 4) * 16 + b[1] / 16, (b[1] % 16) * 4]
    else Group(b[0], b[1], b[2]) + Sextets(b[3..])
  }

  /** Three bytes as four 6-bit groups. */
  function Group(b0: byte, b1: byte, b2: byte): seq<sextet> {
    [b0 / 4, (b0 % 4) * 16 + b1 / 16, (b1 % 16) * 4 + b2 / 64, b2 % 64]
  }

  lemma GroupRoundTrip(b0: byte, b1: byte, b2: byte)
    ensures var g := Group(b0, b1, b2);
      FirstByte(g[0], g[1]) == b0 && SecondByte(g[1], g[2]) == b1 && ThirdByte(g[2], g[3]) == b2
  {
  }

  function Letters(v: seq<sextet>): (r: string)
    ensures |r| == |v|
    ensures forall i :: 0 <= i < |v| ==> r[i] == Letter(v[i])
  {
    seq(|v|, i requires 0 <= i < |v| => Letter(v[i]))
  }

  /** The `=` characters that pad the output to a multiple of four. */
  function Padding(n: nat): string {
    if n % 3 == 1 then "==" else if n % 3 == 2 then "=" else ""
  }

  /** The base64 encoding of `b` (section 4 of RFC 4648, with padding). */
  function Encode(b: seq<byte>): (r: string)
    ensures |r| == 4 * ((|b| + 2) / 3)
    ensures forall i :: 0 <= i < |r| ==> InAlphabet(r[i]) || r[i] == '='
  {
    Letters(Sextets(b)) + Padding(|b|)
  }

  /** `btoa`: fails (throws) on a character code above 255. */
  function Btoa(binary: string): (r: Option<string>)
    ensures r.Some? <==> IsBinary(binary)
  {
    if IsBinary(binary) then Some(Encode(Codes(binary))) else None
  }

  /** The first byte of a group: six bits of the first letter, two of the second. */
  function FirstByte(v0: sextet, v1: sextet): byte {
    (v0 as int) * 4 + (v1 as int) / 16
  }

  /** The second byte of a group: four bits of the second letter, four of the third. */
  function SecondByte(v1: sextet, v2: sextet): byte {
    ((v1 as int) % 16) * 16 + (v2 as int) / 4
  }

  /** The third byte of a group: two bits of the third letter, six of the fourth. */
  function ThirdByte(v2: sextet, v3: sextet): byte {
    ((v2 as int) % 4) * 64 + v3 as int
  }

  /** The letters' 6-bit values reassembled into bytes; the bits of a partial final byte are dropped. */
  function DecodeSextets(v: seq<sextet>): seq<byte>
    requires |v| % 4 != 1
  {
    if |v| == 0 then []
    else if |v| == 2 then [FirstByte(v[0], v[1])]
    else if |v| == 3 then [FirstByte(v[0], v[1]), SecondByte(v[1], v[2])]
    else [FirstByte(v[0], v[1]), SecondByte(v[1], v[2]), ThirdByte(v[2], v[3])] + DecodeSextets(v[4..])
  }

  /** ASCII white space as the Infra standard defines it. */
  predicate IsAsciiWhitespace(c: char) {
    c == '\t' || c == '\n' || c == '\U{000C}' || c == '\r' || c == ' '
  }

  /** One or two trailing `=` removed. */
  function StripPadding(d: string): (r: string)
    ensures |r| <= |d|
  {
    if |d| >= 2 && d[|d| - 2] == '=' && d[|d| - 1] == '=' then d[..|d| - 2]
    else if |d| >= 1 && d[|d| - 1] == '=' then d[..|d| - 1]
    else d
  }

  function Values(e: string): (v: seq<sextet>)
    requires forall i :: 0 <= i < |e| ==> InAlphabet(e[i])
    ensures |v| == |e|
    ensures forall i :: 0 <= i < |e| ==> v[i] == ValueOf(e[i])
  {
    seq(|e|, i requires 0 <= i < |e| => ValueOf(e[i]))
  }

  /**
    `atob`, that is the forgiving-base64 decode of the WHATWG Infra standard:
    ASCII white space is ignored, padding is optional, and the result is a
    binary string; `None` stands for the exception it throws.
  */
  function Atob(data: string): (r: Option<string>)
    ensures r.Some? ==> IsBinary(r.value)
  {
    var d := Text.Erase(data, IsAsciiWhitespace);
    var e := if |d| % 4 == 0 then StripPadding(d) else d;
    if |e| % 4 == 1 || !(forall i :: 0 <= i < |e| ==> InAlphabet(e[i])) then None
    else Some(Binary(DecodeSextets(Values(e))))
  }

  /** Decoding the 6-bit groups of the encoding gives back every byte. */
  lemma {:induction false} DecodeSextetsOfSextets(b: seq<byte>)
    ensures DecodeSextets(Sextets(b)) == b
    decreases |b|
  {
    if |b| >= 3 {
      var rest := Sextets(b[3..]);
      assert Sextets(b) == Group(b[0], b[1], b[2]) + rest;
      DecodeGroup(b[0], b[1], b[2], rest);
      DecodeSextetsOfSextets(b[3..]);
      assert b == [b[0], b[1], b[2]] + b[3..];
    } else if |b| == 2 {
      DecodeFinalTwo(b[0], b[1]);
      assert [b[0], b[1]] == b;
    } else if |b| == 1 {
      DecodeFinalOne(b[0]);
      assert [b[0]] == b;
    }
  }

  /** A full group decodes to its three bytes, whatever follows it. */
  lemma DecodeGroup(b0: byte, b1: byte, b2: byte, rest: seq<sextet>)
    requires |rest| % 4 != 1
    ensures DecodeSextets(Group(b0, b1, b2) + rest) == [b0, b1, b2] + DecodeSextets(rest)
  {
    var v := Group(b0, b1, b2) + rest;
    assert v[4..] == rest;
    GroupRoundTrip(b0, b1, b2);
  }

  /** A final quantum of two bytes (three letters) decodes to those bytes. */
  lemma DecodeFinalTwo(b0: byte, b1: byte)
    ensures DecodeSextets([b0 / 4, (b0 % 4) * 16 + b1 / 16, (b1 % 16) * 4]) == [b0, b1]
  {
    assert FirstByte(b0 / 4, (b0 % 4) * 16 + b1 / 16) == b0;
    assert SecondByte((b0 % 4) * 16 + b1 / 16, (b1 % 16) * 4) == b1;
  }

  /** A final quantum of one byte (two letters) decodes to that byte. */
  lemma DecodeFinalOne(b0: byte)
    ensures DecodeSextets([b0 / 4, (b0 % 4) * 16]) == [b0]
  {
    assert FirstByte(b0 / 4, (b0 % 4) * 16) == b0;
  }

  lemma LettersAreNotPadding(v: seq<sextet>)
    ensures forall i :: 0 <= i < |v| ==> Letters(v)[i] != '=' && InAlphabet(Letters(v)[i])
    ensures Values(Letters(v)) == v
  {
    forall i | 0 <= i < |v| ensures Letters(v)[i] != '=' && InAlphabet(Letters(v)[i]) {
      ValueOfLetter(v[i]);
    }
  }

  /** The encoding is a whole number of quanta; the letters never leave a lone sextet. */
  lemma EncodeLengths(b: seq<byte>)
    ensures |Encode(b)| % 4 == 0 && |Sextets(b)| % 4 != 1
  {
    QuantumLengths(|b|);
  }

  lemma QuantumLengths(n: nat)
    ensures (4 * ((n + 2) / 3)) % 4 == 0
    ensures (4 * (n / 3) + (if n % 3 == 0 then 0 else n % 3 + 1)) % 4 != 1
  {
    var q, r, k := n / 3, n % 3, (n + 2) / 3;
    assert (4 * k) % 4 == 0;
    if r == 0 {
      assert (4 * q) % 4 == 0;
    } else {
      assert (4 * q + (r + 1)) % 4 == r + 1;
    }
  }

  /** The encoding holds no white space. */
  lemma EncodeHasNoWhitespace(b: seq<byte>)
    ensures Text.Erase(Encode(b), IsAsciiWhitespace) == Encode(b)
  {
    Text.EraseNothing(Encode(b), IsAsciiWhitespace);
  }

  /** Only the padding comes off an encoding before its letters are decoded. */
  lemma StripPaddingOfEncode(b: seq<byte>)
    ensures StripPadding(Encode(b)) == Letters(Sextets(b))
  {
    var l := Letters(Sextets(b));
    var enc := Encode(b);
    LettersAreNotPadding(Sextets(b));
    if |b| % 3 == 1 {
      assert enc[..|enc| - 2] == l;
    } else if |b| % 3 == 2 {
      assert enc[..|enc| - 1] == l;
    } else {
      assert enc == l;
    }
  }

  /** `atob` undoes `btoa`: base64 round trip on bytes. */
  lemma AtobEncode(b: seq<byte>)
    ensures Atob(Encode(b)) == Some(Binary(b))
  {
    EncodeHasNoWhitespace(b);
    EncodeLengths(b);
    StripPaddingOfEncode(b);
    LettersAreNotPadding(Sextets(b));
    AtobOfClean(Encode(b), Sextets(b));
    DecodeSextetsOfSextets(b);
  }

  /** `atob` of a padded string without white space whose letters spell `v`. */
  lemma AtobOfClean(d: string, v: seq<sextet>)
    requires Text.Erase(d, IsAsciiWhitespace) == d && |d| % 4 == 0
    requires StripPadding(d) == Letters(v) && |v| % 4 != 1
    requires forall i :: 0 <= i < |v| ==> InAlphabet(Letters(v)[i])
    requires Values(Letters(v)) == v
    ensures Atob(d) == Some(Binary(DecodeSextets(v)))
  {
  }

  /** `atob(btoa(x)) == x` for every binary string `x`. */
  lemma AtobBtoa(binary: string)
    requires IsBinary(binary)
    ensures Btoa(binary).Some? && Atob(Btoa(binary).value) == Some(binary)
  {
    AtobEncode(Codes(binary));
    assert Binary(Codes(binary)) == binary;
  }
}
