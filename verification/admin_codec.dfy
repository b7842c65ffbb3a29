/**
  The admin console's text codec (`toBase64` / `fromBase64` in
  scripts/admin.js): text is turned into UTF-8 bytes, the bytes into a binary
  string, the binary string into base64; decoding strips `\n`, runs `atob`,
  copies the character codes into a byte array and decodes UTF-8.
*/
module AdminCodec {
  import opened Wrappers
  import Text
  import opened Base64

  /** `TextEncoder` / `TextDecoder` for UTF-8, kept abstract. */
  datatype TextCodec = TextCodec(encode: string -> seq<byte>, decode: seq<byte> -> string)

  /** U+FEFF, the byte order mark. */
  const ByteOrderMark := '\U{FEFF}'

  /** The text a default `new TextDecoder()` gives back: a leading byte order mark is dropped (its `ignoreBOM` is false). */
  function WithoutBom(s: string): (r: string)
    ensures s != [] && s[0] == ByteOrderMark ==> r == s[1..]
    ensures s == [] || s[0] != ByteOrderMark ==> r == s
  {
    if s != [] && s[0] == ByteOrderMark then s[1..] else s
  }

  /**
    The UTF-8 pair of the console: decoding what was encoded gives the text
    back, less a leading byte order mark, which the default decoder strips.
  */
  ghost predicate RoundTrips(utf8: TextCodec) {
    forall s :: utf8.decode(utf8.encode(s)) == WithoutBom(s)
  }

  predicate IsNewline(c: char) {
    c == '\n'
  }

  /** What a `Uint8Array` element keeps of a character code. */
  function Uint8(c: char): (b: byte)
    ensures c as int < 256 ==> b == c as int
  {
    (c as int) % 256
  }

  /** The base64 text `toBase64` produces. */
  function EncodedText(utf8: TextCodec, text: string): string {
    Encode(utf8.encode(text))
  }

  /** The bytes a `Uint8Array` holds after the character codes of `binary` are stored in it. */
  function Uint8Array(binary: string): (b: seq<byte>)
    ensures |b| == |binary|
    ensures forall i :: 0 <= i < |binary| ==> b[i] == Uint8(binary[i])
  {
    seq(|binary|, i requires 0 <= i < |binary| => Uint8(binary[i]))
  }

  /** `base64.replace(/\n/g, '')`. */
  function WithoutNewlines(base64: string): string {
    Text.Erase(base64, IsNewline)
  }

  /** What `fromBase64` gives back; `None` where `atob` throws. */
  function DecodedText(utf8: TextCodec, base64: string): Option<string> {
    var binary := Atob(WithoutNewlines(base64));
    if binary.None? then None else Some(utf8.decode(Uint8Array(binary.value)))
  }

  /** `toBase64`: the binary string is built one byte at a time, then encoded by `btoa`. */
  method ToBase64(utf8: TextCodec, text: string) returns (encoded: string)
    ensures encoded == EncodedText(utf8, text)
  {
    var bytes := utf8.encode(text);
    var binary := "";
    for i := 0 to |bytes|
      invariant |binary| == i
      invariant forall k :: 0 <= k < i ==> binary[k] as int == bytes[k]
    {
      binary := binary + [bytes[i] as char];
    }
    var r := Btoa(binary);
    assert Codes(binary) == bytes;
    encoded := r.value;
  }

  /** `fromBase64`: newlines removed, `atob`, then the codes copied into a byte array and decoded. */
  method FromBase64(utf8: TextCodec, base64: string) returns (text: Option<string>)
    ensures text == DecodedText(utf8, base64)
  {
    var clean := WithoutNewlines(base64);
    var decoded := Atob(clean);
    if decoded.None? {
      return None;
    }
    var bytes := StoreCodes(decoded.value);
    text := Some(utf8.decode(bytes[..]));
  }

  /** The loop of `fromBase64` that fills a fresh `Uint8Array` with the character codes. */
  method StoreCodes(binary: string) returns (bytes: array<byte>)
    ensures fresh(bytes)
    ensures bytes[..] == Uint8Array(binary)
  {
    bytes := new byte[|binary|];
    for i := 0 to |binary|
      invariant forall k :: 0 <= k < i ==> bytes[k] == Uint8(binary[k])
    {
      bytes[i] := Uint8(binary[i]);
    }
  }

  /** `fromBase64(toBase64(s))` is `s`, less a leading byte order mark. */
  lemma DecodeEncodedText(utf8: TextCodec, text: string)
    requires RoundTrips(utf8)
    ensures DecodedText(utf8, EncodedText(utf8, text)) == Some(WithoutBom(text))
    ensures text == [] || text[0] != ByteOrderMark ==> DecodedText(utf8, EncodedText(utf8, text)) == Some(text)
  {
    var bytes := utf8.encode(text);
    var enc := Encode(bytes);
    forall i | 0 <= i < |enc| ensures !IsNewline(enc[i]) {
    }
    Text.EraseNothing(enc, IsNewline);
    assert WithoutNewlines(enc) == enc;
    AtobEncode(bytes);
    var binary := Binary(bytes);
    forall i | 0 <= i < |bytes| ensures Uint8Array(binary)[i] == bytes[i] {
      assert binary[i] as int == bytes[i];
    }
    assert Uint8Array(binary) == bytes;
  }

  /** A newline anywhere in the encoded text changes nothing. */
  lemma NewlineIgnored(utf8: TextCodec, a: string, b: string)
    ensures DecodedText(utf8, a + "\n" + b) == DecodedText(utf8, a + b)
  {
    NewlineRemoved(a, b);
  }

  lemma NewlineRemoved(a: string, b: string)
    ensures WithoutNewlines(a + "\n" + b) == WithoutNewlines(a + b)
  {
    Text.EraseConcat(a + "\n", b, IsNewline);
    Text.EraseConcat(a, "\n", IsNewline);
    Text.EraseConcat(a, b, IsNewline);
    assert Text.Erase("\n", IsNewline) == [];
  }
}
