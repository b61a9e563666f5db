/** UTF-8 as defined by RFC 3629: the encoder of section 3 and a strict
    decoder that accepts exactly the byte sequences the syntax of section 4
    allows (no overlong forms, no surrogates, nothing above U+10FFFF) --
    the behaviour of Python's `bytes.decode("utf-8")`. */
module Utf8 {
  import opened Wrappers

  newtype byte = x: int | 0 <= x < 256

  predicate IsContinuation(b: byte) {
    0x80 <= b <= 0xBF
  }

  /** `n` shifted right by six bits `k` times. */
  function Shift6(n: int, k: nat): int
    decreases k
  {
    if k == 0 then n else Shift6(n, k - 1) / 64
  }

  /** The six bits of `n` starting at bit `6 * k`, tagged as a continuation byte. */
  function ContinuationByte(n: int, k: nat): byte {
    (0x80 + Shift6(n, k) % 64) as byte
  }

  /** The first byte of a multi-byte sequence: the length tag plus the
      top bits. The value is below 256 for every scalar value (the
      `DecodeFirst...` lemmas below compute it), so the guard only keeps
      the conversion total. */
  function LeadByte(tag: int, n: int, k: nat): byte {
    var x := tag + Shift6(n, k);
    if 0 <= x < 256 then x as byte else 0
  }

  /** Encodes one scalar value (section 3 of RFC 3629). */
  function EncodeChar(c: char): (r: seq<byte>)
    ensures 1 <= |r| <= 4
  {
    var n := c as int;
    if n < 0x80 then [n as byte]
    else if n < 0x800 then [LeadByte(0xC0, n, 1), ContinuationByte(n, 0)]
    else if n < 0x10000 then [LeadByte(0xE0, n, 2), ContinuationByte(n, 1), ContinuationByte(n, 0)]
    else [LeadByte(0xF0, n, 3), ContinuationByte(n, 2), ContinuationByte(n, 1), ContinuationByte(n, 0)]
  }

  function Encode(s: string): seq<byte>
    decreases |s|, 1
  {
    if s == [] then [] else EncodeNonEmpty(s)
  }

  /** The encoding of a non-empty string: its first character, then the
      rest. Kept apart from `Encode` so that one unfolding of `Encode`
      does not expose the arithmetic of `EncodeChar`. */
  function EncodeNonEmpty(s: string): seq<byte>
    requires s != []
    decreases |s|, 0
  {
    EncodeChar(s[0]) + Encode(s[1..])
  }

  datatype Decoded = Decoded(c: char, len: nat)

  /** The admissible range of the second byte of a three-byte sequence
      (UTF8-3 in section 4 of RFC 3629). */
  function Second3Low(b0: int): int { if b0 == 0xE0 then 0xA0 else 0x80 }
  function Second3High(b0: int): int { if b0 == 0xED then 0x9F else 0xBF }

  /** The admissible range of the second byte of a four-byte sequence
      (UTF8-4 in section 4 of RFC 3629). */
  function Second4Low(b0: int): int { if b0 == 0xF0 then 0x90 else 0x80 }
  function Second4High(b0: int): int { if b0 == 0xF4 then 0x8F else 0xBF }

  /** The scalar-value bits of the first `k` bytes of `b`: the lead byte
      less its length tag `tag`, then six bits per continuation byte. */
  function Payload(tag: int, b: seq<byte>, k: nat): int
    requires 1 <= k <= |b|
    decreases k
  {
    if k == 1 then b[0] as int - tag else Payload(tag, b, k - 1) * 64 + (b[k - 1] as int - 0x80)
  }

  /** Decodes the character at the front of `b`, if `b` starts with a
      well-formed UTF-8 sequence. */
  function DecodeFirst(b: seq<byte>): (r: Option<Decoded>)
    requires |b| > 0
    ensures r.Some? ==> 1 <= r.value.len <= |b|
  {
    var b0 := b[0] as int;
    if b0 < 0x80 then Some(Decoded(b0 as char, 1))
    else if 0xC2 <= b0 <= 0xDF then
      if |b| >= 2 && IsContinuation(b[1]) then
        assert Payload(0xC0, b, 2) == (b0 - 0xC0) * 64 + (b[1] as int - 0x80);
        Some(Decoded(Payload(0xC0, b, 2) as char, 2))
      else None
    else if 0xE0 <= b0 <= 0xEF then
      if |b| >= 3 && Second3Low(b0) <= b[1] as int <= Second3High(b0) && IsContinuation(b[2]) then
        assert Payload(0xE0, b, 2) == (b0 - 0xE0) * 64 + (b[1] as int - 0x80);
        assert Payload(0xE0, b, 3) == Payload(0xE0, b, 2) * 64 + (b[2] as int - 0x80);
        Some(Decoded(Payload(0xE0, b, 3) as char, 3))
      else None
    else if 0xF0 <= b0 <= 0xF4 then
      if |b| >= 4 && Second4Low(b0) <= b[1] as int <= Second4High(b0)
         && IsContinuation(b[2]) && IsContinuation(b[3]) then
        assert Payload(0xF0, b, 2) == (b0 - 0xF0) * 64 + (b[1] as int - 0x80);
        assert Payload(0xF0, b, 3) == Payload(0xF0, b, 2) * 64 + (b[2] as int - 0x80);
        assert Payload(0xF0, b, 4) == Payload(0xF0, b, 3) * 64 + (b[3] as int - 0x80);
        Some(Decoded(Payload(0xF0, b, 4) as char, 4))
      else None
    else None
  }

  /** Decodes a whole byte string; `None` when any part is ill-formed
      (Python raises `UnicodeDecodeError` there). */
  function Decode(b: seq<byte>): Option<string>
    decreases |b|, 1
  {
    if b == [] then Some([]) else DecodeNonEmpty(b)
  }

  /** The decoding of a non-empty byte string: the first character, then
      the decoding of the bytes after it. */
  function DecodeNonEmpty(b: seq<byte>): Option<string>
    requires b != []
    decreases |b|, 0
  {
    var first := DecodeFirst(b);
    if first.None? then None
    else
      var rest := Decode(b[first.value.len..]);
      if rest.None? then None else Some([first.value.c] + rest.value)
  }

  lemma DivMod64(q: int, r: int)
    requires 0 <= r < 64
    ensures (q * 64 + r) / 64 == q && (q * 64 + r) % 64 == r
  {
  }

  lemma DecodeFirstTwo(c: char, rest: seq<byte>)
    requires 0x80 <= c as int < 0x800
    ensures DecodeFirst(EncodeChar(c) + rest) == Some(Decoded(c, 2))
  {
    var n := c as int;
    var b := EncodeChar(c) + rest;
    DivMod64(n / 64, n % 64);
    assert b[0] as int == 0xC0 + n / 64 && b[1] as int == 0x80 + n % 64;
  }

  lemma DecodeFirstThree(c: char, rest: seq<byte>)
    requires 0x800 <= c as int < 0x10000
    ensures DecodeFirst(EncodeChar(c) + rest) == Some(Decoded(c, 3))
  {
    var n := c as int;
    var b := EncodeChar(c) + rest;
    var hi, mid, lo := n / 4096, (n / 64) % 64, n % 64;
    assert n == hi * 4096 + mid * 64 + lo;
    assert b[0] as int == 0xE0 + hi && b[1] as int == 0x80 + mid && b[2] as int == 0x80 + lo;
    assert hi == 0 ==> mid >= 32;
    assert hi == 13 ==> mid < 32;
  }

  /** The four six-bit groups of a supplementary-plane scalar value. */
  lemma Groups4(n: int)
    requires 0x10000 <= n < 0x110000
    ensures var top, hi, mid, lo := n / 262144, (n / 4096) % 64, (n / 64) % 64, n % 64;
            && n == top * 262144 + hi * 4096 + mid * 64 + lo
            && 0 <= top <= 4 && 0 <= hi < 64 && 0 <= mid < 64 && 0 <= lo < 64
            && (top == 0 ==> hi >= 16) && (top == 4 ==> hi < 16)
  {
    var q := n / 64;
    assert n == q * 64 + n % 64;
    assert q == (q / 64) * 64 + q % 64;
    assert n / 4096 == q / 64;
    assert n / 4096 == (n / 262144) * 64 + (n / 4096) % 64;
  }

  lemma DecodeFirstFour(c: char, rest: seq<byte>)
    requires 0x10000 <= c as int
    ensures DecodeFirst(EncodeChar(c) + rest) == Some(Decoded(c, 4))
  {
    var n := c as int;
    var b := EncodeChar(c) + rest;
    Groups4(n);
    var top, hi, mid, lo := n / 262144, (n / 4096) % 64, (n / 64) % 64, n % 64;
    assert b[0] as int == 0xF0 + top && b[1] as int == 0x80 + hi;
    assert b[2] as int == 0x80 + mid && b[3] as int == 0x80 + lo;
  }

  /** The decoder reads back what the encoder writes for one character. */
  lemma DecodeFirstEncodeChar(c: char, rest: seq<byte>)
    ensures DecodeFirst(EncodeChar(c) + rest) == Some(Decoded(c, |EncodeChar(c)|))
  {
    var n := c as int;
    if n < 0x80 {
    } else if n < 0x800 {
      DecodeFirstTwo(c, rest);
    } else if n < 0x10000 {
      DecodeFirstThree(c, rest);
    } else {
      DecodeFirstFour(c, rest);
    }
  }

  lemma CanonicalTwo(b: seq<byte>)
    requires |b| >= 2 && 0xC2 <= b[0] <= 0xDF && IsContinuation(b[1])
    ensures DecodeFirst(b).Some? && EncodeChar(DecodeFirst(b).value.c) == b[..2]
  {
    var b0, x1 := b[0] as int, b[1] as int - 0x80;
    DivMod64(b0 - 0xC0, x1);
    var c := DecodeFirst(b).value.c;
    assert c as int == (b0 - 0xC0) * 64 + x1;
    assert EncodeChar(c) == [b[0], b[1]];
  }

  lemma CanonicalThree(b: seq<byte>)
    requires |b| >= 3 && 0xE0 <= b[0] <= 0xEF
    requires Second3Low(b[0] as int) <= b[1] as int <= Second3High(b[0] as int) && IsContinuation(b[2])
    ensures DecodeFirst(b).Some? && EncodeChar(DecodeFirst(b).value.c) == b[..3]
  {
    var b0, x1, x2 := b[0] as int, b[1] as int - 0x80, b[2] as int - 0x80;
    var n := (b0 - 0xE0) * 4096 + x1 * 64 + x2;
    assert n == ((b0 - 0xE0) * 64 + x1) * 64 + x2;
    DivMod64((b0 - 0xE0) * 64 + x1, x2);
    DivMod64(b0 - 0xE0, x1);
    assert n / 4096 == b0 - 0xE0;
    var c := DecodeFirst(b).value.c;
    assert c as int == n;
    assert EncodeChar(c) == [b[0], b[1], b[2]];
  }

  lemma CanonicalFour(b: seq<byte>)
    requires |b| >= 4 && 0xF0 <= b[0] <= 0xF4
    requires Second4Low(b[0] as int) <= b[1] as int <= Second4High(b[0] as int)
    requires IsContinuation(b[2]) && IsContinuation(b[3])
    ensures DecodeFirst(b).Some? && EncodeChar(DecodeFirst(b).value.c) == b[..4]
  {
    var b0 := b[0] as int;
    var x1, x2, x3 := b[1] as int - 0x80, b[2] as int - 0x80, b[3] as int - 0x80;
    var n := (b0 - 0xF0) * 262144 + x1 * 4096 + x2 * 64 + x3;
    assert n == (((b0 - 0xF0) * 64 + x1) * 64 + x2) * 64 + x3;
    DivMod64(((b0 - 0xF0) * 64 + x1) * 64 + x2, x3);
    DivMod64((b0 - 0xF0) * 64 + x1, x2);
    DivMod64(b0 - 0xF0, x1);
    assert n / 4096 == (b0 - 0xF0) * 64 + x1;
    assert n / 262144 == b0 - 0xF0;
    var c := DecodeFirst(b).value.c;
    assert c as int == n;
    assert EncodeChar(c) == [b[0], b[1], b[2], b[3]];
  }

  /** The decoder accepts only the shortest form: whatever it reads is the
      encoding of the character it returns. */
  lemma DecodeFirstCanonical(b: seq<byte>)
    requires |b| > 0 && DecodeFirst(b).Some?
    ensures b[..DecodeFirst(b).value.len] == EncodeChar(DecodeFirst(b).value.c)
  {
    var b0 := b[0] as int;
    if b0 < 0x80 {
    } else if b0 <= 0xDF {
      CanonicalTwo(b);
    } else if b0 <= 0xEF {
      CanonicalThree(b);
    } else {
      CanonicalFour(b);
    }
  }

  lemma {:induction false} DecodeEncode(s: string)
    ensures Decode(Encode(s)) == Some(s)
  {
    if s != [] {
      var e := EncodeChar(s[0]);
      var rest := Encode(s[1..]);
      DecodeFirstEncodeChar(s[0], rest);
      assert (e + rest)[|e|..] == rest;
      DecodeEncode(s[1..]);
      assert [s[0]] + s[1..] == s;
    }
  }

  /** A successful decode is the first character followed by the decode
      of the rest. */
  lemma DecodeStep(b: seq<byte>)
    requires b != [] && Decode(b).Some?
    ensures DecodeFirst(b).Some? && Decode(b[DecodeFirst(b).value.len..]).Some?
    ensures Decode(b).value == [DecodeFirst(b).value.c] + Decode(b[DecodeFirst(b).value.len..]).value
  {
  }

  /** Encoding the first decoded character writes back the bytes read. */
  lemma EncodeFirstDecoded(b: seq<byte>, t: string)
    requires |b| > 0 && DecodeFirst(b).Some?
    ensures Encode([DecodeFirst(b).value.c] + t) == b[..DecodeFirst(b).value.len] + Encode(t)
  {
    var d := DecodeFirst(b).value;
    DecodeFirstCanonical(b);
    var s := [d.c] + t;
    assert s[0] == d.c && s[1..] == t;
  }

  /** One step of the reverse round trip: the bytes of the first character
      followed by the bytes still to decode. */
  lemma DecodeSplit(b: seq<byte>) returns (len: nat)
    requires b != [] && Decode(b).Some?
    ensures 0 < len <= |b| && Decode(b[len..]).Some?
    ensures Encode(Decode(b).value) == b[..len] + Encode(Decode(b[len..]).value)
  {
    DecodeStep(b);
    len := DecodeFirst(b).value.len;
    EncodeFirstDecoded(b, Decode(b[len..]).value);
  }

  lemma {:induction false} EncodeDecode(b: seq<byte>)
    requires Decode(b).Some?
    ensures Encode(Decode(b).value) == b
    decreases |b|
  {
    if b != [] {
      var len := DecodeSplit(b);
      var rest := b[len..];
      EncodeDecode(rest);
      assert Encode(Decode(b).value) == b[..len] + rest == b;
    }
  }

  /** A byte string decodes to `s` exactly when it is the encoding of `s`. */
  lemma DecodeIffEncode(b: seq<byte>, s: string)
    ensures Decode(b) == Some(s) <==> Encode(s) == b
  {
    if Decode(b) == Some(s) {
      EncodeDecode(b);
    }
    if Encode(s) == b {
      DecodeEncode(s);
    }
  }
}
