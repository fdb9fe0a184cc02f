/**
 * UTF-8 as RFC 3629 defines it: `str.encode("utf-8")` and `bytes.decode("utf-8")`.
 *
 * A Dafny `char` is a Unicode scalar value (never a surrogate), so encoding cannot fail;
 * decoding rejects the byte sequences that are not well-formed UTF-8.
 */
module Utf8 {
  import opened Wrappers
  import opened Octets

  /** The encoding of one scalar value: 1 to 4 bytes, according to its range. */
  function EncodeChar(c: char): (b: Bytes)
    ensures 1 <= |b| <= 4
    ensures |b| == 1 <==> (c as int) < 0x80
    ensures |b| == 1 ==> b[0] as int == c as int
  {
    var n := c as int;
    if n < 0x80 then [n as byte]
    else if n < 0x800 then [(0xC0 + n / 64) as byte, (0x80 + n % 64) as byte]
    else if n < 0x10000 then
      [(0xE0 + n / 4096) as byte, (0x80 + (n / 64) % 64) as byte, (0x80 + n % 64) as byte]
    else
      [(0xF0 + n / 262144) as byte, (0x80 + (n / 4096) % 64) as byte,
       (0x80 + (n / 64) % 64) as byte, (0x80 + n % 64) as byte]
  }

  /** `s.encode("utf-8")`: the characters' encodings, one after the other. */
  function Encode(s: string): (b: Bytes)
    ensures |b| >= |s|
    decreases |s|
  {
    if s == [] then [] else EncodeChar(s[0]) + Encode(s[1..])
  }

  /** A continuation byte `10xxxxxx`. */
  predicate Cont(b: byte)
  {
    0x80 <= b < 0xC0
  }

  /** A code point that is a Unicode scalar value. */
  predicate Scalar(n: int)
  {
    0 <= n < 0xD800 || 0xE000 <= n < 0x110000
  }

  /** The number of bytes a sequence starting with `b` takes, or 0 when no sequence starts so. */
  function SeqLength(b: byte): nat
  {
    if b < 0x80 then 1
    else if 0xC0 <= b < 0xE0 then 2
    else if 0xE0 <= b < 0xF0 then 3
    else if 0xF0 <= b < 0xF8 then 4
    else 0
  }

  /** The code point of the `k`-byte sequence at the start of `b`. */
  function CodePoint(b: Bytes, k: nat): int
    requires 1 <= k <= 4 && k <= |b|
  {
    if k == 1 then b[0] as int
    else if k == 2 then (b[0] as int - 0xC0) * 64 + (b[1] as int - 0x80)
    else if k == 3 then (b[0] as int - 0xE0) * 4096 + (b[1] as int - 0x80) * 64 + (b[2] as int - 0x80)
    else (b[0] as int - 0xF0) * 262144 + (b[1] as int - 0x80) * 4096 + (b[2] as int - 0x80) * 64 + (b[3] as int - 0x80)
  }

  /** The smallest code point that needs `k` bytes: longer encodings than needed are rejected. */
  function Floor(k: nat): int
  {
    if k == 1 then 0 else if k == 2 then 0x80 else if k == 3 then 0x800 else 0x10000
  }

  /** The first character of `b` and the bytes it takes, or None when `b` does not start well-formed. */
  function DecodeFirst(b: Bytes): (r: Option<(char, nat)>)
    requires b != []
    ensures r.Some? ==> 1 <= r.value.1 <= |b| && r.value.1 <= 4
  {
    var k := SeqLength(b[0]);
    if k == 0 || |b| < k then None
    else if exists i :: 1 <= i < k && !Cont(b[i]) then None
    else
      var n := CodePoint(b, k);
      if n < Floor(k) || !Scalar(n) then None else Some((n as char, k))
  }

  /** `b.decode("utf-8")`: the characters, or None when some sequence is not well-formed. */
  function Decode(b: Bytes): Option<string>
    decreases |b|
  {
    if b == [] then Some("")
    else
      match DecodeFirst(b)
      case None => None
      case Some((c, k)) =>
        match Decode(b[k..])
        case None => None
        case Some(s) => Some([c] + s)
  }

  lemma TwoByteCodePoint(n: int, b: Bytes)
    requires 0x80 <= n < 0x800 && |b| >= 2
    requires b[0] as int == 0xC0 + n / 64 && b[1] as int == 0x80 + n % 64
    ensures CodePoint(b, 2) == n
  {
  }

  lemma ThreeByteCodePoint(n: int, b: Bytes)
    requires 0x800 <= n < 0x10000 && |b| >= 3
    requires b[0] as int == 0xE0 + n / 4096 && b[1] as int == 0x80 + (n / 64) % 64 && b[2] as int == 0x80 + n % 64
    ensures CodePoint(b, 3) == n
  {
    assert n / 64 == (n / 4096) * 64 + (n / 64) % 64;
  }

  lemma FourByteCodePoint(n: int, b: Bytes)
    requires 0x10000 <= n < 0x110000 && |b| >= 4
    requires b[0] as int == 0xF0 + n / 262144 && b[1] as int == 0x80 + (n / 4096) % 64
    requires b[2] as int == 0x80 + (n / 64) % 64 && b[3] as int == 0x80 + n % 64
    ensures CodePoint(b, 4) == n
  {
    assert n / 4096 == (n / 262144) * 64 + (n / 4096) % 64;
    assert n / 64 == (n / 4096) * 64 + (n / 64) % 64;
  }

  /** One character's encoding decodes to that character, whatever follows it. */
  lemma DecodeFirstEncodeChar(c: char, rest: Bytes)
    ensures DecodeFirst(EncodeChar(c) + rest) == Some((c, |EncodeChar(c)|))
  {
    var n := c as int;
    var b := EncodeChar(c) + rest;
    var k := |EncodeChar(c)|;
    if n < 0x80 {
    } else if n < 0x800 {
      TwoByteCodePoint(n, b);
    } else if n < 0x10000 {
      ThreeByteCodePoint(n, b);
    } else {
      FourByteCodePoint(n, b);
    }
    assert SeqLength(b[0]) == k;
    assert forall i :: 1 <= i < k ==> Cont(b[i]);
    assert CodePoint(b, k) == n;
  }

  /** Decoding undoes encoding. */
  lemma {:induction false} DecodeEncode(s: string)
    ensures Decode(Encode(s)) == Some(s)
    decreases |s|
  {
    if s != [] {
      var e := EncodeChar(s[0]);
      assert Encode(s) == e + Encode(s[1..]);
      DecodeFirstEncodeChar(s[0], Encode(s[1..]));
      assert (e + Encode(s[1..]))[|e|..] == Encode(s[1..]);
      DecodeEncode(s[1..]);
      assert [s[0]] + s[1..] == s;
    }
  }

  /** Characters below 0x80 are encoded as themselves, one byte each. */
  lemma {:induction false} AsciiEncoding(s: string)
    requires forall i :: 0 <= i < |s| ==> (s[i] as int) < 0x80
    ensures |Encode(s)| == |s|
    ensures forall i :: 0 <= i < |s| ==> Encode(s)[i] as int == s[i] as int
    decreases |s|
  {
    if s != [] {
      AsciiEncoding(s[1..]);
      assert Encode(s) == EncodeChar(s[0]) + Encode(s[1..]);
      forall i | 1 <= i < |s| ensures Encode(s)[i] as int == s[i] as int {
        assert Encode(s)[i] == Encode(s[1..])[i - 1];
        assert s[i] == s[1..][i - 1];
      }
    }
  }
}
