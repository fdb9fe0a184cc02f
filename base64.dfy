/**
 * Base 64 as section 4 of RFC 4648 defines it, with the standard alphabet and `=` padding:
 * `base64.b64encode(...).decode("utf-8")` and its inverse.
 */
module Base64 {
  import opened Wrappers
  import opened Octets
  import Seqs

  /** The 64 letters of the alphabet, numbered 0 to 63. */
  predicate IsLetter(c: char)
  {
    'A' <= c <= 'Z' || 'a' <= c <= 'z' || '0' <= c <= '9' || c == '+' || c == '/'
  }

  /** The letter numbered `i`. */
  function Letter(i: nat): (c: char)
    requires i < 64
    ensures IsLetter(c)
  {
    if i < 26 then ('A' as int + i) as char
    else if i < 52 then ('a' as int + i - 26) as char
    else if i < 62 then ('0' as int + i - 52) as char
    else if i == 62 then '+'
    else '/'
  }

  /** The number of a letter. */
  function Index(c: char): (i: nat)
    requires IsLetter(c)
    ensures i < 64 && Letter(i) == c
  {
    if 'A' <= c <= 'Z' then c as int - 'A' as int
    else if 'a' <= c <= 'z' then c as int - 'a' as int + 26
    else if '0' <= c <= '9' then c as int - '0' as int + 52
    else if c == '+' then 62
    else 63
  }

  lemma IndexLetter(i: nat)
    requires i < 64
    ensures Index(Letter(i)) == i
  {
  }

  /** Three octets, as four letters. */
  function Group3(a: byte, b: byte, c: byte): string
  {
    [Letter(a as nat / 4), Letter((a as nat % 4) * 16 + b as nat / 16),
     Letter((b as nat % 16) * 4 + c as nat / 64), Letter(c as nat % 64)]
  }

  /** A final two octets, as three letters and one `=`. */
  function Group2(a: byte, b: byte): string
  {
    [Letter(a as nat / 4), Letter((a as nat % 4) * 16 + b as nat / 16), Letter((b as nat % 16) * 4), '=']
  }

  /** A final octet, as two letters and two `=`. */
  function Group1(a: byte): string
  {
    [Letter(a as nat / 4), Letter((a as nat % 4) * 16), '=', '=']
  }

  /** The characters an encoding is made of: letters, and `=` for padding. */
  predicate Encoded(s: string)
  {
    forall i :: 0 <= i < |s| ==> IsLetter(s[i]) || s[i] == '='
  }

  /** `b64encode`: four characters for every three octets, the last group padded with `=`. */
  function Encode(b: Bytes): (s: string)
    ensures |s| == 4 * ((|b| + 2) / 3)
    decreases |b|
  {
    if |b| == 0 then ""
    else if |b| == 1 then Group1(b[0])
    else if |b| == 2 then Group2(b[0], b[1])
    else Group3(b[0], b[1], b[2]) + Encode(b[3..])
  }

  /** The octets of one four-letter group, or None when the group is not well-formed. */
  function DecodeGroup(g: string, last: bool): (r: Option<Bytes>)
    requires |g| == 4
  {
    if !IsLetter(g[0]) || !IsLetter(g[1]) then None
    else
      var i0, i1 := Index(g[0]), Index(g[1]);
      if last && g[2] == '=' && g[3] == '=' then
        (if i1 % 16 == 0 then Some([(i0 * 4 + i1 / 16) as byte]) else None)
      else if !IsLetter(g[2]) then None
      else
        var i2 := Index(g[2]);
        if last && g[3] == '=' then
          (if i2 % 4 == 0 then Some([(i0 * 4 + i1 / 16) as byte, ((i1 % 16) * 16 + i2 / 4) as byte]) else None)
        else if !IsLetter(g[3]) then None
        else
          var i3 := Index(g[3]);
          Some([(i0 * 4 + i1 / 16) as byte, ((i1 % 16) * 16 + i2 / 4) as byte, ((i2 % 4) * 64 + i3) as byte])
  }

  /** `b64decode` of a canonical encoding: None when the text is not one. */
  function Decode(s: string): Option<Bytes>
    decreases |s|
  {
    if |s| == 0 then Some([])
    else if |s| < 4 then None
    else
      match DecodeGroup(s[..4], |s| == 4)
      case None => None
      case Some(g) =>
        match Decode(s[4..])
        case None => None
        case Some(rest) => Some(g + rest)
  }

  /** Splitting a number below `16 * 16` into two hex digits and joining them back. */
  lemma HighLow(hi: nat, lo: nat)
    requires hi < 4 && lo < 16
    ensures (hi * 16 + lo) / 16 == hi && (hi * 16 + lo) % 16 == lo
  {
  }

  lemma HighLow4(hi: nat, lo: nat)
    requires hi < 16 && lo < 4
    ensures (hi * 4 + lo) / 4 == hi && (hi * 4 + lo) % 4 == lo
  {
  }

  /** The sextets of three octets give back the octets. */
  lemma SextetsOfThree(a: nat, b: nat, c: nat)
    requires a < 256 && b < 256 && c < 256
    ensures var i0, i1, i2, i3 := a / 4, (a % 4) * 16 + b / 16, (b % 16) * 4 + c / 64, c % 64;
      i0 * 4 + i1 / 16 == a && (i1 % 16) * 16 + i2 / 4 == b && (i2 % 4) * 64 + i3 == c
  {
    HighLow(a % 4, b / 16);
    HighLow4(b % 16, c / 64);
  }

  lemma EqualsNotLetter(i: nat)
    requires i < 64
    ensures Letter(i) != '='
  {
  }

  lemma Group3Decodes(a: byte, b: byte, c: byte, last: bool)
    ensures DecodeGroup(Group3(a, b, c), last) == Some([a, b, c])
  {
    var i0, i1, i2, i3 := a as nat / 4, (a as nat % 4) * 16 + b as nat / 16, (b as nat % 16) * 4 + c as nat / 64, c as nat % 64;
    var g := Group3(a, b, c);
    assert g == [Letter(i0), Letter(i1), Letter(i2), Letter(i3)];
    IndexLetter(i0);
    IndexLetter(i1);
    IndexLetter(i2);
    IndexLetter(i3);
    EqualsNotLetter(i2);
    EqualsNotLetter(i3);
    SextetsOfThree(a as nat, b as nat, c as nat);
  }

  lemma Group2Decodes(a: byte, b: byte)
    ensures DecodeGroup(Group2(a, b), true) == Some([a, b])
  {
    var i0, i1, i2 := a as nat / 4, (a as nat % 4) * 16 + b as nat / 16, (b as nat % 16) * 4;
    IndexLetter(i0);
    IndexLetter(i1);
    IndexLetter(i2);
    EqualsNotLetter(i2);
    HighLow(a as nat % 4, b as nat / 16);
    HighLow4(b as nat % 16, 0);
  }

  lemma Group1Decodes(a: byte)
    ensures DecodeGroup(Group1(a), true) == Some([a])
  {
    IndexLetter(a as nat / 4);
    IndexLetter((a as nat % 4) * 16);
    HighLow(a as nat % 4, 0);
  }

  /** Decoding a text that starts with a well-formed group. */
  lemma DecodeCons(g: string, rest: string, x: Bytes, y: Bytes)
    requires |g| == 4
    requires DecodeGroup(g, rest == []) == Some(x) && Decode(rest) == Some(y)
    ensures Decode(g + rest) == Some(x + y)
  {
    var s := g + rest;
    assert s[..4] == g && s[4..] == rest;
  }

  lemma DecodeEncodeOne(b: Bytes)
    requires |b| == 1
    ensures Decode(Encode(b)) == Some(b)
  {
    Group1Decodes(b[0]);
    DecodeCons(Group1(b[0]), [], [b[0]], []);
    assert Group1(b[0]) + [] == Encode(b);
    assert [b[0]] + [] == b;
  }

  lemma DecodeEncodeTwo(b: Bytes)
    requires |b| == 2
    ensures Decode(Encode(b)) == Some(b)
  {
    Group2Decodes(b[0], b[1]);
    DecodeCons(Group2(b[0], b[1]), [], [b[0], b[1]], []);
    Seqs.AppendEmpty(Group2(b[0], b[1]));
    Seqs.AppendEmpty([b[0], b[1]]);
    assert [b[0], b[1]] == b;
  }

  lemma FirstThree(b: Bytes)
    requires |b| >= 3
    ensures [b[0], b[1], b[2]] + b[3..] == b
  {
  }

  lemma DecodeEncodeStep(b: Bytes)
    requires |b| >= 3 && Decode(Encode(b[3..])) == Some(b[3..])
    ensures Decode(Encode(b)) == Some(b)
  {
    var rest := Encode(b[3..]);
    assert Encode(b) == Group3(b[0], b[1], b[2]) + rest;
    Group3Decodes(b[0], b[1], b[2], rest == []);
    DecodeCons(Group3(b[0], b[1], b[2]), rest, [b[0], b[1], b[2]], b[3..]);
    FirstThree(b);
  }

  /** Decoding undoes encoding. */
  lemma {:induction false} DecodeEncode(b: Bytes)
    ensures Decode(Encode(b)) == Some(b)
    decreases |b|
  {
    if |b| == 1 {
      DecodeEncodeOne(b);
    } else if |b| == 2 {
      DecodeEncodeTwo(b);
    } else if |b| >= 3 {
      DecodeEncode(b[3..]);
      DecodeEncodeStep(b);
    }
  }

  /** An encoding holds letters and padding only. */
  lemma {:induction false} EncodeAlphabet(b: Bytes)
    ensures Encoded(Encode(b))
    decreases |b|
  {
    if |b| >= 3 {
      EncodeAlphabet(b[3..]);
      var g, rest := Group3(b[0], b[1], b[2]), Encode(b[3..]);
      assert Encode(b) == g + rest;
      forall i | 0 <= i < |g + rest| ensures IsLetter((g + rest)[i]) || (g + rest)[i] == '=' {
        if i >= 4 {
          assert (g + rest)[i] == rest[i - 4];
        }
      }
    }
  }

  /** A character outside the alphabet and padding (a comma, an ampersand) never occurs in an encoding. */
  lemma NotInEncoding(b: Bytes, c: char)
    requires !IsLetter(c) && c != '='
    ensures c !in Encode(b)
  {
    EncodeAlphabet(b);
  }
}
