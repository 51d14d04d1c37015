/** Well-formed UTF-8, by the byte table of section 4 of RFC 3629. */
module Utf8 {
  import opened FileTree

  predicate Continues(b: byte) {
    0x80 <= b <= 0xBF
  }

  /** The length of the well-formed character at the front, or 0 when there is none. */
  function Width(b: seq<byte>): (n: nat)
    ensures n <= |b|
  {
    if |b| >= 1 && b[0] < 0x80 then 1
    else if |b| >= 2 && 0xC2 <= b[0] <= 0xDF && Continues(b[1]) then 2
    else if |b| >= 3 && Continues(b[1]) && Continues(b[2])
         && ((b[0] == 0xE0 && 0xA0 <= b[1]) || 0xE1 <= b[0] <= 0xEC
             || (b[0] == 0xED && b[1] <= 0x9F) || 0xEE <= b[0] <= 0xEF) then 3
    else if |b| >= 4 && Continues(b[1]) && Continues(b[2]) && Continues(b[3])
         && ((b[0] == 0xF0 && 0x90 <= b[1]) || 0xF1 <= b[0] <= 0xF3 || (b[0] == 0xF4 && b[1] <= 0x8F)) then 4
    else 0
  }

  predicate IsUtf8(b: seq<byte>) {
    b == [] || (Width(b) > 0 && IsUtf8(b[Width(b)..]))
  }

  // ----- against the encoding itself, section 3 of RFC 3629

  /** A code point that is no surrogate. */
  type Scalar = c: int | 0 <= c < 0xD800 || 0xE000 <= c <= 0x10_FFFF witness 0

  function EncodeChar(c: Scalar): (b: seq<byte>)
    ensures b != []
  {
    if c < 0x80 then [c as byte]
    else if c < 0x800 then [(0xC0 + c / 64) as byte, (0x80 + c % 64) as byte]
    else if c < 0x1_0000 then [(0xE0 + c / 4096) as byte, (0x80 + c / 64 % 64) as byte, (0x80 + c % 64) as byte]
    else [(0xF0 + c / 262144) as byte, (0x80 + c / 4096 % 64) as byte,
          (0x80 + c / 64 % 64) as byte, (0x80 + c % 64) as byte]
  }

  function Encode(cs: seq<Scalar>): seq<byte> {
    if cs == [] then [] else EncodeChar(cs[0]) + Encode(cs[1..])
  }

  /** The character that well-formed bytes of one character stand for. */
  function Decoded(b: seq<byte>): int
    requires Width(b) > 0
  {
    match Width(b)
    case 1 => b[0] as int
    case 2 => (b[0] as int - 0xC0) * 64 + (b[1] as int - 0x80)
    case 3 => ((b[0] as int - 0xE0) * 64 + (b[1] as int - 0x80)) * 64 + (b[2] as int - 0x80)
    case _ =>
      (((b[0] as int - 0xF0) * 64 + (b[1] as int - 0x80)) * 64 + (b[2] as int - 0x80)) * 64 + (b[3] as int - 0x80)
  }

  lemma WidthOfEncoded(c: Scalar, rest: seq<byte>)
    ensures Width(EncodeChar(c) + rest) == |EncodeChar(c)|
  {
  }

  lemma DecodedIsScalar(b: seq<byte>)
    requires Width(b) > 0
    ensures 0 <= Decoded(b) < 0xD800 || 0xE000 <= Decoded(b) <= 0x10_FFFF
  {
  }

  lemma TwoDigits(a: nat, b: nat)
    requires b < 64
    ensures (a * 64 + b) / 64 == a && (a * 64 + b) % 64 == b
  {
  }

  /** The digits, to base 64, of a code point put together from its bytes. */
  lemma FourDigits(a: nat, b: nat, d: nat, e: nat)
    requires b < 64 && d < 64 && e < 64
    ensures var c := ((a * 64 + b) * 64 + d) * 64 + e;
            c / 262144 == a && c / 4096 == a * 64 + b && c / 4096 % 64 == b && c / 64 % 64 == d && c % 64 == e
  {
    TwoDigits((a * 64 + b) * 64 + d, e);
    TwoDigits(a * 64 + b, d);
    TwoDigits(a, b);
  }

  lemma EncodedBack(b: seq<byte>)
    requires Width(b) > 0
    ensures 0 <= Decoded(b) < 0xD800 || 0xE000 <= Decoded(b) <= 0x10_FFFF
    ensures EncodeChar(Decoded(b)) == b[..Width(b)]
  {
    DecodedIsScalar(b);
    var n := Width(b);
    if n == 2 {
      TwoDigits(b[0] as int - 0xC0, b[1] as int - 0x80);
    } else if n == 3 {
      ThreeBytesBack(b);
    } else if n == 4 {
      FourBytesBack(b);
    }
  }

  lemma ThreeBytesBack(b: seq<byte>)
    requires Width(b) == 3 && (0 <= Decoded(b) < 0xD800 || 0xE000 <= Decoded(b) <= 0x10_FFFF)
    ensures EncodeChar(Decoded(b)) == b[..3]
  {
    var hi, mid, lo := b[0] as int - 0xE0, b[1] as int - 0x80, b[2] as int - 0x80;
    FourDigits(0, hi, mid, lo);
    assert Decoded(b) == ((0 * 64 + hi) * 64 + mid) * 64 + lo;
    assert 0x800 <= Decoded(b) < 0x1_0000;
  }

  lemma FourBytesBack(b: seq<byte>)
    requires Width(b) == 4 && (0 <= Decoded(b) < 0xD800 || 0xE000 <= Decoded(b) <= 0x10_FFFF)
    ensures EncodeChar(Decoded(b)) == b[..4]
  {
    FourDigits(b[0] as int - 0xF0, b[1] as int - 0x80, b[2] as int - 0x80, b[3] as int - 0x80);
    assert Decoded(b) >= 0x1_0000;
  }

  lemma {:induction false} EncodedIsUtf8(cs: seq<Scalar>)
    ensures IsUtf8(Encode(cs))
  {
    if cs != [] {
      EncodedIsUtf8(cs[1..]);
      WidthOfEncoded(cs[0], Encode(cs[1..]));
    }
  }

  lemma {:induction false} Utf8IsEncoded(b: seq<byte>) returns (cs: seq<Scalar>)
    requires IsUtf8(b)
    ensures b == Encode(cs)
  {
    if b == [] {
      cs := [];
    } else {
      var rest := Utf8IsEncoded(b[Width(b)..]);
      EncodedBack(b);
      cs := [Decoded(b)] + rest;
      assert cs[1..] == rest;
    }
  }

  /** The byte table accepts exactly the encodings of sequences of characters. */
  lemma ExactlyTheEncodings(b: seq<byte>)
    ensures IsUtf8(b) <==> exists cs: seq<Scalar> :: b == Encode(cs)
  {
    if IsUtf8(b) {
      var cs := Utf8IsEncoded(b);
    }
    forall cs: seq<Scalar> | b == Encode(cs)
      ensures IsUtf8(b)
    {
      EncodedIsUtf8(cs);
    }
  }
}
