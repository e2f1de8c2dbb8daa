/** UTF-8, as section 4 of RFC 3629 defines it, and the encoder of single scalars. */
module Utf8 {
  import opened Bytes

  /** Unicode scalar values: code points that are not surrogates. */
  predicate IsScalar(cp: int) {
    0 <= cp < 0xD800 || 0xE000 <= cp < 0x11_0000
  }

  predicate IsTail(b: Byte) {
    0x80 <= b < 0xC0
  }

  /** The length of the well-formed character `bs` starts with; 0 if it starts with none. */
  function CharLength(bs: seq<Byte>): (n: nat)
    ensures n <= |bs| && n <= 4
  {
    if bs == [] then 0
    else if bs[0] < 0x80 then 1
    else if 0xC2 <= bs[0] < 0xE0 && |bs| >= 2 && IsTail(bs[1]) then 2
    else if 0xE0 <= bs[0] < 0xF0 && |bs| >= 3 && IsTail(bs[1]) && IsTail(bs[2])
         && (bs[0] == 0xE0 ==> bs[1] >= 0xA0) && (bs[0] == 0xED ==> bs[1] < 0xA0) then 3
    else if 0xF0 <= bs[0] < 0xF5 && |bs| >= 4 && IsTail(bs[1]) && IsTail(bs[2]) && IsTail(bs[3])
         && (bs[0] == 0xF0 ==> bs[1] >= 0x90) && (bs[0] == 0xF4 ==> bs[1] < 0x90) then 4
    else 0
  }

  /** The bytes are a sequence of well-formed characters. */
  predicate WellFormed(bs: seq<Byte>)
    decreases |bs|
  {
    bs == [] || (CharLength(bs) > 0 && WellFormed(bs[CharLength(bs)..]))
  }

  /** The low six bits of a tail byte. */
  function Tail(b: Byte): int {
    b as int - 0x80
  }

  /** The scalar that the first character of `bs` encodes. */
  function FirstScalar(bs: seq<Byte>): int
    requires CharLength(bs) > 0
  {
    var lead := bs[0] as int;
    match CharLength(bs)
    case 1 => lead
    case 2 => (lead - 0xC0) * 0x40 + Tail(bs[1])
    case 3 => (lead - 0xE0) * 0x1000 + Tail(bs[1]) * 0x40 + Tail(bs[2])
    case _ => (lead - 0xF0) * 0x4_0000 + Tail(bs[1]) * 0x1000 + Tail(bs[2]) * 0x40 + Tail(bs[3])
  }

  /** The UTF-8 form of a code point, in one to four bytes. */
  function Encode(cp: nat): seq<Byte>
    requires cp < 0x11_0000
  {
    if cp < 0x80 then [cp]
    else if cp < 0x800 then [0xC0 + cp / 0x40, 0x80 + cp % 0x40]
    else if cp < 0x1_0000 then [0xE0 + cp / 0x1000, 0x80 + cp / 0x40 % 0x40, 0x80 + cp % 0x40]
    else [0xF0 + cp / 0x4_0000, 0x80 + cp / 0x1000 % 0x40, 0x80 + cp / 0x40 % 0x40, 0x80 + cp % 0x40]
  }

  /** Encoding a scalar gives exactly one well-formed character, which decodes to that scalar. */
  lemma EncodeIsOneChar(cp: nat)
    requires IsScalar(cp)
    ensures var bs := Encode(cp);
      && CharLength(bs) == |bs| && |bs| > 0 && WellFormed(bs) && FirstScalar(bs) == cp
      && (cp != 0 ==> NulFree(bs))
  {
    var bs := Encode(cp);
    Sextets(cp);
    hide WellFormed;
    assert CharLength(bs) == |bs|;
    assert bs[|bs|..] == [];
    assert WellFormed(bs) by { OneCharWellFormed(bs); }
  }

  lemma EmptyWellFormed()
    ensures WellFormed([])
  {
  }

  lemma OneCharWellFormed(bs: seq<Byte>)
    requires CharLength(bs) == |bs| > 0
    ensures WellFormed(bs)
  {
    assert bs[|bs|..] == [];
  }

  /** A code point in base 64. */
  lemma Sextets(cp: nat)
    ensures var q := cp / 0x40; var r := q / 0x40;
      && cp / 0x1000 == r && cp / 0x4_0000 == r / 0x40
      && cp == q * 0x40 + cp % 0x40 && q == r * 0x40 + q % 0x40 && r == r / 0x40 * 0x40 + r % 0x40
  {
  }

  /** Every well-formed character is the encoding of a scalar: there are no others. */
  lemma CharIsEncoded(bs: seq<Byte>)
    requires CharLength(bs) > 0
    ensures IsScalar(FirstScalar(bs)) && Encode(FirstScalar(bs)) == bs[..CharLength(bs)]
  {
    match CharLength(bs) {
      case 1 =>
      case 2 => TwoBytesEncoded(bs);
      case 3 => ThreeBytesEncoded(bs);
      case _ => FourBytesEncoded(bs);
    }
  }

  lemma TwoBytesEncoded(bs: seq<Byte>)
    requires CharLength(bs) == 2
    ensures IsScalar(FirstScalar(bs)) && Encode(FirstScalar(bs)) == bs[..2]
  {
    Split(bs[0] as int - 0xC0, Tail(bs[1]));
  }

  lemma ThreeBytesEncoded(bs: seq<Byte>)
    requires CharLength(bs) == 3
    ensures IsScalar(FirstScalar(bs)) && Encode(FirstScalar(bs)) == bs[..3]
  {
    var high := (bs[0] as int - 0xE0) * 0x40 + Tail(bs[1]);
    Split(high, Tail(bs[2]));
    Split(bs[0] as int - 0xE0, Tail(bs[1]));
    Sextets(FirstScalar(bs));
  }

  lemma FourBytesEncoded(bs: seq<Byte>)
    requires CharLength(bs) == 4
    ensures IsScalar(FirstScalar(bs)) && Encode(FirstScalar(bs)) == bs[..4]
  {
    var top := (bs[0] as int - 0xF0) * 0x40 + Tail(bs[1]);
    var high := top * 0x40 + Tail(bs[2]);
    Split(high, Tail(bs[3]));
    Split(top, Tail(bs[2]));
    Split(bs[0] as int - 0xF0, Tail(bs[1]));
    Sextets(FirstScalar(bs));
  }

  lemma Split(high: int, low: int)
    requires 0 <= low < 0x40
    ensures (high * 0x40 + low) / 0x40 == high && (high * 0x40 + low) % 0x40 == low
  {
  }

  /** Well-formedness of a concatenation, when the front part is well formed. */
  lemma {:induction false} WellFormedConcat(a: seq<Byte>, b: seq<Byte>)
    requires WellFormed(a)
    ensures WellFormed(a + b) <==> WellFormed(b)
    decreases |a|
  {
    if a == [] {
      assert a + b == b;
    } else {
      var n := CharLength(a);
      assert CharLength(a + b) == n;
      assert (a + b)[n..] == a[n..] + b;
      WellFormedConcat(a[n..], b);
    }
  }

  /** The examples of section 7 of RFC 3629. */
  lemma ExamplesOfTheStandard()
    ensures Encode(0x41) == [0x41] && Encode(0x2262) == [0xE2, 0x89, 0xA2] && Encode(0x391) == [0xCE, 0x91]
    ensures Encode(0x2_33B4) == [0xF0, 0xA3, 0x8E, 0xB4]
    ensures CharLength([0xED, 0xA0, 0x80]) == 0 && CharLength([0xC0, 0x80]) == 0
    ensures CharLength([0xF4, 0x90, 0x80, 0x80]) == 0
  {
  }
}
