/**
 The variable-length integers of dag/bytearray.cpp: the Base 128 Varint of the
 Protocol Buffers encoding (unsigned LEB128, section 7.6 of DWARF 5) and ZigZag.
 */
module Varint {
  import opened Bits

  /** Unsigned LEB128: seven bits a byte, least significant group first. */
  function Leb128(v: nat): (bs: seq<Byte>)
    ensures |bs| >= 1
  {
    if v < 128 then [v] else [v % 128 + 128] + Leb128(v / 128)
  }

  datatype Decoded = Done(value: nat, consumed: nat) | Short

  /** The next value of `result` in the loop of readUint32 / readUint64, at shift i. */
  function Accumulate(result: nat, b: Byte, i: nat, width: nat): nat {
    Or(result, Shl(And(b, 0x7f), i, width))
  }

  /** A byte without the flag needs no mask. */
  lemma FinalByte(result: nat, x: Byte, i: nat, width: nat)
    requires x < 0x80
    ensures Accumulate(result, x, i, width) == Or(result, Shl(x, i, width))
  {
    var bits := And(x, 0x7f);
    assert bits == x by { LowGroup(x); }
  }

  /** The loop of readUint32 (width 32) and readUint64 (width 64), from shift i on. */
  function DecodeFrom(bs: seq<Byte>, i: nat, width: nat, result: nat): Decoded
    decreases |bs|
  {
    if i >= width then Done(result, 0)
    else if bs == [] then Short
    else
      var next := Accumulate(result, bs[0], i, width);
      if bs[0] < 0x80 then Done(next, 1)
      else
        match DecodeFrom(bs[1..], i + 7, width, next)
        case Done(v, n) => Done(v, n + 1)
        case Short => Short
  }

  function Decode(bs: seq<Byte>, width: nat): Decoded {
    DecodeFrom(bs, 0, width, 0)
  }

  lemma LowGroup(v: nat)
    ensures And(v, 0x7F) == v % 128
  {
    var k := 7;
    AndMask(v, k);
    assert Pow2(7) == 128;
  }

  lemma SetFlag(group: nat)
    requires group < 128
    ensures Or(group, 0x80) == group + 128
  {
    var k, one := 7, 1;
    assert Pow2(7) == 128;
    OrDisjoint(group, one, k);
  }

  /** One byte of the encoder's loop: (value & 0x7F) | 0x80 is the low group plus the flag. */
  lemma GroupByte(v: nat)
    ensures Or(And(v, 0x7F), 0x80) == v % 128 + 128
    ensures Shr(v, 7) == v / 128
  {
    assert Pow2(7) == 128;
    LowGroup(v);
    SetFlag(v % 128);
  }

  /** n bytes are enough exactly for the values below 128 to the n. */
  lemma {:induction false} Leb128Length(v: nat, n: nat)
    requires n >= 1
    ensures |Leb128(v)| <= n <==> v < Pow2(7 * n)
    decreases n
  {
    assert Pow2(7) == 128;
    if n == 1 {
    } else {
      Pow2Sum(7, 7 * (n - 1));
      if v >= 128 {
        Leb128Length(v / 128, n - 1);
        assert v / 128 < Pow2(7 * (n - 1)) <==> v < 128 * Pow2(7 * (n - 1));
      } else {
        Pow2Monotone(7, 7 * n);
      }
    }
  }

  /** Every byte of an encoding: seven bits of the value, and the flag on all but the last. */
  lemma {:induction false} Leb128Byte(v: nat, i: nat)
    requires i < |Leb128(v)|
    ensures Leb128(v)[i] == (v / Pow2(7 * i)) % 128 + (if i < |Leb128(v)| - 1 then 128 else 0)
  {
    if i > 0 {
      LebStep(v, v % 128 + 128, v / 128);
      Leb128Byte(v / 128, i - 1);
      NextSeven(v, i - 1, i);
    } else {
      assert Pow2(0) == 1;
    }
  }

  lemma NextSeven(v: nat, i: nat, next: nat)
    requires next == i + 1
    ensures (v / 128) / Pow2(7 * i) == v / Pow2(7 * next)
  {
    Pow2Sum(7, 7 * i);
    assert Pow2(7) == 128;
    DivDiv(v, 128, Pow2(7 * i));
  }

  /** The loop of writeUint32 and writeUint64, into their local buffer. */
  method EncodeInto(v: nat, tmp: array<Byte>) returns (i: nat)
    requires |Leb128(v)| <= tmp.Length
    modifies tmp
    ensures i <= tmp.Length
    ensures tmp[..i] == Leb128(v)
  {
    i := 0;
    var value := v;
    while value >= 0x80
      invariant i + |Leb128(value)| <= tmp.Length
      invariant tmp[..i] + Leb128(value) == Leb128(v)
      decreases value
    {
      EmitGroup(tmp[..i], value);
      tmp[i] := Or(And(value, 0x7F), 0x80);
      value := Shr(value, 7);
      i := i + 1;
    }
    tmp[i] := value;
    i := i + 1;
  }

  lemma EmitGroup(done: seq<Byte>, value: nat)
    requires value >= 128
    ensures Or(And(value, 0x7F), 0x80) == value % 128 + 128
    ensures Shr(value, 7) == value / 128
    ensures |Leb128(value)| == 1 + |Leb128(value / 128)|
    ensures done + Leb128(value) == (done + [value % 128 + 128]) + Leb128(value / 128)
  {
    GroupByte(value);
    LebStep(value, value % 128 + 128, value / 128);
    Regroup(done, value % 128 + 128, Leb128(value / 128));
  }

  lemma LebStep(value: nat, x: Byte, rest: nat)
    requires value >= 128 && x == value % 128 + 128 && rest == value / 128
    ensures Leb128(value) == [x] + Leb128(rest)
  {
  }

  lemma Regroup(done: seq<Byte>, x: Byte, rest: seq<Byte>)
    ensures done + ([x] + rest) == (done + [x]) + rest
  {
  }

  /** The bytes that writeUint32 and writeUint64 hand to `write`. */
  method EncodeVarint(v: nat, bits: nat) returns (bytes: seq<Byte>)
    requires (bits == 32 || bits == 64) && v < Pow2(bits)
    ensures bytes == Leb128(v)
  {
    EncodingFits(v, bits);
    var tmp := new Byte[if bits == 32 then 5 else 10];
    var i := EncodeInto(v, tmp);
    bytes := tmp[..i];
  }

  /** The five-byte and the ten-byte buffer are never overrun. */
  lemma EncodingFits(v: nat, width: nat)
    requires width == 32 || width == 64
    requires v < Pow2(width)
    ensures |Leb128(v)| <= if width == 32 then 5 else 10
  {
    if width == 32 {
      Pow2Monotone(32, 35);
      Leb128Length(v, 5);
    } else {
      Pow2Monotone(64, 70);
      Leb128Length(v, 10);
    }
  }

  /** Decoding an encoding, whatever follows it, gives the value and consumes exactly its bytes. */
  lemma {:induction false} DecodeInverts(v: nat, width: nat, suffix: seq<Byte>)
    requires v < Pow2(width)
    requires width >= 1
    ensures Decode(Leb128(v) + suffix, width) == Done(v, |Leb128(v)|)
  {
    DecodeFromInverts(v, 0, width, 0, suffix);
  }

  lemma {:induction false} DecodeFromInverts(v: nat, i: nat, width: nat, result: nat, suffix: seq<Byte>)
    requires i < width
    requires result < Pow2(i)
    requires result + v * Pow2(i) < Pow2(width)
    ensures DecodeFrom(Leb128(v) + suffix, i, width, result) == Done(result + v * Pow2(i), |Leb128(v)|)
    decreases v
  {
    var bs := Leb128(v) + suffix;
    var next := result + (v % 128) * Pow2(i);
    AccumulateAdds(result, bs[0], v % 128, v, i, width);
    if v >= 128 {
      assert bs[1..] == Leb128(v / 128) + suffix;
      NextGroup(v, i, width, result);
      DecodeFromInverts(v / 128, i + 7, width, next, suffix);
    }
    DecodeStep(bs, i, width, result, next);
  }

  lemma DecodeStep(bs: seq<Byte>, i: nat, width: nat, result: nat, next: nat)
    requires bs != [] && i < width && Accumulate(result, bs[0], i, width) == next
    ensures bs[0] < 0x80 ==> DecodeFrom(bs, i, width, result) == Done(next, 1)
    ensures bs[0] >= 0x80 ==>
      DecodeFrom(bs, i, width, result) ==
        match DecodeFrom(bs[1..], i + 7, width, next)
        case Done(v, n) => Done(v, n + 1)
        case Short => Short
  {
  }

  lemma NextGroup(v: nat, i: nat, width: nat, result: nat)
    requires v >= 128
    requires result < Pow2(i)
    requires result + v * Pow2(i) < Pow2(width)
    ensures i + 7 < width
    ensures result + (v % 128) * Pow2(i) < Pow2(i + 7)
    ensures v * Pow2(i) == (v % 128) * Pow2(i) + (v / 128) * Pow2(i + 7)
  {
    var p := Pow2(i);
    assert Pow2(i + 7) == p * 128 by {
      Pow2Sum(i, 7);
      assert Pow2(7) == 128;
    }
    SplitGroup(v, p);
    GroupBelow(result, v % 128, p);
    if i + 7 >= width {
      Pow2Monotone(width, i + 7);
      TooBig(v, p);
      assert false;
    }
  }

  lemma SplitGroup(v: nat, p: nat)
    ensures v * p == (v % 128) * p + (v / 128) * (p * 128)
  {
    assert v == v % 128 + (v / 128) * 128;
    assert ((v / 128) * 128) * p == (v / 128) * (p * 128);
    assert (v % 128 + (v / 128) * 128) * p == (v % 128) * p + ((v / 128) * 128) * p;
  }

  lemma GroupBelow(result: nat, group: nat, p: nat)
    requires result < p && group < 128
    ensures result + group * p < p * 128
  {
    assert group * p <= 127 * p;
  }

  lemma TooBig(v: nat, p: nat)
    requires v >= 128
    ensures v * p >= p * 128
  {
  }

  lemma AccumulateAdds(result: nat, b: Byte, group: nat, v: nat, i: nat, width: nat)
    requires result < Pow2(i)
    requires group == b % 128 && group <= v
    requires result + v * Pow2(i) < Pow2(width)
    ensures Accumulate(result, b, i, width) == result + group * Pow2(i)
  {
    LowGroup(b);
    ShiftGroup(group, v, i, width);
    OrDisjoint(result, group, i);
  }

  lemma ShiftGroup(group: nat, v: nat, i: nat, width: nat)
    requires group <= v && v * Pow2(i) < Pow2(width)
    ensures Shl(group, i, width) == group * Pow2(i)
  {
    ShlIsProduct(group, i, width);
    GroupFits(group, v, Pow2(i), Pow2(width));
    ModSmall(group * Pow2(i), Pow2(width));
  }

  lemma GroupFits(group: nat, v: nat, p: nat, m: nat)
    requires group <= v && v * p < m
    ensures group * p < m
  {
    MulMonotone(p, group, v);
  }

  // ---- decoding any bytes -------------------------------------------------------------

  /** The number that the low seven bits of the bytes make up. */
  function Groups(bs: seq<Byte>): nat {
    if bs == [] then 0 else bs[0] % 128 + 128 * Groups(bs[1..])
  }

  /** A shifted group is cut off at the width. */
  lemma AccumulateCuts(result: nat, b: Byte, i: nat, width: nat)
    requires result < Pow2(i) && i < width
    ensures Accumulate(result, b, i, width) == (result + (b % 128) * Pow2(i)) % Pow2(width)
  {
    var g, p, c := b % 128, Pow2(i), Pow2(width - i);
    LowGroup(b);
    ShlIsProduct(g, i, width);
    Pow2Sum(i, width - i);
    CutProduct(g, p, c);
    OrDisjoint(result, g % c, i);
    CutSum(result, g, p, c);
  }

  lemma CutProduct(g: nat, p: nat, c: nat)
    requires p >= 1 && c >= 1
    ensures p * c >= 1 && (g * p) % (p * c) == (g % c) * p
  {
    MulAtLeast(p, c);
    assert g * p == (p * c) * (g / c) + (g % c) * p by {
      assert g == c * (g / c) + g % c;
      assert (c * (g / c) + g % c) * p == (p * c) * (g / c) + (g % c) * p;
    }
    MulMonotone(p, g % c + 1, c);
    assert p * (g % c + 1) == (g % c) * p + p;
    DivModUnique(g * p, p * c, g / c, (g % c) * p);
  }

  lemma CutSum(result: nat, g: nat, p: nat, c: nat)
    requires result < p && c >= 1
    ensures p * c >= 1 && (result + g * p) % (p * c) == result + (g % c) * p
  {
    CutProduct(g, p, c);
    MulMonotone(p, g % c + 1, c);
    assert p * (g % c + 1) == (g % c) * p + p;
    DivModUnique(result + g * p, p * c, (g * p) / (p * c), result + (g % c) * p);
  }

  /** What the loops of readUint32 and readUint64 make of any bytes: they stop behind the first byte
      without a flag, or when the width is full, and the number is cut at the width. */
  predicate DecodesTo(bs: seq<Byte>, i: nat, width: nat, result: nat, d: Decoded) {
    match d
    case Short => i + 7 * |bs| < width && forall j :: 0 <= j < |bs| ==> bs[j] >= 128
    case Done(v, n) =>
      && 1 <= n <= |bs| && i + 7 * (n - 1) < width
      && (forall j :: 0 <= j < n - 1 ==> bs[j] >= 128)
      && (bs[n - 1] < 128 || i + 7 * n >= width)
      && v == (result + Groups(bs[..n]) * Pow2(i)) % Pow2(width)
  }

  lemma {:induction false} DecodeFromAny(bs: seq<Byte>, i: nat, width: nat, result: nat)
    requires i < width && result < Pow2(i)
    ensures DecodesTo(bs, i, width, result, DecodeFrom(bs, i, width, result))
    decreases |bs|
  {
    if bs != [] {
      var next := Accumulate(result, bs[0], i, width);
      AccumulateCuts(result, bs[0], i, width);
      if bs[0] < 128 || i + 7 >= width {
        LastGroup(bs, i, width, result, next);
      } else {
        NotCut(result, bs[0] % 128, i, width, next);
        DecodeFromAny(bs[1..], i + 7, width, next);
        OneMoreGroup(bs, i, width, result, next, DecodeFrom(bs[1..], i + 7, width, next));
      }
    }
  }

  lemma LastGroup(bs: seq<Byte>, i: nat, width: nat, result: nat, next: nat)
    requires bs != [] && i < width && (bs[0] < 128 || i + 7 >= width)
    requires next == Accumulate(result, bs[0], i, width) == (result + (bs[0] % 128) * Pow2(i)) % Pow2(width)
    ensures DecodeFrom(bs, i, width, result) == Done(next, 1)
    ensures DecodesTo(bs, i, width, result, Done(next, 1))
  {
    assert bs[..1][0] == bs[0] && bs[..1][1..] == [];
    assert Groups(bs[..1]) == bs[0] % 128;
  }

  lemma NotCut(result: nat, g: nat, i: nat, width: nat, next: nat)
    requires result < Pow2(i) && g < 128 && i + 7 < width && next == (result + g * Pow2(i)) % Pow2(width)
    ensures next == result + g * Pow2(i) < Pow2(i + 7)
  {
    Pow2Sum(7, i);
    assert Pow2(7) == 128;
    GroupBelow(result, g, Pow2(i));
    Pow2Monotone(i + 7, width);
    ModSmall(result + g * Pow2(i), Pow2(width));
  }

  lemma OneMoreGroup(bs: seq<Byte>, i: nat, width: nat, result: nat, next: nat, d: Decoded)
    requires bs != [] && bs[0] >= 128 && i + 7 < width && next == result + (bs[0] % 128) * Pow2(i)
    requires DecodesTo(bs[1..], i + 7, width, next, d)
    ensures DecodesTo(bs, i, width, result, if d.Done? then Done(d.value, d.consumed + 1) else Short)
  {
    assert forall j :: 1 <= j < |bs| ==> bs[j] == bs[1..][j - 1];
    if d.Done? {
      var n := d.consumed;
      assert bs[..n + 1][1..] == bs[1..][..n];
      GroupsShift(bs[0] % 128, Groups(bs[1..][..n]), i, Groups(bs[..n + 1]));
    }
  }

  lemma GroupsShift(g: nat, rest: nat, i: nat, all: nat)
    requires all == g + 128 * rest
    ensures g * Pow2(i) + rest * Pow2(i + 7) == all * Pow2(i)
  {
    Pow2Sum(7, i);
    assert Pow2(7) == 128;
    assert rest * (128 * Pow2(i)) == (128 * rest) * Pow2(i);
  }

  /** Decoding any bytes at all, by the definition of the number they stand for. */
  lemma DecodeAny(bs: seq<Byte>, width: nat)
    requires width >= 1
    ensures match Decode(bs, width)
      case Short => 7 * |bs| < width && forall j :: 0 <= j < |bs| ==> bs[j] >= 128
      case Done(v, n) =>
        && 1 <= n <= |bs| && 7 * (n - 1) < width
        && (forall j :: 0 <= j < n - 1 ==> bs[j] >= 128)
        && (bs[n - 1] < 128 || 7 * n >= width)
        && v == Groups(bs[..n]) % Pow2(width)
  {
    assert Pow2(0) == 1;
    DecodeFromAny(bs, 0, width, 0);
  }

  // ---- ZigZag -------------------------------------------------------------------------

  /** EncodeZigzag32 / EncodeZigzag64, with the wrap-around of -v and of the doubling. */
  function EncodeZigZag(v: int, width: nat): nat
  {
    if v < 0 then (ToUnsigned(-v, width) * 2 - 1) % Pow2(width)
    else ToUnsigned(v * 2, width)
  }

  /** DecodeZigzag32 / DecodeZigzag64: (v >> 1) ^ -(v & 1), read back as a signed value. */
  function DecodeZigZag(u: nat, width: nat): int
    requires width >= 1
  {
    ToSigned(Xor(Shr(u, 1), ToUnsigned(0 - And(u, 1), width)), width)
  }

  /** The mapping of the Protocol Buffers encoding: 0, -1, 1, -2, 2, ... */
  function ZigZag(v: int): nat {
    if v >= 0 then 2 * v else -2 * v - 1
  }

  function UnZigZag(u: nat): int {
    if u % 2 == 0 then u / 2 else -(u / 2) - 1
  }

  lemma EncodeZigZagCorrect(v: int, width: nat)
    requires width >= 1 && IsSigned(v, width)
    ensures EncodeZigZag(v, width) == ZigZag(v) < Pow2(width)
    ensures ZigZag(v) == if v < 0 then 2 * (-v) - 1 else v + v
  {
    if v >= 0 {
      ModSmall(v * 2, Pow2(width));
    } else {
      EncodeNegative(v, Pow2(width));
    }
  }

  lemma EncodeNegative(v: int, p: nat)
    requires v < 0 && -2 * v <= p
    ensures ((-v) % p * 2 - 1) % p == -2 * v - 1
  {
    ModSmall(-v, p);
    ModSmall(-2 * v - 1, p);
  }

  lemma LowBit(u: nat)
    ensures And(u, 1) == u % 2
    ensures Shr(u, 1) == u / 2
  {
    var k := 1;
    assert Pow2(1) == 2;
    AndMask(u, k);
  }

  lemma DecodeZigZagCorrect(u: nat, width: nat)
    requires width >= 1 && u < Pow2(width)
    ensures DecodeZigZag(u, width) == UnZigZag(u)
    ensures IsSigned(UnZigZag(u), width)
  {
    if u % 2 == 0 {
      DecodeEven(u, u / 2, width);
    } else {
      DecodeOdd(u, u / 2, width);
    }
  }

  lemma DecodeEven(u: nat, half: nat, width: nat)
    requires width >= 1 && u == 2 * half && half < Pow2(width - 1)
    ensures DecodeZigZag(u, width) == half
  {
    LowBit(u);
    MaskEven(half, width);
  }

  lemma DecodeOdd(u: nat, half: nat, width: nat)
    requires width >= 1 && u == 2 * half + 1 && half < Pow2(width - 1)
    ensures DecodeZigZag(u, width) == -1 - half
  {
    LowBit(u);
    MaskOdd(half, width);
  }

  lemma MaskEven(half: nat, width: nat)
    ensures Xor(half, ToUnsigned(0, width)) == half
  {
    ModSmall(0, Pow2(width));
    XorZero(half);
  }

  lemma MaskOdd(half: nat, width: nat)
    requires half < Pow2(width)
    ensures Xor(half, ToUnsigned(-1, width)) == Pow2(width) - 1 - half
  {
    MinusOne(width);
    XorOnes(half, width);
  }

  lemma MinusOne(width: nat)
    ensures ToUnsigned(-1, width) == Pow2(width) - 1
  {
    DivModUnique(-1, Pow2(width), -1, Pow2(width) - 1);
  }

  /** Decoding undoes encoding on the full signed range of the width. */
  lemma ZigZagDecodeEncode(v: int, width: nat)
    requires width >= 1 && IsSigned(v, width)
    ensures DecodeZigZag(EncodeZigZag(v, width), width) == v
  {
    EncodeZigZagCorrect(v, width);
    DecodeZigZagCorrect(ZigZag(v), width);
  }

  /** Encoding undoes decoding on the full unsigned range of the width. */
  lemma ZigZagEncodeDecode(u: nat, width: nat)
    requires width >= 1 && u < Pow2(width)
    ensures EncodeZigZag(DecodeZigZag(u, width), width) == u
  {
    DecodeZigZagCorrect(u, width);
    EncodeZigZagCorrect(UnZigZag(u), width);
  }
}
