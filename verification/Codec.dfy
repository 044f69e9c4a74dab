/**
 The typed values of ByteArray (dag/bytearray.cpp, writeF*, write*, readF*, read*):
 their encodings, and the theorem that reading back returns what was written.
 */
module Codec {
  import opened Bits
  import opened Endian
  import opened Varint

  /** The value families: fixed width in bytes (the C++ types have 1, 2, 4 and 8), varints
      and ZigZag in bits, and strings behind a length prefix. */
  datatype Kind =
    | Fixed(width: nat, signed: bool)
    | UVarint(bits: nat)
    | SVarint(bits: nat)
    | FixedString(width: nat)
    | VarintString
  {
    predicate Known() {
      match this
      case Fixed(w, _) => w >= 1
      case UVarint(b) => b == 32 || b == 64
      case SVarint(b) => b == 32 || b == 64
      case FixedString(w) => w >= 1
      case VarintString => true
    }

    predicate IsString() {
      FixedString? || VarintString?
    }
  }

  datatype Value = Num(n: int) | Str(s: seq<Byte>)

  datatype Item = Item(kind: Kind, value: Value) {
    /** The C++ type of the parameter; a std::string is shorter than 2 to the 64. */
    predicate Typed() {
      && kind.Known()
      && match kind
         case Fixed(w, signed) =>
           value.Num? && (if signed then IsSigned(value.n, 8 * w) else 0 <= value.n < Pow2(8 * w))
         case UVarint(b) => value.Num? && 0 <= value.n < Pow2(b)
         case SVarint(b) => value.Num? && IsSigned(value.n, b)
         case _ => value.Str? && |value.s| < Pow2(64)
    }

    /** The length of a string fits its prefix. */
    predicate PrefixFits() {
      kind.FixedString? && value.Str? ==> |value.s| < Pow2(8 * kind.width)
    }

    predicate EmptyString() {
      value == Str([])
    }
  }

  /** The number a value starts with: the integer itself, or the length of a string. */
  function Head(item: Item, order: Order): seq<Byte>
    requires item.Typed()
  {
    match item.kind
    case Fixed(w, _) => Wire(ToUnsigned(item.value.n, 8 * w), w, order)
    case UVarint(_) => Leb128(item.value.n)
    case SVarint(b) => Leb128(EncodeZigZag(item.value.n, b))
    case FixedString(w) => Wire(ToUnsigned(|item.value.s|, 8 * w), w, order)
    case VarintString => Leb128(|item.value.s|)
  }

  function Encode(item: Item, order: Order): seq<Byte>
    requires item.Typed()
  {
    if item.kind.IsString() then Head(item, order) + item.value.s else Head(item, order)
  }

  /** What a typed read finds in the readable bytes, and how many it uses up. */
  datatype Parsed = Found(value: Value, used: nat) | Underflow(used: nat)

  /** The number that starts a value: the fixed-width or varint part. */
  function ParseNumber(kind: Kind, bs: seq<Byte>, order: Order): Decoded
    requires kind.Known()
  {
    match kind
    case Fixed(w, _) => if |bs| < w then Short else Done(Unwire(bs[..w], order), w)
    case UVarint(b) => Decode(bs, b)
    case SVarint(b) => Decode(bs, b)
    case FixedString(w) => if |bs| < w then Short else Done(Unwire(bs[..w], order), w)
    case VarintString => Decode(bs, 64)
  }

  /** The bytes gone when the number is cut short: none of a fixed one, all of a varint. */
  function ShortCost(kind: Kind, bs: seq<Byte>): nat {
    if kind.Fixed? || kind.FixedString? then 0 else |bs|
  }

  function Parse(kind: Kind, bs: seq<Byte>, order: Order): Parsed
    requires kind.Known()
  {
    match ParseNumber(kind, bs, order)
    case Short => Underflow(ShortCost(kind, bs))
    case Done(u, used) =>
      match kind
      case Fixed(w, signed) => Found(Num(if signed then ToSigned(u, 8 * w) else u), used)
      case UVarint(_) => Found(Num(u), used)
      case SVarint(b) => Found(Num(DecodeZigZag(u, b)), used)
      case _ =>
        if used <= |bs| && u <= |bs| - used then Found(Str(bs[used..used + u]), used + u)
        else Underflow(used)
  }

  /** The bytes of a fixed-width integer or length prefix: two's complement, in base 256. */
  predicate InBase256(n: int, w: nat, order: Order, bs: seq<Byte>) {
    && |bs| == w
    && forall i :: 0 <= i < w ==> bs[i] == (n / Pow2(8 * (if order == Big then w - 1 - i else i))) % 256
  }

  /** The bytes of a varint: as few as hold the number, in base 128, low first, flagged but the last. */
  predicate InBase128(n: nat, bs: seq<Byte>) {
    && |bs| >= 1 && n < Pow2(7 * |bs|) && (|bs| > 1 ==> n >= Pow2(7 * (|bs| - 1)))
    && forall i :: 0 <= i < |bs| ==> bs[i] == (n / Pow2(7 * i)) % 128 + (if i < |bs| - 1 then 128 else 0)
  }

  lemma WireInBase256(n: int, w: nat, order: Order)
    ensures InBase256(n, w, order, Wire(ToUnsigned(n, 8 * w), w, order))
  {
    var bs := Wire(ToUnsigned(n, 8 * w), w, order);
    forall i | 0 <= i < w
      ensures bs[i] == (n / Pow2(8 * (if order == Big then w - 1 - i else i))) % 256
    {
      WireByte(ToUnsigned(n, 8 * w), w, i);
      ByteOfCut(n, 8 * (if order == Big then w - 1 - i else i), 8 * w);
    }
  }

  lemma LebInBase128(n: nat)
    ensures InBase128(n, Leb128(n))
  {
    var bs := Leb128(n);
    Leb128Length(n, |bs|);
    if |bs| > 1 {
      Leb128Length(n, |bs| - 1);
    }
    forall i | 0 <= i < |bs|
      ensures bs[i] == (n / Pow2(7 * i)) % 128 + (if i < |bs| - 1 then 128 else 0)
    {
      Leb128Byte(n, i);
    }
  }

  /** The bytes of every typed value. */
  lemma EncodedBytes(item: Item, order: Order)
    requires item.Typed()
    ensures var bs, k := Encode(item, order), item.kind;
      && (k.Fixed? ==> InBase256(item.value.n, k.width, order, bs))
      && (k.UVarint? ==> InBase128(item.value.n, bs))
      && (k.SVarint? ==> InBase128(if item.value.n < 0 then -2 * item.value.n - 1 else 2 * item.value.n, bs))
      && (k.IsString() ==> |bs| >= |item.value.s| && bs[|bs| - |item.value.s|..] == item.value.s)
      && (k.FixedString? ==> InBase256(|item.value.s|, k.width, order, bs[..|bs| - |item.value.s|]))
      && (k.VarintString? ==> InBase128(|item.value.s|, bs[..|bs| - |item.value.s|]))
  {
    var bs := Head(item, order);
    if item.kind.IsString() {
      assert Encode(item, order)[..|bs|] == bs && Encode(item, order)[|bs|..] == item.value.s;
    }
    match item.kind {
      case Fixed(w, _) => WireInBase256(item.value.n, w, order);
      case UVarint(_) => LebInBase128(item.value.n);
      case SVarint(b) =>
        EncodeZigZagCorrect(item.value.n, b);
        LebInBase128(ZigZag(item.value.n));
      case FixedString(w) => WireInBase256(|item.value.s|, w, order);
      case VarintString => LebInBase128(|item.value.s|);
    }
  }

  lemma EncodeNonEmpty(item: Item, order: Order)
    requires item.Typed()
    ensures |Encode(item, order)| >= 1
  {
  }

  lemma SignedRoundTrip(n: int, bits: nat)
    requires bits >= 1 && IsSigned(n, bits)
    ensures ToUnsigned(n, bits) < Pow2(bits)
    ensures ToSigned(ToUnsigned(n, bits), bits) == n
  {
    var p := Pow2(bits);
    if n >= 0 {
      DivModUnique(n, p, 0, n);
    } else {
      DivModUnique(n, p, -1, n + p);
    }
  }

  lemma UnsignedFits(n: nat, bits: nat)
    requires n < Pow2(bits)
    ensures ToUnsigned(n, bits) == n
  {
    DivModUnique(n, Pow2(bits), 0, n);
  }

  lemma ModBelow(n: int, m: nat)
    requires m >= 1
    ensures 0 <= n % m < m
  {
  }

  lemma ParseFixedInverts(item: Item, order: Order, suffix: seq<Byte>)
    requires item.Typed() && item.kind.Fixed?
    ensures Parse(item.kind, Encode(item, order) + suffix, order)
         == Found(item.value, |Encode(item, order)|)
  {
    var w, n := item.kind.width, item.value.n;
    if item.kind.signed { SignedRoundTrip(n, 8 * w); } else { UnsignedFits(n, 8 * w); }
    assert (Encode(item, order) + suffix)[..w] == Encode(item, order);
    UnwireOfWire(ToUnsigned(n, 8 * w), w, order);
  }

  /** A string read takes as many bytes as the prefix says. */
  lemma ParsePrefixed(w: nat, u: nat, s: seq<Byte>, order: Order, suffix: seq<Byte>)
    requires FixedString(w).Known() && u < Pow2(8 * w) && u <= |s|
    ensures Parse(FixedString(w), Wire(u, w, order) + s + suffix, order) == Found(Str(s[..u]), w + u)
  {
    var head := Wire(u, w, order);
    PrefixedSlices(head, s, suffix, u);
    UnwireOfWire(u, w, order);
  }

  lemma PrefixedSlices(head: seq<Byte>, s: seq<Byte>, suffix: seq<Byte>, u: nat)
    requires u <= |s|
    ensures (head + s + suffix)[..|head|] == head
    ensures (head + s + suffix)[|head|..|head| + u] == s[..u]
  {
  }

  lemma ParseFixedStringInverts(item: Item, order: Order, suffix: seq<Byte>)
    requires item.Typed() && item.PrefixFits() && item.kind.FixedString?
    ensures Parse(item.kind, Encode(item, order) + suffix, order)
         == Found(item.value, |Encode(item, order)|)
  {
    var w, s := item.kind.width, item.value.s;
    UnsignedFits(|s|, 8 * w);
    ParsePrefixed(w, |s|, s, order, suffix);
    assert s[..|s|] == s;
  }

  lemma ParseVarintStringInverts(item: Item, order: Order, suffix: seq<Byte>)
    requires item.Typed() && item.kind.VarintString?
    ensures Parse(item.kind, Encode(item, order) + suffix, order)
         == Found(item.value, |Encode(item, order)|)
  {
    var s := item.value.s;
    var head := Leb128(|s|);
    var bs := Encode(item, order) + suffix;
    assert bs == head + (s + suffix);
    DecodeInverts(|s|, 64, s + suffix);
    assert bs[|head|..|head| + |s|] == s;
  }

  lemma ParseUVarintInverts(b: nat, n: nat, order: Order, suffix: seq<Byte>)
    requires UVarint(b).Known() && n < Pow2(b)
    ensures Parse(UVarint(b), Leb128(n) + suffix, order) == Found(Num(n), |Leb128(n)|)
  {
    DecodeInverts(n, b, suffix);
  }

  lemma ParseSVarintInverts(b: nat, n: int, order: Order, suffix: seq<Byte>)
    requires SVarint(b).Known() && IsSigned(n, b)
    ensures var bs := Leb128(EncodeZigZag(n, b));
      Parse(SVarint(b), bs + suffix, order) == Found(Num(n), |bs|)
  {
    EncodeZigZagCorrect(n, b);
    ZigZagDecodeEncode(n, b);
    DecodeInverts(EncodeZigZag(n, b), b, suffix);
  }

  lemma ParseVarintInverts(item: Item, order: Order, suffix: seq<Byte>)
    requires item.Typed() && (item.kind.UVarint? || item.kind.SVarint?)
    ensures Parse(item.kind, Encode(item, order) + suffix, order)
         == Found(item.value, |Encode(item, order)|)
  {
    if item.kind.UVarint? {
      ParseUVarintInverts(item.kind.bits, item.value.n, order, suffix);
    } else {
      ParseSVarintInverts(item.kind.bits, item.value.n, order, suffix);
    }
  }

  /** Every typed value reads back from its encoding, whatever bytes follow. */
  lemma ParseInverts(item: Item, order: Order, suffix: seq<Byte>)
    requires item.Typed() && item.PrefixFits()
    ensures Parse(item.kind, Encode(item, order) + suffix, order)
         == Found(item.value, |Encode(item, order)|)
  {
    match item.kind {
      case Fixed(_, _) =>
        ParseFixedInverts(item, order, suffix);
      case UVarint(_) =>
        ParseVarintInverts(item, order, suffix);
      case SVarint(_) =>
        ParseVarintInverts(item, order, suffix);
      case FixedString(_) =>
        ParseFixedStringInverts(item, order, suffix);
      case VarintString =>
        ParseVarintStringInverts(item, order, suffix);
    }
  }

  // ---- reading any bytes --------------------------------------------------------------

  lemma UnwireInBase256(bs: seq<Byte>, order: Order)
    ensures Unwire(bs, order) < Pow2(8 * |bs|) && InBase256(Unwire(bs, order), |bs|, order, bs)
  {
    FromWireInverts(bs, order, order);
    UnsignedFits(Unwire(bs, order), 8 * |bs|);
    WireInBase256(Unwire(bs, order), |bs|, order);
  }

  lemma SignedInBase256(bs: seq<Byte>, order: Order)
    requires |bs| >= 1
    ensures var n := ToSigned(Unwire(bs, order), 8 * |bs|);
      IsSigned(n, 8 * |bs|) && InBase256(n, |bs|, order, bs)
  {
    var u, p := Unwire(bs, order), Pow2(8 * |bs|);
    FromWireInverts(bs, order, order);
    var n := ToSigned(u, 8 * |bs|);
    DivModUnique(n, p, if n < 0 then -1 else 0, u);
    WireInBase256(n, |bs|, order);
  }

  /** A fixed-width read of any bytes: the number of the type that has these bytes, or nothing
      consumed if there are too few. */
  lemma ParseFixedMeans(w: nat, signed: bool, bs: seq<Byte>, order: Order)
    requires w >= 1
    ensures |bs| < w ==> Parse(Fixed(w, signed), bs, order) == Underflow(0)
    ensures |bs| >= w ==> exists n: int ::
      && InBase256(n, w, order, bs[..w]) && (if signed then IsSigned(n, 8 * w) else 0 <= n < Pow2(8 * w))
      && Parse(Fixed(w, signed), bs, order) == Found(Num(n), w)
  {
    if |bs| >= w {
      UnwireInBase256(bs[..w], order);
      SignedInBase256(bs[..w], order);
      var u := Unwire(bs[..w], order);
      var n := if signed then ToSigned(u, 8 * w) else u;
      assert InBase256(n, w, order, bs[..w]);
    }
  }

  /** A string read of any bytes: with too few for the prefix nothing is consumed, with too few for
      the string the prefix is. */
  lemma ParseStringMeans(w: nat, bs: seq<Byte>, order: Order)
    requires w >= 1
    ensures |bs| < w ==> Parse(FixedString(w), bs, order) == Underflow(0)
    ensures |bs| >= w ==> exists n: nat ::
      && InBase256(n, w, order, bs[..w]) && n < Pow2(8 * w)
      && Parse(FixedString(w), bs, order) ==
           if w + n <= |bs| then Found(Str(bs[w..w + n]), w + n) else Underflow(w)
  {
    if |bs| >= w {
      UnwireInBase256(bs[..w], order);
      ParsePrefix(w, bs, order, Unwire(bs[..w], order));
    }
  }

  lemma ParsePrefix(w: nat, bs: seq<Byte>, order: Order, n: nat)
    requires 1 <= w <= |bs| && n == Unwire(bs[..w], order)
    ensures Parse(FixedString(w), bs, order) ==
      if w + n <= |bs| then Found(Str(bs[w..w + n]), w + n) else Underflow(w)
  {
  }

  /** A string too long for its prefix is cut: reading it back never returns it. */
  lemma LongStringIsCut(item: Item, order: Order, suffix: seq<Byte>)
    requires item.Typed() && !item.PrefixFits()
    ensures Parse(item.kind, Encode(item, order) + suffix, order).Found?
    ensures Parse(item.kind, Encode(item, order) + suffix, order).value
         == Str(item.value.s[..|item.value.s| % Pow2(8 * item.kind.width)])
    ensures Parse(item.kind, Encode(item, order) + suffix, order).value != item.value
  {
    var w, s := item.kind.width, item.value.s;
    ModBelow(|s|, Pow2(8 * w));
    ParsePrefixed(w, |s| % Pow2(8 * w), s, order, suffix);
  }

  /** A string of 65536 bytes behind a two-byte length: the length is written as 0. */
  lemma LongStringReadsEmpty(s: seq<Byte>, order: Order)
    requires |s| == 65536
    ensures var item := Item(FixedString(2), Str(s));
      && item.Typed() && !item.PrefixFits()
      && Parse(item.kind, Encode(item, order), order).Found?
      && Parse(item.kind, Encode(item, order), order).value == Str([])
  {
    var item := Item(FixedString(2), Str(s));
    Pow2Sixteen();
    Pow2Monotone(17, 64);
    assert Encode(item, order) + [] == Encode(item, order);
    LongStringIsCut(item, order, []);
    assert 65536 % 65536 == 0 && s[..0] == [];
  }

  lemma Pow2Sixteen()
    ensures Pow2(16) == 65536 && Pow2(17) == 131072
  {
    assert Pow2(4) == 16;
    assert Pow2(8) == 256;
    assert Pow2(12) == 4096;
  }

  // ---- sequences of values ------------------------------------------------------------

  predicate AllTyped(items: seq<Item>) {
    forall i :: 0 <= i < |items| ==> items[i].Typed()
  }

  predicate AllFit(items: seq<Item>) {
    forall i :: 0 <= i < |items| ==> items[i].PrefixFits()
  }

  function EncodeAll(items: seq<Item>, order: Order): seq<Byte>
    requires AllTyped(items)
  {
    if items == [] then [] else Encode(items[0], order) + EncodeAll(items[1..], order)
  }

  lemma EncodeAllCons(item: Item, items: seq<Item>, order: Order)
    requires AllTyped(items) && item.Typed()
    ensures AllTyped([item] + items)
    ensures EncodeAll([item] + items, order) == Encode(item, order) + EncodeAll(items, order)
  {
    assert ([item] + items)[1..] == items;
  }

  lemma SnocOfCons(items: seq<Item>, item: Item)
    requires items != []
    ensures items + [item] == [items[0]] + (items[1..] + [item])
  {
  }

  lemma {:induction false} EncodeAllSnoc(items: seq<Item>, item: Item, order: Order)
    requires AllTyped(items) && item.Typed()
    ensures AllTyped(items + [item])
    ensures EncodeAll(items + [item], order) == EncodeAll(items, order) + Encode(item, order)
  {
    if items == [] {
      assert items + [item] == [item] + [];
      EncodeAllCons(item, [], order);
    } else {
      var rest := items[1..];
      EncodeAllSnoc(rest, item, order);
      SnocOfCons(items, item);
      EncodeAllCons(items[0], rest + [item], order);
      Regroup(Encode(items[0], order), EncodeAll(rest, order), Encode(item, order));
    }
  }

  lemma Regroup(a: seq<Byte>, b: seq<Byte>, c: seq<Byte>)
    ensures a + (b + c) == (a + b) + c
  {
  }

  lemma {:induction false} EncodeAllEmpty(items: seq<Item>, order: Order)
    requires AllTyped(items)
    ensures EncodeAll(items, order) == [] <==> items == []
  {
    if items != [] {
      EncodeNonEmpty(items[0], order);
    }
  }
}
