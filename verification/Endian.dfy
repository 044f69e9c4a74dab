/**
 Byte order (dag/utils/endian.h) and the fixed-width wire image that
 ByteArray::writeF* produces.  A value of `width` bytes is a natural number
 below 256 to the width; signed types and the floating-point types are their bit patterns.
 */
module Endian {
  import opened Bits

  datatype Order = Little | Big

  /** The bytes of a value, least significant first: its memory image on a little-endian host. */
  function LittleBytes(v: nat, width: nat): (bs: seq<Byte>)
    ensures |bs| == width
    decreases width
  {
    if width == 0 then [] else [v % 256] + LittleBytes(v / 256, width - 1)
  }

  function FromLittle(bs: seq<Byte>): nat {
    if bs == [] then 0 else bs[0] + 256 * FromLittle(bs[1..])
  }

  function Reverse(bs: seq<Byte>): (r: seq<Byte>)
    ensures |r| == |bs|
    ensures forall i :: 0 <= i < |bs| ==> r[i] == bs[|bs| - 1 - i]
  {
    if bs == [] then [] else Reverse(bs[1..]) + [bs[0]]
  }

  /** bswap_16, bswap_32 and bswap_64, for width 2, 4 and 8. */
  function ByteSwap(v: nat, width: nat): nat {
    FromLittle(Reverse(LittleBytes(v, width)))
  }

  /** The bytes that memcpy sees of a value held by a host of the given order. */
  function MemoryImage(v: nat, width: nat, host: Order): seq<Byte> {
    if host == Little then LittleBytes(v, width) else Reverse(LittleBytes(v, width))
  }

  function FromMemory(bs: seq<Byte>, host: Order): nat {
    if host == Little then FromLittle(bs) else FromLittle(Reverse(bs))
  }

  /** What writeFuintN hands to `write`: swapped first when the array's order is not the host's. */
  function WireImage(v: nat, width: nat, order: Order, host: Order): seq<Byte> {
    MemoryImage(if order != host then ByteSwap(v, width) else v, width, host)
  }

  /** What readFuintN makes of the bytes `read` copied into a host variable. */
  function FromWire(bs: seq<Byte>, order: Order, host: Order): nat {
    var v := FromMemory(bs, host);
    if order == host then v else ByteSwap(v, |bs|)
  }

  /** The wire format of RFC 791, Appendix B (Big), or its mirror image: no host in sight. */
  function Wire(v: nat, width: nat, order: Order): (bs: seq<Byte>)
    ensures |bs| == width
  {
    if order == Little then LittleBytes(v, width) else Reverse(LittleBytes(v, width))
  }

  function Unwire(bs: seq<Byte>, order: Order): nat {
    if order == Little then FromLittle(bs) else FromLittle(Reverse(bs))
  }

  lemma {:induction false} FromLittleOfBytes(v: nat, width: nat)
    requires v < Pow2(8 * width)
    ensures FromLittle(LittleBytes(v, width)) == v
    decreases width
  {
    if width > 0 {
      Pow2Sum(8, 8 * (width - 1));
      assert Pow2(8) == 256;
      assert v / 256 < Pow2(8 * (width - 1));
      FromLittleOfBytes(v / 256, width - 1);
      assert LittleBytes(v, width)[1..] == LittleBytes(v / 256, width - 1);
    }
  }

  lemma {:induction false} LittleBytesOfFrom(bs: seq<Byte>)
    ensures FromLittle(bs) < Pow2(8 * |bs|)
    ensures LittleBytes(FromLittle(bs), |bs|) == bs
  {
    if bs != [] {
      LittleBytesOfFrom(bs[1..]);
      Pow2Sum(8, 8 * (|bs| - 1));
      assert Pow2(8) == 256;
      var v := FromLittle(bs);
      assert v % 256 == bs[0] && v / 256 == FromLittle(bs[1..]);
    }
  }

  lemma ReverseTwice(bs: seq<Byte>)
    ensures Reverse(Reverse(bs)) == bs
  {
    assert forall i :: 0 <= i < |bs| ==> Reverse(Reverse(bs))[i] == Reverse(bs)[|bs| - 1 - i];
  }

  /** The bytes on the wire depend on the chosen order only, never on the host. */
  lemma WireIndependentOfHost(v: nat, width: nat, order: Order, host: Order)
    requires v < Pow2(8 * width)
    ensures WireImage(v, width, order, host) == Wire(v, width, order)
  {
    var bs := LittleBytes(v, width);
    LittleBytesOfFrom(Reverse(bs));
    ReverseTwice(bs);
  }

  /** Reading undoes writing in every combination of array order and host order. */
  lemma FromWireInverts(bs: seq<Byte>, order: Order, host: Order)
    ensures FromWire(bs, order, host) == Unwire(bs, order)
    ensures Unwire(bs, order) < Pow2(8 * |bs|)
    ensures Wire(Unwire(bs, order), |bs|, order) == bs
  {
    LittleBytesOfFrom(bs);
    LittleBytesOfFrom(Reverse(bs));
    ReverseTwice(bs);
  }

  lemma UnwireOfWire(v: nat, width: nat, order: Order)
    requires v < Pow2(8 * width)
    ensures Unwire(Wire(v, width, order), order) == v
  {
    FromLittleOfBytes(v, width);
    ReverseTwice(LittleBytes(v, width));
  }

  lemma {:induction false} LittleByte(v: nat, width: nat, i: nat)
    requires i < width
    ensures LittleBytes(v, width)[i] == (v / Pow2(8 * i)) % 256
    decreases width
  {
    if i > 0 {
      LittleByte(v / 256, width - 1, i - 1);
      NextEight(v, i - 1, i);
    } else {
      assert Pow2(0) == 1;
    }
  }

  lemma NextEight(v: nat, i: nat, next: nat)
    requires next == i + 1
    ensures (v / 256) / Pow2(8 * i) == v / Pow2(8 * next)
  {
    Pow2Sum(8, 8 * i);
    assert Pow2(8) == 256;
    DivDiv(v, 256, Pow2(8 * i));
  }

  /** Every byte on the wire: base 256, the most significant first (network order) or last. */
  lemma WireByte(v: nat, width: nat, i: nat)
    requires i < width
    ensures Wire(v, width, Big)[i] == (v / Pow2(8 * (width - 1 - i))) % 256
    ensures Wire(v, width, Little)[i] == (v / Pow2(8 * i)) % 256
  {
    LittleByte(v, width, i);
    LittleByte(v, width, width - 1 - i);
  }

  /** In network order the first byte is the most significant one. */
  lemma {:induction false} BigEndianLeads(v: nat, width: nat)
    requires width >= 1
    requires v < Pow2(8 * width)
    ensures Wire(v, width, Big)[0] == v / Pow2(8 * (width - 1))
    decreases width
  {
    var bs := LittleBytes(v, width);
    assert Wire(v, width, Big)[0] == bs[width - 1];
    if width > 1 {
      Pow2Sum(8, 8 * (width - 1));
      assert Pow2(8) == 256;
      assert v / 256 < Pow2(8 * (width - 1));
      BigEndianLeads(v / 256, width - 1);
      assert bs[width - 1] == LittleBytes(v / 256, width - 1)[width - 2];
      Pow2Sum(8, 8 * (width - 2));
      DivDiv(v, 256, Pow2(8 * (width - 2)));
    } else {
      assert Pow2(8) == 256 && Pow2(0) == 1;
    }
  }
}
