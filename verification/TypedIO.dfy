/**
 The typed read and write methods of ByteArray, run against the list of nodes.
 */
module TypedIO {
  import opened Bits
  import opened Endian
  import opened Varint
  import opened Codec
  import opened FlatBuffer
  import opened ByteArrays

  // ---- writing ------------------------------------------------------------------------

  /** writeF*: byte order first, then write. */
  method WriteFixed(ba: ByteArray, v: nat, width: nat, host: Order)
    requires ba.Valid() && v < Pow2(8 * width)
    modifies ba, ba.nodes
    ensures ba.Valid() && ba.order == old(ba.order) && old(ba.nodes) <= ba.nodes
    ensures forall j :: |old(ba.nodes)| <= j < |ba.nodes| ==> fresh(ba.nodes[j])
    ensures old(ba.View()).Ok() && Wrote(old(ba.View()), Wire(v, width, ba.order), ba.View())
  {
    WireIndependentOfHost(v, width, ba.order, host);
    var value := if ba.order != host then ByteSwap(v, width) else v;
    ba.Write(MemoryImage(value, width, host));
  }

  /** writeUint32 and writeUint64. */
  method WriteVarint(ba: ByteArray, v: nat, bits: nat)
    requires ba.Valid() && (bits == 32 || bits == 64) && v < Pow2(bits)
    modifies ba, ba.nodes
    ensures ba.Valid() && ba.order == old(ba.order) && old(ba.nodes) <= ba.nodes
    ensures forall j :: |old(ba.nodes)| <= j < |ba.nodes| ==> fresh(ba.nodes[j])
    ensures old(ba.View()).Ok() && Wrote(old(ba.View()), Leb128(v), ba.View())
  {
    var bytes := EncodeVarint(v, bits);
    ba.Write(bytes);
  }

  /** The number a value starts with: the integer itself, or the length of a string. */
  method WriteNumber(ba: ByteArray, item: Item, host: Order)
    requires ba.Valid() && item.Typed()
    modifies ba, ba.nodes
    ensures ba.Valid() && ba.order == old(ba.order) && old(ba.nodes) <= ba.nodes
    ensures forall j :: |old(ba.nodes)| <= j < |ba.nodes| ==> fresh(ba.nodes[j])
    ensures old(ba.View()).Ok() && Wrote(old(ba.View()), Head(item, ba.order), ba.View())
  {
    match item.kind {
      case Fixed(w, _) =>
        ModBelow(item.value.n, Pow2(8 * w));
        WriteFixed(ba, ToUnsigned(item.value.n, 8 * w), w, host);
      case UVarint(b) =>
        WriteVarint(ba, item.value.n, b);
      case SVarint(b) =>
        EncodeZigZagCorrect(item.value.n, b);
        WriteVarint(ba, EncodeZigZag(item.value.n, b), b);
      case FixedString(w) =>
        ModBelow(|item.value.s|, Pow2(8 * w));
        WriteFixed(ba, ToUnsigned(|item.value.s|, 8 * w), w, host);
      case VarintString =>
        WriteVarint(ba, |item.value.s|, 64);
    }
  }

  /** Any typed write: the number, then the characters of a string. */
  method WriteItem(ba: ByteArray, item: Item, host: Order)
    requires ba.Valid() && item.Typed()
    modifies ba, ba.nodes
    ensures ba.Valid() && ba.order == old(ba.order) && old(ba.nodes) <= ba.nodes
    ensures forall j :: |old(ba.nodes)| <= j < |ba.nodes| ==> fresh(ba.nodes[j])
    ensures old(ba.View()).Ok() && Wrote(old(ba.View()), Encode(item, ba.order), ba.View())
  {
    WriteNumber(ba, item, host);
    if item.kind.IsString() {
      ghost var mid := ba.View();
      ba.ViewOk();
      ba.Write(item.value.s);
      WroteTwice(old(ba.View()), Head(item, ba.order), mid, item.value.s, ba.View());
    }
  }

  // ---- reading ------------------------------------------------------------------------

  datatype Outcome = Got(value: Value) | Threw | Crashed

  /** A typed read: the value, an out_of_range exception, or the null cursor of an empty
      string whose prefix ends at the capacity. */
  function ReadSpec(b: Buf, kind: Kind, order: Order): Outcome
    requires b.Ok() && kind.Known()
  {
    match Parse(kind, b.Readable(), order)
    case Underflow(_) => Threw
    case Found(v, used) => if v == Str([]) && b.pos + used == |b.cells| then Crashed else Got(v)
  }

  function Consumed(b: Buf, kind: Kind, order: Order): nat
    requires b.Ok() && kind.Known()
  {
    Parse(kind, b.Readable(), order).used
  }

  method ReadFixed(ba: ByteArray, width: nat, host: Order) returns (r: Decoded)
    requires ba.Valid() && width >= 1
    modifies ba`position, ba`cur
    ensures ba.Valid() && old(ba.View()).Ok()
    ensures var bs := old(ba.View()).Readable();
      r == if |bs| < width then Short else Done(Unwire(bs[..width], ba.order), width)
    ensures ba.View() == old(ba.View()).(pos := old(ba.position) + (if r.Done? then width else 0))
  {
    ba.ViewOk();
    ghost var b := ba.View();
    var data := ba.Read(width);
    if data.OutOfRange? {
      return Short;
    }
    assert data.bytes == b.Readable()[..width];
    FromWireInverts(data.bytes, ba.order, host);
    r := Done(FromWire(data.bytes, ba.order, host), width);
  }

  function Plus(d: Decoded, n: nat): Decoded {
    match d
    case Done(v, c) => Done(v, c + n)
    case Short => Short
  }

  /** readFuint8. */
  method ReadByte(ba: ByteArray) returns (ok: bool, x: Byte)
    requires ba.Valid()
    modifies ba`position, ba`cur
    ensures ba.Valid() && old(ba.View()).Ok()
    ensures ok <==> old(ba.View()).Readable() != []
    ensures ok ==> x == old(ba.View()).Readable()[0]
    ensures ba.View() == old(ba.View()).(pos := old(ba.position) + (if ok then 1 else 0))
  {
    ba.ViewOk();
    var data := ba.Read(1);
    if data.OutOfRange? {
      return false, 0;
    }
    return true, data.bytes[0];
  }

  /** readFuint8, as the n-th byte behind b's position. */
  method ReadNth(ba: ByteArray, ghost b: Buf, n: nat) returns (ok: bool, x: Byte)
    requires ba.Valid() && b.Ok() && n <= |b.Readable()| && ba.View() == b.(pos := b.pos + n)
    modifies ba`position, ba`cur
    ensures ba.Valid()
    ensures ok <==> n < |b.Readable()|
    ensures ok ==> x == b.Readable()[n] && ba.View() == b.(pos := b.pos + (n + 1))
    ensures !ok ==> ba.View() == b.(pos := b.pos + n)
  {
    ok, x := ReadByte(ba);
  }

  /** One round of the decoding loop, on the n-th byte. */
  lemma DecodeRound(bs: seq<Byte>, n: nat, i: nat, bits: nat, result: nat)
    requires n < |bs| && i < bits
    ensures var next := Accumulate(result, bs[n], i, bits);
      DecodeFrom(bs[n..], i, bits, result)
      == if bs[n] < 0x80 then Done(next, 1) else Plus(DecodeFrom(bs[n + 1..], i + 7, bits, next), 1)
  {
    var rest := bs[n..];
    assert rest[0] == bs[n] && rest[1..] == bs[n + 1..];
  }

  /** The state of the decoding loop after n bytes. */
  ghost predicate Decoding(bs: seq<Byte>, bits: nat, n: nat, i: nat, result: nat) {
    n <= |bs| && Decode(bs, bits) == Plus(DecodeFrom(bs[n..], i, bits, result), n)
  }

  /** One round of the decoding loop; last says that it was the final byte, of the value next. */
  method ReadGroup(ba: ByteArray, ghost b: Buf, bits: nat, n: nat, i: nat, result: nat)
    returns (ok: bool, last: bool, next: nat)
    requires ba.Valid() && b.Ok() && n <= |b.Readable()| && ba.View() == b.(pos := b.pos + n)
    requires i < bits && Decoding(b.Readable(), bits, n, i, result)
    modifies ba`position, ba`cur
    ensures ba.Valid() && ba.View() == b.(pos := b.pos + (if ok then n + 1 else n))
    ensures !ok ==> n == |b.Readable()| && Decode(b.Readable(), bits) == Short
    ensures ok ==> n < |b.Readable()|
    ensures ok && last ==> Decode(b.Readable(), bits) == Done(next, n + 1)
    ensures ok && !last ==> Decoding(b.Readable(), bits, n + 1, i + 7, next)
  {
    var x;
    last, next := false, 0;
    ok, x := ReadNth(ba, b, n);
    if ok {
      DecodeRound(b.Readable(), n, i, bits, result);
      last := x < 0x80;
      if last {
        FinalByte(result, x, i, bits);
        next := Or(result, Shl(x, i, bits));
      } else {
        next := Or(result, Shl(And(x, 0x7f), i, bits));
      }
    }
  }

  /** readUint32 and readUint64: one readFuint8 a round. */
  method ReadVarint(ba: ByteArray, bits: nat) returns (r: Decoded)
    requires ba.Valid()
    modifies ba`position, ba`cur
    ensures ba.Valid() && old(ba.View()).Ok()
    ensures r == Decode(old(ba.View()).Readable(), bits)
    ensures ba.View() == old(ba.View()).(pos :=
      old(ba.position) + (if r.Done? then r.consumed else |old(ba.View()).Readable()|))
  {
    ba.ViewOk();
    ghost var b := ba.View();
    var i: nat, result: nat, n: nat := 0, 0, 0;
    assert b.Readable()[0..] == b.Readable();
    while i < bits
      invariant ba.Valid() && ba.View() == b.(pos := b.pos + n)
      invariant n <= |b.Readable()| && Decoding(b.Readable(), bits, n, i, result)
    {
      var ok, last, next := ReadGroup(ba, b, bits, n, i, result);
      if !ok {
        return Short;
      }
      n, i, result := n + 1, i + 7, next;
      if last {
        return Done(result, n);
      }
    }
    r := Done(result, n);
  }

  method ReadNumber(ba: ByteArray, kind: Kind, host: Order) returns (r: Decoded)
    requires ba.Valid() && kind.Known()
    modifies ba`position, ba`cur
    ensures ba.Valid() && old(ba.View()).Ok()
    ensures r == ParseNumber(kind, old(ba.View()).Readable(), ba.order)
    ensures ba.View() == old(ba.View()).(pos :=
      old(ba.position) + (if r.Done? then r.consumed else ShortCost(kind, old(ba.View()).Readable())))
  {
    match kind {
      case Fixed(w, _) => r := ReadFixed(ba, w, host);
      case UVarint(b) => r := ReadVarint(ba, b);
      case SVarint(b) => r := ReadVarint(ba, b);
      case FixedString(w) => r := ReadFixed(ba, w, host);
      case VarintString => r := ReadVarint(ba, 64);
    }
  }

  /** The integer reads: readF* and the varint family. */
  method ReadInteger(ba: ByteArray, kind: Kind, host: Order) returns (r: Outcome)
    requires ba.Valid() && kind.Known() && !kind.IsString()
    modifies ba`position, ba`cur
    ensures ba.Valid() && old(ba.View()).Ok()
    ensures r == Threw ==> ba.position == if kind.Fixed? then old(ba.position) else ba.size
    ensures r == ReadSpec(old(ba.View()), kind, ba.order)
    ensures ba.View() == old(ba.View()).(pos := old(ba.position) + Consumed(old(ba.View()), kind, ba.order))
  {
    var number := ReadNumber(ba, kind, host);
    if number.Short? {
      return Threw;
    }
    var u := number.value;
    match kind {
      case Fixed(w, signed) => r := Got(Num(if signed then ToSigned(u, 8 * w) else u));
      case UVarint(_) => r := Got(Num(u));
      case SVarint(bits) => r := Got(Num(DecodeZigZag(u, bits)));
    }
  }

  /** The string reads: the length, then as many characters. */
  method ReadString(ba: ByteArray, kind: Kind, host: Order) returns (r: Outcome)
    requires ba.Valid() && kind.Known() && kind.IsString()
    modifies ba`position, ba`cur
    ensures ba.Valid() && old(ba.View()).Ok()
    ensures r == ReadSpec(old(ba.View()), kind, ba.order)
    ensures ba.View() == old(ba.View()).(pos := old(ba.position) + Consumed(old(ba.View()), kind, ba.order))
  {
    ba.ViewOk();
    ghost var b := ba.View();
    var number := ReadNumber(ba, kind, host);
    if number.Short? {
      return Threw;
    }
    ba.ViewOk();
    StringSpec(b, kind, ba.order, number.value, ba.View());
    r := ReadBody(ba, number.value);
  }

  /** The characters of a string, once its length is known. */
  function BodySpec(m: Buf, len: nat): Outcome
    requires m.Ok()
  {
    if len > m.size - m.pos then Threw
    else if m.pos == |m.cells| then Crashed
    else Got(Str(m.cells[m.pos..m.pos + len]))
  }

  /** What a string read does, in terms of the length it found; m is the state behind the length. */
  lemma StringSpec(b: Buf, kind: Kind, order: Order, u: nat, m: Buf)
    requires b.Ok() && kind.Known() && kind.IsString()
    requires m.Ok() && b.pos <= m.pos && m == b.(pos := m.pos)
    requires ParseNumber(kind, b.Readable(), order) == Done(u, m.pos - b.pos)
    ensures ReadSpec(b, kind, order) == BodySpec(m, u)
    ensures b.pos + Consumed(b, kind, order) == m.pos + if u > m.size - m.pos then 0 else u
  {
    if u <= m.size - m.pos {
      SliceOfSlice(b.cells, b.pos, b.size, m.pos - b.pos, u);
    }
  }

  method ReadBody(ba: ByteArray, len: nat) returns (r: Outcome)
    requires ba.Valid()
    modifies ba`position, ba`cur
    ensures ba.Valid() && old(ba.View()).Ok()
    ensures r == BodySpec(old(ba.View()), len)
    ensures ba.View() == old(ba.View()).(pos :=
      old(ba.position) + if len > old(ba.size) - old(ba.position) then 0 else len)
  {
    ba.ViewOk();
    var data := ba.Read(len);
    match data {
      case OutOfRange => return Threw;
      case NullCursor => return Crashed;
      case Data(bytes) => return Got(Str(bytes));
    }
  }
}
