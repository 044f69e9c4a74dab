/**
 Whole runs of a ByteArray: any sequence of write, read, setPosition and clear behaves as
 on a flat buffer, and every byte a read returns is the last one written there.
 */
module BufferRuns {
  import opened Bits
  import opened FlatBuffer
  import opened ByteArrays

  datatype Op = OpWrite(data: seq<Byte>) | OpRead(n: nat) | OpSetPosition(v: nat) | OpClear

  datatype Seen = Nothing | Accepted(ok: bool) | Result(r: ReadResult)

  /** What an operation may do to the flat buffer, and what its caller sees. */
  predicate Step(b: Buf, op: Op, seen: Seen, b': Buf)
    requires b.Ok() && b.base <= |b.cells|
  {
    match op
    case OpWrite(data) => seen == Nothing && Wrote(b, data, b')
    case OpRead(n) => seen == Result(ReadOutcome(b, n)) && b' == AfterRead(b, n)
    case OpSetPosition(v) => seen == Accepted(v <= |b.cells|) && b' == AfterSetPosition(b, v)
    case OpClear => seen == Nothing && b' == AfterClear(b)
  }

  /** Position within size within capacity, and a capacity of whole nodes. */
  ghost predicate Shaped(b: Buf) {
    b.Ok() && exists rows: nat :: rows >= 1 && |b.cells| == Start(rows, b.base)
  }

  lemma ShapedHasRoot(b: Buf)
    requires Shaped(b)
    ensures b.base <= |b.cells|
  {
    var rows: nat :| rows >= 1 && |b.cells| == Start(rows, b.base);
    StartMonotone(1, rows, b.base);
    assert Start(1, b.base) == b.base;
  }

  lemma StepShaped(b: Buf, op: Op, seen: Seen, b': Buf)
    requires Shaped(b) && b.base <= |b.cells| && Step(b, op, seen, b')
    ensures Shaped(b')
  {
    var rows: nat :| rows >= 1 && |b.cells| == Start(rows, b.base);
    match op {
      case OpWrite(data) =>
        GrowthCovers(|b.cells|, b.pos, |data|, b.base);
        if |b'.cells| != |b.cells| {
          var count := CeilDiv(|data| - (|b.cells| - b.pos), b.base);
          StartSum(rows, count, b.base);
          assert |b'.cells| == Start(rows + count, b.base);
        }
      case OpRead(_) =>
      case OpSetPosition(_) =>
      case OpClear =>
        assert Start(1, b.base) == b.base;
    }
  }

  ghost predicate Trace(bs: seq<Buf>, ops: seq<Op>, seens: seq<Seen>) {
    && |bs| == |ops| + 1 && |seens| == |ops|
    && (forall i :: 0 <= i < |bs| ==> Shaped(bs[i]) && bs[i].base <= |bs[i].cells|)
    && (forall i :: 0 <= i < |ops| ==> Step(bs[i], ops[i], seens[i], bs[i + 1]))
  }

  /** One operation on the list of nodes. */
  method Perform(ba: ByteArray, op: Op) returns (seen: Seen)
    requires ba.Valid()
    modifies ba, ba.nodes
    ensures ba.Valid()
    ensures forall j :: 0 <= j < |ba.nodes| ==> ba.nodes[j] in old(ba.nodes) || fresh(ba.nodes[j])
    ensures old(ba.View()).Ok() && ba.baseSize <= |old(ba.View()).cells|
    ensures Step(old(ba.View()), op, seen, ba.View())
  {
    ba.ViewOk();
    StartMonotone(1, |ba.nodes|, ba.baseSize);
    assert Start(1, ba.baseSize) == ba.baseSize;
    match op {
      case OpWrite(data) =>
        ba.Write(data);
        seen := Nothing;
      case OpRead(n) =>
        var r := ba.Read(n);
        seen := Result(r);
      case OpSetPosition(v) =>
        var ok := ba.SetPosition(v);
        seen := Accepted(ok);
      case OpClear =>
        ba.Clear();
        seen := Nothing;
    }
  }

  /** One more operation of a run. */
  method RunNext(ba: ByteArray, ops: seq<Op>, i: nat, seens: seq<Seen>, ghost bs: seq<Buf>)
    returns (more: seq<Seen>, ghost longer: seq<Buf>)
    requires ba.Valid() && i < |ops| && Trace(bs, ops[..i], seens) && bs[i] == ba.View()
    modifies ba, ba.nodes
    ensures ba.Valid()
    ensures forall j :: 0 <= j < |ba.nodes| ==> ba.nodes[j] in old(ba.nodes) || fresh(ba.nodes[j])
    ensures Trace(longer, ops[..i + 1], more) && longer[0] == bs[0] && longer[i + 1] == ba.View()
  {
    var seen := Perform(ba, ops[i]);
    ViewShaped(ba);
    TraceExtends(bs, ops[..i], seens, ops[i], seen, ba.View());
    assert ops[..i] + [ops[i]] == ops[..i + 1];
    more, longer := seens + [seen], bs + [ba.View()];
  }

  /** Every run of a ByteArray is a run of the flat buffer. */
  method Run(ba: ByteArray, ops: seq<Op>) returns (seens: seq<Seen>, ghost bs: seq<Buf>)
    requires ba.Valid()
    modifies ba, ba.nodes
    ensures ba.Valid()
    ensures Trace(bs, ops, seens)
    ensures bs[0] == old(ba.View()) && bs[|ops|] == ba.View()
  {
    seens := [];
    ViewShaped(ba);
    bs := [ba.View()];
    for i := 0 to |ops|
      invariant ba.Valid()
      invariant forall j :: 0 <= j < |ba.nodes| ==> ba.nodes[j] in old(ba.nodes) || fresh(ba.nodes[j])
      invariant Trace(bs, ops[..i], seens) && bs[0] == old(ba.View()) && bs[i] == ba.View()
    {
      seens, bs := RunNext(ba, ops, i, seens, bs);
    }
    assert ops[..|ops|] == ops;
  }

  lemma TraceExtends(bs: seq<Buf>, ops: seq<Op>, seens: seq<Seen>, op: Op, seen: Seen, b: Buf)
    requires Trace(bs, ops, seens) && Step(bs[|ops|], op, seen, b)
    requires Shaped(b) && b.base <= |b.cells|
    ensures Trace(bs + [b], ops + [op], seens + [seen])
  {
  }

  lemma ViewShaped(ba: ByteArray)
    requires ba.Valid()
    ensures Shaped(ba.View()) && ba.baseSize <= |ba.View().cells|
  {
    ba.ViewOk();
    assert |ba.View().cells| == Start(|ba.nodes|, ba.baseSize);
    ShapedHasRoot(ba.View());
  }

  // ---- what the bytes mean ------------------------------------------------------------

  /** The bytes written since the last clear, by offset, after the first k operations. */
  ghost function Memory(bs: seq<Buf>, ops: seq<Op>, k: nat): map<nat, Byte>
    requires |bs| == |ops| + 1 && k <= |ops|
  {
    if k == 0 then map[]
    else
      var m := Memory(bs, ops, k - 1);
      match ops[k - 1]
      case OpWrite(data) => m + Written(bs[k - 1].pos, data)
      case OpClear => map[]
      case _ => m
  }

  function At(data: seq<Byte>, pos: nat, i: nat): Byte
    requires pos <= i < pos + |data|
  {
    data[i - pos]
  }

  function Written(pos: nat, data: seq<Byte>): map<nat, Byte> {
    map i | pos <= i < pos + |data| :: At(data, pos, i)
  }

  predicate Agrees(m: map<nat, Byte>, b: Buf) {
    forall i :: i in m ==> i < |b.cells| && b.cells[i] == m[i]
  }

  lemma WriteAgrees(m: map<nat, Byte>, b: Buf, data: seq<Byte>, b': Buf)
    requires b.Ok() && Agrees(m, b) && Wrote(b, data, b')
    ensures Agrees(m + Written(b.pos, data), b')
  {
    GrowthCovers(|b.cells|, b.pos, |data|, b.base);
    forall i | i in m + Written(b.pos, data)
      ensures i < |b'.cells| && b'.cells[i] == (m + Written(b.pos, data))[i]
    {
      if b.pos <= i < b'.pos {
        assert b'.cells[i] == b'.cells[b.pos..b'.pos][i - b.pos];
      } else if i < b.pos {
        assert b'.cells[i] == b'.cells[..b.pos][i] == b.cells[..b.pos][i];
      } else {
        assert b'.cells[i] == b'.cells[b'.pos..|b.cells|][i - b'.pos] == b.cells[b'.pos..][i - b'.pos];
      }
    }
  }

  /** At every point of every run the buffer holds the last byte written at each offset. */
  lemma {:induction false} LastWriteWins(bs: seq<Buf>, ops: seq<Op>, seens: seq<Seen>, k: nat)
    requires Trace(bs, ops, seens) && k <= |ops|
    ensures Agrees(Memory(bs, ops, k), bs[k])
    decreases k
  {
    if k > 0 {
      LastWriteWins(bs, ops, seens, k - 1);
      assert Step(bs[k - 1], ops[k - 1], seens[k - 1], bs[k]);
      if ops[k - 1].OpWrite? {
        WriteAgrees(Memory(bs, ops, k - 1), bs[k - 1], ops[k - 1].data, bs[k]);
      }
    }
  }

  /** So every successful read returns, offset by offset, what was last written there. */
  lemma ReadReturnsLastWrite(bs: seq<Buf>, ops: seq<Op>, seens: seq<Seen>, k: nat, i: nat)
    requires Trace(bs, ops, seens) && k < |ops| && ops[k].OpRead?
    requires seens[k].Result? && seens[k].r.Data?
    requires i < ops[k].n && bs[k].pos + i in Memory(bs, ops, k)
    ensures |seens[k].r.bytes| == ops[k].n
    ensures seens[k].r.bytes[i] == Memory(bs, ops, k)[bs[k].pos + i]
  {
    LastWriteWins(bs, ops, seens, k);
    assert Step(bs[k], ops[k], seens[k], bs[k + 1]);
  }

  // ---- position and size, from the operations alone -----------------------------------

  /** Where the position is after the first k operations. */
  function PosAfter(start: nat, ops: seq<Op>, seens: seq<Seen>, k: nat): nat
    requires k <= |ops| == |seens|
  {
    if k == 0 then start
    else
      var p := PosAfter(start, ops, seens, k - 1);
      match ops[k - 1]
      case OpWrite(data) => p + |data|
      case OpRead(n) => if seens[k - 1].Result? && seens[k - 1].r.Data? then p + n else p
      case OpSetPosition(v) => if seens[k - 1] == Accepted(true) then v else p
      case OpClear => 0
  }

  /** The operations that can make the data longer: a write, and a setPosition that is accepted. */
  predicate Reaches(op: Op, seen: Seen) {
    op.OpWrite? || (op.OpSetPosition? && seen == Accepted(true))
  }

  /** In every run the position is what the operations make it. */
  lemma {:induction false} PositionIs(bs: seq<Buf>, ops: seq<Op>, seens: seq<Seen>, k: nat)
    requires Trace(bs, ops, seens) && k <= |ops|
    ensures bs[k].pos == PosAfter(bs[0].pos, ops, seens, k)
    decreases k
  {
    if k > 0 {
      PositionIs(bs, ops, seens, k - 1);
      assert Step(bs[k - 1], ops[k - 1], seens[k - 1], bs[k]);
    }
  }

  /** The position that the j-th operation has reached, 0 if it cannot make the data longer. */
  function EndOf(start: nat, ops: seq<Op>, seens: seq<Seen>): nat -> nat {
    (j: nat) =>
      if j < |ops| == |seens| && Reaches(ops[j], seens[j]) then PosAfter(start, ops, seens, j + 1) else 0
  }

  /** size is the highest of the ends from `from` up to k, or 0. */
  predicate Highest(ends: nat -> nat, from: nat, k: nat, size: nat) {
    && (forall j: nat :: from <= j < k ==> ends(j) <= size)
    && (size == 0 || exists j: nat :: from <= j < k && ends(j) == size)
  }

  lemma HighestNext(ends: nat -> nat, from: nat, k: nat, next: nat, size: nat, size': nat)
    requires from <= k && next == k + 1 && Highest(ends, from, k, size) && size' == Max(size, ends(k))
    ensures Highest(ends, from, next, size')
  {
  }

  lemma StepSize(bs: seq<Buf>, ops: seq<Op>, seens: seq<Seen>, k: nat, next: nat)
    requires Trace(bs, ops, seens) && next == k + 1 && k < |ops|
    ensures ops[k].OpClear? ==> bs[next].size == 0
    ensures !ops[k].OpClear? ==> bs[next].size == Max(bs[k].size, EndOf(bs[0].pos, ops, seens)(k))
  {
    assert Step(bs[k], ops[k], seens[k], bs[k + 1]);
    PositionIs(bs, ops, seens, next);
  }

  /** After a clear nothing is readable; from there on, or from an empty start, the size is the highest
      position that a write or an accepted setPosition has reached. */
  lemma {:induction false} SizeIsHighest(bs: seq<Buf>, ops: seq<Op>, seens: seq<Seen>, from: nat, k: nat)
    requires Trace(bs, ops, seens) && from <= k <= |ops|
    requires if from == 0 then bs[0].size == 0 else ops[from - 1].OpClear?
    requires forall j :: from <= j < k ==> !ops[j].OpClear?
    ensures Highest(EndOf(bs[0].pos, ops, seens), from, k, bs[k].size)
    decreases k
  {
    if k > from {
      var j: nat := k - 1;
      SizeIsHighest(bs, ops, seens, from, j);
      StepSize(bs, ops, seens, j, k);
      HighestNext(EndOf(bs[0].pos, ops, seens), from, j, k, bs[j].size, bs[k].size);
    } else if k > 0 {
      StepSize(bs, ops, seens, k - 1, k);
    }
  }

  /** What a caller is told: setPosition is refused exactly beyond the capacity, a read throws exactly
      beyond the data, and meets the null cursor exactly at the capacity. */
  lemma AnswersAre(bs: seq<Buf>, ops: seq<Op>, seens: seq<Seen>, k: nat)
    requires Trace(bs, ops, seens) && k < |ops|
    ensures ops[k].OpSetPosition? ==> seens[k] == Accepted(ops[k].v <= |bs[k].cells|)
    ensures ops[k].OpRead? ==> seens[k].Result?
    ensures ops[k].OpRead? ==> (seens[k].r == OutOfRange <==> ops[k].n > bs[k].size - bs[k].pos)
    ensures ops[k].OpRead? ==>
      (seens[k].r == NullCursor <==> ops[k].n <= bs[k].size - bs[k].pos && bs[k].pos == |bs[k].cells|)
    ensures ops[k].OpClear? ==> |bs[k + 1].cells| == bs[k].base && bs[k + 1].size == 0
  {
    assert Step(bs[k], ops[k], seens[k], bs[k + 1]);
  }

  // ---- files --------------------------------------------------------------------------

  /** writeToFile, then readFromFile into a fresh array of any block size, and a rewind: the
      two arrays have the same readable bytes, and the first one is as it was. */
  method ThroughFile(src: ByteArray, base: nat) returns (dst: ByteArray)
    requires src.Valid() && base >= 1
    ensures fresh(dst) && dst.Valid() && dst.baseSize == base
    ensures src.View().Ok() && dst.View().Ok() && dst.position == 0
    ensures dst.View().Readable() == src.View().Readable()
  {
    src.ViewOk();
    var file := src.WriteToFile();
    dst := new ByteArray(base);
    dst.ReadFromFile(file);
    dst.ViewOk();
    var ok := dst.SetPosition(0);
  }
}
