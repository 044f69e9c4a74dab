/**
 Writing any list of typed values to a fresh ByteArray, rewinding and reading the same
 types back (the pattern of test/test_bytearray.cpp), for every block size and byte order.
 */
module RoundTrip {
  import opened Bits
  import opened Endian
  import opened Codec
  import opened FlatBuffer
  import opened ByteArrays
  import opened TypedIO

  /** The first i items have been written since b. */
  ghost predicate WroteItems(b: Buf, items: seq<Item>, i: nat, order: Order, b': Buf)
    requires b.Ok() && AllTyped(items)
  {
    i <= |items| && Wrote(b, EncodeAll(items[..i], order), b')
  }

  lemma WroteNextItem(b: Buf, items: seq<Item>, i: nat, next: nat, order: Order, c: Buf, d: Buf)
    requires b.Ok() && AllTyped(items) && i < |items| && next == i + 1 && c.Ok()
    requires WroteItems(b, items, i, order, c) && Wrote(c, Encode(items[i], order), d)
    ensures WroteItems(b, items, next, order, d)
  {
    WroteTwice(b, EncodeAll(items[..i], order), c, Encode(items[i], order), d);
    PrefixEncoding(items, i, next, order);
  }

  lemma PrefixEncoding(items: seq<Item>, i: nat, next: nat, order: Order)
    requires AllTyped(items) && i < |items| && next == i + 1
    ensures EncodeAll(items[..next], order) == EncodeAll(items[..i], order) + Encode(items[i], order)
  {
    EncodeAllSnoc(items[..i], items[i], order);
    assert items[..i] + [items[i]] == items[..next];
  }

  method WriteNext(ba: ByteArray, items: seq<Item>, i: nat, host: Order, ghost b: Buf)
    requires ba.Valid() && AllTyped(items) && i < |items|
    requires b.Ok() && WroteItems(b, items, i, ba.order, ba.View())
    modifies ba, ba.nodes
    ensures ba.Valid() && ba.order == old(ba.order) && old(ba.nodes) <= ba.nodes
    ensures forall j :: |old(ba.nodes)| <= j < |ba.nodes| ==> fresh(ba.nodes[j])
    ensures WroteItems(b, items, i + 1, ba.order, ba.View())
  {
    ba.ViewOk();
    WriteItem(ba, items[i], host);
    WroteNextItem(b, items, i, i + 1, ba.order, old(ba.View()), ba.View());
  }

  method WriteAll(ba: ByteArray, items: seq<Item>, host: Order)
    requires ba.Valid() && AllTyped(items)
    modifies ba, ba.nodes
    ensures ba.Valid() && ba.order == old(ba.order) && old(ba.nodes) <= ba.nodes
    ensures forall j :: |old(ba.nodes)| <= j < |ba.nodes| ==> fresh(ba.nodes[j])
    ensures old(ba.View()).Ok() && Wrote(old(ba.View()), EncodeAll(items, ba.order), ba.View())
  {
    ba.ViewOk();
    ghost var b := ba.View();
    WroteNothing(b);
    for i := 0 to |items|
      invariant ba.Valid() && ba.order == old(ba.order) && old(ba.nodes) <= ba.nodes
      invariant forall j :: |old(ba.nodes)| <= j < |ba.nodes| ==> fresh(ba.nodes[j])
      invariant WroteItems(b, items, i, ba.order, ba.View())
    {
      WriteNext(ba, items, i, host, b);
    }
    assert items[..|items|] == items;
  }

  /** The readable bytes are the encodings of the items from i on. */
  predicate Pending(b: Buf, items: seq<Item>, i: nat, order: Order)
    requires AllTyped(items)
  {
    b.Ok() && i <= |items| && b.Readable() == EncodeAll(items[i..], order)
  }

  /** The read that dereferences the null cursor: an empty string that ends a full array. */
  predicate EndsInNullCursor(items: seq<Item>, full: bool) {
    items != [] && items[|items| - 1].EmptyString() && full
  }

  /** What the i-th read returns. */
  function Expected(items: seq<Item>, crash: bool, i: nat): Outcome
    requires i < |items|
  {
    if crash && i == |items| - 1 then Crashed else Got(items[i].value)
  }

  predicate AsExpected(outs: seq<Outcome>, items: seq<Item>, crash: bool) {
    |outs| <= |items| && forall i :: 0 <= i < |outs| ==> outs[i] == Expected(items, crash, i)
  }

  lemma NextItem(b: Buf, items: seq<Item>, i: nat, next: nat, order: Order, crash: bool)
    requires AllTyped(items) && i < |items| && next == i + 1 && items[i].PrefixFits() && Pending(b, items, i, order)
    requires crash == EndsInNullCursor(items, b.size == |b.cells|)
    ensures Consumed(b, items[i].kind, order) <= b.size - b.pos
    ensures Pending(b.(pos := b.pos + Consumed(b, items[i].kind, order)), items, next, order)
    ensures ReadSpec(b, items[i].kind, order) == Expected(items, crash, i)
  {
    var rest := EncodeAll(items[next..], order);
    var bytes := Encode(items[i], order);
    HeadFirst(items, i, next, order);
    assert b.Readable() == bytes + rest;
    ParseInverts(items[i], order, rest);
    var c := b.(pos := b.pos + |bytes|);
    assert c.Readable() == b.Readable()[|bytes|..] == rest;
    EncodeAllEmpty(items[next..], order);
  }

  /** Any typed read. */
  method ReadItem(ba: ByteArray, kind: Kind, host: Order) returns (r: Outcome)
    requires ba.Valid() && kind.Known()
    modifies ba`position, ba`cur
    ensures ba.Valid() && old(ba.View()).Ok()
    ensures r == ReadSpec(old(ba.View()), kind, ba.order)
    ensures ba.View() == old(ba.View()).(pos := old(ba.position) + Consumed(old(ba.View()), kind, ba.order))
  {
    if kind.IsString() {
      r := ReadString(ba, kind, host);
    } else {
      r := ReadInteger(ba, kind, host);
    }
  }

  lemma HeadFirst(items: seq<Item>, i: nat, next: nat, order: Order)
    requires AllTyped(items) && i < |items| && next == i + 1
    ensures EncodeAll(items[i..], order) == Encode(items[i], order) + EncodeAll(items[next..], order)
  {
    assert items[i..][1..] == items[next..];
  }

  lemma CutSpec(b: Buf, item: Item, order: Order, rest: seq<Byte>)
    requires b.Ok() && item.Typed() && !item.PrefixFits() && b.Readable() == Encode(item, order) + rest
    ensures ReadSpec(b, item.kind, order) != Got(item.value)
  {
    LongStringIsCut(item, order, rest);
  }

  /** A string too long for its prefix is not what is read back. */
  lemma CutItem(b: Buf, items: seq<Item>, i: nat, order: Order)
    requires AllTyped(items) && i < |items| && !items[i].PrefixFits() && Pending(b, items, i, order)
    ensures ReadSpec(b, items[i].kind, order) != Got(items[i].value)
  {
    HeadFirst(items, i, i + 1, order);
    CutSpec(b, items[i], order, EncodeAll(items[i + 1..], order));
  }

  /** Every value comes back. */
  predicate CameBack(outs: seq<Outcome>, items: seq<Item>) {
    |outs| == |items| && forall i :: 0 <= i < |outs| ==> outs[i] == Got(items[i].value)
  }

  /** One of the values read so far is not the one written. */
  predicate Wrong(outs: seq<Outcome>, items: seq<Item>) {
    |outs| <= |items| && exists j :: 0 <= j < |outs| && outs[j] != Got(items[j].value)
  }

  /** The reads so far: all as expected, or one of them wrong because a string did not fit. */
  ghost predicate Reading(b: Buf, items: seq<Item>, order: Order, outs: seq<Outcome>, crash: bool)
    requires AllTyped(items) && |outs| <= |items|
  {
    || (AllFit(items[..|outs|]) && Pending(b, items, |outs|, order) && AsExpected(outs, items, crash))
    || (!AllFit(items) && Wrong(outs, items))
  }

  lemma ReadingFits(b: Buf, items: seq<Item>, order: Order, outs: seq<Outcome>, i: nat, next: nat,
                    crash: bool, r: Outcome, b': Buf)
    requires AllTyped(items) && i == |outs| < |items| && next == i + 1 && items[i].PrefixFits()
    requires AllFit(items[..i]) && Pending(b, items, i, order) && AsExpected(outs, items, crash)
    requires crash == EndsInNullCursor(items, b.size == |b.cells|)
    requires r == ReadSpec(b, items[i].kind, order)
    requires b' == b.(pos := b.pos + Consumed(b, items[i].kind, order))
    ensures AllFit(items[..next]) && Pending(b', items, next, order) && AsExpected(outs + [r], items, crash)
  {
    NextItem(b, items, i, next, order, crash);
    FitsMore(items, i, next);
  }

  lemma FitsMore(items: seq<Item>, i: nat, next: nat)
    requires i < |items| && next == i + 1 && AllFit(items[..i]) && items[i].PrefixFits()
    ensures AllFit(items[..next])
  {
    assert forall j :: 0 <= j < i ==> items[..i][j] == items[..next][j];
  }

  lemma ReadingCut(b: Buf, items: seq<Item>, order: Order, outs: seq<Outcome>, i: nat, r: Outcome)
    requires AllTyped(items) && i == |outs| < |items| && !items[i].PrefixFits() && Pending(b, items, i, order)
    requires r == ReadSpec(b, items[i].kind, order)
    ensures !AllFit(items) && Wrong(outs + [r], items)
  {
    CutItem(b, items, i, order);
    assert (outs + [r])[i] != Got(items[i].value);
  }

  lemma StaysWrong(items: seq<Item>, outs: seq<Outcome>, r: Outcome)
    requires |outs| < |items| && Wrong(outs, items)
    ensures Wrong(outs + [r], items)
  {
    var j :| 0 <= j < |outs| && outs[j] != Got(items[j].value);
    assert (outs + [r])[j] == outs[j];
  }

  lemma ReadingNext(
    b: Buf, items: seq<Item>, order: Order, outs: seq<Outcome>, crash: bool, r: Outcome, b': Buf)
    requires AllTyped(items) && |outs| < |items| && b.Ok() && Reading(b, items, order, outs, crash)
    requires crash == EndsInNullCursor(items, b.size == |b.cells|)
    requires r == ReadSpec(b, items[|outs|].kind, order)
    requires b' == b.(pos := b.pos + Consumed(b, items[|outs|].kind, order))
    ensures |outs + [r]| <= |items| && Reading(b', items, order, outs + [r], crash)
  {
    var i := |outs|;
    if !AllFit(items) && Wrong(outs, items) {
      StaysWrong(items, outs, r);
    } else if items[i].PrefixFits() {
      ReadingFits(b, items, order, outs, i, |outs + [r]|, crash, r, b');
    } else {
      ReadingCut(b, items, order, outs, i, r);
    }
  }

  method ReadNext(ba: ByteArray, items: seq<Item>, host: Order, outs: seq<Outcome>, ghost crash: bool)
    returns (more: seq<Outcome>)
    requires ba.Valid() && AllTyped(items) && |outs| < |items| && Reading(ba.View(), items, ba.order, outs, crash)
    requires crash == EndsInNullCursor(items, ba.size == |ba.View().cells|)
    modifies ba`position, ba`cur
    ensures ba.Valid() && ba.View() == old(ba.View()).(pos := ba.position)
    ensures |more| == |outs| + 1 && Reading(ba.View(), items, ba.order, more, crash)
  {
    ba.ViewOk();
    var r := ReadItem(ba, items[|outs|].kind, host);
    ReadingNext(old(ba.View()), items, ba.order, outs, crash, r, ba.View());
    more := outs + [r];
  }

  /** Reads until all are done or one crashes. */
  method ReadAll(ba: ByteArray, items: seq<Item>, host: Order, ghost crash: bool) returns (outs: seq<Outcome>)
    requires ba.Valid() && AllTyped(items)
    requires Pending(ba.View(), items, 0, ba.order)
    requires crash == EndsInNullCursor(items, ba.size == |ba.View().cells|)
    modifies ba`position, ba`cur
    ensures ba.Valid() && ba.size == old(ba.size)
    ensures CameBack(outs, items) <==> AllFit(items) && !crash
    ensures AllFit(items) ==> ba.position == ba.size && |outs| == |items| && AsExpected(outs, items, crash)
  {
    ghost var b := ba.View();
    outs := [];
    while |outs| < |items| && (outs == [] || outs[|outs| - 1] != Crashed)
      invariant ba.Valid() && ba.View() == b.(pos := ba.position) && |outs| <= |items|
      invariant Reading(ba.View(), items, ba.order, outs, crash)
      decreases |items| - |outs|
    {
      outs := ReadNext(ba, items, host, outs, crash);
    }
    ReadingEnds(ba.View(), items, ba.order, outs, crash);
  }

  lemma ReadingEnds(b: Buf, items: seq<Item>, order: Order, outs: seq<Outcome>, crash: bool)
    requires AllTyped(items) && |outs| <= |items| && Reading(b, items, order, outs, crash)
    requires |outs| < |items| ==> outs != [] && outs[|outs| - 1] == Crashed
    requires crash ==> items != []
    ensures CameBack(outs, items) <==> AllFit(items) && !crash
    ensures AllFit(items) ==> |outs| == |items| && AsExpected(outs, items, crash) && b.Ok() && b.pos == b.size
  {
    if Wrong(outs, items) && !AllFit(items) {
      var j :| 0 <= j < |outs| && outs[j] != Got(items[j].value);
    } else {
      assert items[..|items|] == items && items[|items|..] == [];
      if crash {
        assert outs[|items| - 1] == Crashed;
      }
    }
  }

  /** A fresh array is full exactly when the bytes written fill whole nodes. */
  lemma FreshCapacity(n: nat, base: nat)
    requires base >= 1
    ensures GrownCapacity(base, 0, n, base) == n <==> n > 0 && n % base == 0
  {
    var rows := 1 + CeilDiv(n - Min(n, base), base);
    var cap := Start(rows, base);
    StartSum(1, rows - 1, base);
    assert Start(1, base) == base;
    assert GrownCapacity(base, 0, n, base) == cap;
    GrowthCovers(base, 0, n, base);
    StartIsProduct(rows, base);
    if n == 0 {
    } else if cap == n {
      DivModUnique(n, base, rows, 0);
    } else {
      assert base * (rows - 1) == base * rows - base;
      DivModUnique(n, base, rows - 1, base - (cap - n));
    }
  }

  /** A fresh array after a write and a rewind: the data is readable, and the array is full
      exactly when the data fills whole nodes. */
  lemma FreshWrite(b: Buf, data: seq<Byte>, w: Buf)
    requires b.Ok() && b.pos == b.size == 0 && |b.cells| == b.base
    requires Wrote(b, data, w)
    ensures w.pos == w.size == |data| && w.Ok()
    ensures AfterSetPosition(w, 0).Ok() && AfterSetPosition(w, 0).Readable() == data
    ensures w.size == |w.cells| <==> data != [] && |data| % b.base == 0
  {
    FreshCapacity(|data|, b.base);
  }

  /** A new array, all values written, and a rewind. */
  method WriteAndRewind(base: nat, order: Order, host: Order, items: seq<Item>) returns (ba: ByteArray)
    requires base >= 1 && AllTyped(items)
    ensures fresh(ba) && ba.Valid() && ba.order == order && ba.size == |EncodeAll(items, order)|
    ensures Pending(ba.View(), items, 0, ba.order)
    ensures items != [] ==> (ba.size == |ba.View().cells| <==> |EncodeAll(items, order)| % base == 0)
  {
    ba := new ByteArray(base);
    ba.order := order;
    ba.ViewOk();
    ghost var b, bytes := ba.View(), EncodeAll(items, order);
    WriteAll(ba, items, host);
    FreshWrite(b, bytes, ba.View());
    EncodeAllEmpty(items, order);
    var ok := ba.SetPosition(0);
    assert items[0..] == items;
  }

  /** The whole round trip, for every list of typed values: every value comes back exactly when every
      string fits its prefix and it is not the case that the last value is an empty string and the
      encodings fill whole nodes.  When the strings fit, all values but such a last one come back in
      order, and nothing is left to read. */
  method WriteThenRead(base: nat, order: Order, host: Order, items: seq<Item>)
    returns (ba: ByteArray, outs: seq<Outcome>)
    requires base >= 1 && AllTyped(items)
    ensures fresh(ba) && ba.Valid() && ba.size == |EncodeAll(items, order)|
    ensures var crash := EndsInNullCursor(items, |EncodeAll(items, order)| % base == 0);
      && (CameBack(outs, items) <==> AllFit(items) && !crash)
      && (AllFit(items) ==> ba.position == ba.size && |outs| == |items| && AsExpected(outs, items, crash))
  {
    ba := WriteAndRewind(base, order, host, items);
    outs := ReadAll(ba, items, host, EndsInNullCursor(items, |EncodeAll(items, order)| % base == 0));
  }

  lemma EmptyStringEncoding(items: seq<Item>, order: Order)
    requires items == [Item(FixedString(2), Str([]))]
    ensures AllTyped(items) && AllFit(items) && |EncodeAll(items, order)| == 2
    ensures EndsInNullCursor(items, |EncodeAll(items, order)| % 2 == 0)
  {
    EmptyEncoding(items[0], order);
    SingleEncoding(items, order);
  }

  lemma EmptyEncoding(item: Item, order: Order)
    requires item == Item(FixedString(2), Str([]))
    ensures item.Typed() && item.PrefixFits() && item.EmptyString() && |Encode(item, order)| == 2
  {
  }

  lemma SingleEncoding(items: seq<Item>, order: Order)
    requires |items| == 1 && items[0].Typed()
    ensures AllTyped(items) && EncodeAll(items, order) == Encode(items[0], order)
  {
    assert items[1..] == [];
    assert Encode(items[0], order) + [] == Encode(items[0], order);
  }

  /** An empty string that fills a node of two bytes with its length: reading it back meets the null
      cursor. */
  method EmptyStringCrashes(order: Order, host: Order) returns (outs: seq<Outcome>)
    ensures outs == [Crashed]
  {
    var items := [Item(FixedString(2), Str([]))];
    EmptyStringEncoding(items, order);
    var ba;
    ba, outs := WriteThenRead(2, order, host, items);
    assert outs[0] == Expected(items, true, 0);
  }

  /** A string of 65536 bytes with a two-byte length does not come back. */
  method LongStringIsLost(s: seq<Byte>, base: nat, order: Order, host: Order) returns (outs: seq<Outcome>)
    requires |s| == 65536 && base >= 1
    ensures outs != [Got(Str(s))]
  {
    var items := [Item(FixedString(2), Str(s))];
    LongStringReadsEmpty(s, order);
    assert !items[0].PrefixFits();
    var ba;
    ba, outs := WriteThenRead(base, order, host, items);
    assert !CameBack(outs, items);
  }
}
