/**
 The flat view of a ByteArray: rows of equal length laid end to end, and the plain
 buffer with a position that the linked list has to agree with.
 */
module FlatBuffer {
  import opened Bits

  /** memcpy of chunk to offset `at` of s, byte by byte. */
  function Splice(s: seq<Byte>, at: nat, chunk: seq<Byte>): (r: seq<Byte>)
    requires at + |chunk| <= |s|
    ensures |r| == |s|
    decreases |chunk|
  {
    if chunk == [] then s
    else Splice(s, at, chunk[..|chunk| - 1])[at + |chunk| - 1 := chunk[|chunk| - 1]]
  }

  /** What the copy leaves: the bytes before, the chunk, the bytes behind. */
  lemma {:induction false} SpliceForm(s: seq<Byte>, at: nat, chunk: seq<Byte>)
    requires at + |chunk| <= |s|
    ensures Splice(s, at, chunk) == s[..at] + chunk + s[at + |chunk|..]
    decreases |chunk|
  {
    if chunk != [] {
      var n := |chunk| - 1;
      SpliceForm(s, at, chunk[..n]);
      assert chunk == chunk[..n] + [chunk[n]];
    }
  }

  lemma SpliceParts(s: seq<Byte>, at: nat, chunk: seq<Byte>)
    requires at + |chunk| <= |s|
    ensures Splice(s, at, chunk)[..at] == s[..at]
    ensures Splice(s, at, chunk)[at..at + |chunk|] == chunk
    ensures Splice(s, at, chunk)[at + |chunk|..] == s[at + |chunk|..]
  {
    SpliceForm(s, at, chunk);
  }

  lemma SliceConcat(s: seq<Byte>, lo: nat, mid: nat, hi: nat)
    requires lo <= mid <= hi <= |s|
    ensures s[lo..mid] + s[mid..hi] == s[lo..hi]
  {
  }

  lemma SliceOfSlice(s: seq<Byte>, lo: nat, hi: nat, npos: nat, len: nat)
    requires lo + npos + len <= hi <= |s|
    ensures s[lo..hi][npos..npos + len] == s[lo + npos..lo + npos + len]
  {
    var a, b := s[lo..hi][npos..npos + len], s[lo + npos..lo + npos + len];
    assert |a| == |b|;
    assert forall i :: 0 <= i < len ==> a[i] == s[lo..hi][npos + i] == s[lo + npos + i] == b[i];
  }

  /** k * base, by repeated addition. */
  function Start(k: nat, base: nat): nat
    decreases k
  {
    if k == 0 then 0 else Start(k - 1, base) + base
  }

  /** p / base, by repeated subtraction. */
  function RowOf(p: nat, base: nat): nat
    requires base >= 1
    decreases p
  {
    if p < base then 0 else 1 + RowOf(p - base, base)
  }

  lemma {:induction false} StartIsProduct(k: nat, base: nat)
    ensures Start(k, base) == k * base
  {
    if k > 0 {
      StartIsProduct(k - 1, base);
      assert k * base == (k - 1) * base + base;
    }
  }

  lemma {:induction false} StartSum(a: nat, b: nat, base: nat)
    ensures Start(a + b, base) == Start(a, base) + Start(b, base)
  {
    if b > 0 {
      StartSum(a, b - 1, base);
    }
  }

  lemma StartMonotone(a: nat, b: nat, base: nat)
    ensures a <= b ==> Start(a, base) <= Start(b, base)
    ensures a < b ==> Start(a, base) + base <= Start(b, base)
  {
    if a < b {
      StartSum(a, b - a, base);
    }
  }

  lemma {:induction false} RowOfFacts(p: nat, base: nat)
    requires base >= 1
    ensures Start(RowOf(p, base), base) <= p < Start(RowOf(p, base), base) + base
    ensures p / base == RowOf(p, base)
    ensures p % base == p - Start(RowOf(p, base), base)
  {
    RowOfBounds(p, base);
    var k := RowOf(p, base);
    StartIsProduct(k, base);
    DivModUnique(p, base, k, p - k * base);
  }

  lemma {:induction false} RowOfBounds(p: nat, base: nat)
    requires base >= 1
    ensures Start(RowOf(p, base), base) <= p < Start(RowOf(p, base), base) + base
    decreases p
  {
    if p >= base {
      RowOfBounds(p - base, base);
    }
  }

  /** A position lies in one row only. */
  lemma RowOfUnique(p: nat, base: nat, k: nat)
    requires base >= 1
    requires Start(k, base) <= p < Start(k, base) + base
    ensures RowOf(p, base) == k
  {
    var r := RowOf(p, base);
    RowOfBounds(p, base);
    StartMonotone(r, k, base);
    StartMonotone(k, r, base);
  }

  /** Which row a position is in, compared with the number of rows. */
  lemma RowBefore(p: nat, base: nat, rows: nat)
    requires base >= 1
    ensures RowOf(p, base) < rows <==> p < Start(rows, base)
    ensures RowOf(p, base) <= rows <==> p < Start(rows, base) + base
  {
    var k := RowOf(p, base);
    RowOfBounds(p, base);
    StartMonotone(k, rows, base);
    StartMonotone(rows, k, base);
  }

  function Flatten(rows: seq<seq<Byte>>): seq<Byte> {
    if rows == [] then [] else Flatten(rows[..|rows| - 1]) + rows[|rows| - 1]
  }

  predicate Rectangular(rows: seq<seq<Byte>>, base: nat) {
    forall i :: 0 <= i < |rows| ==> |rows[i]| == base
  }

  lemma {:induction false} FlattenLength(rows: seq<seq<Byte>>, base: nat)
    requires Rectangular(rows, base)
    ensures |Flatten(rows)| == Start(|rows|, base)
  {
    if rows != [] {
      FlattenLength(rows[..|rows| - 1], base);
    }
  }

  /** Row k is the k-th stretch of `base` bytes. */
  lemma {:induction false} FlattenRow(rows: seq<seq<Byte>>, base: nat, k: nat)
    requires Rectangular(rows, base) && k < |rows|
    ensures Start(k, base) + base <= |Flatten(rows)|
    ensures Flatten(rows)[Start(k, base)..Start(k, base) + base] == rows[k]
    decreases |rows|
  {
    var n := |rows| - 1;
    FlattenLength(rows[..n], base);
    if k < n {
      FlattenRow(rows[..n], base, k);
    }
  }

  lemma {:induction false} FlattenPrefix(rows: seq<seq<Byte>>, k: nat)
    requires k <= |rows|
    ensures Flatten(rows[..k]) <= Flatten(rows)
    decreases |rows|
  {
    if k < |rows| {
      var init := rows[..|rows| - 1];
      assert init[..k] == rows[..k];
      FlattenPrefix(init, k);
    } else {
      assert rows[..k] == rows;
    }
  }

  /** Overwriting part of row k overwrites the corresponding stretch of the flat bytes. */
  lemma {:induction false} FlattenSplice(rows: seq<seq<Byte>>, base: nat, k: nat, at: nat, chunk: seq<Byte>)
    requires Rectangular(rows, base) && k < |rows|
    requires at + |chunk| <= base
    ensures Start(k, base) + at + |chunk| <= |Flatten(rows)|
    ensures Flatten(rows[k := Splice(rows[k], at, chunk)]) == Splice(Flatten(rows), Start(k, base) + at, chunk)
    decreases |rows|
  {
    var n := |rows| - 1;
    var init := rows[..n];
    var row := Splice(rows[k], at, chunk);
    var rows' := rows[k := row];
    assert Flatten(rows) == Flatten(init) + rows[n];
    assert Flatten(rows') == Flatten(rows'[..n]) + rows'[n];
    if k < n {
      FlattenSplice(init, base, k, at, chunk);
      assert rows'[..n] == init[k := row];
      SpliceLeft(Flatten(init), rows[n], Start(k, base) + at, chunk);
    } else {
      FlattenLength(init, base);
      assert rows'[..n] == init;
      SpliceRight(Flatten(init), rows[n], at, chunk);
    }
  }

  lemma SpliceLeft(a: seq<Byte>, b: seq<Byte>, at: nat, chunk: seq<Byte>)
    requires at + |chunk| <= |a|
    ensures Splice(a + b, at, chunk) == Splice(a, at, chunk) + b
  {
    SpliceForm(a + b, at, chunk);
    SpliceForm(a, at, chunk);
  }

  lemma SpliceRight(a: seq<Byte>, b: seq<Byte>, at: nat, chunk: seq<Byte>)
    requires at + |chunk| <= |b|
    ensures Splice(a + b, |a| + at, chunk) == a + Splice(b, at, chunk)
  {
    SpliceForm(a + b, |a| + at, chunk);
    SpliceForm(b, at, chunk);
  }

  /** Two adjacent overwrites are one. */
  lemma SpliceTwice(s: seq<Byte>, at: nat, data: seq<Byte>, done: nat, more: nat)
    requires done + more <= |data| && at + |data| <= |s|
    ensures Splice(Splice(s, at, data[..done]), at + done, data[done..done + more])
         == Splice(s, at, data[..done + more])
  {
    var first := Splice(s, at, data[..done]);
    SpliceForm(s, at, data[..done]);
    SpliceForm(first, at + done, data[done..done + more]);
    SpliceForm(s, at, data[..done + more]);
    assert data[..done + more] == data[..done] + data[done..done + more];
  }

  /** The first `done` bytes of data have reached the flat bytes, from `start` on. */
  predicate Copied(rows: seq<seq<Byte>>, before: seq<Byte>, start: nat, data: seq<Byte>, done: nat)
  {
    done <= |data| && start + |data| <= |before| && Flatten(rows) == Splice(before, start, data[..done])
  }

  /** A chunk copied into row k continues the copy. */
  lemma CopiedMore(rows: seq<seq<Byte>>, base: nat, k: nat, npos: nat,
                   before: seq<Byte>, start: nat, data: seq<Byte>, done: nat, len: nat)
    requires Rectangular(rows, base) && k < |rows|
    requires npos + len <= base && start + done == Start(k, base) + npos
    requires Copied(rows, before, start, data, done) && done + len <= |data|
    ensures Copied(rows[k := Splice(rows[k], npos, data[done..done + len])], before, start, data, done + len)
  {
    FlattenSplice(rows, base, k, npos, data[done..done + len]);
    SpliceTwice(before, start, data, done, len);
  }

  // ---- the reference buffer -----------------------------------------------------------

  /** A plain buffer: every byte of the capacity, the number of valid ones, and one position. */
  datatype Buf = Buf(base: nat, pos: nat, size: nat, cells: seq<Byte>) {
    predicate Ok() {
      base >= 1 && pos <= size <= |cells|
    }

    /** The bytes between the position and the end of the data. */
    function Readable(): seq<Byte>
      requires Ok()
    {
      cells[pos..size]
    }
  }

  function Max(a: nat, b: nat): nat {
    if a >= b then a else b
  }

  function Min(a: nat, b: nat): nat {
    if a <= b then a else b
  }

  /** ceil(1.0 * n / base), by repeated subtraction. */
  function CeilDiv(n: nat, base: nat): nat
    requires base >= 1
    decreases n
  {
    if n == 0 then 0 else if n <= base then 1 else 1 + CeilDiv(n - base, base)
  }

  /** The capacity once n more bytes fit after the position. */
  function GrownCapacity(cap: nat, pos: nat, n: nat, base: nat): nat
    requires base >= 1 && pos <= cap
  {
    if cap - pos >= n then cap else cap + Start(CeilDiv(n - (cap - pos), base), base)
  }

  lemma {:induction false} CeilDivBounds(n: nat, base: nat)
    requires base >= 1
    ensures n <= Start(CeilDiv(n, base), base) < n + base
    ensures n > 0 ==> CeilDiv(n, base) >= 1
    decreases n
  {
    if n > base {
      CeilDivBounds(n - base, base);
    }
  }

  lemma CeilDivIsCeiling(n: nat, base: nat)
    requires base >= 1
    ensures CeilDiv(n, base) == (n + base - 1) / base
  {
    var q := CeilDiv(n, base);
    CeilDivBounds(n, base);
    StartIsProduct(q, base);
    DivModUnique(n + base - 1, base, q, n + base - 1 - q * base);
  }

  /** Growing appends bytes of unknown value and touches nothing else. */
  predicate Grew(b: Buf, n: nat, b': Buf)
    requires b.Ok()
  {
    && b'.base == b.base && b'.pos == b.pos && b'.size == b.size
    && |b'.cells| == GrownCapacity(|b.cells|, b.pos, n, b.base)
    && b.cells <= b'.cells
  }

  /** Data overwritten at the position, which advances, in a buffer grown for `room` bytes. */
  predicate WroteWithin(b: Buf, room: nat, data: seq<Byte>, b': Buf)
    requires b.Ok()
  {
    && b'.base == b.base
    && b'.pos == b.pos + |data|
    && b'.size == Max(b.size, b'.pos)
    && |b'.cells| == GrownCapacity(|b.cells|, b.pos, room, b.base)
    && b'.pos <= |b'.cells|
    && b'.cells[..b.pos] == b.cells[..b.pos]
    && b'.cells[b.pos..b'.pos] == data
    && (b'.pos <= |b.cells| ==> b'.cells[b'.pos..|b.cells|] == b.cells[b'.pos..])
  }

  /** write: the capacity grows for exactly the bytes written. */
  predicate Wrote(b: Buf, data: seq<Byte>, b': Buf)
    requires b.Ok()
  {
    WroteWithin(b, |data|, data, b')
  }

  lemma GrowthCovers(cap: nat, pos: nat, n: nat, base: nat)
    requires base >= 1 && pos <= cap
    ensures cap <= GrownCapacity(cap, pos, n, base)
    ensures pos + n <= GrownCapacity(cap, pos, n, base)
    ensures cap < pos + n ==> GrownCapacity(cap, pos, n, base) < pos + n + base
  {
    if cap < pos + n {
      CeilDivBounds(n - (cap - pos), base);
    }
  }

  /** The loop of write, run to its end in a grown buffer, is a write. */
  lemma CopiedIsWrote(b: Buf, room: nat, g: Buf, data: seq<Byte>, rows: seq<seq<Byte>>, b': Buf)
    requires b.Ok() && Grew(b, room, g)
    requires Copied(rows, g.cells, b.pos, data, |data|)
    requires b'.base == b.base && b'.pos == b.pos + |data| && b'.size == Max(b.size, b'.pos)
    requires b'.cells == Flatten(rows)
    ensures WroteWithin(b, room, data, b')
  {
    CopiedParts(rows, g.cells, b.pos, data);
    PartsAreWrote(b, room, g, data, b');
  }

  lemma CopiedParts(rows: seq<seq<Byte>>, before: seq<Byte>, start: nat, data: seq<Byte>)
    requires Copied(rows, before, start, data, |data|)
    ensures |Flatten(rows)| == |before|
    ensures Flatten(rows)[..start] == before[..start]
    ensures Flatten(rows)[start..start + |data|] == data
    ensures Flatten(rows)[start + |data|..] == before[start + |data|..]
  {
    assert data[..|data|] == data;
    SpliceParts(before, start, data);
  }

  lemma PartsAreWrote(b: Buf, room: nat, g: Buf, data: seq<Byte>, b': Buf)
    requires b.Ok() && Grew(b, room, g)
    requires b'.base == b.base && b'.pos == b.pos + |data| && b'.size == Max(b.size, b'.pos)
    requires |b'.cells| == |g.cells| >= b'.pos
    requires b'.cells[..b.pos] == g.cells[..b.pos]
    requires b'.cells[b.pos..b'.pos] == data
    requires b'.cells[b'.pos..] == g.cells[b'.pos..]
    ensures WroteWithin(b, room, data, b')
  {
    if b'.pos <= |b.cells| {
      SameTail(b.cells, g.cells, b'.cells, b'.pos);
    }
  }

  lemma SameTail(small: seq<Byte>, grown: seq<Byte>, result: seq<Byte>, from: nat)
    requires small <= grown && |result| == |grown| && from <= |small|
    requires result[from..] == grown[from..]
    ensures result[from..|small|] == small[from..]
  {
    assert forall i :: from <= i < |small| ==> result[i] == result[from..][i - from] == grown[i];
  }

  /** Growing twice ends where growing once for the sum ends. */
  lemma {:induction false} GrowTwice(cap: nat, pos: nat, n: nat, m: nat, base: nat)
    requires base >= 1 && pos <= cap
    ensures pos + n <= GrownCapacity(cap, pos, n, base)
    ensures GrownCapacity(GrownCapacity(cap, pos, n, base), pos + n, m, base)
         == GrownCapacity(cap, pos, n + m, base)
  {
    GrowthCovers(cap, pos, n, base);
    if cap < pos + n {
      var need := n - (cap - pos);
      CeilSum(need, m, base);
    }
  }

  /** Room for n bytes in whole rows, then for m more, is room for n + m. */
  lemma {:induction false} CeilSum(n: nat, m: nat, base: nat)
    requires base >= 1 && n > 0
    ensures n <= Start(CeilDiv(n, base), base)
    ensures var room := Start(CeilDiv(n, base), base);
      Start(CeilDiv(n + m, base), base)
      == if room - n >= m then room else room + Start(CeilDiv(m - (room - n), base), base)
    decreases n
  {
    CeilDivBounds(n, base);
    if n > base {
      CeilSum(n - base, m, base);
    }
  }

  /** Two writes in a row are one write of both. */
  lemma WroteTwice(b: Buf, x: seq<Byte>, c: Buf, y: seq<Byte>, d: Buf)
    requires b.Ok() && Wrote(b, x, c) && c.Ok() && Wrote(c, y, d)
    ensures Wrote(b, x + y, d)
  {
    GrowTwice(|b.cells|, b.pos, |x|, |y|, b.base);
    GrowthCovers(|b.cells|, b.pos, |x|, b.base);
    GrowthCovers(|c.cells|, c.pos, |y|, b.base);
    assert d.cells[..b.pos] == d.cells[..c.pos][..b.pos];
    assert d.cells[b.pos..d.pos] == d.cells[..c.pos][b.pos..] + d.cells[c.pos..d.pos];
    if d.pos <= |b.cells| {
      TailTwice(b.cells, c.cells, d.cells, c.pos, d.pos);
    }
  }

  lemma TailTwice(b: seq<Byte>, c: seq<Byte>, d: seq<Byte>, p: nat, q: nat)
    requires p <= q <= |b| <= |c| <= |d|
    requires c[p..|b|] == b[p..] && d[q..|c|] == c[q..]
    ensures d[q..|b|] == b[q..]
  {
    forall i | q <= i < |b|
      ensures d[i] == b[i]
    {
      assert d[i] == d[q..|c|][i - q] == c[q..][i - q] == c[i];
      assert c[i] == c[p..|b|][i - p] == b[p..][i - p] == b[i];
    }
  }

  lemma WroteNothing(b: Buf)
    requires b.Ok()
    ensures Wrote(b, [], b)
  {
  }

  /** The first `done` bytes of a file have been written. */
  predicate WroteUpTo(b: Buf, file: seq<Byte>, done: nat, b': Buf)
    requires b.Ok()
  {
    done <= |file| && Wrote(b, file[..done], b')
  }

  lemma WroteNext(b: Buf, file: seq<Byte>, done: nat, next: nat, c: Buf, d: Buf)
    requires b.Ok() && WroteUpTo(b, file, done, c) && c.Ok()
    requires done <= next <= |file| && Wrote(c, file[done..next], d)
    ensures WroteUpTo(b, file, next, d)
  {
    WroteTwice(b, file[..done], c, file[done..next], d);
    assert file[..done] + file[done..next] == file[..next];
  }

  // ---- reading ------------------------------------------------------------------------

  datatype ReadResult = Data(bytes: seq<Byte>) | OutOfRange | NullCursor

  /** read: throws out_of_range, or dereferences the cursor, which is null at the capacity. */
  function ReadOutcome(b: Buf, n: nat): ReadResult
    requires b.Ok()
  {
    if n > b.size - b.pos then OutOfRange
    else if b.pos == |b.cells| then NullCursor
    else Data(b.cells[b.pos..b.pos + n])
  }

  function AfterRead(b: Buf, n: nat): Buf
    requires b.Ok()
  {
    if ReadOutcome(b, n).Data? then b.(pos := b.pos + n) else b
  }

  /** setPosition: refused beyond the capacity; beyond the data it exposes what is there. */
  function AfterSetPosition(b: Buf, v: nat): Buf {
    if v > |b.cells| then b else b.(pos := v, size := Max(b.size, v))
  }

  /** clear: one node is left, and nothing in it counts. */
  function AfterClear(b: Buf): Buf
    requires b.base <= |b.cells|
  {
    Buf(b.base, 0, 0, b.cells[..b.base])
  }

  /** A stretch of row k is a stretch of the flat bytes. */
  lemma RowSlice(rows: seq<seq<Byte>>, base: nat, k: nat, npos: nat, len: nat)
    requires Rectangular(rows, base) && k < |rows| && npos + len <= base
    ensures Start(k, base) + npos + len <= |Flatten(rows)|
    ensures rows[k][npos..npos + len] == Flatten(rows)[Start(k, base) + npos..Start(k, base) + npos + len]
  {
    FlattenRow(rows, base, k);
    SliceOfSlice(Flatten(rows), Start(k, base), Start(k, base) + base, npos, len);
  }
}
