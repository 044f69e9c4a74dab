/**
 ByteArray (dag/bytearray.cpp, dag/bytearray.h): a byte buffer kept as a linked list
 of nodes of `baseSize` bytes with one shared read/write cursor.
 */
module ByteArrays {
  import opened Bits
  import opened Endian
  import opened FlatBuffer

  /** A block of `size` bytes; the ghost index keeps the nodes of one list apart. */
  class Node {
    const size: nat
    var ptr: seq<Byte>
    var next: Node?
    ghost const index: nat

    constructor (s: nat, ghost i: nat)
      ensures size == s && |ptr| == s && next == null && index == i
    {
      var block := new Byte[s];
      size := s;
      ptr := block[..];
      next := null;
      index := i;
    }
  }

  /** Distinct blocks of `base` bytes holding the given rows. */
  ghost predicate Holds(nodes: seq<Node>, base: nat, rows: seq<seq<Byte>>)
    reads nodes
  {
    && |rows| == |nodes|
    && forall i :: 0 <= i < |nodes| ==>
      && nodes[i].index == i
      && nodes[i].size == base
      && nodes[i].ptr == rows[i]
      && |rows[i]| == base
  }

  /** The nodes form a null-terminated list. */
  ghost predicate Linked(nodes: seq<Node>)
    reads nodes
  {
    && |nodes| >= 1
    && (forall i :: 0 <= i < |nodes| - 1 ==> nodes[i].next == nodes[i + 1])
    && nodes[|nodes| - 1].next == null
  }

  /** The only old node that growing touches: its `next` is set. */
  ghost function LastOf(nodes: seq<Node>): set<object> {
    if nodes == [] then {} else {nodes[|nodes| - 1]}
  }

  // ---- zero-copy views ----------------------------------------------------------------

  /** An iovec: len bytes of a node's block, from offset `at` on. */
  datatype Slice = Slice(node: Node, at: nat, len: nat)

  function Total(iovs: seq<Slice>): nat {
    if iovs == [] then 0 else Total(iovs[..|iovs| - 1]) + iovs[|iovs| - 1].len
  }

  /** The slice is a non-empty stretch of a node of the list, at flat offset p. */
  ghost predicate OnRow(nodes: seq<Node>, base: nat, s: Slice, p: nat) {
    && s.node.index < |nodes| && nodes[s.node.index] == s.node
    && 0 < s.len && s.at + s.len <= base
    && p == Start(s.node.index, base) + s.at
  }

  /** The slices, in order and without gap or overlap, are the flat bytes from `start` on. */
  ghost predicate Tile(nodes: seq<Node>, base: nat, iovs: seq<Slice>, start: nat) {
    iovs != [] ==>
      var init := iovs[..|iovs| - 1];
      Tile(nodes, base, init, start) && OnRow(nodes, base, iovs[|iovs| - 1], start + Total(init))
  }

  lemma {:induction false} TileAt(nodes: seq<Node>, base: nat, iovs: seq<Slice>, start: nat, i: nat)
    requires Tile(nodes, base, iovs, start) && i < |iovs|
    ensures OnRow(nodes, base, iovs[i], start + Total(iovs[..i]))
    ensures Total(iovs[..i + 1]) == Total(iovs[..i]) + iovs[i].len <= Total(iovs)
    decreases |iovs|
  {
    var n := |iovs| - 1;
    if i < n {
      TileAt(nodes, base, iovs[..n], start, i);
      assert iovs[..n][..i] == iovs[..i] && iovs[..n][..i + 1] == iovs[..i + 1];
    } else {
      assert iovs[..i + 1] == iovs;
    }
    assert iovs[..i + 1][..i] == iovs[..i];
  }

  lemma TilePush(nodes: seq<Node>, base: nat, iovs: seq<Slice>, start: nat, iov: Slice)
    requires Tile(nodes, base, iovs, start) && OnRow(nodes, base, iov, start + Total(iovs))
    ensures Tile(nodes, base, iovs + [iov], start) && Total(iovs + [iov]) == Total(iovs) + iov.len
  {
    assert (iovs + [iov])[..|iovs|] == iovs;
  }

  /** Two slices of a tiling never share a byte. */
  lemma TileDisjoint(nodes: seq<Node>, base: nat, iovs: seq<Slice>, start: nat, i: nat, j: nat)
    requires Tile(nodes, base, iovs, start) && i < j < |iovs|
    ensures iovs[i].node != iovs[j].node || iovs[i].at + iovs[i].len <= iovs[j].at
  {
    TileAt(nodes, base, iovs, start, i);
    TileAt(nodes, base, iovs, start, j);
    TotalMonotone(iovs, i + 1, j);
  }

  lemma {:induction false} TotalMonotone(iovs: seq<Slice>, i: nat, j: nat)
    requires i <= j <= |iovs|
    ensures Total(iovs[..i]) <= Total(iovs[..j])
    decreases j - i
  {
    if i < j {
      TotalMonotone(iovs, i, j - 1);
      assert iovs[..j][..j - 1] == iovs[..j - 1];
    }
  }

  /** size_t has 64 bits. */
  const SIZE_LIMIT := 0x1_0000_0000_0000_0000

  /** a - b in size_t. */
  function UnsignedMinus(a: nat, b: nat): nat
    requires b <= a + SIZE_LIMIT
  {
    if b <= a then a - b else a + SIZE_LIMIT - b
  }

  class ByteArray {
    const baseSize: nat
    var position: nat
    var capacity: nat
    var size: nat
    var order: Order
    var root: Node
    var cur: Node?
    ghost var nodes: seq<Node>
    ghost var rows: seq<seq<Byte>>

    ghost function Repr(): set<object>
      reads this
    {
      {this} + (set n: Node | n in nodes :: n as object)
    }

    /** m_cur is the node of the position, and null exactly at the capacity. */
    ghost predicate CursorOk()
      reads this
      requires baseSize >= 1
    {
      if position == capacity then cur == null
      else RowOf(position, baseSize) < |nodes| && cur == nodes[RowOf(position, baseSize)]
    }

    /** The list itself: linked, of whole nodes, holding the rows. */
    ghost predicate Listed()
      reads this, nodes
    {
      && baseSize >= 1
      && Linked(nodes)
      && Holds(nodes, baseSize, rows)
      && root == nodes[0]
      && capacity == Start(|nodes|, baseSize)
    }

    ghost predicate Valid()
      reads this, nodes
    {
      && Listed()
      && position <= size <= capacity
      && CursorOk()
    }

    ghost function View(): Buf
      reads this
    {
      Buf(baseSize, position, size, Flatten(rows))
    }

    lemma ViewOk()
      requires Valid()
      ensures |View().cells| == capacity
      ensures View().Ok()
    {
      FlattenLength(rows, baseSize);
    }

    constructor (base: nat)
      requires base >= 1
      ensures Valid() && fresh(Repr()) && forall j :: 0 <= j < |nodes| ==> fresh(nodes[j])
      ensures baseSize == base && position == 0 && size == 0 && capacity == base
      ensures order == Big
    {
      baseSize := base;
      position, capacity, size := 0, base, 0;
      order := Big;
      var first := new Node(base, 0);
      root := first;
      cur := first;
      nodes := [first];
      rows := [first.ptr];
      new;
    }

    method LastNode() returns (tmp: Node)
      requires Valid()
      ensures tmp == nodes[|nodes| - 1]
    {
      tmp := root;
      ghost var k := 0;
      while tmp.next != null
        invariant 0 <= k < |nodes| && tmp == nodes[k]
        invariant tmp.next == if k + 1 < |nodes| then nodes[k + 1] else null
        decreases |nodes| - k
      {
        tmp := tmp.next;
        k := k + 1;
      }
    }

    /** One round of the growth loop: hang a new node behind the last one. */
    method AppendNode(tmp: Node) returns (added: Node)
      requires Listed() && tmp == nodes[|nodes| - 1]
      modifies this`nodes, this`rows, this`capacity, tmp
      ensures Listed()
      ensures nodes == old(nodes) + [added] && fresh(added)
      ensures old(rows) <= rows
    {
      added := new Node(baseSize, |nodes|);
      tmp.next := added;
      nodes := nodes + [added];
      rows := rows + [added.ptr];
      capacity := capacity + baseSize;
    }

    /** The growth loop; `first` is the first node it adds. */
    method AppendNodes(count: nat, last: Node) returns (first: Node?)
      requires Listed() && last == nodes[|nodes| - 1]
      modifies this`nodes, this`rows, this`capacity, last
      ensures Listed()
      ensures old(nodes) <= nodes && |nodes| == |old(nodes)| + count
      ensures forall j :: |old(nodes)| <= j < |nodes| ==> fresh(nodes[j])
      ensures old(rows) <= rows
      ensures count > 0 ==> first == nodes[|old(nodes)|]
    {
      first := null;
      var tmp := last;
      ghost var was := nodes;
      for i := 0 to count
        invariant Listed()
        invariant was <= nodes && |nodes| == |was| + i
        invariant forall j :: |was| <= j < |nodes| ==> fresh(nodes[j])
        invariant tmp == nodes[|nodes| - 1] && old(rows) <= rows
        invariant if i == 0 then tmp == last else fresh(tmp)
        invariant if i == 0 then first == null else first == nodes[|was|]
      {
        tmp := AppendNode(tmp);
        if first == null {
          first := tmp;
        }
      }
    }

    /** As many whole nodes as n bytes need; `first` is the first of them. */
    method GrowList(n: nat) returns (first: Node?)
      requires Valid() && capacity - position < n
      modifies this`nodes, this`rows, this`capacity, LastOf(nodes)
      ensures Listed() && |nodes| > |old(nodes)| && first == nodes[|old(nodes)|]
      ensures old(nodes) <= nodes && old(rows) <= rows
      ensures forall j :: |old(nodes)| <= j < |nodes| ==> fresh(nodes[j])
      ensures capacity == GrownCapacity(old(capacity), position, n, baseSize)
      ensures capacity - position >= n
    {
      var count := CeilDiv(n - (capacity - position), baseSize);
      Growth(|nodes|, capacity, position, n, baseSize, count);
      var last := LastNode();
      first := AppendNodes(count, last);
    }

    /** The growing part of addCapacity; a null cursor is set to the first new node. */
    method Grow(n: nat)
      requires Valid() && capacity - position < n
      modifies this, LastOf(nodes)
      ensures Valid()
      ensures old(nodes) <= nodes && old(rows) <= rows
      ensures forall j :: |old(nodes)| <= j < |nodes| ==> fresh(nodes[j])
      ensures unchanged(`position, `size, `order)
      ensures capacity == GrownCapacity(old(capacity), position, n, baseSize)
      ensures capacity - position >= n
    {
      var oldCap := capacity - position;
      AtRow(position, baseSize, |nodes|);
      var first := GrowList(n);
      if oldCap == 0 {
        cur := first;
      }
    }

    /** addCapacity: room for n bytes after the position. */
    method AddCapacity(n: nat)
      requires Valid()
      modifies this, LastOf(nodes)
      ensures Valid()
      ensures old(nodes) <= nodes && order == old(order)
      ensures forall j :: |old(nodes)| <= j < |nodes| ==> fresh(nodes[j])
      ensures old(View()).Ok() && Grew(old(View()), n, View())
      ensures capacity - position >= n
    {
      ViewOk();
      if n > 0 && capacity - position < n {
        Grow(n);
        ViewOk();
        RowsPrefix(old(rows), rows);
      }
    }

    /** npos is the offset of the position in the current node. */
    ghost predicate InNode(npos: nat)
      reads this
      requires baseSize >= 1
    {
      npos < baseSize && position == Start(RowOf(position, baseSize), baseSize) + npos
    }

    /** memcpy of a chunk into the current node. */
    method CopyIn(npos: nat, chunk: seq<Byte>)
      requires Listed() && CursorOk() && position < capacity
      requires InNode(npos)
      requires |chunk| <= baseSize - npos
      modifies this`rows, cur
      ensures Listed() && CursorOk()
      ensures var k := RowOf(position, baseSize);
        k < |old(rows)| && npos + |chunk| <= |old(rows)[k]|
        && rows == old(rows)[k := Splice(old(rows)[k], npos, chunk)]
    {
      ghost var k := RowOf(position, baseSize);
      cur.ptr := Splice(cur.ptr, npos, chunk);
      rows := rows[k := cur.ptr];
    }

    /** The cursor step that follows each memcpy of write and read. */
    method Advance(npos: nat, len: nat)
      requires Listed() && CursorOk() && position < capacity
      requires InNode(npos)
      requires len <= baseSize - npos
      modifies this`position, this`cur
      ensures Listed() && CursorOk() && position == old(position) + len <= capacity
      ensures npos + len == baseSize && position < capacity ==> InNode(0)
    {
      ghost var k := RowOf(position, baseSize);
      CursorStep(position, baseSize, k, len, |nodes|);
      position := position + len;
      if cur.size == npos + len {
        cur := cur.next;
      }
    }

    /** One round of the loop of write: len bytes of data go to the current node. */
    method StoreChunk(npos: nat, data: seq<Byte>, bpos: nat, len: nat, ghost before: seq<Byte>, ghost start: nat)
      returns (done: nat)
      requires Listed() && CursorOk() && position < capacity && InNode(npos)
      requires len <= baseSize - npos && bpos + len <= |data|
      requires position == start + bpos && Copied(rows, before, start, data, bpos)
      modifies this`position, this`cur, this`rows, cur
      ensures Listed() && CursorOk() && position == old(position) + len <= capacity
      ensures npos + len == baseSize && position < capacity ==> InNode(0)
      ensures done == bpos + len && Copied(rows, before, start, data, done)
    {
      CopiedMore(rows, baseSize, RowOf(position, baseSize), npos, before, start, data, bpos, len);
      CopyIn(npos, data[bpos..bpos + len]);
      Advance(npos, len);
      done := bpos + len;
    }

    /** The loop of write. */
    method StoreAll(data: seq<Byte>)
      requires Valid() && 0 < |data| <= capacity - position
      modifies this`position, this`cur, this`rows, nodes
      ensures Listed() && CursorOk()
      ensures Copied(rows, Flatten(old(rows)), old(position), data, |data|)
      ensures position == old(position) + |data| <= capacity
    {
      ghost var before, start := Flatten(rows), position;
      ViewOk();
      RowOfFacts(position, baseSize);
      var npos: nat := position % baseSize;
      var ncap := cur.size - npos;
      var bpos: nat, left: nat := 0, |data|;
      while left > 0
        invariant bpos + left == |data|
        invariant Listed() && CursorOk() && position == start + bpos
        invariant left > 0 ==> InNode(npos) && ncap == baseSize - npos
        invariant Copied(rows, before, start, data, bpos)
        decreases left
      {
        if ncap >= left {
          bpos := StoreChunk(npos, data, bpos, left, before, start);
          left := 0;
        } else {
          bpos := StoreChunk(npos, data, bpos, ncap, before, start);
          left := left - ncap;
          ncap := cur.size;
          npos := 0;
        }
      }
    }

    /** The part of write that follows addCapacity. */
    method Overwrite(data: seq<Byte>)
      requires Valid() && 0 < |data| <= capacity - position
      modifies this`position, this`cur, this`rows, this`size, nodes
      ensures Valid()
      ensures Copied(rows, Flatten(old(rows)), old(position), data, |data|)
      ensures position == old(position) + |data| && size == Max(old(size), position)
    {
      StoreAll(data);
      if position > size {
        size := position;
      }
    }

    method Write(data: seq<Byte>)
      requires Valid()
      modifies this, nodes
      ensures Valid() && order == old(order)
      ensures old(nodes) <= nodes
      ensures forall j :: |old(nodes)| <= j < |nodes| ==> fresh(nodes[j])
      ensures position == old(position) + |data|
      ensures size == if position > old(size) then position else old(size)
      ensures capacity == old(capacity) || old(capacity) < position <= capacity < position + baseSize
      ensures old(View()).Ok() && Wrote(old(View()), data, View())
    {
      ViewOk();
      GrowthCovers(capacity, position, |data|, baseSize);
      if |data| > 0 {
        AddCapacity(|data|);
        ghost var grown := View();
        ViewOk();
        Overwrite(data);
        CopiedIsWrote(old(View()), |data|, grown, data, rows, View());
      }
    }

    /** The flat bytes from `start` to the position. */
    ghost predicate Loaded(start: nat, buf: seq<Byte>)
      reads this
    {
      start <= position <= |Flatten(rows)| && buf == Flatten(rows)[start..position]
    }

    /** One round of the loop of read: len bytes of the current node join buf. */
    method LoadChunk(npos: nat, len: nat, buf: seq<Byte>, ghost start: nat) returns (more: seq<Byte>)
      requires Listed() && CursorOk() && position < capacity && InNode(npos)
      requires len <= baseSize - npos && Loaded(start, buf)
      modifies this`position, this`cur
      ensures Listed() && CursorOk() && position == old(position) + len <= capacity
      ensures npos + len == baseSize && position < capacity ==> InNode(0)
      ensures Loaded(start, more)
    {
      RowSlice(rows, baseSize, RowOf(position, baseSize), npos, len);
      SliceConcat(Flatten(rows), start, position, position + len);
      more := buf + cur.ptr[npos..npos + len];
      Advance(npos, len);
    }

    /** The copying loop of read, once there are n bytes. */
    method ReadLoop(n: nat) returns (buf: seq<Byte>)
      requires Valid() && n <= size - position && position < capacity
      modifies this`position, this`cur
      ensures Valid() && position == old(position) + n
      ensures Loaded(old(position), buf)
    {
      ghost var start := position;
      ViewOk();
      RowOfFacts(position, baseSize);
      var npos: nat := position % baseSize;
      var ncap := cur.size - npos;
      var left: nat := n;
      buf := [];
      while left > 0
        invariant left <= n && Listed() && CursorOk()
        invariant position == start + n - left
        invariant left > 0 ==> InNode(npos) && ncap == baseSize - npos
        invariant Loaded(start, buf)
        decreases left
      {
        if ncap >= left {
          buf := LoadChunk(npos, left, buf, start);
          left := 0;
        } else {
          buf := LoadChunk(npos, ncap, buf, start);
          left := left - ncap;
          ncap := cur.size;
          npos := 0;
        }
      }
    }

    /** read(buf, n) at the position. */
    method Read(n: nat) returns (r: ReadResult)
      requires Valid()
      modifies this`position, this`cur
      ensures Valid()
      ensures r == OutOfRange <==> n > old(size) - old(position)
      ensures r == NullCursor <==> n <= old(size) - old(position) && old(position) == capacity
      ensures if r.Data? then position == old(position) + n <= |Flatten(rows)|
                              && r.bytes == Flatten(rows)[old(position)..position]
              else position == old(position)
      ensures old(View()).Ok() && r == ReadOutcome(old(View()), n)
      ensures View() == AfterRead(old(View()), n)
    {
      ViewOk();
      if n > size - position {
        return OutOfRange;
      }
      if cur == null {
        return NullCursor;
      }
      var buf := ReadLoop(n);
      r := Data(buf);
    }

    /** The walk of setPosition: the node of position v, null at the capacity. */
    method FindNode(v: nat) returns (node: Node?)
      requires Listed() && v <= capacity
      ensures if v == capacity then node == null
              else RowOf(v, baseSize) < |nodes| && node == nodes[RowOf(v, baseSize)]
    {
      node := root;
      var rest: nat := v;
      ghost var k: nat := 0;
      while rest > node.size
        invariant k < |nodes| && node == nodes[k] && v == Start(k, baseSize) + rest
        decreases rest
      {
        StartMonotone(|nodes|, k + 1, baseSize);
        rest := rest - node.size;
        node := node.next;
        k := k + 1;
      }
      CursorStep(Start(k, baseSize), baseSize, k, rest, |nodes|);
      if rest == node.size {
        node := node.next;
      }
    }

    method SetPosition(v: nat) returns (ok: bool)
      requires Valid()
      modifies this`position, this`size, this`cur
      ensures Valid()
      ensures ok <==> v <= capacity
      ensures ok ==> position == v && size == if v > old(size) then v else old(size)
      ensures !ok ==> position == old(position) && size == old(size)
      ensures View() == AfterSetPosition(old(View()), v)
    {
      ViewOk();
      if v > capacity {
        return false;
      }
      var node := FindNode(v);
      position := v;
      if position > size {
        size := position;
      }
      cur := node;
      return true;
    }

    /** clear: the root node stays, the others are dropped. */
    method Clear()
      requires Valid()
      modifies this, root
      ensures Valid() && order == old(order)
      ensures nodes == [old(root)] && root == old(root)
      ensures position == 0 && size == 0 && capacity == baseSize && cur == root
      ensures root.ptr == old(root.ptr) && baseSize <= |Flatten(old(rows))|
      ensures Flatten(rows) == Flatten(old(rows))[..baseSize]
      ensures View() == AfterClear(old(View()))
    {
      FlattenRow(rows, baseSize, 0);
      position, size := 0, 0;
      capacity := baseSize;
      cur := root;
      root.next := null;
      nodes, rows := [root], [rows[0]];
      assert Flatten(rows) == Flatten([]) + rows[0];
    }

    /** The node at p, null one step behind the last. */
    ghost predicate IsNodeAt(node: Node?, p: nat)
      reads this
    {
      baseSize >= 1 && RowOf(p, baseSize) <= |nodes| &&
      node == if RowOf(p, baseSize) < |nodes| then nodes[RowOf(p, baseSize)] else null
    }

    /** cur->next: null behind the last node, where the capacity ends. */
    method Follow(cur: Node, ghost k: nat) returns (next: Node?)
      requires Listed() && k < |nodes| && cur == nodes[k]
      ensures next == null ==> Start(k, baseSize) + baseSize == capacity
      ensures next != null ==> k + 1 < |nodes| && next == nodes[k + 1] && next.size == baseSize
      ensures Start(k + 1, baseSize) == Start(k, baseSize) + baseSize <= capacity
    {
      StartMonotone(k + 1, |nodes|, baseSize);
      if k + 1 < |nodes| {
        assert nodes[k].next == nodes[k + 1];
      }
      next := cur.next;
    }

    /** The slicing loop that getReadBuffers and getWriteBuffers share; linked is false if it comes
        to dereference a null link. */
    method BuildSlices(node: Node?, pos: nat, len: nat) returns (linked: bool, iovs: seq<Slice>)
      requires Listed() && 0 < len && IsNodeAt(node, pos)
      ensures linked <==> pos + len <= capacity
      ensures linked ==> Tile(nodes, baseSize, iovs, pos) && Total(iovs) == len
    {
      RowBefore(pos, baseSize, |nodes|);
      if node == null {
        return false, [];
      }
      RowOfFacts(pos, baseSize);
      var npos: nat := pos % baseSize;
      var ncap := node.size - npos;
      var cur: Node? := node;
      var left: nat := len;
      ghost var k: nat := RowOf(pos, baseSize);
      iovs := [];
      while left > 0
        invariant left <= len && Total(iovs) == len - left && pos + len - left <= capacity
        invariant left > 0 ==> k < |nodes| && cur == nodes[k] && ncap == baseSize - npos > 0
        invariant left > 0 ==> pos + len - left == Start(k, baseSize) + npos
        invariant Tile(nodes, baseSize, iovs, pos)
        decreases left
      {
        var iov := Slice(cur, npos, if ncap >= left then left else ncap);
        TilePush(nodes, baseSize, iovs, pos, iov);
        iovs := iovs + [iov];
        var next := Follow(cur, k);
        if ncap >= left {
          left := 0;
        } else {
          if next == null {
            return false, iovs;
          }
          left, cur, ncap, npos, k := left - ncap, next, next.size, 0, k + 1;
        }
      }
      linked := true;
    }

    /** getReadBuffers(buffers, len): the readable bytes, at most len of them. */
    method GetReadBuffers(len: nat) returns (total: nat, iovs: seq<Slice>)
      requires Valid()
      ensures total == Min(len, size - position)
      ensures Tile(nodes, baseSize, iovs, position) && Total(iovs) == total
    {
      total := if len > size - position then size - position else len;
      if total == 0 {
        return 0, [];
      }
      var linked;
      linked, iovs := BuildSlices(cur, position, total);
    }

    /** getReadBuffers(buffers, len, p): as many bytes as are readable at the position, from p on;
        they are data if p is not behind the position.  linked is false if the end of the list is
        passed, and a null link followed. */
    method GetReadBuffersAt(len: nat, p: nat) returns (linked: bool, total: nat, iovs: seq<Slice>)
      requires Valid()
      ensures total == Min(len, size - position)
      ensures linked <==> total == 0 || p + total <= capacity
      ensures p <= position ==> linked && p + total <= size
      ensures linked ==> Tile(nodes, baseSize, iovs, p) && Total(iovs) == total
    {
      total := if len > size - position then size - position else len;
      if total == 0 {
        return true, 0, [];
      }
      RowBefore(p, baseSize, |nodes|);
      var node;
      iovs := [];
      linked, node := WalkTo(p);
      if linked {
        linked, iovs := BuildSlices(node, p, total);
      }
    }

    /** position / m_baseSize steps from the root; linked is false if one of them starts from null. */
    method WalkTo(p: nat) returns (linked: bool, node: Node?)
      requires Listed()
      ensures linked <==> RowOf(p, baseSize) <= |nodes|
      ensures linked ==> IsNodeAt(node, p)
    {
      RowOfFacts(p, baseSize);
      var count := p / baseSize;
      node := root;
      ghost var k := 0;
      while count > 0
        invariant 0 <= count && k + count == RowOf(p, baseSize) && k <= |nodes|
        invariant node == if k < |nodes| then nodes[k] else null
      {
        if node == null {
          return false, null;
        }
        node := node.next;
        count := count - 1;
        k := k + 1;
      }
      linked := true;
    }

    method GetWriteBuffers(len: nat) returns (iovs: seq<Slice>)
      requires Valid()
      modifies this, LastOf(nodes)
      ensures Valid() && order == old(order)
      ensures old(nodes) <= nodes
      ensures forall j :: |old(nodes)| <= j < |nodes| ==> fresh(nodes[j])
      ensures old(View()).Ok() && Grew(old(View()), len, View())
      ensures capacity - position >= len
      ensures Tile(nodes, baseSize, iovs, position) && Total(iovs) == len
    {
      ViewOk();
      if len == 0 {
        return [];
      }
      AddCapacity(len);
      var linked;
      linked, iovs := BuildSlices(cur, position, len);
    }

    /** The flat bytes from p on, n of them. */
    ghost predicate Holding(p: nat, n: nat, buf: seq<Byte>)
      reads this
    {
      p + n <= |Flatten(rows)| && buf == Flatten(rows)[p..p + n]
    }

    lemma HoldMore(p: nat, n: nat, buf: seq<Byte>, k: nat, npos: nat, next: nat)
      requires Listed() && Holding(p, n, buf) && k < |nodes|
      requires p + n == Start(k, baseSize) + npos && n <= next && npos + (next - n) <= baseSize
      ensures Holding(p, next, buf + rows[k][npos..npos + (next - n)])
    {
      RowSlice(rows, baseSize, k, npos, next - n);
      SliceConcat(Flatten(rows), p, p + n, p + next);
    }

    /** The copying loop of the positional read; linked is false if it comes to dereference a null
        link. */
    method CopyOut(node: Node?, p: nat, n: nat) returns (linked: bool, buf: seq<Byte>)
      requires Listed() && 0 < n && IsNodeAt(node, p)
      ensures linked <==> p + n <= capacity
      ensures linked ==> Holding(p, n, buf)
    {
      RowBefore(p, baseSize, |nodes|);
      if node == null {
        return false, [];
      }
      FlattenLength(rows, baseSize);
      RowOfFacts(p, baseSize);
      var npos: nat := p % baseSize;
      var ncap := baseSize - npos;
      var cur: Node? := node;
      var bpos: nat := 0;
      ghost var k: nat := RowOf(p, baseSize);
      buf := [];
      while bpos < n
        invariant bpos <= n && Holding(p, bpos, buf)
        invariant bpos < n ==> k < |nodes| && cur == nodes[k] && ncap == baseSize - npos > 0
        invariant bpos < n ==> p + bpos == Start(k, baseSize) + npos
      {
        var next := if ncap >= n - bpos then n else bpos + ncap;
        HoldMore(p, bpos, buf, k, npos, next);
        buf := buf + cur.ptr[npos..npos + (next - bpos)];
        bpos := next;
        if bpos < n {
          var behind := Follow(cur, k);
          if behind == null {
            return false, buf;
          }
          cur, ncap, npos, k := behind, behind.size, 0, k + 1;
        }
      }
      linked := true;
    }

    /** read(buf, n, p): the cursor is dereferenced although the data is elsewhere.  Behind the
        data the length test wraps around and passes: bytes that are no data are returned, or the
        end of the list is passed, and then linked is false: a null link was followed. */
    method ReadAt(n: nat, p: nat) returns (linked: bool, r: ReadResult)
      requires Valid() && p <= size + SIZE_LIMIT
      ensures r == OutOfRange <==> n > UnsignedMinus(size, p)
      ensures !linked <==>
        (r != OutOfRange && (p >= capacity + baseSize || (position < capacity && n > 0 && p + n > capacity)))
      ensures linked ==> (r == NullCursor <==> r != OutOfRange && position == capacity)
      ensures linked && r.Data? ==> |r.bytes| == n && (n > 0 ==> Holding(p, n, r.bytes))
    {
      ViewOk();
      if n > UnsignedMinus(size, p) {
        return true, OutOfRange;
      }
      RowBefore(p, baseSize, |nodes|);
      var node;
      linked, node := WalkTo(p);
      if !linked {
        return false, NullCursor;
      }
      if cur == null {
        return true, NullCursor;
      }
      if n == 0 {
        return true, Data([]);
      }
      var buf;
      linked, buf := CopyOut(node, p, n);
      r := Data(buf);
    }

    /** toString: the readable bytes, by a positional read that never meets the null cursor. */
    method ToString() returns (str: seq<Byte>)
      requires Valid()
      ensures Holding(position, size - position, str)
    {
      ViewOk();
      if size - position == 0 {
        return [];
      }
      var linked, r := ReadAt(size - position, position);
      str := r.bytes;
    }

    /** One round of the loop of writeToFile: the rest of one node, or of the data. */
    method WriteBlock(node: Node, pos: nat, left: nat, file: seq<Byte>, ghost start: nat)
      returns (more: seq<Byte>, len: nat, next: Node?)
      requires Listed() && 0 < left && pos + left <= capacity && start <= pos
      requires RowOf(pos, baseSize) < |nodes| && node == nodes[RowOf(pos, baseSize)]
      requires Holding(start, pos - start, file)
      ensures 0 < len <= left && Holding(start, pos - start + len, more)
      ensures len < left ==> RowOf(pos + len, baseSize) < |nodes| && next == nodes[RowOf(pos + len, baseSize)]
    {
      RowOfFacts(pos, baseSize);
      ghost var k := RowOf(pos, baseSize);
      var diff: nat := pos % baseSize;
      len := Min(baseSize - diff, left);
      HoldMore(start, pos - start, file, k, diff, pos - start + len);
      CursorStep(pos, baseSize, k, len, |nodes|);
      more := file + node.ptr[diff..diff + len];
      next := node.next;
    }

    /** The loop of writeToFile. */
    method WriteToFile() returns (file: seq<Byte>)
      requires Valid()
      ensures Holding(position, size - position, file)
    {
      ViewOk();
      var readSize: nat := size - position;
      var pos := position;
      var node := cur;
      file := [];
      while readSize > 0
        invariant pos + readSize == size && position <= pos
        invariant readSize > 0 ==> RowOf(pos, baseSize) < |nodes| && node == nodes[RowOf(pos, baseSize)]
        invariant Holding(position, pos - position, file)
        decreases readSize
      {
        var len;
        file, len, node := WriteBlock(node, pos, readSize, file, position);
        pos := pos + len;
        readSize := readSize - len;
      }
    }

    /** One block of a file is written. */
    method WriteFilePart(file: seq<Byte>, done: nat, next: nat, ghost before: Buf)
      requires Valid() && done <= next <= |file| && before.Ok() && WroteUpTo(before, file, done, View())
      modifies this, nodes
      ensures Valid() && order == old(order) && old(nodes) <= nodes
      ensures forall j :: |old(nodes)| <= j < |nodes| ==> fresh(nodes[j])
      ensures WroteUpTo(before, file, next, View())
    {
      ViewOk();
      Write(file[done..next]);
      WroteNext(before, file, done, next, old(View()), View());
    }

    /** readFromFile: blocks of m_baseSize bytes until a read comes up short. */
    method ReadFromFile(file: seq<Byte>)
      requires Valid()
      modifies this, nodes
      ensures Valid() && order == old(order)
      ensures old(nodes) <= nodes
      ensures forall j :: |old(nodes)| <= j < |nodes| ==> fresh(nodes[j])
      ensures old(View()).Ok() && Wrote(old(View()), file, View())
    {
      ViewOk();
      ghost var before := View();
      WroteNothing(before);
      assert file[..0] == [];
      var done: nat, eof := 0, false;
      while !eof
        invariant eof ==> done == |file|
        invariant Valid() && order == old(order) && old(nodes) <= nodes
        invariant forall j :: |old(nodes)| <= j < |nodes| ==> fresh(nodes[j])
        invariant WroteUpTo(before, file, done, View())
        decreases !eof, |file| - done
      {
        var next := done + Min(baseSize, |file| - done);
        eof := next < done + baseSize;
        WriteFilePart(file, done, next, before);
        done := next;
      }
      assert file[..|file|] == file;
    }

    /** The bytes of one slice. */
    method TakeSlice(iovs: seq<Slice>, i: nat, bytes: seq<Byte>, ghost start: nat) returns (more: seq<Byte>)
      requires Listed() && Tile(nodes, baseSize, iovs, start) && i < |iovs|
      requires Holding(start, Total(iovs[..i]), bytes)
      ensures Holding(start, Total(iovs[..i + 1]), more)
    {
      TileAt(nodes, baseSize, iovs, start, i);
      var iov := iovs[i];
      HoldMore(start, Total(iovs[..i]), bytes, iov.node.index, iov.at, Total(iovs[..i + 1]));
      more := bytes + iov.node.ptr[iov.at..iov.at + iov.len];
    }

    /** What sendmsg sees through the slices. */
    method Gather(iovs: seq<Slice>, ghost start: nat) returns (bytes: seq<Byte>)
      requires Listed() && Tile(nodes, baseSize, iovs, start) && start <= capacity
      ensures Holding(start, Total(iovs), bytes)
    {
      FlattenLength(rows, baseSize);
      bytes := [];
      for i := 0 to |iovs|
        invariant Holding(start, Total(iovs[..i]), bytes)
      {
        bytes := TakeSlice(iovs, i, bytes, start);
      }
      assert iovs[..|iovs|] == iovs;
    }

    /** recvmsg into one slice. */
    method FillSlice(iov: Slice, data: seq<Byte>, done: nat, next: nat, ghost before: seq<Byte>, ghost start: nat)
      requires Listed() && OnRow(nodes, baseSize, iov, start + done)
      requires done <= next <= |data| && next - done <= iov.len
      requires Copied(rows, before, start, data, done)
      modifies this`rows, iov.node
      ensures Listed() && Copied(rows, before, start, data, next)
    {
      ghost var k := iov.node.index;
      CopiedMore(rows, baseSize, k, iov.at, before, start, data, done, next - done);
      assert done + (next - done) == next;
      iov.node.ptr := Splice(iov.node.ptr, iov.at, data[done..next]);
      rows := rows[k := iov.node.ptr];
    }

    /** recvmsg into the i-th slice. */
    method FillNext(iovs: seq<Slice>, i: nat, data: seq<Byte>, done: nat, ghost before: seq<Byte>, ghost start: nat)
      returns (next: nat)
      requires Listed() && Tile(nodes, baseSize, iovs, start) && i < |iovs|
      requires done == Total(iovs[..i]) < |data| && Copied(rows, before, start, data, done)
      modifies this`rows, nodes
      ensures Listed() && next == Min(Total(iovs[..i + 1]), |data|) > done
      ensures Copied(rows, before, start, data, next)
    {
      TileAt(nodes, baseSize, iovs, start, i);
      next := Min(done + iovs[i].len, |data|);
      FillSlice(iovs[i], data, done, next, before, start);
    }

    /** recvmsg: the received bytes fill the slices in order. */
    method Scatter(iovs: seq<Slice>, data: seq<Byte>, ghost start: nat)
      requires Valid() && Tile(nodes, baseSize, iovs, start)
      requires |data| <= Total(iovs) && start + |data| <= capacity
      modifies this`rows, nodes
      ensures Valid() && Copied(rows, Flatten(old(rows)), start, data, |data|)
    {
      ghost var before := Flatten(rows);
      ViewOk();
      assert iovs[..|iovs|] == iovs;
      var done: nat, i: nat := 0, 0;
      while done < |data|
        invariant i <= |iovs| && done == Min(Total(iovs[..i]), |data|)
        invariant Listed() && Copied(rows, before, start, data, done)
        decreases |data| - done
      {
        done := FillNext(iovs, i, data, done, before, start);
        i := i + 1;
      }
    }
  }

  /** Where the cursor stands after `len` more bytes of row k. */
  lemma CursorStep(p: nat, base: nat, k: nat, len: nat, rows: nat)
    requires base >= 1 && k < rows
    requires Start(k, base) <= p < Start(k, base) + base
    requires p + len <= Start(k, base) + base
    ensures p + len <= Start(rows, base)
    ensures p + len < Start(k, base) + base ==> p + len < Start(rows, base) && RowOf(p + len, base) == k
    ensures p + len == Start(k, base) + base && k + 1 < rows ==>
      p + len < Start(rows, base) && RowOf(p + len, base) == k + 1
    ensures p + len == Start(k, base) + base && k + 1 == rows ==> p + len == Start(rows, base)
  {
    StartMonotone(k, rows, base);
    StartMonotone(k + 1, rows, base);
    assert Start(k + 1, base) == Start(k, base) + base;
    if p + len < Start(k, base) + base {
      RowOfUnique(p + len, base, k);
    } else if k + 1 < rows {
      RowOfUnique(p + len, base, k + 1);
    }
  }

  lemma RowsPrefix(a: seq<seq<Byte>>, b: seq<seq<Byte>>)
    requires a <= b
    ensures Flatten(a) <= Flatten(b)
  {
    assert b[..|a|] == a;
    FlattenPrefix(b, |a|);
  }

  /** The arithmetic of growth from `rows` full nodes. */
  lemma Growth(rows: nat, cap: nat, position: nat, n: nat, base: nat, count: nat)
    requires base >= 1 && position <= cap < position + n
    requires cap == Start(rows, base) && count == CeilDiv(n - (cap - position), base)
    ensures count >= 1
    ensures Start(rows + count, base) == cap + Start(count, base) == GrownCapacity(cap, position, n, base)
    ensures cap + Start(count, base) >= position + n
    ensures RowOf(position, base) <= rows
    ensures position == cap <==> RowOf(position, base) == rows
  {
    CeilDivBounds(n - (cap - position), base);
    StartSum(rows, count, base);
    AtRow(position, base, rows);
  }

  /** The node index of a position in, or just past, the first `rows` nodes. */
  lemma AtRow(position: nat, base: nat, rows: nat)
    requires base >= 1 && position <= Start(rows, base)
    ensures RowOf(position, base) <= rows
    ensures position == Start(rows, base) <==> RowOf(position, base) == rows
  {
    if position == Start(rows, base) {
      RowOfUnique(position, base, rows);
    } else {
      RowOfBounds(position, base);
      StartMonotone(rows, RowOf(position, base), base);
    }
  }
}
