/**
 SocketStream::read/write on a ByteArray (dag/stream/socket_stream.cpp) and the fixed-size
 loops of Stream (dag/stream.cpp).  The kernel decides how many bytes each call moves.
 */
module Streams {
  import opened Bits
  import opened FlatBuffer
  import opened ByteArrays

  /** The data went to the position, whatever capacity was reserved for it. */
  predicate Appended(b: Buf, data: seq<Byte>, b': Buf)
    requires b.Ok()
  {
    && b'.base == b.base
    && b'.pos == b.pos + |data|
    && b'.size == Max(b.size, b'.pos)
    && |b.cells| <= |b'.cells| && b'.pos <= |b'.cells|
    && b'.cells[..b.pos] == b.cells[..b.pos]
    && b'.cells[b.pos..b'.pos] == data
    && (b'.pos <= |b.cells| ==> b'.cells[b'.pos..|b.cells|] == b.cells[b'.pos..])
  }

  lemma WroteIsAppended(b: Buf, room: nat, data: seq<Byte>, b': Buf)
    requires b.Ok() && WroteWithin(b, room, data, b')
    ensures Appended(b, data, b')
  {
    GrowthCovers(|b.cells|, b.pos, room, b.base);
  }

  lemma GrewIsAppended(b: Buf, room: nat, b': Buf)
    requires b.Ok() && Grew(b, room, b')
    ensures Appended(b, [], b')
  {
    SameTail(b.cells, b'.cells, b'.cells, b.pos);
  }

  /** Appending twice is appending both. */
  lemma AppendedTwice(b: Buf, x: seq<Byte>, c: Buf, y: seq<Byte>, d: Buf)
    requires b.Ok() && Appended(b, x, c) && c.Ok() && Appended(c, y, d)
    ensures Appended(b, x + y, d)
  {
    assert d.cells[..b.pos] == d.cells[..c.pos][..b.pos];
    assert d.cells[b.pos..d.pos] == d.cells[..c.pos][b.pos..] + d.cells[c.pos..d.pos];
    if d.pos <= |b.cells| {
      TailTwice(b.cells, c.cells, d.cells, c.pos, d.pos);
    }
  }

  lemma CellOf(cells: seq<Byte>, from: nat, to: nat, i: nat)
    requires from <= i < to <= |cells|
    ensures cells[i] == cells[from..to][i - from]
  {
  }

  lemma SamePrefix(x: seq<Byte>, y: seq<Byte>, n: nat)
    requires n <= |x| && n <= |y| && forall i :: 0 <= i < n ==> x[i] == y[i]
    ensures x[..n] == y[..n]
  {
  }

  /** Filling write buffers and moving the position leaves what `write` would leave. */
  lemma AppendedLikeWrite(b: Buf, data: seq<Byte>, f: Buf, w: Buf)
    requires b.Ok() && Appended(b, data, f) && Wrote(b, data, w)
    ensures f.pos == w.pos && f.size == w.size
    ensures f.size <= |f.cells| && w.size <= |w.cells|
    ensures f.cells[..f.size] == w.cells[..w.size]
  {
    GrowthCovers(|b.cells|, b.pos, |data|, b.base);
    forall i | 0 <= i < f.size
      ensures f.cells[i] == w.cells[i]
    {
      var from := if i < b.pos then 0 else if i < f.pos then b.pos else f.pos;
      var to := if i < b.pos then b.pos else if i < f.pos then f.pos else |b.cells|;
      CellOf(f.cells, from, to, i);
      CellOf(w.cells, from, to, i);
    }
    SamePrefix(f.cells, w.cells, f.size);
  }

  /** A connected socket: bytes waiting to be received, bytes sent; answers is the record of what its
      calls have returned. */
  class Socket {
    var connected: bool
    var inbox: seq<Byte>
    var outbox: seq<Byte>
    ghost var answers: seq<int>
  }

  /** How many bytes a call moves: its answer, and none if that is an error or the end. */
  function Moved(rt: int): (n: nat)
    ensures rt >= 0 ==> n == rt
    ensures rt < 0 ==> n == 0
  {
    if rt > 0 then rt else 0
  }

  /** The kernel fills the first |data| bytes of the slices; the position follows. */
  method FillAndMove(ba: ByteArray, iovs: seq<Slice>, data: seq<Byte>)
    requires ba.Valid() && Tile(ba.nodes, ba.baseSize, iovs, ba.position)
    requires |data| <= Total(iovs) && ba.position + |data| <= ba.capacity
    modifies ba`rows, ba`position, ba`size, ba`cur, ba.nodes
    ensures ba.Valid()
    ensures Copied(ba.rows, Flatten(old(ba.rows)), old(ba.position), data, |data|)
    ensures ba.position == old(ba.position) + |data| && ba.size == Max(old(ba.size), ba.position)
  {
    ba.Scatter(iovs, data, ba.position);
    ba.ViewOk();
    var ok := ba.SetPosition(ba.position + |data|);
  }

  /** getWriteBuffers(length), data from the kernel in the first bytes, setPosition. */
  method ReceiveInto(ba: ByteArray, length: nat, data: seq<Byte>)
    requires ba.Valid() && |data| <= length
    modifies ba, ba.nodes
    ensures ba.Valid() && ba.order == old(ba.order) && old(ba.nodes) <= ba.nodes
    ensures forall j :: |old(ba.nodes)| <= j < |ba.nodes| ==> fresh(ba.nodes[j])
    ensures old(ba.View()).Ok() && Appended(old(ba.View()), data, ba.View())
  {
    ba.ViewOk();
    ghost var b := ba.View();
    var iovs := ba.GetWriteBuffers(length);
    ghost var g := ba.View();
    if |data| > 0 {
      FillAndMove(ba, iovs, data);
      CopiedIsWrote(b, length, g, data, ba.rows, ba.View());
      WroteIsAppended(b, length, data, ba.View());
    } else {
      GrewIsAppended(b, length, g);
    }
  }

  /** The first rt waiting bytes go to the array; nothing moves if rt is not positive. */
  method Absorb(sock: Socket, ba: ByteArray, length: nat, rt: int)
    requires ba.Valid() && rt <= length && rt <= |sock.inbox|
    modifies sock`inbox, ba, ba.nodes
    ensures ba.Valid() && ba.order == old(ba.order) && old(ba.nodes) <= ba.nodes
    ensures forall j :: |old(ba.nodes)| <= j < |ba.nodes| ==> fresh(ba.nodes[j])
    ensures old(ba.View()).Ok() && Appended(old(ba.View()), old(sock.inbox)[..Moved(rt)], ba.View())
    ensures sock.inbox == old(sock.inbox)[Moved(rt)..]
  {
    ReceiveInto(ba, length, sock.inbox[..Moved(rt)]);
    sock.inbox := sock.inbox[Moved(rt)..];
  }

  /** SocketStream::read(ba, length): rt bytes arrive, rt chosen by the kernel. */
  method Receive(sock: Socket, ba: ByteArray, length: nat) returns (rt: int)
    requires ba.Valid()
    modifies sock`inbox, sock`answers, ba, ba.nodes
    ensures ba.Valid() && ba.order == old(ba.order) && old(ba.nodes) <= ba.nodes
    ensures forall j :: |old(ba.nodes)| <= j < |ba.nodes| ==> fresh(ba.nodes[j])
    ensures rt <= length && rt <= |old(sock.inbox)| && (!sock.connected ==> rt == -1)
    ensures old(ba.View()).Ok() && Appended(old(ba.View()), old(sock.inbox)[..Moved(rt)], ba.View())
    ensures sock.inbox == old(sock.inbox)[Moved(rt)..]
    ensures sock.answers == old(sock.answers) + [rt]
  {
    ghost var before := sock.answers;
    if sock.connected {
      rt :| rt <= length && rt <= |sock.inbox|;
      Absorb(sock, ba, length, rt);
    } else {
      ba.ViewOk();
      WroteNothing(ba.View());
      WroteIsAppended(ba.View(), 0, [], ba.View());
      rt := -1;
    }
    sock.answers := before + [rt];
  }

  /** getReadBuffers(length), as the kernel sees it. */
  method Peek(ba: ByteArray, length: nat) returns (bytes: seq<Byte>)
    requires ba.Valid()
    ensures ba.View().Ok() && bytes == ba.View().Readable()[..Min(length, ba.size - ba.position)]
  {
    ba.ViewOk();
    var total, iovs := ba.GetReadBuffers(length);
    bytes := ba.Gather(iovs, ba.position);
    SliceOfSlice(ba.View().cells, ba.position, ba.size, 0, total);
  }

  /** The first rt of the bytes offered leave. */
  method Emit(sock: Socket, ba: ByteArray, bytes: seq<Byte>, rt: int)
    requires ba.Valid() && ba.View().Ok() && rt <= |bytes|
    requires bytes <= ba.View().Readable()
    modifies sock`outbox, ba`position, ba`size, ba`cur
    ensures ba.Valid() && ba.View() == old(ba.View()).(pos := old(ba.position) + Moved(rt))
    ensures sock.outbox == old(sock.outbox) + bytes[..Moved(rt)]
  {
    ba.ViewOk();
    if rt > 0 {
      var ok := ba.SetPosition(ba.position + rt);
      sock.outbox := sock.outbox + bytes[..rt];
    }
  }

  /** The kernel takes rt of the bytes offered, rt chosen by the kernel. */
  method Offer(sock: Socket, ba: ByteArray, length: nat) returns (rt: int)
    requires ba.Valid()
    modifies sock`outbox, ba`position, ba`size, ba`cur
    ensures ba.Valid() && old(ba.View()).Ok()
    ensures rt <= length && rt <= |old(ba.View()).Readable()|
    ensures ba.View() == old(ba.View()).(pos := old(ba.position) + Moved(rt))
    ensures sock.outbox == old(sock.outbox) + old(ba.View()).Readable()[..Moved(rt)]
  {
    ba.ViewOk();
    var bytes := Peek(ba, length);
    rt :| rt <= |bytes|;
    Emit(sock, ba, bytes, rt);
    PrefixOfPrefix(old(ba.View()).Readable(), |bytes|, Moved(rt));
  }

  /** SocketStream::write(ba, length): rt bytes leave. */
  method Send(sock: Socket, ba: ByteArray, length: nat) returns (rt: int)
    requires ba.Valid()
    modifies sock`outbox, sock`answers, ba`position, ba`size, ba`cur
    ensures ba.Valid() && old(ba.View()).Ok()
    ensures rt <= length && rt <= |old(ba.View()).Readable()| && (!sock.connected ==> rt == -1)
    ensures ba.View() == old(ba.View()).(pos := old(ba.position) + Moved(rt))
    ensures sock.outbox == old(sock.outbox) + old(ba.View()).Readable()[..Moved(rt)]
    ensures sock.answers == old(sock.answers) + [rt]
  {
    ba.ViewOk();
    rt := -1;
    if sock.connected {
      rt := Offer(sock, ba, length);
    }
    sock.answers := sock.answers + [rt];
  }

  function Sum(xs: seq<int>): int {
    if xs == [] then 0 else Sum(xs[..|xs| - 1]) + xs[|xs| - 1]
  }

  predicate AllPositive(xs: seq<int>) {
    forall i :: 0 <= i < |xs| ==> xs[i] > 0
  }

  /** What a fixed-size loop does with the answers of its calls: it goes on as long as they are positive
      and their sum is short of length; then it returns length, or the answer that was not positive. */
  predicate Finished(answers: seq<int>, r: int, moved: nat, length: nat) {
    if AllPositive(answers) then r == moved == length == Sum(answers)
    else
      var n := |answers| - 1;
      AllPositive(answers[..n]) && r == answers[n] <= 0 && moved == Sum(answers[..n]) < length
  }

  /** Before the end: only positive answers, short of length. */
  predicate Going(answers: seq<int>, moved: nat, length: nat) {
    AllPositive(answers) && moved == Sum(answers) <= length
  }

  /** Another answer: the loop goes on with it, or ends. */
  lemma Answered(answers: seq<int>, len: int, moved: nat, length: nat)
    requires Going(answers, moved, length) && moved < length && len <= length - moved
    ensures len > 0 ==> Going(answers + [len], moved + len, length)
    ensures len <= 0 ==> Finished(answers + [len], len, moved, length)
  {
    assert (answers + [len])[..|answers|] == answers;
    assert (answers + [len])[|answers|] == len;
  }

  lemma Noted(before: seq<int>, answers: seq<int>, len: int)
    ensures before + answers + [len] == before + (answers + [len])
  {
  }

  /** The loop transfers everything exactly if its calls' answers are positive until they sum to
      length; otherwise it returns the first answer that is not, and has moved the sum of those before. */
  lemma FinishedIff(answers: seq<int>, r: int, moved: nat, length: nat)
    requires Finished(answers, r, moved, length)
    ensures r == length && moved == length <==> forall i :: 0 <= i < |answers| ==> answers[i] > 0
    ensures r == length && moved == length ==> Sum(answers) == length
    ensures !(r == length && moved == length) ==>
      var n := |answers| - 1;
      && n >= 0 && (forall i :: 0 <= i < n ==> answers[i] > 0)
      && r == answers[n] <= 0 && moved == Sum(answers[..n]) < length
  {
    var n := |answers| - 1;
    if !AllPositive(answers) {
      assert forall i :: 0 <= i < n ==> answers[..n][i] == answers[i];
    }
  }

  /** Where readFixSize stands after n bytes: they are a prefix of what was waiting, and all answers so
      far are positive. */
  predicate Reading(b: Buf, all: seq<Byte>, length: nat, n: nat, answers: seq<int>, view: Buf, inbox: seq<Byte>)
    requires b.Ok()
  {
    ReceivedUpTo(b, all, n, view) && inbox == all[n..] && Going(answers, n, length)
  }

  /** Reading, as a property of the bytes received, the answers, the array and the inbox. */
  ghost function ReadingOf(b: Buf, all: seq<Byte>, length: nat): (nat, seq<int>, Buf, seq<Byte>) -> bool
    requires b.Ok()
  {
    (n: nat, answers: seq<int>, view: Buf, inbox: seq<Byte>) => Reading(b, all, length, n, answers, view, inbox)
  }

  lemma ReadingStart(b: Buf, all: seq<Byte>, length: nat)
    requires b.Ok()
    ensures ReadingOf(b, all, length)(0, [], b, all)
  {
    WroteNothing(b);
    WroteIsAppended(b, 0, [], b);
  }

  /** What a fixed-size read has done when it returns. */
  predicate Received(b: Buf, all: seq<Byte>, length: nat,
                     r: int, n: nat, answers: seq<int>, view: Buf, inbox: seq<Byte>)
    requires b.Ok()
  {
    ReceivedUpTo(b, all, n, view) && inbox == all[n..] && Finished(answers, r, n, length)
  }

  lemma ReadingEnd(b: Buf, all: seq<Byte>, length: nat, n: nat, answers: seq<int>, view: Buf, inbox: seq<Byte>)
    requires b.Ok() && ReadingOf(b, all, length)(n, answers, view, inbox) && n == length
    ensures Received(b, all, length, length, n, answers, view, inbox)
  {
  }

  /** One round of readFixSize with n bytes received: an answer is noted, and the loop goes on or ends. */
  method ReceiveRound(sock: Socket, ba: ByteArray, left: nat,
                      ghost b: Buf, ghost all: seq<Byte>, ghost length: nat, ghost n: nat,
                      ghost before: seq<int>, ghost answers: seq<int>)
    returns (len: int, ghost next: nat, ghost more: seq<int>)
    requires ba.Valid() && b.Ok() && n + left == length && left > 0 && sock.answers == before + answers
    requires ReadingOf(b, all, length)(n, answers, ba.View(), sock.inbox)
    modifies sock`inbox, sock`answers, ba, ba.nodes
    ensures ba.Valid() && old(ba.nodes) <= ba.nodes && len <= left
    ensures forall j :: |old(ba.nodes)| <= j < |ba.nodes| ==> fresh(ba.nodes[j])
    ensures next == n + Moved(len) && more == answers + [len] && sock.answers == before + more
    ensures len > 0 ==> ReadingOf(b, all, length)(next, more, ba.View(), sock.inbox)
    ensures len <= 0 ==> Received(b, all, length, len, next, more, ba.View(), sock.inbox)
  {
    ba.ViewOk();
    ghost var mid := ba.View();
    len := Receive(sock, ba, left);
    next, more := n + Moved(len), answers + [len];
    Noted(before, answers, len);
    Answered(answers, len, n, length);
    ReceivedMore(b, all, n, next, mid, ba.View());
  }

  /** The loop of readFixSize. */
  method ReceiveAll(sock: Socket, ba: ByteArray, length: nat, ghost b: Buf, ghost all: seq<Byte>)
    returns (r: int, ghost moved: nat, ghost answers: seq<int>)
    requires ba.Valid() && b.Ok() && b == ba.View() && all == sock.inbox
    modifies sock`inbox, sock`answers, ba, ba.nodes
    ensures ba.Valid() && old(ba.nodes) <= ba.nodes
    ensures forall j :: |old(ba.nodes)| <= j < |ba.nodes| ==> fresh(ba.nodes[j])
    ensures sock.answers == old(sock.answers) + answers
    ensures Received(b, all, length, r, moved, answers, ba.View(), sock.inbox)
  {
    var left: int := length;
    moved, answers := 0, [];
    ReadingStart(b, all, length);
    while left > 0
      invariant 0 <= left && moved + left == length
      invariant sock.answers == old(sock.answers) + answers
      invariant ba.Valid() && old(ba.nodes) <= ba.nodes
      invariant forall j :: |old(ba.nodes)| <= j < |ba.nodes| ==> fresh(ba.nodes[j])
      invariant ReadingOf(b, all, length)(moved, answers, ba.View(), sock.inbox)
      decreases left
    {
      var len;
      len, moved, answers := ReceiveRound(sock, ba, left, b, all, length, moved, old(sock.answers), answers);
      if len <= 0 {
        return len, moved, answers;
      }
      left := left - len;
    }
    ReadingEnd(b, all, length, moved, answers, ba.View(), sock.inbox);
    r := length;
  }

  /** Stream::readFixSize(ba, length). */
  method ReadFixSize(sock: Socket, ba: ByteArray, length: nat)
    returns (r: int, ghost moved: nat, ghost answers: seq<int>)
    requires ba.Valid()
    modifies sock`inbox, sock`answers, ba, ba.nodes
    ensures ba.Valid() && old(ba.nodes) <= ba.nodes
    ensures forall j :: |old(ba.nodes)| <= j < |ba.nodes| ==> fresh(ba.nodes[j])
    ensures sock.answers == old(sock.answers) + answers
    ensures Finished(answers, r, moved, length) && moved <= |old(sock.inbox)|
    ensures old(ba.View()).Ok() && Appended(old(ba.View()), old(sock.inbox)[..moved], ba.View())
    ensures sock.inbox == old(sock.inbox)[moved..]
  {
    ba.ViewOk();
    r, moved, answers := ReceiveAll(sock, ba, length, ba.View(), sock.inbox);
  }

  predicate ReceivedUpTo(b: Buf, all: seq<Byte>, n: nat, b': Buf)
    requires b.Ok()
  {
    n <= |all| && Appended(b, all[..n], b')
  }

  lemma ReceivedMore(b: Buf, all: seq<Byte>, n: nat, next: nat, c: Buf, d: Buf)
    requires b.Ok() && c.Ok() && ReceivedUpTo(b, all, n, c)
    requires n <= next <= |all| && Appended(c, all[n..][..next - n], d)
    ensures ReceivedUpTo(b, all, next, d)
  {
    AppendedTwice(b, all[..n], c, all[n..][..next - n], d);
    assert all[..n] + all[n..][..next - n] == all[..next];
  }

  /** Where writeFixSize stands after n bytes. */
  predicate Writing(b: Buf, sent: seq<Byte>, length: nat, n: nat, answers: seq<int>, view: Buf, outbox: seq<Byte>)
    requires b.Ok()
  {
    && n <= |b.Readable()| && view == b.(pos := b.pos + n)
    && outbox == sent + b.Readable()[..n] && Going(answers, n, length)
  }

  /** One round of writeFixSize with n bytes sent. */
  method SendRound(sock: Socket, ba: ByteArray, left: nat,
                   ghost b: Buf, ghost sent: seq<Byte>, ghost length: nat, ghost n: nat,
                   ghost before: seq<int>, ghost answers: seq<int>)
    returns (len: int, ghost next: nat, ghost more: seq<int>)
    requires ba.Valid() && b.Ok() && n + left == length && left > 0 && sock.answers == before + answers
    requires Writing(b, sent, length, n, answers, ba.View(), sock.outbox)
    modifies sock`outbox, sock`answers, ba`position, ba`size, ba`cur
    ensures ba.Valid() && len <= left
    ensures next == n + Moved(len) && more == answers + [len] && sock.answers == before + more
    ensures len > 0 ==> Writing(b, sent, length, next, more, ba.View(), sock.outbox)
    ensures len <= 0 ==> Finished(more, len, next, length) && ba.View() == old(ba.View())
    ensures len <= 0 ==> sock.outbox == old(sock.outbox)
  {
    ba.ViewOk();
    len := Send(sock, ba, left);
    next, more := n + Moved(len), answers + [len];
    Noted(before, answers, len);
    Answered(answers, len, n, length);
    SentMore(b, n, Moved(len));
  }

  /** Stream::writeFixSize(ba, length). */
  method WriteFixSize(sock: Socket, ba: ByteArray, length: nat)
    returns (r: int, ghost moved: nat, ghost answers: seq<int>)
    requires ba.Valid()
    modifies sock`outbox, sock`answers, ba`position, ba`size, ba`cur
    ensures ba.Valid() && old(ba.View()).Ok()
    ensures sock.answers == old(sock.answers) + answers
    ensures Finished(answers, r, moved, length) && moved <= |old(ba.View()).Readable()|
    ensures ba.View() == old(ba.View()).(pos := old(ba.position) + moved)
    ensures sock.outbox == old(sock.outbox) + old(ba.View()).Readable()[..moved]
  {
    ba.ViewOk();
    ghost var b, sent := ba.View(), sock.outbox;
    var left: int := length;
    moved, answers := 0, [];
    while left > 0
      invariant 0 <= left && moved + left == length
      invariant sock.answers == old(sock.answers) + answers && ba.Valid()
      invariant Writing(b, sent, length, moved, answers, ba.View(), sock.outbox)
      decreases left
    {
      var len;
      len, moved, answers := SendRound(sock, ba, left, b, sent, length, moved, old(sock.answers), answers);
      if len <= 0 {
        return len, moved, answers;
      }
      left := left - len;
    }
    r := length;
  }

  lemma SentMore(b: Buf, n: nat, more: nat)
    requires b.Ok() && n + more <= b.size - b.pos
    ensures b.(pos := b.pos + n).Ok()
    ensures b.Readable()[..n] + b.(pos := b.pos + n).Readable()[..more] == b.Readable()[..n + more]
  {
  }

  /** writeFixSize, and the bytes sent arrive at the other end. */
  method SendAcross(tx: Socket, src: ByteArray, rx: Socket, length: nat)
    returns (w: int, ghost sent: nat, ghost taken: seq<int>)
    requires src.Valid() && tx.outbox == []
    modifies tx`outbox, tx`answers, rx`inbox, src`position, src`size, src`cur
    ensures tx.answers == old(tx.answers) + taken && Finished(taken, w, sent, length)
    ensures tx != rx ==> rx.answers == old(rx.answers)
    ensures old(src.View()).Ok() && sent <= |old(src.View()).Readable()| && sent <= length
    ensures src.position == old(src.position) + sent
    ensures rx.inbox == old(src.View()).Readable()[..sent]
  {
    w, sent, taken := WriteFixSize(tx, src, length);
    rx.inbox := tx.outbox;
  }

  /** The bytes one array sends are the bytes another receives, for any two block sizes; if either
      loop stops early, each position has moved by exactly the bytes it has moved. */
  method Transfer(tx: Socket, src: ByteArray, rx: Socket, dst: ByteArray, length: nat)
    returns (w: int, r: int, ghost sent: nat, ghost came: nat, ghost taken: seq<int>, ghost given: seq<int>)
    requires src != dst && src.Valid() && dst.Valid()
    requires forall n :: n in dst.nodes ==> n !in src.nodes
    requires tx.outbox == [] && rx.inbox == []
    modifies tx`outbox, tx`answers, rx`inbox, rx`answers, src`position, src`size, src`cur, dst, dst.nodes
    ensures dst.Valid() && old(src.View()).Ok() && old(dst.View()).Ok()
    ensures Finished(taken, w, sent, length) && Finished(given, r, came, length)
    ensures tx.answers == old(tx.answers) + taken + (if tx == rx then given else [])
    ensures tx != rx ==> rx.answers == old(rx.answers) + given
    ensures came <= sent <= |old(src.View()).Readable()| && sent <= length
    ensures src.position == old(src.position) + sent
    ensures Appended(old(dst.View()), old(src.View()).Readable()[..came], dst.View())
  {
    w, sent, taken := SendAcross(tx, src, rx, length);
    r, came, given := ReadFixSize(rx, dst, length);
    PrefixOfPrefix(old(src.View()).Readable(), sent, came);
  }

  lemma PrefixOfPrefix(s: seq<Byte>, n: nat, m: nat)
    requires m <= n <= |s|
    ensures s[..n][..m] == s[..m]
  {
  }
}
