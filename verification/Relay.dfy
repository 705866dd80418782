/**
 The zero-copy relay between two connections. Bytes land in a fixed readahead buffer, are cut
 into packets where they lie, and the output queue points back into that same buffer while it
 is being refilled and compacted.
 */
module Relay {
  import opened Framing
  import opened Resumable
  import opened Wrappers

  // ---------------------------------------------------------- output queue

  /** An entry of the output queue: a slice of the readahead buffer or a message of its own. */
  datatype Entry = Slice(off: nat, len: nat) | Message(bytes: seq<Byte>) {
    function Size(): nat {
      match this
      case Slice(_, len) => len
      case Message(bytes) => |bytes|
    }

    predicate Within(limit: nat) {
      Slice? ==> off + len <= limit
    }

    /** The bytes the entry stands for when the buffer holds `mem`. */
    function In(mem: seq<Byte>): (r: seq<Byte>)
      requires Within(|mem|)
      ensures |r| == Size()
    {
      match this
      case Slice(off, len) => mem[off..off + len]
      case Message(bytes) => bytes
    }

    /** What is left of the entry after its first `n` bytes have been written. */
    function Drop(n: nat): Entry
      requires n <= Size()
    {
      match this
      case Slice(off, len) => Slice(off + n, len - n)
      case Message(bytes) => Entry.Message(bytes[n..])
    }
  }

  predicate AllWithin(iov: seq<Entry>, limit: nat) {
    forall i :: 0 <= i < |iov| ==> iov[i].Within(limit)
  }

  predicate NoneEmpty(iov: seq<Entry>) {
    forall i :: 0 <= i < |iov| ==> iov[i].Size() > 0
  }

  /** The bytes a queue stands for. */
  function Queued(iov: seq<Entry>, mem: seq<Byte>): seq<Byte>
    requires AllWithin(iov, |mem|)
  {
    if iov == [] then [] else iov[0].In(mem) + Queued(iov[1..], mem)
  }

  lemma {:induction false} QueuedAppend(iov: seq<Entry>, e: Entry, mem: seq<Byte>)
    requires AllWithin(iov, |mem|) && e.Within(|mem|)
    ensures AllWithin(iov + [e], |mem|)
    ensures Queued(iov + [e], mem) == Queued(iov, mem) + e.In(mem)
  {
    if iov == [] {
      assert iov + [e] == [e];
    } else {
      assert (iov + [e])[1..] == iov[1..] + [e];
      QueuedAppend(iov[1..], e, mem);
    }
  }

  lemma QueuedDrop(iov: seq<Entry>, n: nat, mem: seq<Byte>)
    requires iov != [] && AllWithin(iov, |mem|) && n <= iov[0].Size()
    ensures var rest := [iov[0].Drop(n)] + iov[1..];
            AllWithin(rest, |mem|) && Queued(rest, mem) == Queued(iov, mem)[n..]
  {
    var e := iov[0];
    var rest := [e.Drop(n)] + iov[1..];
    assert rest[1..] == iov[1..];
    var tail := Queued(iov[1..], mem);
    DropIn(e, n, mem);
    hide Queued;
    assert (e.In(mem) + tail)[n..] == e.In(mem)[n..] + tail;
  }

  lemma QueuedDropEntry(iov: seq<Entry>, n: nat, mem: seq<Byte>)
    requires iov != [] && AllWithin(iov, |mem|) && iov[0].Size() <= n <= |Queued(iov, mem)|
    ensures |Queued(iov, mem)| == iov[0].Size() + |Queued(iov[1..], mem)|
    ensures Queued(iov, mem)[n..] == Queued(iov[1..], mem)[n - iov[0].Size()..]
  {
  }

  lemma QueuedNothing(mem: seq<Byte>)
    ensures Queued([], mem) == []
  {
  }

  lemma QueuedSomething(iov: seq<Entry>, mem: seq<Byte>)
    requires AllWithin(iov, |mem|) && NoneEmpty(iov)
    ensures iov == [] <==> Queued(iov, mem) == []
  {
    if iov != [] {
      assert |iov[0].In(mem)| > 0;
    }
  }

  lemma DropIn(e: Entry, n: nat, mem: seq<Byte>)
    requires e.Within(|mem|) && n <= e.Size()
    ensures e.Drop(n).Within(|mem|) && e.Drop(n).In(mem) == e.In(mem)[n..]
  {
  }

  /** Only the part of the buffer that the slices cover matters to a queue. */
  lemma {:induction false} QueuedFrame(iov: seq<Entry>, limit: nat, mem: seq<Byte>, mem': seq<Byte>)
    requires limit <= |mem| && limit <= |mem'| && mem[..limit] == mem'[..limit]
    requires AllWithin(iov, limit)
    ensures Queued(iov, mem) == Queued(iov, mem')
  {
    if iov != [] {
      QueuedFrame(iov[1..], limit, mem, mem');
      InFrame(iov[0], limit, mem, mem');
    }
  }

  lemma InFrame(e: Entry, limit: nat, mem: seq<Byte>, mem': seq<Byte>)
    requires limit <= |mem| && limit <= |mem'| && mem[..limit] == mem'[..limit] && e.Within(limit)
    ensures e.In(mem) == e.In(mem')
  {
    if e.Slice? {
      assert mem[e.off..e.off + e.len] == mem[..limit][e.off..e.off + e.len];
      assert mem'[e.off..e.off + e.len] == mem'[..limit][e.off..e.off + e.len];
    }
  }

  // -------------------------------------------------------------- readahead

  /** The compaction threshold: the size of a `size_t`, not of a packet header. */
  const REUSE_LIMIT := 8

  class Readahead {
    const buf: array<Byte>
    var pos: nat
    var posRead: nat

    ghost predicate Valid()
      reads this
    {
      posRead <= pos <= buf.Length
    }

    constructor (size: nat)
      ensures Valid() && fresh(buf) && buf.Length == size && pos == 0 && posRead == 0
    {
      buf := new Byte[size];
      pos, posRead := 0, 0;
    }

    function Left(): (r: nat)
      requires Valid()
      reads this
    {
      buf.Length - pos
    }

    function Unread(): (r: nat)
      requires Valid()
      reads this
    {
      pos - posRead
    }

    function Data(): (r: seq<Byte>)
      requires Valid()
      reads this, buf
      ensures |r| == Unread()
    {
      buf[posRead..pos]
    }

    lemma DataPrefix(n: nat)
      requires Valid() && n <= Unread()
      ensures Data()[..n] == buf[..][posRead..posRead + n]
    {
    }

    /** A read from the socket lands at `pos`; everything before it stays as it was. */
    method Fill(chunk: seq<Byte>)
      requires Valid() && |chunk| <= Left()
      modifies this`pos, buf
      ensures Valid() && pos == old(pos) + |chunk|
      ensures Data() == old(Data()) + chunk
      ensures buf[..old(pos)] == old(buf[..pos])
    {
      forall i | 0 <= i < |chunk| {
        buf[pos + i] := chunk[i];
      }
      pos := pos + |chunk|;
      assert buf[posRead..pos] == buf[posRead..old(pos)] + buf[old(pos)..pos];
    }

    /** Moves a short unread remainder to the front of the buffer, or leaves a long one alone. */
    method Reuse()
      requires Valid()
      modifies this, buf
      ensures Valid() && Data() == old(Data())
      ensures old(Unread()) <= REUSE_LIMIT ==> posRead == 0 && pos == old(Unread())
      ensures old(Unread()) > REUSE_LIMIT ==> unchanged(this) && unchanged(buf)
    {
      var unread := Unread();
      if unread > REUSE_LIMIT {
        return;
      }
      if unread == 0 {
        pos, posRead := 0, 0;
        return;
      }
      forall i | 0 <= i < unread {
        buf[i] := buf[posRead + i];
      }
      pos, posRead := unread, 0;
    }
  }

  // ------------------------------------------------------------------ relay

  /** What the socket does when it is asked to read or write; it may offer more than fits. */
  datatype ReadResult = Data(bytes: seq<Byte>) | ReadAgain | ReadFailed {
    function UpTo(left: nat): ReadResult {
      if Data? && |bytes| > left then Data(bytes[..left]) else this
    }
  }

  datatype WriteResult = Wrote(count: nat) | WriteAgain | WriteFailed {
    function UpTo(size: nat): WriteResult {
      if Wrote? && count > size then Wrote(size) else this
    }
  }

  /** An event of the relay loop: a read, a write, or both at once. */
  datatype Event = Event(r: Option<ReadResult>, writable: bool, w: WriteResult)

  // --------------------------------------------------- what the events lead to

  /** What can be seen of a relay: the framer, what was read, handled and written, the buffer, the destination. */
  datatype Snapshot<S> = Snapshot(
    framer: Framer<S>, input: seq<Byte>, done: seq<Byte>, unread: seq<Byte>, written: seq<Byte>,
    room: nat, size: nat, attached: bool)
  {
    /** Emitted and not yet written. */
    function Waiting(): seq<Byte>
      requires |written| <= |framer.out|
    {
      framer.out[|written|..]
    }

    ghost predicate Valid() {
      framer.Valid() && written <= framer.out && |unread| + room <= size
    }
  }

  /** The unread bytes are moved to the front of the buffer if they are few. */
  function Compacted<S>(s: Snapshot<S>): (r: Snapshot<S>)
    requires |s.unread| + s.room <= s.size
    ensures |r.unread| + r.room <= r.size
  {
    if |s.unread| <= REUSE_LIMIT then s.(room := s.size - |s.unread|) else s
  }

  /** What a read brings: as much of the offer as there is room for. */
  function Brought(r: ReadResult, room: nat): (part: seq<Byte>)
    ensures |part| <= room
  {
    var offer := r.UpTo(room);
    if offer.Data? then offer.bytes else []
  }

  /** A read event: what it brings is read, and everything buffered is handled. */
  function ReadTurn<S>(cb: (S, seq<Byte>) -> (S, Verdict), s: Snapshot<S>, r: ReadResult): (Snapshot<S>, Status)
    requires s.framer.Valid()
  {
    if r.ReadFailed? && s.room > 0 then (s, ReadError)
    else
      var part := Brought(r, s.room);
      var next := ReceiveNext(cb, Received(Ok, s.framer, s.done, s.unread), part);
      (s.(framer := next.framer, done := next.done, unread := next.unread, input := s.input + part,
          room := s.room - |part|), next.status)
  }

  /** A write event: the socket takes from the front of what waits, and the buffer is compacted once nothing does. */
  function WriteTurn<S>(s: Snapshot<S>, w: WriteResult): (r: (Snapshot<S>, Status))
    requires s.Valid()
    ensures r.0.Valid()
  {
    if s.Waiting() != [] && w.WriteFailed? then (s, WriteError)
    else
      var taken := match w.UpTo(|s.Waiting()|) case Wrote(count) => count case _ => 0;
      var s1 := s.(written := s.written + s.Waiting()[..taken]);
      (if taken == |s.Waiting()| then Compacted(s1) else s1, Ok)
  }

  /** After a read that went well: what waits is written, or the buffer is compacted if nothing does. */
  function PassTurn<S>(s: Snapshot<S>, e: Event): (r: (Snapshot<S>, Status))
    requires s.Valid()
    ensures r.0.Valid()
  {
    if s.Waiting() != [] || e.writable then WriteTurn(if s.Waiting() == [] then Compacted(s) else s, e.w)
    else (Compacted(s), Ok)
  }

  /** Cutting the offer to the room first makes no difference. */
  lemma OfferFits<S>(cb: (S, seq<Byte>) -> (S, Verdict), s: Snapshot<S>, r: ReadResult)
    requires s.framer.Valid()
    ensures ReadTurn(cb, s, r.UpTo(s.room)) == ReadTurn(cb, s, r)
    ensures var offer := r.UpTo(s.room);
            Brought(r, s.room) == (if offer.Data? then offer.bytes else []) && (offer.ReadFailed? <==> r.ReadFailed?)
  {
    assert Brought(r.UpTo(s.room), s.room) == Brought(r, s.room);
    hide ReceiveNext;
  }

  lemma ReadTurnValid<S>(cb: (S, seq<Byte>) -> (S, Verdict), s: Snapshot<S>, r: ReadResult)
    requires s.Valid()
    ensures ReadTurn(cb, s, r).0.Valid()
    ensures s.framer.out <= ReadTurn(cb, s, r).0.framer.out
  {
    var data := s.unread + Brought(r, s.room);
    DrainGrows(cb, s.framer, data);
    hide Drain;
  }

  /** One turn of the loop. */
  function Turn<S>(cb: (S, seq<Byte>) -> (S, Verdict), s: Snapshot<S>, e: Event): (r: (Snapshot<S>, Status))
    requires s.Valid()
    ensures r.0.Valid()
  {
    if e.r.None? then
      if s.attached && e.writable then WriteTurn(s, e.w) else (s, Ok)
    else if !s.attached then (s, Attach)
    else
      var (s1, status) := ReadTurn(cb, s, e.r.value);
      ReadTurnValid(cb, s, e.r.value);
      if status != Ok then (s1, status) else PassTurn(s1, e)
  }

  /** Turn after turn, until one does not end well. */
  function Turns<S>(cb: (S, seq<Byte>) -> (S, Verdict), s: Snapshot<S>, events: seq<Event>): (r: (Snapshot<S>, Status))
    requires s.Valid()
    ensures r.0.Valid()
    decreases |events|
  {
    if events == [] then (s, Ok)
    else
      var (s1, status) := Turn(cb, s, events[0]);
      if status != Ok then (s1, status) else Turns(cb, s1, events[1..])
  }

  /** One destination after the other, until a turn does not end well. */
  function Attachments<S>(cb: (S, seq<Byte>) -> (S, Verdict), s: Snapshot<S>, attachments: seq<seq<Event>>)
    : (r: (Snapshot<S>, Status))
    requires s.Valid()
    ensures r.0.Valid()
    decreases |attachments|
  {
    if attachments == [] then (s, Ok)
    else
      var (s1, status) := Turns(cb, s.(attached := true), attachments[0]);
      if status != Ok then (s1, status)
      else Attachments(cb, s1.(attached := false), attachments[1..])
  }

  lemma AttachmentsNext<S>(
      cb: (S, seq<Byte>) -> (S, Verdict), s: Snapshot<S>, attachments: seq<seq<Event>>, i: nat)
    requires s.Valid() && i < |attachments|
    ensures var (s1, status) := Turns(cb, s.(attached := true), attachments[i]);
            Attachments(cb, s, attachments[i..]) ==
            if status != Ok then (s1, status) else Attachments(cb, s1.(attached := false), attachments[i + 1..])
  {
    hide Turns;
    assert attachments[i..][0] == attachments[i] && attachments[i..][1..] == attachments[i + 1..];
  }

  lemma AttachmentsDone<S>(cb: (S, seq<Byte>) -> (S, Verdict), s: Snapshot<S>, attachments: seq<seq<Event>>)
    requires s.Valid()
    ensures Attachments(cb, s, attachments[|attachments|..]) == (s, Ok)
    ensures attachments[..|attachments|] == attachments
  {
  }

  /** All that the events offer to read. */
  function Offered(events: seq<Event>): seq<Byte> {
    if events == [] then []
    else
      (match events[0].r case Some(Data(bytes)) => bytes case _ => []) + Offered(events[1..])
  }

  /** How much the socket takes at the event: a read or a writable socket has the queue written. */
  function Takes(e: Event): nat {
    if (e.r.Some? || e.writable) && e.w.Wrote? then e.w.count else 0
  }

  /** How much the socket takes over the events. */
  function Budget(events: seq<Event>): nat {
    if events == [] then 0 else Budget(events[..|events| - 1]) + Takes(events[|events| - 1])
  }

  /** How much the socket takes from the last read on. */
  function BudgetSinceRead(events: seq<Event>): nat {
    if events == [] then 0
    else
      var e := events[|events| - 1];
      Takes(e) + if e.r.Some? then 0 else BudgetSinceRead(events[..|events| - 1])
  }

  /** How much the sockets take over the attachments. */
  function Budgets(attachments: seq<seq<Event>>): nat {
    if attachments == [] then 0
    else Budgets(attachments[..|attachments| - 1]) + Budget(attachments[|attachments| - 1])
  }

  lemma {:induction false} BudgetGrows(events: seq<Event>, n: nat)
    requires n <= |events|
    ensures Budget(events[..n]) <= Budget(events)
  {
    if n == |events| {
      assert events[..n] == events;
    } else {
      assert events[..|events| - 1][..n] == events[..n];
      BudgetGrows(events[..|events| - 1], n);
    }
  }

  lemma BudgetsNothing(attachments: seq<seq<Event>>)
    ensures Budgets(attachments[..0]) == 0
  {
  }

  lemma BudgetsNext(w0: nat, e0: nat, w: nat, e: nat, w': nat, attachments: seq<seq<Event>>, i: nat)
    requires i < |attachments| && e0 <= e
    requires w >= Min(e0, w0 + Budgets(attachments[..i])) && w' >= Min(e, w + Budget(attachments[i]))
    ensures w' >= Min(e0, w0 + Budgets(attachments[..i + 1]))
  {
    assert attachments[..i + 1][..i] == attachments[..i];
  }

  /** Every destination gets no more than its socket takes. */
  predicate EachWithin(parts: seq<seq<Byte>>, attachments: seq<seq<Event>>) {
    |parts| <= |attachments| && forall i :: 0 <= i < |parts| ==> |parts[i]| <= Budget(attachments[i])
  }

  lemma EachWithinNothing(attachments: seq<seq<Event>>)
    ensures EachWithin([], attachments)
  {
  }

  lemma EachWithinNext(parts: seq<seq<Byte>>, part: seq<Byte>, attachments: seq<seq<Event>>)
    requires EachWithin(parts, attachments) && |parts| < |attachments| && |part| <= Budget(attachments[|parts|])
    ensures EachWithin(parts + [part], attachments)
  {
  }

  /** From `w0` of `e0` emitted bytes written to `w` of `e`: as much as the socket takes, of what there was in time. */
  predicate Served(attached: bool, w0: nat, e0: nat, w: nat, e: nat, events: seq<Event>) {
    && e0 <= e && w0 <= w <= e && w <= w0 + Budget(events)
    && (attached ==> w >= Min(e0, w0 + Budget(events)) && w >= Min(e, w0 + BudgetSinceRead(events)))
  }

  lemma ServedNothing(attached: bool, w0: nat, e0: nat)
    requires w0 <= e0
    ensures Served(attached, w0, e0, w0, e0, [])
  {
  }

  lemma ServedBounds(attached: bool, w0: nat, e0: nat, w: nat, e: nat, events: seq<Event>)
    requires Served(attached, w0, e0, w, e, events)
    ensures w <= w0 + Budget(events)
    ensures attached ==> w >= Min(e0, w0 + Budget(events)) && w >= Min(e, w0 + BudgetSinceRead(events))
  {
  }

  lemma ServedNext(
      attached: bool, w0: nat, e0: nat, w: nat, e: nat, w': nat, e': nat, events: seq<Event>, i: nat)
    requires i < |events| && Served(attached, w0, e0, w, e, events[..i]) && e <= e'
    requires var ev := events[i];
             && (ev.r.None? || !attached ==> e' == e)
             && w' == if attached && (ev.r.Some? || ev.writable) && ev.w.Wrote? then Min(e', w + ev.w.count) else w
    ensures Served(attached, w0, e0, w', e', events[..i + 1])
  {
    assert events[..i + 1][..i] == events[..i];
  }

  function Min(a: nat, b: nat): (r: nat)
    ensures r <= a && r <= b && (r == a || r == b)
  {
    if a < b then a else b
  }

  /** The event offers what fits an empty buffer beside an incomplete header, and the socket takes all that waits. */
  predicate WillingEvent<S>(cb: (S, seq<Byte>) -> (S, Verdict), s: Snapshot<S>, e: Event)
    requires s.Valid()
  {
    ReadTurnValid(cb, s, if e.r.Some? then e.r.value else ReadAgain);
    && e.r.Some? && e.r.value.Data? && |e.r.value.bytes| + HEADER_SIZE <= s.size + 1
    && e.w.Wrote? && |ReadTurn(cb, s, e.r.value).0.Waiting()| <= e.w.count
  }

  predicate Willing<S>(cb: (S, seq<Byte>) -> (S, Verdict), s: Snapshot<S>, events: seq<Event>)
    requires s.Valid()
    decreases |events|
  {
    events == [] || (WillingEvent(cb, s, events[0]) && Willing(cb, Turn(cb, s, events[0]).0, events[1..]))
  }

  /** Nothing waits, and the buffer holds at most the beginning of a header. */
  predicate Idle<S>(s: Snapshot<S>) {
    s.attached && s.written == s.framer.out && |s.unread| < HEADER_SIZE && s.room + |s.unread| == s.size
  }

  lemma WillingTurn<S>(cb: (S, seq<Byte>) -> (S, Verdict), s: Snapshot<S>, e: Event)
    requires s.Valid() && Idle(s) && WillingEvent(cb, s, e) && Turn(cb, s, e).1 == Ok
    ensures Idle(Turn(cb, s, e).0)
    ensures Turn(cb, s, e).0.input == s.input + e.r.value.bytes && Turn(cb, s, e).0.size == s.size
  {
    var part := Brought(e.r.value, s.room);
    DrainSettles(cb, s.framer, s.unread + part);
    assert part == e.r.value.bytes;
    ReadTurnValid(cb, s, e.r.value);
    hide Drain;
  }

  lemma OfferedHead<S>(cb: (S, seq<Byte>) -> (S, Verdict), s: Snapshot<S>, events: seq<Event>)
    requires s.Valid() && events != [] && WillingEvent(cb, s, events[0])
    ensures events[0].r.Some? && events[0].r.value.Data?
  {
    hide ReadTurn;
  }

  /**
   Nothing gets stuck: when the offers fit and the socket takes what waits, every byte that is offered is read,
   everything that is emitted is written, and the buffer never fills up, however long the run.
   */
  lemma {:induction false} NothingStuck<S>(cb: (S, seq<Byte>) -> (S, Verdict), s: Snapshot<S>, events: seq<Event>)
    requires s.Valid() && Idle(s) && Willing(cb, s, events) && Turns(cb, s, events).1 == Ok
    ensures Idle(Turns(cb, s, events).0) && Turns(cb, s, events).0.input == s.input + Offered(events)
    decreases |events|
  {
    hide Turn, ReadTurn, Idle, WillingEvent, Offered;
    if events == [] {
      OfferedNothing(s.input, events);
    } else {
      var s1 := Turn(cb, s, events[0]).0;
      OfferedHead(cb, s, events);
      WillingTurn(cb, s, events[0]);
      NothingStuck(cb, s1, events[1..]);
      OfferedNext(s.input, s1.input, events);
    }
  }

  lemma OfferedNothing(input: seq<Byte>, events: seq<Event>)
    requires events == []
    ensures input + Offered(events) == input
  {
  }

  lemma OfferedNext(input: seq<Byte>, next: seq<Byte>, events: seq<Event>)
    requires events != [] && events[0].r.Some? && events[0].r.value.Data? && next == input + events[0].r.value.bytes
    ensures next + Offered(events[1..]) == input + Offered(events)
  {
    assert Offered(events) == events[0].r.value.bytes + Offered(events[1..]);
  }

  class Relay<S(!new)> {
    const onPacket: (S, seq<Byte>) -> (S, Verdict)
    const src: Readahead
    var attached: bool
    var packet: nat
    var packetSkip: bool
    var packetFull: Option<seq<Byte>>
    var packetFullPos: nat
    var iov: seq<Entry>
    var state: S

    /** History: the callback's first state, the bytes read, those of them consumed, the bytes written. */
    ghost const start: S
    ghost var input: seq<Byte>
    ghost var done: seq<Byte>
    ghost var written: seq<Byte>

    constructor (onPacket: (S, seq<Byte>) -> (S, Verdict), start: S, size: nat)
      ensures Valid() && Faithful() && fresh(src) && fresh(src.buf)
      ensures this.onPacket == onPacket && this.start == start && src.buf.Length == size
      ensures input == [] && written == [] && iov == [] && !attached
    {
      this.onPacket, this.start := onPacket, start;
      src := new Readahead(size);
      attached := false;
      packet, packetSkip, packetFull, packetFullPos := 0, false, None, 0;
      iov, state := [], start;
      input, done, written := [], [], [];
      new;
      FreshTracks(onPacket, start);
    }

    ghost predicate Valid()
      reads this, src, src.buf
    {
      && src.Valid()
      && AllWithin(iov, src.pos) && NoneEmpty(iov)
      && (packetFull.Some? ==> packet > 0 && |packetFull.value| == packetFullPos + packet)
    }

    /** What the other side has got or will get: bytes written, then bytes the queue points at. */
    ghost function Emitted(): seq<Byte>
      requires Valid()
      reads this, src, src.buf
    {
      written + Queued(iov, src.buf[..])
    }

    ghost function View(): (f: Framer<S>)
      requires Valid()
      reads this, src, src.buf
      ensures f.Valid()
    {
      Framer(packet, packetSkip, packetFull, packetFullPos, state, Emitted())
    }

    ghost function History(status: Status): (r: Received<S>)
      requires Valid()
      reads this, src, src.buf
      ensures r.framer.Valid()
    {
      Received(status, View(), done, src.Data())
    }

    /** What has been emitted and what the callback has seen is what whole-packet handling gives. */
    ghost predicate Faithful()
      requires Valid()
      reads this, src, src.buf
    {
      InStep(onPacket, start, input, History(Ok))
    }

    /** What the events so far have led to. */
    ghost function Snap(): (r: Snapshot<S>)
      requires Valid()
      reads this, src, src.buf
      ensures r.Valid()
    {
      Snapshot(View(), input, done, src.Data(), written, src.Left(), src.buf.Length, attached)
    }

    /** What waits to be written is what the queue points at. */
    lemma WaitingIsQueued()
      requires Valid()
      ensures Snap().Waiting() == Queued(iov, src.buf[..])
      ensures iov == [] <==> Snap().Waiting() == []
    {
      QueuedSomething(iov, src.buf[..]);
    }

    lemma EmptyQueue()
      requires Valid()
      ensures iov == [] <==> written == Emitted()
      ensures |written| <= |Emitted()| && (|written| == |Emitted()| ==> written == Emitted())
    {
      QueuedSomething(iov, src.buf[..]);
    }

    method Enqueue(e: Entry)
      requires Valid() && e.Within(src.pos) && e.Size() > 0
      modifies this`iov
      ensures Valid() && Emitted() == old(Emitted()) + e.In(src.buf[..])
    {
      QueuedAppend(iov, e, src.buf[..]);
      iov := iov + [e];
    }

    method OnPacket(off: nat, len: nat) returns (status: Status)
      requires Valid() && off + len <= src.pos && len > 0
      modifies this`iov, this`packetSkip, this`state
      ensures Valid()
      ensures var (s1, v) := onPacket(old(state), src.buf[off..off + len]);
              && status == v.ToStatus() && packetSkip == (old(packetSkip) || v.Skip?)
              && View() == old(View()).Decide(s1, v, src.buf[off..off + len]).(skip := packetSkip)
    {
      var (s1, verdict) := onPacket(state, src.buf[off..off + len]);
      state := s1;
      status := verdict.ToStatus();
      match verdict
      case Pass | Detach =>
        Enqueue(Slice(off, len));
      case Skip =>
        packetSkip := true;
      case Refuse(_) =>
    }

    method OnPacketMsg(msg: seq<Byte>) returns (status: Status)
      requires Valid() && msg != []
      modifies this`iov, this`state
      ensures Valid()
      ensures var (s1, v) := onPacket(old(state), msg);
              && status == v.ToStatus()
              && View() == old(View()).Decide(s1, v, msg)
    {
      var (s1, verdict) := onPacket(state, msg);
      state := s1;
      status := verdict.ToStatus();
      if verdict.Forwards() {
        Enqueue(Entry.Message(msg));
      }
    }

    /** Handles the front of the unread bytes: one packet, or the part of one that is there. */
    method Process() returns (status: Status, progress: nat)
      requires Valid() && src.Unread() > 0
      modifies this`packet, this`packetSkip, this`packetFull, this`packetFullPos, this`iov, this`state
      ensures Valid()
      ensures Fed(status, progress, View()) == Feed(onPacket, old(View()), src.Data())
    {
      if packet == 0 {
        status, progress := ProcessStart();
      } else {
        progress := if packet > src.Unread() then src.Unread() else packet;
        status := ProcessChunk(progress);
      }
    }

    method ProcessStart() returns (status: Status, progress: nat)
      requires Valid() && packet == 0
      modifies this`packet, this`packetSkip, this`packetFull, this`packetFullPos, this`iov, this`state
      ensures Valid()
      ensures Fed(status, progress, View()) == FeedStart(onPacket, old(View()), src.Data())
    {
      hide Queued;
      var data := src.Data();
      if |data| < HEADER_SIZE {
        return Undef, 0;
      }
      match ReadHeader(data)
      case Broken =>
        return SyncBroken, 0;
      case TooLong =>
        return Oversize, 0;
      case Framed(total) =>
        if |data| >= total {
          assert data[..total] == src.buf[src.posRead..src.posRead + total];
          progress := total;
          status := OnPacket(src.posRead, total);
        } else {
          progress := |data|;
          status := ProcessPartial(total);
        }
    }

    /** The unread bytes are the beginning of a packet of `total` bytes. */
    method ProcessPartial(total: nat) returns (status: Status)
      requires Valid() && packet == 0
      requires HEADER_SIZE <= src.Unread() < total && ReadHeader(src.Data()) == Framed(total)
      modifies this`packet, this`packetSkip, this`packetFull, this`packetFullPos, this`iov, this`state
      ensures Valid()
      ensures Fed(status, src.Unread(), View()) == FeedStart(onPacket, old(View()), src.Data())
    {
      hide Queued, ReadHeader;
      var data := src.Data();
      packet := total - |data|;
      packetSkip := false;
      if !FullRequired(data[0]) {
        assert data == src.buf[src.posRead..src.posRead + |data|];
        status := OnPacket(src.posRead, |data|);
      } else {
        packetFull := Some(data + seq(total - |data|, _ => 0));
        packetFullPos := |data|;
        status := Ok;
      }
    }

    method ProcessChunk(toParse: nat) returns (status: Status)
      requires Valid() && 0 < packet && 0 < toParse <= packet && toParse <= src.Unread()
      modifies this`packet, this`packetFull, this`packetFullPos, this`iov, this`state
      ensures Valid()
      ensures Fed(status, toParse, View()) == FeedChunk(onPacket, old(View()), src.Data()[..toParse])
    {
      hide Queued;
      var data := src.Data()[..toParse];
      if packetFull.Some? {
        var at := packetFullPos;
        var msg := packetFull.value[..at] + data + packetFull.value[at + toParse..];
        packet := packet - toParse;
        if packet > 0 {
          packetFull, packetFullPos := Some(msg), at + toParse;
          return Ok;
        }
        packetFull, packetFullPos := None, 0;
        status := OnPacketMsg(msg);
        return;
      }
      packet := packet - toParse;
      if !packetSkip {
        src.DataPrefix(toParse);
        Enqueue(Slice(src.posRead, toParse));
      }
      status := Ok;
    }

    method ProcessAndAdvance() returns (status: Status)
      requires Valid() && src.Unread() > 0
      modifies this`packet, this`packetSkip, this`packetFull, this`packetFullPos, this`iov, this`state
      modifies src`posRead
      ensures Valid() && (status == Ok ==> src.Unread() < old(src.Unread()))
      ensures var r := Feed(onPacket, old(View()), old(src.Data()));
              status == r.status && View() == r.framer && src.Data() == old(src.Data())[r.progress..]
    {
      hide Feed, Queued;
      var progress;
      status, progress := Process();
      src.posRead := src.posRead + progress;
      assert Emitted() == written + Queued(iov, src.buf[..]);
    }

    method Pipeline() returns (status: Status)
      requires Valid()
      modifies this`packet, this`packetSkip, this`packetFull, this`packetFullPos, this`iov, this`state, this`done
      modifies src`posRead
      ensures Valid()
      ensures History(status) == ReceiveNext(onPacket, old(History(Ok)), [])
    {
      hide Feed, Queued, Drain;
      ghost var all := src.Data();
      ghost var goal := Drain(onPacket, View(), all);
      assert all + [] == all;
      status := Ok;
      while status == Ok && src.posRead < src.pos
        invariant Valid() && src.pos == old(src.pos) && done == old(done)
        invariant status == Ok ==> Drain(onPacket, View(), src.Data()) == goal
        invariant status != Ok ==> Drained(if status == Undef then Ok else status, View(), src.Data()) == goal
        decreases status == Ok, src.Unread()
      {
        DrainUnfold(onPacket, View(), src.Data());
        status := ProcessAndAdvance();
      }
      if status == Ok {
        DrainNothing(onPacket, View());
      } else if status == Undef {
        status := Ok;
      }
      done := done + all[..|all| - src.Unread()];
    }

    /** A read event's bytes go behind everything that is buffered. */
    method Read(r: ReadResult) returns (status: Status)
      requires Valid()
      requires r.Data? ==> |r.bytes| <= src.Left()
      modifies this`input, src`pos, src.buf
      ensures Valid() && View() == old(View())
      ensures status == (if src.buf.Length > old(src.pos) && r.ReadFailed? then ReadError else Ok)
      ensures var part := if r.Data? then r.bytes else [];
              && input == old(input) + part && src.Data() == old(src.Data()) + part
              && src.Left() == old(src.Left()) - |part|
    {
      if src.Left() == 0 {
        return Ok;
      }
      match r
      case Data(bytes) =>
        src.Fill(bytes);
        QueuedFrame(iov, old(src.pos), old(src.buf[..]), src.buf[..]);
        input := input + bytes;
        return Ok;
      case ReadAgain =>
        return Ok;
      case ReadFailed =>
        return ReadError;
    }

    /** The socket has taken the first `count` bytes of the queue. */
    method Advance(count: nat)
      requires Valid() && count <= |Queued(iov, src.buf[..])|
      modifies this`iov, this`written
      ensures Valid() && View() == old(View())
      ensures written == old(written) + old(Queued(iov, src.buf[..]))[..count]
      ensures iov == [] <==> count == old(|Queued(iov, src.buf[..])|)
    {
      ghost var mem := src.buf[..];
      ghost var all := Queued(iov, mem);
      iov := AdvanceQueue(iov, count, mem);
      written := written + all[..count];
      assert written + all[count..] == old(written) + all;
    }

    /** The queue without its first `count` bytes: whole entries are dropped, then one is shortened. */
    static method AdvanceQueue(queue: seq<Entry>, count: nat, ghost mem: seq<Byte>) returns (rest: seq<Entry>)
      requires AllWithin(queue, |mem|) && count <= |Queued(queue, mem)|
      ensures forall limit: nat :: AllWithin(queue, limit) ==> AllWithin(rest, limit)
      ensures NoneEmpty(queue) ==> NoneEmpty(rest)
      ensures AllWithin(rest, |mem|) && Queued(rest, mem) == Queued(queue, mem)[count..]
      ensures rest == [] <==> count == |Queued(queue, mem)|
    {
      rest := queue;
      var size: nat := count;
      while rest != []
        invariant forall limit: nat :: AllWithin(queue, limit) ==> AllWithin(rest, limit)
        invariant NoneEmpty(queue) ==> NoneEmpty(rest)
        invariant AllWithin(rest, |mem|) && size <= |Queued(rest, mem)|
        invariant Queued(rest, mem)[size..] == Queued(queue, mem)[count..]
      {
        if rest[0].Size() > size {
          assert |Queued(rest, mem)[size..]| > 0;
          QueuedDrop(rest, size, mem);
          rest := [rest[0].Drop(size)] + rest[1..];
          return;
        }
        QueuedDropEntry(rest, size, mem);
        size := size - rest[0].Size();
        rest := rest[1..];
      }
    }

    method Write(w: WriteResult) returns (status: Status)
      requires Valid()
      requires w.Wrote? ==> w.count <= |Queued(iov, src.buf[..])|
      modifies this`iov, this`written
      ensures Valid() && View() == old(View()) && old(written) <= written
      ensures |written| == old(|written|) + (if w.Wrote? then w.count else 0)
      ensures written == old(written) + old(Queued(iov, src.buf[..]))[..if w.Wrote? then w.count else 0]
      ensures status == (if old(iov) != [] && w.WriteFailed? then WriteError else Ok)
      ensures old(iov) == [] || !w.Wrote? ==> iov == old(iov)
      ensures w.Wrote? ==> (iov == [] <==> w.count == old(|Queued(iov, src.buf[..])|))
    {
      if iov == [] {
        return Ok;
      }
      match w
      case Wrote(count) =>
        Advance(count);
        return Ok;
      case WriteAgain =>
        return Ok;
      case WriteFailed =>
        return WriteError;
    }

    /** Compaction moves bytes, so it may only happen while no entry points into the buffer. */
    method Compact()
      requires Valid() && iov == []
      modifies src, src.buf
      ensures Valid() && View() == old(View()) && src.Data() == old(src.Data())
      ensures old(src.Unread()) <= REUSE_LIMIT ==> src.pos == old(src.Unread())
      ensures Snap() == Compacted(old(Snap()))
    {
      src.Reuse();
    }

    /** The read half of a relay step: read, then handle everything that is buffered. */
    method ReadEvent(r: ReadResult) returns (status: Status)
      requires Valid() && Faithful() && TypeOnly(onPacket)
      requires r.Data? ==> |r.bytes| <= src.Left()
      modifies this, src, src.buf
      ensures Valid() && written == old(written) && attached == old(attached)
      ensures input == old(input) + (if r.Data? then r.bytes else [])
      ensures status == ReadError || FromPackets(status)
      ensures status == ReadError <==> r.ReadFailed? && old(src.Left()) > 0
      ensures status == Ok || status == ReadError ==> Faithful()
      ensures status == Ok ==> Settled(View(), src.Data())
      ensures status != Ok && status != ReadError && NoStreamedDetach(onPacket) ==>
                Whole(onPacket, start, input) == Outcome(Emitted(), state, status)
      ensures (Snap(), status) == ReadTurn(onPacket, old(Snap()), r)
    {
      hide Tracks, Whole, Drain, TypeOnly, NoStreamedDetach, Queued, ReceiveNext;
      ghost var before, sofar := History(Ok), input;
      ghost var part := if r.Data? then r.bytes else [];
      assert input + [] == input && src.Data() + [] == src.Data();
      status := Read(r);
      if status != Ok {
        return;
      }
      status := Pipeline();
      ReceiveBuffered(onPacket, before, part);
      NextInStep(onPacket, start, sofar, before, part);
    }

    /** The write half of a relay step: write, and compact once nothing is queued any more. */
    method WriteEvent(w: WriteResult) returns (status: Status)
      requires Valid()
      requires w.Wrote? ==> w.count <= |Queued(iov, src.buf[..])|
      modifies this`iov, this`written, src, src.buf
      ensures Valid() && View() == old(View()) && src.Data() == old(src.Data()) && old(written) <= written
      ensures |written| == old(|written|) + (if w.Wrote? then w.count else 0)
      ensures status == (if old(iov) != [] && w.WriteFailed? then WriteError else Ok)
      ensures !w.Wrote? ==> iov == old(iov)
      ensures status == Ok && iov == [] && old(src.Unread()) <= REUSE_LIMIT ==> src.pos == old(src.Unread())
      ensures status != Ok || iov != [] ==>
                src.pos == old(src.pos) && src.posRead == old(src.posRead) && src.buf[..] == old(src.buf[..])
      ensures (Snap(), status) == WriteTurn(old(Snap()), w)
    {
      hide Queued;
      WaitingIsQueued();
      status := Write(w);
      if status == Ok && iov == [] {
        Compact();
      }
    }

    /** A read of as much of the offer as there is room for. */
    method ReadOffered(r: ReadResult) returns (status: Status)
      requires Valid() && Faithful() && TypeOnly(onPacket)
      modifies this, src, src.buf
      ensures Valid() && written == old(written) && attached == old(attached)
      ensures input == old(input) + Brought(r, old(src.Left()))
      ensures status == ReadError || FromPackets(status)
      ensures status == ReadError <==> r.ReadFailed? && old(src.Left()) > 0
      ensures status == Ok || status == ReadError ==> Faithful()
      ensures status == Ok ==> src.Unread() < HEADER_SIZE
      ensures status != Ok && status != ReadError && NoStreamedDetach(onPacket) ==>
                Whole(onPacket, start, input) == Outcome(Emitted(), state, status)
      ensures (Snap(), status) == ReadTurn(onPacket, old(Snap()), r)
    {
      hide InStep, Whole, TypeOnly, NoStreamedDetach, Queued, ReceiveNext, Faithful, Snap;
      var offer := r.UpTo(src.Left());
      OfferFits(onPacket, Snap(), r);
      assert Snap().room == src.Left() by { RoomIsLeft(); }
      status := ReadEvent(offer);
    }

    lemma RoomIsLeft()
      requires Valid()
      ensures Snap().room == src.Left()
    {
    }

    /** The read half of a turn: a read that leaves nothing to write is followed by compaction. */
    method TakeIn(r: ReadResult) returns (status: Status, write: bool)
      requires Valid() && Faithful() && TypeOnly(onPacket)
      modifies this, src, src.buf
      ensures Valid() && written == old(written) && attached == old(attached)
      ensures input == old(input) + Brought(r, old(src.Left()))
      ensures status == ReadError || FromPackets(status)
      ensures status == ReadError <==> r.ReadFailed? && old(src.Left()) > 0
      ensures status == Ok || status == ReadError ==> Faithful()
      ensures old(Emitted()) <= Emitted() && (write <==> status == Ok && iov != [])
      ensures status == Ok ==> src.Unread() < HEADER_SIZE && (!write ==> src.pos == src.Unread())
      ensures status != Ok && status != ReadError && NoStreamedDetach(onPacket) ==>
                Whole(onPacket, start, input) == Outcome(Emitted(), state, status)
      ensures var (s1, st) := ReadTurn(onPacket, old(Snap()), r);
              && status == st && s1.Valid() && (write <==> st == Ok && s1.Waiting() != [])
              && Snap() == if st == Ok && !write then Compacted(s1) else s1
    {
      hide InStep, Whole, TypeOnly, NoStreamedDetach, Queued, ReceiveNext, ReadTurn, Compacted;
      ReadTurnValid(onPacket, Snap(), r);
      status := ReadOffered(r);
      if status != Ok {
        return status, false;
      }
      WaitingIsQueued();
      write := iov != [];
      if !write {
        Compact();
      }
    }

    /** The write half of a turn: the socket takes what it can. */
    method PassOn(w: WriteResult) returns (status: Status)
      requires Valid() && Faithful()
      modifies this`iov, this`written, src, src.buf
      ensures Valid() && Faithful() && input == old(input) && old(written) <= written
      ensures Emitted() == old(Emitted()) && src.Data() == old(src.Data())
      ensures w.Wrote? ==> |written| == Min(|Emitted()|, old(|written|) + w.count)
      ensures !w.Wrote? ==> written == old(written) && iov == old(iov)
      ensures status == if old(iov) != [] && w.WriteFailed? then WriteError else Ok
      ensures status == Ok && iov == [] && src.Unread() <= REUSE_LIMIT ==> src.pos == src.Unread()
      ensures (Snap(), status) == WriteTurn(old(Snap()), w)
    {
      hide InStep, Queued;
      WaitingIsQueued();
      status := WriteEvent(w.UpTo(|Queued(iov, src.buf[..])|));
    }

    /** One turn of the relay loop. A read that leaves something queued is followed by a write at once. */
    method Step(e: Event) returns (status: Status)
      requires Valid() && Faithful() && TypeOnly(onPacket)
      modifies this, src, src.buf
      ensures Valid() && old(written) <= written && old(input) <= input && attached == old(attached)
      ensures status in {Ok, Attach, ReadError, WriteError} ==> Faithful()
      ensures status !in {Ok, Attach, ReadError, WriteError} && NoStreamedDetach(onPacket) ==>
                Whole(onPacket, start, input) == Outcome(Emitted(), state, status)
      ensures old(Emitted()) <= Emitted() && (e.r.None? || !old(attached) ==> Emitted() == old(Emitted()))
      ensures status == Attach <==> e.r.Some? && !old(attached)
      ensures status == ReadError <==> old(attached) && e.r == Some(ReadFailed) && old(src.Left()) > 0
      ensures status == WriteError ==> e.w.WriteFailed? && iov != []
      ensures status == Ok && old(attached) && (e.r.Some? || e.writable) && e.w.WriteFailed? ==> iov == []
      // What is read: as much of the offer as there is room for, and no complete header stays unhandled.
      ensures old(attached) && e.r.Some? && e.r.value.Data? ==>
                input == old(input) + e.r.value.bytes[..Min(|e.r.value.bytes|, old(src.Left()))]
      ensures !(old(attached) && e.r.Some? && e.r.value.Data?) ==> input == old(input)
      ensures old(attached) && e.r.Some? && status == Ok ==> src.Unread() < HEADER_SIZE
      // What is written: as much of all that is emitted as the socket takes, also when nothing was read.
      ensures status == Ok && old(attached) && (e.r.Some? || e.writable) && e.w.Wrote? ==>
                |written| == Min(|Emitted()|, old(|written|) + e.w.count)
      ensures !(status == Ok && old(attached) && (e.r.Some? || e.writable) && e.w.Wrote?) ==> written == old(written)
      // Once nothing is queued, the room of what was handled is free again.
      ensures status == Ok && old(attached) && (e.r.Some? || e.writable) && iov == [] && src.Unread() <= 8 ==>
                src.pos == src.Unread()
      ensures (Snap(), status) == Turn(onPacket, old(Snap()), e)
    {
      hide InStep, Whole, TypeOnly, NoStreamedDetach, Queued, Faithful, WriteTurn, Compacted, ReceiveNext;
      var write := e.writable;
      if e.r.Some? {
        if !attached {
          return Attach;
        }
        var more;
        status, more := TakeIn(e.r.value);
        if status != Ok {
          return;
        }
        write := write || more;
      }
      EmptyQueue();
      if !attached || !write {
        return Ok;
      }
      status := PassOn(e.w);
    }

    /**
     Any interleaving of reads, packet handling and partial writes of one attachment: the events lead exactly
     where `Turns` says, and bytes written plus bytes queued are what whole-packet handling of the input gives.
     */
    method Run(events: seq<Event>) returns (status: Status)
      requires Valid() && Faithful() && TypeOnly(onPacket)
      modifies this, src, src.buf
      ensures Valid() && old(written) <= written && old(input) <= input && attached == old(attached)
      ensures old(Emitted()) <= Emitted() && |written| <= old(|written|) + Budget(events)
      ensures status == Ok && old(attached) ==>
                |written| >= Min(old(|Emitted()|), old(|written|) + Budget(events))
      ensures status == Ok && old(attached) && |Emitted()| <= old(|written|) + BudgetSinceRead(events) ==>
                written == Emitted() && iov == []
      ensures (Snap(), status) == Turns(onPacket, old(Snap()), events)
      ensures status in {Ok, Attach, ReadError, WriteError} ==> Faithful()
      ensures status !in {Ok, Attach, ReadError, WriteError} && NoStreamedDetach(onPacket) ==>
                Whole(onPacket, start, input) == Outcome(Emitted(), state, status)
    {
      hide InStep, Whole, TypeOnly, NoStreamedDetach, Queued, Valid, Faithful, Emitted, Snap, Turn,
           Budget, BudgetSinceRead, Served;
      assert events[..0] == [];
      EmptyQueue();
      ServedNothing(attached, |written|, |Emitted()|);
      ghost var goal := Turns(onPacket, Snap(), events);
      assert events[0..] == events;
      for i := 0 to |events|
        invariant Valid() && Faithful() && TypeOnly(onPacket)
        invariant old(written) <= written && old(input) <= input && attached == old(attached)
        invariant old(Emitted()) <= Emitted()
        invariant Served(attached, old(|written|), old(|Emitted()|), |written|, |Emitted()|, events[..i])
        invariant Turns(onPacket, Snap(), events[i..]) == goal
      {
        ghost var w, emitted := |written|, |Emitted()|;
        assert events[i..][0] == events[i] && events[i..][1..] == events[i + 1..];
        status := Step(events[i]);
        if status != Ok {
          BudgetGrows(events, i);
          ServedBounds(attached, old(|written|), old(|Emitted()|), w, emitted, events[..i]);
          return;
        }
        ServedNext(attached, old(|written|), old(|Emitted()|), w, emitted, |written|, |Emitted()|, events, i);
      }
      assert events[..|events|] == events;
      ServedBounds(attached, old(|written|), old(|Emitted()|), |written|, |Emitted()|, events);
      EmptyQueue();
      return Ok;
    }

    /** `od_relay_attach`: what is queued will be written to the new destination. */
    method AttachTo()
      requires Valid() && !attached
      modifies this`attached
      ensures Valid() && View() == old(View()) && attached && Snap() == old(Snap()).(attached := true)
      ensures Faithful() == old(Faithful()) && Emitted() == old(Emitted())
    {
      attached := true;
    }

    /** `od_relay_detach`: the queue stays, even in the middle of a packet. */
    method DetachFrom()
      requires Valid()
      modifies this`attached
      ensures Valid() && View() == old(View()) && !attached && Snap() == old(Snap()).(attached := false)
      ensures Faithful() == old(Faithful()) && Emitted() == old(Emitted())
    {
      attached := false;
    }

    /** One attachment: what its destination gets is `part`. */
    method ServeOne(events: seq<Event>) returns (status: Status, ghost part: seq<Byte>)
      requires Valid() && Faithful() && TypeOnly(onPacket) && !attached
      modifies this, src, src.buf
      ensures Valid() && old(input) <= input && written == old(written) + part
      ensures old(Emitted()) <= Emitted() && |part| <= Budget(events)
      ensures status == Ok ==> |written| >= Min(old(|Emitted()|), old(|written|) + Budget(events))
      ensures status == Ok && |Emitted()| <= old(|written|) + BudgetSinceRead(events) ==> written == Emitted()
      ensures var (s1, st) := Turns(onPacket, old(Snap()).(attached := true), events);
              status == st && Snap() == if st == Ok then s1.(attached := false) else s1
      ensures status == Ok ==> !attached
      ensures status in {Ok, Attach, ReadError, WriteError} ==> Faithful()
      ensures status !in {Ok, Attach, ReadError, WriteError} && NoStreamedDetach(onPacket) ==>
                Whole(onPacket, start, input) == Outcome(Emitted(), state, status)
    {
      hide InStep, Whole, TypeOnly, NoStreamedDetach, Queued, Faithful, Snap, Turns, Emitted,
           Budget, BudgetSinceRead;
      AttachTo();
      status := Run(events);
      part := written[|old(written)|..];
      if status == Ok {
        DetachFrom();
      }
    }

    /**
     One attachment after the other, cut anywhere: what the destinations get, one after the other, together with
     what is still queued, is what whole-packet handling of the input gives. `parts` is what each of them got.
     */
    method Serve(attachments: seq<seq<Event>>) returns (status: Status, ghost parts: seq<seq<Byte>>)
      requires Valid() && Faithful() && TypeOnly(onPacket) && !attached
      modifies this, src, src.buf
      ensures Valid() && old(input) <= input
      ensures (Snap(), status) == Attachments(onPacket, old(Snap()), attachments)
      ensures written == old(written) + Joined(parts) && |parts| <= |attachments|
      ensures EachWithin(parts, attachments)
      ensures status == Ok ==> |written| >= Min(old(|Emitted()|), old(|written|) + Budgets(attachments))
      ensures status == Ok ==> |parts| == |attachments| && !attached
      ensures status in {Ok, Attach, ReadError, WriteError} ==> Faithful()
      ensures status !in {Ok, Attach, ReadError, WriteError} && NoStreamedDetach(onPacket) ==>
                Whole(onPacket, start, input) == Outcome(Emitted(), state, status)
    {
      hide InStep, Whole, TypeOnly, NoStreamedDetach, Queued, Valid, Faithful, Emitted, Snap, Turns,
           Budget, Budgets, Joined, EachWithin, Attachments;
      EmptyQueue();
      parts := [];
      JoinedNothing();
      EachWithinNothing(attachments);
      BudgetsNothing(attachments);
      ghost var goal := Attachments(onPacket, Snap(), attachments);
      assert written == old(written) + [] && attachments[0..] == attachments;
      for i := 0 to |attachments|
        invariant Valid() && Faithful() && TypeOnly(onPacket) && !attached
        invariant Attachments(onPacket, Snap(), attachments[i..]) == goal
        invariant old(input) <= input && written == old(written) + Joined(parts) && |parts| == i
        invariant EachWithin(parts, attachments)
        invariant old(Emitted()) <= Emitted() && old(|written|) <= |written|
        invariant |written| >= Min(old(|Emitted()|), old(|written|) + Budgets(attachments[..i]))
      {
        ghost var w, emitted := |written|, |Emitted()|;
        AttachmentsNext(onPacket, Snap(), attachments, i);
        ghost var part;
        status, part := ServeOne(attachments[i]);
        JoinedSnoc(parts, part);
        EachWithinNext(parts, part, attachments);
        parts := parts + [part];
        if status != Ok {
          return;
        }
        BudgetsNext(old(|written|), old(|Emitted()|), w, emitted, |written|, attachments, i);
      }
      AttachmentsDone(onPacket, Snap(), attachments);
      return Ok, parts;
    }

    /** Writes the queue out; `Undef` means that the socket's answers ran out before the queue did. */
    method Flush(answers: seq<WriteResult>) returns (status: Status)
      requires Valid()
      modifies this`iov, this`written
      ensures Valid() && View() == old(View()) && old(written) <= written
      ensures status in {Ok, WriteError, Undef}
      ensures status == Ok && attached ==> iov == [] && written == old(Emitted())
      ensures status == WriteError ==> WriteFailed in answers
      ensures status == Undef ==> attached && iov != [] && |written| == old(|written|) + Taken(answers)
    {
      hide Queued;
      if !attached {
        return Ok;
      }
      var i := 0;
      while iov != []
        invariant 0 <= i <= |answers| && Valid() && View() == old(View()) && old(written) <= written
        invariant iov != [] ==> |written| == old(|written|) + Taken(answers[..i])
        decreases |answers| - i
      {
        if i == |answers| {
          assert answers[..i] == answers;
          return Undef;
        }
        assert answers[..i + 1][..i] == answers[..i];
        status := Write(answers[i].UpTo(|Queued(iov, src.buf[..])|));
        if status != Ok {
          return;
        }
        i := i + 1;
      }
      QueuedNothing(src.buf[..]);
      return Ok;
    }
  }

  lemma JoinedNothing()
    ensures Joined([]) == []
  {
  }

  lemma JoinedSnoc(parts: seq<seq<Byte>>, part: seq<Byte>)
    ensures Joined(parts + [part]) == Joined(parts) + part
  {
    assert (parts + [part])[..|parts|] == parts;
  }

  /** How many bytes the socket takes over several writes, when there are more to write. */
  function Taken(answers: seq<WriteResult>): nat {
    if answers == [] then 0
    else
      var n := |answers| - 1;
      Taken(answers[..n]) + if answers[n].Wrote? then answers[n].count else 0
  }
}
