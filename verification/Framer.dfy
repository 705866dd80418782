/**
 The resumable framer of the relay, as a function of its fields and the bytes at hand, and the
 proof that cutting a stream into reads does not change what the relay does with it.
 */
module Resumable {
  import opened Framing
  import opened Wrappers

  /** The fields of the relay that remember a packet cut by a read, with what has been emitted. */
  datatype Framer<S> = Framer(
    packet: nat, skip: bool, full: Option<seq<Byte>>, fullPos: nat, state: S, out: seq<Byte>)
  {
    predicate Valid() {
      full.Some? ==> packet > 0 && |full.value| == fullPos + packet
    }

    /** The callback has taken state `s` and decided `v` about `bytes`. */
    function Decide(s: S, v: Verdict, bytes: seq<Byte>): Framer<S> {
      this.(state := s, out := out + (if v.Forwards() then bytes else []))
    }
  }

  function Fresh<S>(start: S): Framer<S> {
    Framer(0, false, None, 0, start, [])
  }

  datatype Fed<S> = Fed(status: Status, progress: nat, framer: Framer<S>)

  /** A status that only the packets themselves can bring about. */
  predicate FromPackets(status: Status) {
    status in {Ok, Detached, SyncBroken, Oversize} || status.Refused?
  }

  /** One call of the relay's `process` on the unread bytes `data`. */
  function Feed<S>(cb: (S, seq<Byte>) -> (S, Verdict), f: Framer<S>, data: seq<Byte>): (r: Fed<S>)
    requires f.Valid()
    ensures r.framer.Valid() && r.progress <= |data|
    ensures r.status == Ok && data != [] ==> r.progress > 0
    ensures (r.status == Undef && r.progress == 0) || FromPackets(r.status)
  {
    if f.packet == 0 then FeedStart(cb, f, data)
    else
      var toParse := if f.packet > |data| then |data| else f.packet;
      FeedChunk(cb, f, data[..toParse])
  }

  /** At a packet boundary. */
  function FeedStart<S>(cb: (S, seq<Byte>) -> (S, Verdict), f: Framer<S>, data: seq<Byte>): (r: Fed<S>)
    requires f.Valid() && f.packet == 0
    ensures r.framer.Valid() && r.progress <= |data|
    ensures r.status == Ok ==> r.progress > 0
    ensures (r.status == Undef && r.progress == 0) || FromPackets(r.status)
  {
    if |data| < HEADER_SIZE then Fed(Undef, 0, f)
    else
      match ReadHeader(data)
      case Broken => Fed(SyncBroken, 0, f)
      case TooLong => Fed(Oversize, 0, f)
      case Framed(total) =>
        if |data| >= total then
          var (s1, v) := cb(f.state, data[..total]);
          Fed(v.ToStatus(), total, f.Decide(s1, v, data[..total]).(skip := f.skip || v.Skip?))
        else
          var g := f.(packet := total - |data|, skip := false);
          if FullRequired(data[0]) then
            Fed(Ok, |data|, g.(full := Some(data + seq(total - |data|, _ => 0)), fullPos := |data|))
          else
            var (s1, v) := cb(f.state, data);
            Fed(v.ToStatus(), |data|, g.Decide(s1, v, data).(skip := v.Skip?))
  }

  /** Inside a packet: `data` is the part of the unread bytes that belongs to it. */
  function FeedChunk<S>(cb: (S, seq<Byte>) -> (S, Verdict), f: Framer<S>, data: seq<Byte>): (r: Fed<S>)
    requires f.Valid() && f.packet > 0 && |data| <= f.packet
    ensures r.framer.Valid() && r.progress == |data|
    ensures FromPackets(r.status) && r.status != SyncBroken && r.status != Oversize
  {
    var g := f.(packet := f.packet - |data|);
    match f.full
    case None => Fed(Ok, |data|, g.(out := f.out + (if f.skip then [] else data)))
    case Some(buffer) =>
      var msg := buffer[..f.fullPos] + data + buffer[f.fullPos + |data|..];
      if g.packet > 0 then
        Fed(Ok, |data|, g.(full := Some(msg), fullPos := f.fullPos + |data|))
      else
        var (s1, v) := cb(f.state, msg);
        Fed(v.ToStatus(), |data|, g.(full := None, fullPos := 0).Decide(s1, v, msg))
  }

  datatype Drained<S> = Drained(status: Status, framer: Framer<S>, rest: seq<Byte>)

  /** The relay's `pipeline`: feed until the bytes run out, a header is incomplete or a packet stops the run. */
  function Drain<S>(cb: (S, seq<Byte>) -> (S, Verdict), f: Framer<S>, data: seq<Byte>): (r: Drained<S>)
    requires f.Valid()
    ensures r.framer.Valid() && FromPackets(r.status)
    ensures |r.rest| <= |data|
    decreases |data|
  {
    if data == [] then Drained(Ok, f, [])
    else
      var r := Feed(cb, f, data);
      if r.status == Undef then Drained(Ok, r.framer, data)
      else if r.status != Ok then Drained(r.status, r.framer, data[r.progress..])
      else Drain(cb, r.framer, data[r.progress..])
  }

  lemma DrainUnfold<S>(cb: (S, seq<Byte>) -> (S, Verdict), f: Framer<S>, data: seq<Byte>)
    requires f.Valid() && data != []
    ensures var r := Feed(cb, f, data);
            Drain(cb, f, data) ==
              if r.status == Ok then Drain(cb, r.framer, data[r.progress..])
              else Drained(if r.status == Undef then Ok else r.status, r.framer, data[r.progress..])
  {
    hide Feed;
    assert data[0..] == data;
  }

  /** What a drain leaves is the end of what it was given. */
  /** A drain that ends well leaves less than a header. */
  lemma {:induction false} DrainSettles<S>(cb: (S, seq<Byte>) -> (S, Verdict), f: Framer<S>, data: seq<Byte>)
    requires f.Valid()
    ensures var r := Drain(cb, f, data); r.status == Ok ==> |r.rest| < HEADER_SIZE
    decreases |data|
  {
    if data != [] {
      assert Feed(cb, f, data).status == Undef ==> |data| < HEADER_SIZE;
      hide Feed;
      var r := Feed(cb, f, data);
      if r.status == Ok {
        DrainSettles(cb, r.framer, data[r.progress..]);
      }
    }
  }

  /** What has been emitted stays so. */
  lemma {:induction false} DrainGrows<S>(cb: (S, seq<Byte>) -> (S, Verdict), f: Framer<S>, data: seq<Byte>)
    requires f.Valid()
    ensures f.out <= Drain(cb, f, data).framer.out
    decreases |data|
  {
    if data != [] {
      assert f.out <= Feed(cb, f, data).framer.out;
      hide Feed;
      var r := Feed(cb, f, data);
      if r.status == Ok {
        DrainGrows(cb, r.framer, data[r.progress..]);
      }
    }
  }

  lemma {:induction false} DrainSuffix<S>(cb: (S, seq<Byte>) -> (S, Verdict), f: Framer<S>, data: seq<Byte>)
    requires f.Valid()
    ensures var r := Drain(cb, f, data);
            r.rest == data[|data| - |r.rest|..]
    decreases |data|
  {
    if data != [] {
      hide Feed;
      var r := Feed(cb, f, data);
      if r.status == Ok {
        DrainSuffix(cb, r.framer, data[r.progress..]);
      }
    }
  }

  lemma DrainNothing<S>(cb: (S, seq<Byte>) -> (S, Verdict), f: Framer<S>)
    requires f.Valid()
    ensures Drain(cb, f, []) == Drained(Ok, f, [])
  {
  }

  // --------------------------------------------- agreement with whole packets

  /** `f` is where the relay stands after consuming exactly `c`, none of it having stopped the run. */
  ghost predicate Tracks<S>(cb: (S, seq<Byte>) -> (S, Verdict), start: S, c: seq<Byte>, f: Framer<S>) {
    var p := Packets(cb, start, c);
    && p.status == Ok
    && if f.packet == 0 then
         p.rest == [] && f.full == None && f.state == p.state && f.out == p.out
       else
         && |p.rest| >= HEADER_SIZE
         && ReadHeader(p.rest) == Framed(|p.rest| + f.packet)
         && if FullRequired(p.rest[0]) then
              && f.full.Some? && |f.full.value| == |p.rest| + f.packet && f.fullPos == |p.rest|
              && f.full.value[..f.fullPos] == p.rest
              && f.state == p.state && f.out == p.out
            else
              var (s1, v) := cb(p.state, p.rest);
              && f.full == None && v.ToStatus() == Ok && f.skip == v.Skip? && f.state == s1
              && f.out == p.out + (if v.Forwards() then p.rest else [])
  }

  /** Standing at `f` means having done what handling `c` at once would have done. */
  lemma TracksWhole<S>(cb: (S, seq<Byte>) -> (S, Verdict), start: S, c: seq<Byte>, f: Framer<S>)
    requires Tracks(cb, start, c, f)
    ensures Whole(cb, start, c) == Outcome(f.out, f.state, Ok)
  {
    assert f.out + [] == f.out;
  }

  /** Bytes too few for a header change nothing. */
  lemma TracksShort<S>(cb: (S, seq<Byte>) -> (S, Verdict), start: S, c: seq<Byte>, d: seq<Byte>, f: Framer<S>)
    requires Tracks(cb, start, c, f) && f.packet == 0 && |d| < HEADER_SIZE
    ensures Whole(cb, start, c + d) == Outcome(f.out, f.state, Ok)
  {
    Resume(cb, start, c, d);
    assert [] + d == d;
    assert f.out + [] == f.out;
  }

  lemma BadHeader<S>(cb: (S, seq<Byte>) -> (S, Verdict), start: S, c: seq<Byte>, d: seq<Byte>, f: Framer<S>)
    requires Tracks(cb, start, c, f) && f.packet == 0
    requires |d| >= HEADER_SIZE && !ReadHeader(d).Framed?
    ensures Whole(cb, start, c + d) == Outcome(f.out, f.state, if ReadHeader(d).Broken? then SyncBroken else Oversize)
  {
    Resume(cb, start, c, d);
    assert [] + d == d;
    assert f.out + [] == f.out;
  }

  /** The bytes `d` finish the packet that `c` ends in. */
  lemma Completes<S>(cb: (S, seq<Byte>) -> (S, Verdict), start: S, c: seq<Byte>, d: seq<Byte>)
    requires Packets(cb, start, c).status == Ok
    requires var r := Packets(cb, start, c).rest + d;
             |r| >= HEADER_SIZE && ReadHeader(r) == Framed(|r|)
    ensures var p := Packets(cb, start, c);
            var (s1, v) := cb(p.state, p.rest + d);
            Packets(cb, start, c + d) ==
              Parsed(p.out + (if v.Forwards() then p.rest + d else []), s1, v.ToStatus(), [])
  {
    var p := Packets(cb, start, c);
    var r := p.rest + d;
    Resume(cb, start, c, d);
    assert r[..|r|] == r && r[|r|..] == [];
    var (s1, v) := cb(p.state, r);
    var piece := if v.Forwards() then r else [];
    assert Packets(cb, s1, []) == Parsed([], s1, Ok, []);
    assert piece + [] == piece;
  }

  /** The bytes `d` lengthen the packet that `c` ends in without finishing it. */
  lemma Grows<S>(cb: (S, seq<Byte>) -> (S, Verdict), start: S, c: seq<Byte>, d: seq<Byte>)
    requires Packets(cb, start, c).status == Ok
    requires var r := Packets(cb, start, c).rest + d;
             |r| >= HEADER_SIZE && ReadHeader(r).Framed? && |r| < ReadHeader(r).total
    ensures var p := Packets(cb, start, c);
            Packets(cb, start, c + d) == Parsed(p.out, p.state, Ok, p.rest + d)
  {
    Resume(cb, start, c, d);
    var p := Packets(cb, start, c);
    assert p.out + [] == p.out;
  }

  /** What one call must establish when it has advanced over the bytes `d`. */
  ghost predicate Agrees<S>(cb: (S, seq<Byte>) -> (S, Verdict), start: S, c: seq<Byte>, status: Status, f: Framer<S>) {
    if status == Ok then Tracks(cb, start, c, f)
    else Whole(cb, start, c) == Outcome(f.out, f.state, status)
  }

  lemma WholePacket<S>(cb: (S, seq<Byte>) -> (S, Verdict), start: S, c: seq<Byte>, d: seq<Byte>, f: Framer<S>)
    requires f.Valid() && Tracks(cb, start, c, f) && f.packet == 0
    requires |d| >= HEADER_SIZE && ReadHeader(d) == Framed(|d|)
    ensures var r := FeedStart(cb, f, d); Agrees(cb, start, c + d, r.status, r.framer) && r.progress == |d|
  {
    assert [] + d == d && d[..|d|] == d;
    Completes(cb, start, c, d);
  }

  lemma ReassemblyStart<S>(cb: (S, seq<Byte>) -> (S, Verdict), start: S, c: seq<Byte>, d: seq<Byte>, f: Framer<S>)
    requires f.Valid() && Tracks(cb, start, c, f) && f.packet == 0
    requires |d| >= HEADER_SIZE && ReadHeader(d).Framed? && |d| < ReadHeader(d).total && FullRequired(d[0])
    ensures var r := FeedStart(cb, f, d); r.status == Ok && Tracks(cb, start, c + d, r.framer) && r.progress == |d|
  {
    assert [] + d == d;
    Grows(cb, start, c, d);
    hide Packets, ReadHeader;
    assert (d + seq(ReadHeader(d).total - |d|, _ => 0))[..|d|] == d;
  }

  lemma StreamedStart<S>(cb: (S, seq<Byte>) -> (S, Verdict), start: S, c: seq<Byte>, d: seq<Byte>, f: Framer<S>)
    requires f.Valid() && Tracks(cb, start, c, f) && f.packet == 0
    requires Streaming(d)
    ensures var r := FeedStart(cb, f, d); Agrees(cb, start, c + d, r.status, r.framer) && r.progress == |d|
  {
    assert [] + d == d;
    Grows(cb, start, c, d);
    hide Packets, ReadHeader;
  }

  lemma ReassemblyChunk<S>(cb: (S, seq<Byte>) -> (S, Verdict), start: S, c: seq<Byte>, d: seq<Byte>, f: Framer<S>)
    requires f.Valid() && Tracks(cb, start, c, f) && f.packet > 0 && f.full.Some? && 0 < |d| <= f.packet
    ensures var r := FeedChunk(cb, f, d); Agrees(cb, start, c + d, r.status, r.framer)
  {
    var p := Packets(cb, start, c);
    var r := p.rest + d;
    var msg := f.full.value[..f.fullPos] + d + f.full.value[f.fullPos + |d|..];
    assert msg[..f.fullPos + |d|] == r;
    assert ReadHeader(r) == ReadHeader(p.rest);
    if |d| < f.packet {
      Grows(cb, start, c, d);
    } else {
      assert msg == r;
      Completes(cb, start, c, d);
    }
  }

  lemma StreamedChunk<S(!new)>(cb: (S, seq<Byte>) -> (S, Verdict), start: S, c: seq<Byte>, d: seq<Byte>, f: Framer<S>)
    requires TypeOnly(cb)
    requires f.Valid() && Tracks(cb, start, c, f) && f.packet > 0 && f.full == None && 0 < |d| <= f.packet
    ensures var r := FeedChunk(cb, f, d); Agrees(cb, start, c + d, r.status, r.framer)
  {
    var p := Packets(cb, start, c);
    var r := p.rest + d;
    assert ReadHeader(r) == ReadHeader(p.rest);
    assert cb(p.state, r) == cb(p.state, p.rest);
    assert (p.out + p.rest) + d == p.out + r;
    if |d| < f.packet {
      Grows(cb, start, c, d);
    } else {
      Completes(cb, start, c, d);
    }
  }

  /** A call of `process` keeps the relay in agreement with whole-packet handling. */
  lemma FeedAgrees<S(!new)>(cb: (S, seq<Byte>) -> (S, Verdict), start: S, c: seq<Byte>, data: seq<Byte>, f: Framer<S>)
    requires TypeOnly(cb)
    requires f.Valid() && Tracks(cb, start, c, f) && data != []
    ensures var r := Feed(cb, f, data);
            match r.status
            case Undef => r.framer == f && f.packet == 0 && |data| < HEADER_SIZE
            case SyncBroken => Whole(cb, start, c + data) == Outcome(r.framer.out, r.framer.state, SyncBroken)
            case Oversize => Whole(cb, start, c + data) == Outcome(r.framer.out, r.framer.state, Oversize)
            case _ => Agrees(cb, start, c + data[..r.progress], r.status, r.framer)
  {
    hide Packets, Whole, FeedChunk, Agrees;
    if f.packet == 0 {
      if |data| >= HEADER_SIZE {
        match ReadHeader(data)
        case Broken => BadHeader(cb, start, c, data, f);
        case TooLong => BadHeader(cb, start, c, data, f);
        case Framed(total) =>
          if |data| >= total {
            FeedPrefix(cb, f, data, total);
            WholePacket(cb, start, c, data[..total], f);
          } else {
            assert data[..|data|] == data;
            if FullRequired(data[0]) {
              ReassemblyStart(cb, start, c, data, f);
              AgreesOk(cb, start, c + data, FeedStart(cb, f, data).framer);
            } else {
              StreamedStart(cb, start, c, data, f);
            }
          }
      }
    } else {
      var toParse := if f.packet > |data| then |data| else f.packet;
      if f.full.Some? {
        ReassemblyChunk(cb, start, c, data[..toParse], f);
      } else {
        StreamedChunk(cb, start, c, data[..toParse], f);
      }
    }
  }

  lemma FeedPrefix<S>(cb: (S, seq<Byte>) -> (S, Verdict), f: Framer<S>, data: seq<Byte>, total: nat)
    requires f.Valid() && f.packet == 0
    requires HEADER_SIZE <= total <= |data| && ReadHeader(data) == Framed(total)
    ensures ReadHeader(data[..total]) == Framed(total)
    ensures FeedStart(cb, f, data) == FeedStart(cb, f, data[..total])
  {
    assert data[..total][..total] == data[..total];
  }

  /** How much of `data` the run looked at: a bad header is seen but not consumed. */
  function Seen<S>(data: seq<Byte>, r: Drained<S>): (n: nat)
    requires |r.rest| <= |data|
    ensures n <= |data|
  {
    if r.status == SyncBroken || r.status == Oversize then |data| else |data| - |r.rest|
  }

  /** Nothing but the beginning of a header is left unread. */
  predicate Settled<S>(f: Framer<S>, rest: seq<Byte>) {
    rest == [] || (f.packet == 0 && |rest| < HEADER_SIZE)
  }

  lemma {:induction false} DrainAgrees<S(!new)>(cb: (S, seq<Byte>) -> (S, Verdict), start: S, c: seq<Byte>,
                                                data: seq<Byte>, f: Framer<S>)
    requires TypeOnly(cb)
    requires f.Valid() && Tracks(cb, start, c, f)
    ensures var r := Drain(cb, f, data);
            && (r.status == Ok ==> Settled(r.framer, r.rest))
            && Agrees(cb, start, c + data[..Seen(data, r)], r.status, r.framer)
    decreases |data|
  {
    hide Tracks, Agrees, Packets, Whole, Feed;
    if data == [] {
      assert c + data[..0] == c;
      AgreesOk(cb, start, c, f);
      return;
    }
    FeedAgrees(cb, start, c, data, f);
    var q := Feed(cb, f, data);
    if q.status == Ok {
      var next := c + data[..q.progress];
      AgreesOk(cb, start, next, q.framer);
      DrainAgrees(cb, start, next, data[q.progress..], q.framer);
      DrainSeen(cb, c, data, f);
    } else if q.status == Undef {
      assert c + data[..0] == c;
      AgreesOk(cb, start, c, f);
    } else if q.status == SyncBroken || q.status == Oversize {
      assert data[..|data|] == data;
      AgreesStop(cb, start, c + data, q.status, q.framer);
    }
  }

  lemma AgreesOk<S>(cb: (S, seq<Byte>) -> (S, Verdict), start: S, c: seq<Byte>, f: Framer<S>)
    ensures Agrees(cb, start, c, Ok, f) <==> Tracks(cb, start, c, f)
  {
  }

  lemma AgreesStop<S>(cb: (S, seq<Byte>) -> (S, Verdict), start: S, c: seq<Byte>, status: Status, f: Framer<S>)
    requires status != Ok
    ensures Agrees(cb, start, c, status, f) <==> Whole(cb, start, c) == Outcome(f.out, f.state, status)
  {
  }

  lemma DrainSeen<S>(cb: (S, seq<Byte>) -> (S, Verdict), c: seq<Byte>, data: seq<Byte>, f: Framer<S>)
    requires f.Valid() && data != [] && Feed(cb, f, data).status == Ok
    ensures var q := Feed(cb, f, data);
            var r := Drain(cb, f, data);
            var tail := data[q.progress..];
            && r == Drain(cb, q.framer, tail)
            && c + data[..Seen(data, r)] == c + data[..q.progress] + tail[..Seen(tail, r)]
  {
    hide Feed;
    var q := Feed(cb, f, data);
    var r := Drain(cb, f, data);
    var tail := data[q.progress..];
    assert data[..Seen(data, r)] == data[..q.progress] + tail[..Seen(tail, r)];
  }

  /** After a drain the relay has done to all of `c + data` what whole-packet handling does. */
  lemma DrainWhole<S(!new)>(cb: (S, seq<Byte>) -> (S, Verdict), start: S, c: seq<Byte>, data: seq<Byte>, f: Framer<S>)
    requires TypeOnly(cb)
    requires f.Valid() && Tracks(cb, start, c, f)
    ensures var r := Drain(cb, f, data);
            r.status == Ok || NoStreamedDetach(cb) ==>
              Whole(cb, start, c + data) == Outcome(r.framer.out, r.framer.state, r.status)
  {
    hide Tracks, Agrees, Packets, Whole, Drain;
    var r := Drain(cb, f, data);
    DrainAgrees(cb, start, c, data, f);
    DrainSuffix(cb, f, data);
    var used := c + data[..Seen(data, r)];
    if r.status == Ok {
      AgreesOk(cb, start, used, r.framer);
      assert used + r.rest == c + data;
      if r.rest == [] {
        assert used == c + data;
        TracksWhole(cb, start, used, r.framer);
      } else {
        TracksShort(cb, start, used, r.rest, r.framer);
      }
    } else if NoStreamedDetach(cb) {
      AgreesStop(cb, start, used, r.status, r.framer);
      StopIsFinal(cb, start, used, data[Seen(data, r)..]);
      assert used + data[Seen(data, r)..] == c + data;
    }
  }

  lemma StopIsFinal<S(!new)>(cb: (S, seq<Byte>) -> (S, Verdict), start: S, c: seq<Byte>, d: seq<Byte>)
    requires TypeOnly(cb) && NoStreamedDetach(cb)
    requires Whole(cb, start, c).status != Ok
    ensures Whole(cb, start, c + d) == Whole(cb, start, c)
  {
    hide Whole, Packets;
    StopsAreFinalIff(cb);
  }

  // --------------------------------------------------------- any split into reads

  datatype Received<S> = Received(status: Status, framer: Framer<S>, done: seq<Byte>, unread: seq<Byte>)

  /** The relay over a list of reads: every part is drained together with what was left unread. */
  function Receive<S>(cb: (S, seq<Byte>) -> (S, Verdict), start: S, parts: seq<seq<Byte>>): (r: Received<S>)
    ensures r.framer.Valid()
  {
    if parts == [] then Received(Ok, Fresh(start), [], [])
    else ReceiveNext(cb, Receive(cb, start, parts[..|parts| - 1]), parts[|parts| - 1])
  }

  function ReceiveNext<S>(cb: (S, seq<Byte>) -> (S, Verdict), r: Received<S>, part: seq<Byte>): (r': Received<S>)
    requires r.framer.Valid()
    ensures r'.framer.Valid()
    ensures r.status == Ok ==> FromPackets(r'.status)
  {
    if r.status != Ok then r
    else
      var data := r.unread + part;
      var d := Drain(cb, r.framer, data);
      Received(d.status, d.framer, r.done + data[..|data| - |d.rest|], d.rest)
  }

  /** Buffering a part first and draining afterwards is the same as receiving it. */
  lemma ReceiveBuffered<S>(cb: (S, seq<Byte>) -> (S, Verdict), r: Received<S>, part: seq<Byte>)
    requires r.framer.Valid() && r.status == Ok
    ensures ReceiveNext(cb, r.(unread := r.unread + part), []) == ReceiveNext(cb, r, part)
  {
    assert (r.unread + part) + [] == r.unread + part;
  }

  /** Between reads: consumed and unread bytes make up the input, and the consumed ones are handled. */
  ghost predicate InStep<S>(cb: (S, seq<Byte>) -> (S, Verdict), start: S, input: seq<Byte>, r: Received<S>) {
    && input == r.done + r.unread
    && Tracks(cb, start, r.done, r.framer)
  }

  lemma FreshTracks<S>(cb: (S, seq<Byte>) -> (S, Verdict), start: S)
    ensures Tracks(cb, start, [], Fresh(start))
    ensures Whole(cb, start, []) == Outcome([], start, Ok)
  {
  }

  lemma NextInStep<S(!new)>(cb: (S, seq<Byte>) -> (S, Verdict), start: S, input: seq<Byte>, r: Received<S>,
                            part: seq<Byte>)
    requires TypeOnly(cb) && r.framer.Valid() && r.status == Ok && InStep(cb, start, input, r)
    ensures var r' := ReceiveNext(cb, r, part);
            && (r'.status == Ok ==> InStep(cb, start, input + part, r') && Settled(r'.framer, r'.unread))
            && (r'.status == Ok || NoStreamedDetach(cb) ==>
                  Whole(cb, start, input + part) == Outcome(r'.framer.out, r'.framer.state, r'.status))
  {
    hide Tracks, Agrees, Packets, Drain, Whole, TypeOnly, NoStreamedDetach;
    var data := r.unread + part;
    var d := Drain(cb, r.framer, data);
    DrainAgrees(cb, start, r.done, data, r.framer);
    DrainWhole(cb, start, r.done, data, r.framer);
    DrainSuffix(cb, r.framer, data);
    assert r.done + data == input + part;
    if d.status == Ok {
      assert r.done + data == (r.done + data[..|data| - |d.rest|]) + d.rest;
      AgreesOk(cb, start, r.done + data[..Seen(data, d)], d.framer);
    }
  }

  lemma {:induction false} ReceiveInStep<S(!new)>(cb: (S, seq<Byte>) -> (S, Verdict), start: S, parts: seq<seq<Byte>>)
    requires TypeOnly(cb)
    requires Receive(cb, start, parts).status == Ok
    ensures InStep(cb, start, Joined(parts), Receive(cb, start, parts))
  {
    hide Tracks, ReceiveNext, TypeOnly;
    if parts == [] {
      FreshTracks(cb, start);
    } else {
      var init, last := parts[..|parts| - 1], parts[|parts| - 1];
      if Receive(cb, start, init).status != Ok {
        ReceiveStatus(cb, start, parts);
      }
      ReceiveInStep(cb, start, init);
      NextInStep(cb, start, Joined(init), Receive(cb, start, init), last);
    }
  }

  lemma ReceiveStatus<S>(cb: (S, seq<Byte>) -> (S, Verdict), start: S, parts: seq<seq<Byte>>)
    requires parts != [] && Receive(cb, start, parts[..|parts| - 1]).status != Ok
    ensures Receive(cb, start, parts) == Receive(cb, start, parts[..|parts| - 1])
  {
  }

  /** Every read list gives what handling the joined bytes at once gives. */
  lemma {:induction false} AnySplit<S(!new)>(cb: (S, seq<Byte>) -> (S, Verdict), start: S, parts: seq<seq<Byte>>)
    requires TypeOnly(cb) && NoStreamedDetach(cb)
    ensures var r := Receive(cb, start, parts);
            Whole(cb, start, Joined(parts)) == Outcome(r.framer.out, r.framer.state, r.status)
  {
    hide Tracks, Whole, ReceiveNext, TypeOnly, NoStreamedDetach, InStep;
    if parts == [] {
      FreshTracks(cb, start);
    } else {
      var init, last := parts[..|parts| - 1], parts[|parts| - 1];
      var before := Receive(cb, start, init);
      if before.status == Ok {
        ReceiveInStep(cb, start, init);
        NextInStep(cb, start, Joined(init), before, last);
      } else {
        AnySplit(cb, start, init);
        ReceiveStatus(cb, start, parts);
        StopIsFinal(cb, start, Joined(init), last);
      }
    }
  }

  ghost predicate SplitsAgree<S(!new)>(cb: (S, seq<Byte>) -> (S, Verdict)) {
    forall start: S, parts: seq<seq<Byte>> :: 
      var r := Receive(cb, start, parts);
      Whole(cb, start, Joined(parts)) == Outcome(r.framer.out, r.framer.state, r.status)
  }

  /** How the stream is cut into reads never matters, exactly when no streamed packet asks for a detach. */
  lemma SplitsAgreeIff<S(!new)>(cb: (S, seq<Byte>) -> (S, Verdict))
    requires TypeOnly(cb)
    ensures SplitsAgree(cb) <==> NoStreamedDetach(cb)
  {
    if NoStreamedDetach(cb) {
      forall start: S, parts: seq<seq<Byte>> {
        AnySplit(cb, start, parts);
      }
    } else {
      var s: S, a: seq<Byte> :| |a| > 0 && a[0] >= 0x20 && !FullRequired(a[0]) && cb(s, a).1.Detach?;
      StreamedDetachSplit(cb, s, a);
    }
  }

  /** The witness: a header arrives, its one body byte comes with the next read. */
  lemma StreamedDetachSplit<S(!new)>(cb: (S, seq<Byte>) -> (S, Verdict), s: S, a: seq<Byte>)
    requires TypeOnly(cb)
    requires |a| > 0 && a[0] >= 0x20 && !FullRequired(a[0]) && cb(s, a).1.Detach?
    ensures var head: seq<Byte> := [a[0], 0, 0, 0, 5];
            var parts := [head, [0]];
            && Joined(parts) == head + [0]
            && Receive(cb, s, parts).framer.out == head
            && Whole(cb, s, Joined(parts)).out == head + [0]
    ensures !SplitsAgree(cb)
  {
    hide Whole, Drain, Packets, Receive, Joined;
    StreamedDetachIsNotFinal(cb, s, a);
    var head: seq<Byte> := [a[0], 0, 0, 0, 5];
    assert cb(s, head) == cb(s, a);
    StreamedHeadSplit(cb, s, a[0]);
    assert |head + [0]| != |head|;
  }

  lemma StreamedHeadSplit<S>(cb: (S, seq<Byte>) -> (S, Verdict), s: S, t: Byte)
    requires t >= 0x20 && !FullRequired(t) && cb(s, [t, 0, 0, 0, 5]).1.Detach?
    ensures var head: seq<Byte> := [t, 0, 0, 0, 5];
            && Joined([head, [0]]) == head + [0]
            && Receive(cb, s, [head, [0]]).framer.out == head
  {
    var head: seq<Byte> := [t, 0, 0, 0, 5];
    StreamedHead(cb, s, t);
    hide Drain;
    assert [head, [0]][..1] == [head] && [head][..0] == [];
    assert Joined([head]) == head;
    assert Receive(cb, s, []) == Received(Ok, Fresh(s), [], []);
    assert [] + head == head;
    assert Receive(cb, s, [head]) == ReceiveNext(cb, Received(Ok, Fresh(s), [], []), head);
  }

  lemma StreamedHead<S>(cb: (S, seq<Byte>) -> (S, Verdict), s: S, t: Byte)
    requires t >= 0x20 && !FullRequired(t) && cb(s, [t, 0, 0, 0, 5]).1.Detach?
    ensures var r := Drain(cb, Fresh(s), [t, 0, 0, 0, 5]);
            r.status == Detached && r.framer.out == [t, 0, 0, 0, 5]
  {
    var head: seq<Byte> := [t, 0, 0, 0, 5];
    assert ReadHeader(head) == Framed(6);
    assert [] + head == head;
  }
}
