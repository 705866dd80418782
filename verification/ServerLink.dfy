/**
 The life of one server connection across the clients it serves, as a machine over its steps:
 requests travel to the server and replies back in order, clients attach and leave, and between two
 clients the pooler resets the connection. Every request carries the ticket it was sent under, so that
 a run shows whose request each delivered reply answers.
 */
module ServerLink {
  import opened Framing
  import opened Accounting

  // ------------------------------------------------------------------ state

  /** On whose behalf a request was sent. */
  datatype Owner = Client(id: nat) | Deploy(id: nat) | Pooler

  /** A request may be cut: the server has its beginning, and its end is in the client's relay. */
  datatype Shape = Whole | Cut | Rest

  /** A request; one that is not `counted` (Parse, Bind, ...) gets no ReadyForQuery of its own. */
  datatype Frame = Frame(owner: Owner, ticket: nat, counted: bool, shape: Shape := Whole)

  datatype Reply = Reply(owner: Owner, ticket: nat, message: BackendMessage)

  datatype Delivery = Delivery(client: nat, reply: Reply)

  /** Whether the relay stands in the middle of a message, before or after its callback. */
  datatype Half = Boundary | Collecting | Streaming

  /** The pooler's own queries: `ROLLBACK` and `DISCARD ALL`. */
  datatype OwnQuery = Rollback | Discard

  /** `asked` are the pooler's own queries in this reset, in order. */
  datatype Phase =
    | Pooled(rc: int)
    | Attached(client: nat)
    | Resetting(client: nat, cleanup: bool, asked: seq<OwnQuery>)
    | Closed

  /**
   `inbox` holds replies the server has sent and the pooler has not handled, `wire` requests the server
   has not finished, `outq` requests the client relay has counted but not yet written, and `left` those
   that were still in it when the last client let go: they stay with that client, counted on this server.
   `torn` says that the first of `outq` is partly written.
   */
  datatype Link = Link(
    server: Server, phase: Phase, half: Half,
    inbox: seq<Reply>, wire: seq<Frame>, outq: seq<Frame>, left: seq<Frame>,
    next: nat, delivered: seq<Delivery>, torn: bool := false)

  function Connected(): Link {
    Link(Server(false, false, 0, 1, 1), Pooled(1), Boundary, [], [], [], [], 0, [])
  }

  // ------------------------------------------------------------------ steps

  /** What a client's relay holds from before: a request, or the end of one whose beginning went elsewhere. */
  datatype Cargo = Request(counted: bool) | Remains

  datatype Step =
    // the server
    | Emit(message: BackendMessage)
    | Finish(status: TxStatus)
    | Silent
    | Swallow(completes: bool)
    // the client that is attached
    | Send(kind: Byte)
    | Write
    | Tear
    | Read
    | Begin
    | End
    | Quit
    // the reset
    | ResetRead
    | ResetAsk(query: OwnQuery)
    | ResetDone(result: int)
    // the pool
    | Attach(client: nat, deploy: nat, carried: seq<Cargo>)
    | Close

  /** What `od_reset` has established when it returns 1. */
  predicate ResetHolds(rule: Rule, l: Link)
    requires l.phase.Resetting?
  {
    && l.server.Synchronized() && l.half.Boundary? && !l.server.isCopy
    && (rule.poolRollback ==> !l.server.isTransaction)
    && (rule.poolDiscard ==> Discard in l.phase.asked)
  }

  /** When `od_reset` returns 0: in a copy, in a transaction it may not roll back, or out of patience. */
  predicate ResetDrops(rule: Rule, l: Link)
    requires l.phase.Resetting?
  {
    && l.phase.asked == []
    && (l.server.isCopy || (!rule.poolRollback && l.server.isTransaction) ||
        (!rule.poolCancel && !l.server.Synchronized()))
  }

  predicate Enabled(rule: Rule, l: Link, step: Step) {
    match step
    case Emit(m) => l.wire != [] && l.wire[0].shape.Whole? && !m.Ready() && m != ParameterStatus(false)
    case Finish(status) =>
      && l.wire != [] && l.wire[0].shape.Whole? && l.wire[0].counted && !status.Unknown?
      && (l.wire[0].owner.Pooler? ==> status.Idle?)
    case Silent => l.wire != [] && l.wire[0].shape.Whole? && !l.wire[0].counted
    case Swallow(_) => |l.wire| >= 2 && l.wire[0].shape.Cut?
    case Send(kind) => l.phase.Attached? && kind as char != 'X'
    case Write => l.phase.Attached? && l.outq != []
    case Tear => l.phase.Attached? && l.outq != [] && l.outq[0].shape.Whole? && !l.torn
    case Read => l.phase.Attached? && l.half.Boundary? && l.inbox != []
    case Begin => l.phase.Attached? && l.half.Boundary? && l.inbox != []
    case End => l.phase.Attached? && !l.half.Boundary? && (l.half.Collecting? ==> l.inbox != [])
    case Quit => l.phase.Attached?
    case ResetRead => l.phase.Resetting? && l.half.Boundary? && l.inbox != []
    case ResetAsk(query) =>
      && l.phase.Resetting? && l.half.Boundary? && l.server.Synchronized() && Discard !in l.phase.asked
      && (if query.Rollback? then rule.poolRollback && l.server.isTransaction
          else rule.poolDiscard && (rule.poolRollback ==> !l.server.isTransaction))
    case ResetDone(rc) =>
      l.phase.Resetting? && (rc == 1 ==> ResetHolds(rule, l)) && (rc == 0 ==> ResetDrops(rule, l))
    case Attach(_, deploy, _) => l.phase.Pooled? && deploy <= 1
    case Close => true
  }

  /** The beginning of a request that is partly written. */
  function Stub(l: Link): seq<Frame> {
    if l.torn && l.outq != [] then [l.outq[0].(shape := Cut)] else []
  }

  /** What the relay keeps: the end of that request, and the requests behind it. */
  function LeftIn(l: Link): seq<Frame> {
    if l.torn && l.outq != [] then [l.outq[0].(shape := Rest, counted := false)] + l.outq[1..] else l.outq
  }

  /** The relay hands the first unhandled reply to the server callback. */
  function HandleReply(rule: Rule, l: Link): Link
    requires l.phase.Attached? && l.inbox != []
  {
    var (server, v) := OnServerMessage(rule, l.server, l.inbox[0].message);
    l.(server := server,
       inbox := l.inbox[1..],
       delivered := l.delivered + (if v.Forwards() then [Delivery(l.phase.client, l.inbox[0])] else []),
       phase := if v.Detach? then Resetting(l.phase.client, false, [])
                else if v.Refuse? then Closed
                else l.phase,
       wire := if v.Detach? then l.wire + Stub(l) else l.wire,
       outq := if v.Detach? then [] else l.outq,
       left := if v.Detach? then LeftIn(l) else l.left,
       torn := if v.Detach? then false else l.torn)
  }

  function ReadDuringReset(l: Link): Link
    requires l.inbox != []
  {
    var m := l.inbox[0].message;
    l.(inbox := l.inbox[1..], server := if m.Ready() then BackendReady(l.server, m) else l.server)
  }

  /**
   What is left over in the client relay from before goes to whichever server it gets. None of it is counted
   again, although the server answers the counted requests with a ReadyForQuery.
   */
  function Carried(client: nat, first: nat, cargo: seq<Cargo>): (r: seq<Frame>)
    ensures |r| == |cargo|
  {
    seq(|cargo|, i requires 0 <= i < |cargo| =>
      Frame(Client(client), first + i, cargo[i] == Request(true), if cargo[i].Remains? then Rest else Whole))
  }

  /** A server that gets the end of a request, and is not in the middle of one, closes the connection. */
  predicate Garbles(l: Link) {
    l.outq != [] && l.outq[0].shape.Rest? && (l.wire == [] || !l.wire[|l.wire| - 1].shape.Cut?)
  }

  function Apply(rule: Rule, l: Link, step: Step): Link
    requires Enabled(rule, l, step)
  {
    match step
    case Emit(m) => l.(inbox := l.inbox + [Reply(l.wire[0].owner, l.wire[0].ticket, m)])
    case Finish(status) =>
      l.(inbox := l.inbox + [Reply(l.wire[0].owner, l.wire[0].ticket, ReadyForQuery(true, status))],
         wire := l.wire[1..])
    case Silent => l.(wire := l.wire[1..])
    case Swallow(completes) =>
      l.(wire := [if completes then l.wire[0].(shape := Whole) else l.wire[0]] + l.wire[2..])
    case Send(kind) =>
      l.(server := OnClientMessage(l.server, kind).0,
         outq := l.outq + [Frame(Client(l.phase.client), l.next, Counted(kind))],
         next := l.next + 1)
    case Write =>
      if Garbles(l) then l.(phase := Closed)
      else l.(wire := l.wire + [l.outq[0]], outq := l.outq[1..], torn := false)
    case Tear => l.(torn := true)
    case Read => HandleReply(rule, l)
    case Begin =>
      if l.inbox[0].message.Reassembled() then l.(half := Collecting)
      else HandleReply(rule, l).(half := Streaming)
    case End => if l.half.Collecting? then HandleReply(rule, l).(half := Boundary) else l.(half := Boundary)
    case Quit =>
      if Garbles(l) then l.(phase := Closed)
      else l.(phase := Resetting(l.phase.client, true, []), wire := l.wire + l.outq, outq := [], torn := false)
    case ResetRead => ReadDuringReset(l)
    case ResetAsk(query) =>
      l.(wire := l.wire + [Frame(Pooler, l.next, true)],
         next := l.next + 1,
         server := l.server.(syncRequest := l.server.syncRequest + 1),
         phase := l.phase.(asked := l.phase.asked + [query]))
    case ResetDone(rc) =>
      l.(phase := if rc == 1 || (rc == 0 && !l.phase.cleanup) then Pooled(rc) else Closed)
    case Attach(client, deploy, carried) =>
      l.(phase := Attached(client),
         server := l.server.(deploySync := deploy, syncRequest := l.server.syncRequest + deploy),
         wire := l.wire + (if deploy == 0 then [] else [Frame(Deploy(client), l.next, true)]),
         outq := Carried(client, l.next + deploy, carried),
         left := [],
         torn := false,
         next := l.next + deploy + |carried|)
    case Close => l.(phase := Closed)
  }

  predicate ValidRun(rule: Rule, l: Link, steps: seq<Step>)
    decreases |steps|
  {
    steps == [] || (Enabled(rule, l, steps[0]) && ValidRun(rule, Apply(rule, l, steps[0]), steps[1..]))
  }

  function Exec(rule: Rule, l: Link, steps: seq<Step>): Link
    requires ValidRun(rule, l, steps)
    decreases |steps|
  {
    if steps == [] then l else Exec(rule, Apply(rule, l, steps[0]), steps[1..])
  }

  // --------------------------------------------------------------- invariants

  /** What is still to come over the link: replies and unanswered requests, oldest first. */
  datatype Item = Item(owner: Owner, ticket: nat, ready: bool)

  function OfReplies(inbox: seq<Reply>): (r: seq<Item>)
    ensures |r| == |inbox|
    ensures forall i :: 0 <= i < |inbox| ==> r[i] == Item(inbox[i].owner, inbox[i].ticket, inbox[i].message.Ready())
  {
    seq(|inbox|, i requires 0 <= i < |inbox| => Item(inbox[i].owner, inbox[i].ticket, inbox[i].message.Ready()))
  }

  function OfFrames(frames: seq<Frame>): (r: seq<Item>)
    ensures |r| == |frames|
    ensures forall i :: 0 <= i < |frames| ==> r[i] == Item(frames[i].owner, frames[i].ticket, frames[i].counted)
  {
    seq(|frames|, i requires 0 <= i < |frames| => Item(frames[i].owner, frames[i].ticket, frames[i].counted))
  }

  function Items(l: Link): (r: seq<Item>)
    ensures |r| == |l.inbox| + |l.wire| + |l.outq|
  {
    OfReplies(l.inbox) + OfFrames(l.wire) + OfFrames(l.outq)
  }

  /** How many of the items are or will be a ReadyForQuery. */
  function Readies(items: seq<Item>): nat {
    if items == [] then 0 else (if items[0].ready then 1 else 0) + Readies(items[1..])
  }

  /** Everything after the `skip`-th ReadyForQuery belongs to `client`. */
  predicate OwnAfter(items: seq<Item>, skip: nat, client: nat)
    decreases |items|
  {
    if skip == 0 then forall i :: 0 <= i < |items| ==> items[i].owner == Client(client)
    else items == [] || OwnAfter(items[1..], if items[0].ready then skip - 1 else skip, client)
  }

  predicate Sorted(items: seq<Item>, bound: nat) {
    && (forall i, j :: 0 <= i < j < |items| ==> items[i].ticket <= items[j].ticket)
    && (forall i :: 0 <= i < |items| ==> items[i].ticket < bound)
  }

  /** Replies were delivered in the order their requests were sent. */
  predicate InOrder(delivered: seq<Delivery>) {
    forall i, j :: 0 <= i < j < |delivered| ==> delivered[i].reply.ticket <= delivered[j].reply.ticket
  }

  /** Nothing that is still to come is older than what was delivered. */
  predicate Older(delivered: seq<Delivery>, items: seq<Item>, bound: nat) {
    && (forall i, j :: 0 <= i < |delivered| && 0 <= j < |items| ==> delivered[i].reply.ticket <= items[j].ticket)
    && (forall i :: 0 <= i < |delivered| ==> delivered[i].reply.ticket < bound)
  }

  /** No reply was forwarded to anyone but the client whose request it answers. */
  predicate AllOwn(delivered: seq<Delivery>) {
    forall i :: 0 <= i < |delivered| ==> delivered[i].reply.owner == Client(delivered[i].client)
  }

  /** The pooler's own query is the last thing on the link. */
  predicate PoolerLast(items: seq<Item>) {
    items != [] ==> items[|items| - 1].ready && items[|items| - 1].owner.Pooler?
  }

  /** A request that was counted, or the reply to it, is gone: the counts can never agree again. */
  predicate Lost(l: Link) {
    l.server.syncReply + Readies(Items(l)) + Readies(OfFrames(l.left)) < l.server.syncRequest
  }

  /** The accounting that holds in every state, whatever the pooler does with a reset's result. */
  predicate Accounted(l: Link) {
    && l.server.syncReply + Readies(Items(l)) + Readies(OfFrames(l.left)) <= l.server.syncRequest
    && Sorted(Items(l), l.next)
    && (if l.phase.Attached? then l.left == [] else l.outq == [])
    && (l.phase.Resetting? && l.phase.asked != [] ==> PoolerLast(Items(l)) || Lost(l))
    && (l.torn ==> l.phase.Attached? && l.outq != [])
    && (l.phase == Pooled(1) ==> l.server.Synchronized() && !l.server.isCopy)
    && (l.phase.Pooled? || (l.phase.Resetting? && !l.phase.cleanup) ==> l.half.Boundary?)
    && (l.half.Collecting? && l.phase.Attached? ==> l.inbox != [])
    && WellFormed(l.inbox)
  }

  /** Replies are well formed: the server's side of the protocol. */
  predicate WellFormed(inbox: seq<Reply>) {
    forall i :: 0 <= i < |inbox| ==>
      inbox[i].message != ParameterStatus(false) &&
      (inbox[i].message.Ready() ==>
         && inbox[i].message.wellFormed && !inbox[i].message.status.Unknown?
         && (inbox[i].owner.Pooler? ==> inbox[i].message.status.Idle?))
  }

  // ---------------------------------------------------------- items under steps

  lemma {:induction false} ReadiesConcat(a: seq<Item>, b: seq<Item>)
    ensures Readies(a + b) == Readies(a) + Readies(b)
  {
    if a == [] {
      assert a + b == b;
    } else {
      assert (a + b)[1..] == a[1..] + b;
      ReadiesConcat(a[1..], b);
    }
  }

  lemma {:induction false} OwnAfterAppend(items: seq<Item>, x: Item, skip: nat, client: nat)
    requires OwnAfter(items, skip, client) && x.owner == Client(client)
    ensures OwnAfter(items + [x], skip, client)
    decreases |items|
  {
    if skip > 0 {
      assert (items + [x])[1..] == if items == [] then [] else items[1..] + [x];
      if items != [] {
        OwnAfterAppend(items[1..], x, if items[0].ready then skip - 1 else skip, client);
      }
    }
  }

  /** A further message in front of a ReadyForQuery that is still to come. */
  lemma {:induction false} OwnAfterInsert(a: seq<Item>, w: Item, b: seq<Item>, skip: nat, client: nat)
    requires OwnAfter(a + [w] + b, skip, client)
    ensures OwnAfter(a + [w.(ready := false)] + [w] + b, skip, client)
    decreases |a|
  {
    var before, after := a + [w] + b, a + [w.(ready := false)] + [w] + b;
    if skip == 0 {
      forall i | 0 <= i < |after| ensures after[i].owner == Client(client) {
        assert before[if i <= |a| then i else i - 1].owner == Client(client);
      }
    } else if a == [] {
      assert after[1..] == before;
    } else {
      assert before[1..] == a[1..] + [w] + b;
      assert after[1..] == a[1..] + [w.(ready := false)] + [w] + b;
      OwnAfterInsert(a[1..], w, b, if a[0].ready then skip - 1 else skip, client);
    }
  }

  /** A request without a ReadyForQuery of its own is over. */
  lemma {:induction false} OwnAfterRemove(a: seq<Item>, w: Item, b: seq<Item>, skip: nat, client: nat)
    requires OwnAfter(a + [w] + b, skip, client) && !w.ready
    ensures OwnAfter(a + b, skip, client)
    decreases |a|
  {
    var before, after := a + [w] + b, a + b;
    if skip == 0 {
      forall i | 0 <= i < |after| ensures after[i].owner == Client(client) {
        assert before[if i < |a| then i else i + 1].owner == Client(client);
      }
    } else if a == [] {
      assert before[1..] == b && after == b;
    } else {
      assert before[1..] == a[1..] + [w] + b;
      assert after[1..] == a[1..] + b;
      OwnAfterRemove(a[1..], w, b, if a[0].ready then skip - 1 else skip, client);
    }
  }

  /** The items around the first request that the server is working on. */
  lemma ItemsAroundWire(l: Link)
    requires l.wire != []
    ensures Items(l) == OfReplies(l.inbox) + [Item(l.wire[0].owner, l.wire[0].ticket, l.wire[0].counted)]
                        + (OfFrames(l.wire[1..]) + OfFrames(l.outq))
  {
    assert OfFrames(l.wire) == [Item(l.wire[0].owner, l.wire[0].ticket, l.wire[0].counted)] + OfFrames(l.wire[1..]);
  }

  lemma RepliesAppend(inbox: seq<Reply>, r: Reply)
    ensures OfReplies(inbox + [r]) == OfReplies(inbox) + [Item(r.owner, r.ticket, r.message.Ready())]
  {
  }

  lemma FramesAppend(frames: seq<Frame>, more: seq<Frame>)
    ensures OfFrames(frames + more) == OfFrames(frames) + OfFrames(more)
  {
  }

  /** How the items change when nothing is read. */
  lemma ServerStepItems(rule: Rule, l: Link, step: Step)
    requires Enabled(rule, l, step) && (step.Emit? || step.Finish? || step.Silent?)
    ensures var a := OfReplies(l.inbox);
            var w := Item(l.wire[0].owner, l.wire[0].ticket, l.wire[0].counted);
            var b := OfFrames(l.wire[1..]) + OfFrames(l.outq);
            && Items(l) == a + [w] + b
            && Items(Apply(rule, l, step)) ==
                 if step.Emit? then a + [w.(ready := false)] + [w] + b else if step.Finish? then Items(l) else a + b
  {
    var l' := Apply(rule, l, step);
    ItemsAroundWire(l);
    match step {
      case Emit(m) =>
        ItemsAroundWire(l');
        hide OfFrames;
        RepliesAppend(l.inbox, Reply(l.wire[0].owner, l.wire[0].ticket, m));
      case Finish(status) =>
        hide OfFrames;
        RepliesAppend(l.inbox, Reply(l.wire[0].owner, l.wire[0].ticket, ReadyForQuery(true, status)));
      case Silent =>
    }
  }

  lemma HandleReplyItems(rule: Rule, l: Link)
    requires l.phase.Attached? && l.inbox != []
    ensures var l' := HandleReply(rule, l);
            && Items(l) == [Item(l.inbox[0].owner, l.inbox[0].ticket, l.inbox[0].message.Ready())] + Items(l)[1..]
            && Items(l.(inbox := l.inbox[1..])) == Items(l)[1..]
            && (!l'.phase.Resetting? ==> Items(l') == Items(l)[1..])
            && (l'.phase.Resetting? ==> Items(l') == OfReplies(l.inbox[1..]) + OfFrames(l.wire) + OfFrames(Stub(l)))
  {
    assert OfReplies(l.inbox)[1..] == OfReplies(l.inbox[1..]);
    assert OfFrames([]) == [];
    FramesAppend(l.wire, Stub(l));
  }

  /** A request that is partly written is split between the server and the relay, and counts once. */
  lemma CutItems(l: Link)
    requires l.torn ==> l.outq != []
    ensures OfFrames(l.outq) == OfFrames(Stub(l)) + OfFrames(l.outq)[|Stub(l)|..]
    ensures Readies(OfFrames(LeftIn(l))) == Readies(OfFrames(l.outq)[|Stub(l)|..])
  {
    if l.torn {
      assert OfFrames(LeftIn(l))[1..] == OfFrames(l.outq)[1..];
    }
  }

  // ------------------------------------------------------------- preservation

  predicate Inv(l: Link) {
    InOrder(l.delivered) && (l.phase.Closed? || (Accounted(l) && Older(l.delivered, Items(l), l.next)))
  }

  /** All deliveries so far were right, and those the present client can still get will be. */
  predicate OwnInv(l: Link) {
    AllOwn(l.delivered) && (l.phase.Attached? ==> OwnAfter(Items(l), l.server.deploySync, l.phase.client))
  }

  lemma InsertKeeps(a: seq<Item>, w: Item, b: seq<Item>, bound: nat, delivered: seq<Delivery>)
    requires Sorted(a + [w] + b, bound) && Older(delivered, a + [w] + b, bound)
    ensures var more := a + [w.(ready := false)] + [w] + b;
            Sorted(more, bound) && Older(delivered, more, bound) && (PoolerLast(a + [w] + b) ==> PoolerLast(more))
  {
    var items, more := a + [w] + b, a + [w.(ready := false)] + [w] + b;
    InsertTickets(a, w, b);
    assert PoolerLast(items) ==> PoolerLast(more) by {
      assert more[|more| - 1] == items[|items| - 1];
    }
    hide PoolerLast;
  }

  lemma InsertTickets(a: seq<Item>, w: Item, b: seq<Item>)
    ensures var items, more := a + [w] + b, a + [w.(ready := false)] + [w] + b;
            && (forall i :: 0 <= i <= |a| ==> more[i].ticket == items[i].ticket)
            && (forall i :: |a| < i < |more| ==> more[i].ticket == items[i - 1].ticket)
  {
  }

  lemma RemoveKeeps(a: seq<Item>, w: Item, b: seq<Item>, bound: nat, delivered: seq<Delivery>)
    requires Sorted(a + [w] + b, bound) && Older(delivered, a + [w] + b, bound) && !w.ready
    ensures Sorted(a + b, bound) && Older(delivered, a + b, bound)
    ensures PoolerLast(a + [w] + b) ==> PoolerLast(a + b)
  {
    var items, less := a + [w] + b, a + b;
    assert forall i :: 0 <= i < |less| ==> less[i] == items[if i < |a| then i else i + 1];
    assert b == [] ==> items[|items| - 1] == w;
  }

  lemma AroundReadies(a: seq<Item>, w: Item, b: seq<Item>)
    ensures Readies(a + [w.(ready := false)] + [w] + b) == Readies(a + [w] + b)
    ensures !w.ready ==> Readies(a + b) == Readies(a + [w] + b)
  {
    var w' := w.(ready := false);
    ReadiesConcat(a + [w], b);
    ReadiesConcat(a, [w]);
    ReadiesConcat(a, b);
    ReadiesConcat(a + [w'] + [w], b);
    ReadiesConcat(a + [w'], [w]);
    ReadiesConcat(a, [w']);
  }

  lemma EmitKeeps(rule: Rule, l: Link, m: BackendMessage)
    requires Inv(l) && !l.phase.Closed? && Enabled(rule, l, Emit(m))
    ensures Inv(Apply(rule, l, Emit(m)))
    ensures OwnInv(l) ==> OwnInv(Apply(rule, l, Emit(m)))
  {
    var a := OfReplies(l.inbox);
    var w := Item(l.wire[0].owner, l.wire[0].ticket, l.wire[0].counted);
    var b := OfFrames(l.wire[1..]) + OfFrames(l.outq);
    var l' := Apply(rule, l, Emit(m));
    ServerStepItems(rule, l, Emit(m));
    assert WellFormed(l'.inbox);
    hide Items, OfReplies, OfFrames, Sorted, Older, Readies, OwnAfter, WellFormed, AllOwn, InOrder;
    InsertKeeps(a, w, b, l.next, l.delivered);
    AroundReadies(a, w, b);
    if OwnInv(l) && l.phase.Attached? {
      OwnAfterInsert(a, w, b, l.server.deploySync, l.phase.client);
    }
  }

  lemma SilentKeeps(rule: Rule, l: Link)
    requires Inv(l) && !l.phase.Closed? && Enabled(rule, l, Silent)
    ensures Inv(Apply(rule, l, Silent))
    ensures OwnInv(l) ==> OwnInv(Apply(rule, l, Silent))
  {
    var a := OfReplies(l.inbox);
    var w := Item(l.wire[0].owner, l.wire[0].ticket, l.wire[0].counted);
    var b := OfFrames(l.wire[1..]) + OfFrames(l.outq);
    ServerStepItems(rule, l, Silent);
    RemoveKeeps(a, w, b, l.next, l.delivered);
    AroundReadies(a, w, b);
    hide Items, OfReplies, OfFrames, Sorted, Older, Readies, OwnAfter, WellFormed, AllOwn, InOrder;
    if OwnInv(l) && l.phase.Attached? {
      OwnAfterRemove(a, w, b, l.server.deploySync, l.phase.client);
    }
  }

  /** The items when the server takes a request for the end of the cut one in front of it. */
  lemma SwallowItems(rule: Rule, l: Link, completes: bool)
    requires Enabled(rule, l, Swallow(completes))
    ensures var a := OfReplies(l.inbox) + OfFrames(l.wire[..1]);
            var x := Item(l.wire[1].owner, l.wire[1].ticket, l.wire[1].counted);
            var b := OfFrames(l.wire[2..]) + OfFrames(l.outq);
            Items(l) == a + [x] + b && Items(Apply(rule, l, Swallow(completes))) == a + b
  {
    var l' := Apply(rule, l, Swallow(completes));
    var first, rest := l.wire[..1], l.wire[2..];
    assert l.wire == first + [l.wire[1]] + rest && l'.wire == l'.wire[..1] + rest && l'.wire[..1] == [l'.wire[0]];
    assert OfFrames(l'.wire[..1]) == OfFrames(first);
    assert OfFrames([l.wire[1]]) == [Item(l.wire[1].owner, l.wire[1].ticket, l.wire[1].counted)];
    hide OfFrames, OfReplies;
    FramesAppend(first + [l.wire[1]], rest);
    FramesAppend(first, [l.wire[1]]);
    FramesAppend(l'.wire[..1], rest);
    Regroup(OfReplies(l.inbox), OfFrames(first), OfFrames([l.wire[1]]), OfFrames(rest), OfFrames(l.outq));
  }

  lemma Regroup(r: seq<Item>, f: seq<Item>, x: seq<Item>, b: seq<Item>, o: seq<Item>)
    ensures r + (f + x + b) + o == (r + f) + x + (b + o) && r + (f + b) + o == (r + f) + (b + o)
  {
  }

  /** Whatever item is taken away, what is left behind the deploy still belongs to the client. */
  lemma {:induction false} OwnAfterDrop(a: seq<Item>, x: Item, b: seq<Item>, skip: nat, client: nat)
    requires OwnAfter(a + [x] + b, skip, client)
    ensures OwnAfter(a + b, skip, client)
    decreases |a|
  {
    var before, after := a + [x] + b, a + b;
    if skip == 0 {
      forall i | 0 <= i < |after| ensures after[i].owner == Client(client) {
        assert before[if i < |a| then i else i + 1].owner == Client(client);
      }
    } else if a == [] {
      assert before[1..] == b && after == b;
      if x.ready {
        OwnAfterMore(b, skip - 1, client);
      }
    } else {
      assert before[1..] == a[1..] + [x] + b && after[1..] == a[1..] + b;
      OwnAfterDrop(a[1..], x, b, if a[0].ready then skip - 1 else skip, client);
    }
  }

  /** Behind a later ReadyForQuery there is less. */
  lemma {:induction false} OwnAfterMore(items: seq<Item>, skip: nat, client: nat)
    requires OwnAfter(items, skip, client)
    ensures OwnAfter(items, skip + 1, client)
    decreases |items|
  {
    if items != [] {
      var skip' := if items[0].ready then skip else skip + 1;
      if skip == 0 {
        assert OwnAfter(items[1..], 0, client);
        if !items[0].ready {
          OwnAfterMore(items[1..], 0, client);
        }
      } else {
        OwnAfterMore(items[1..], if items[0].ready then skip - 1 else skip, client);
      }
    }
  }

  lemma DropKeeps(a: seq<Item>, x: Item, b: seq<Item>, bound: nat, delivered: seq<Delivery>)
    requires Sorted(a + [x] + b, bound) && Older(delivered, a + [x] + b, bound)
    ensures Sorted(a + b, bound) && Older(delivered, a + b, bound)
    ensures Readies(a + [x] + b) == Readies(a + b) + (if x.ready then 1 else 0)
    ensures a != [] && PoolerLast(a + [x] + b) ==> PoolerLast(a + b) || x.ready
  {
    hide PoolerLast, Sorted, Older, Readies;
    DropLast(a, x, b);
    DropSorted(a, x, b, bound, delivered);
    DropReadies(a, x, b);
  }

  lemma DropSorted(a: seq<Item>, x: Item, b: seq<Item>, bound: nat, delivered: seq<Delivery>)
    requires Sorted(a + [x] + b, bound) && Older(delivered, a + [x] + b, bound)
    ensures Sorted(a + b, bound) && Older(delivered, a + b, bound)
  {
    var items, less := a + [x] + b, a + b;
    assert forall i :: 0 <= i < |less| ==> less[i] == items[if i < |a| then i else i + 1];
  }

  lemma DropReadies(a: seq<Item>, x: Item, b: seq<Item>)
    ensures Readies(a + [x] + b) == Readies(a + b) + (if x.ready then 1 else 0)
  {
    ReadiesConcat(a + [x], b);
    ReadiesConcat(a, [x]);
    ReadiesConcat(a, b);
  }

  lemma DropLast(a: seq<Item>, x: Item, b: seq<Item>)
    ensures PoolerLast(a + [x] + b) ==> PoolerLast(a + b) || x.ready
  {
    var items := a + [x] + b;
    assert b == [] ==> items[|items| - 1] == x;
    assert b != [] ==> items[|items| - 1] == (a + b)[|a + b| - 1];
  }

  lemma SwallowKeeps(rule: Rule, l: Link, completes: bool)
    requires Inv(l) && !l.phase.Closed? && Enabled(rule, l, Swallow(completes))
    ensures Inv(Apply(rule, l, Swallow(completes)))
    ensures OwnInv(l) ==> OwnInv(Apply(rule, l, Swallow(completes)))
  {
    var a := OfReplies(l.inbox) + OfFrames(l.wire[..1]);
    var x := Item(l.wire[1].owner, l.wire[1].ticket, l.wire[1].counted);
    var b := OfFrames(l.wire[2..]) + OfFrames(l.outq);
    SwallowItems(rule, l, completes);
    assert a != [];
    hide Items, OfReplies, OfFrames, Sorted, Older, Readies, OwnAfter, WellFormed, AllOwn, InOrder, PoolerLast;
    DropKeeps(a, x, b, l.next, l.delivered);
    if OwnInv(l) && l.phase.Attached? {
      OwnAfterDrop(a, x, b, l.server.deploySync, l.phase.client);
    }
  }

  lemma FinishKeeps(rule: Rule, l: Link, status: TxStatus)
    requires Inv(l) && !l.phase.Closed? && Enabled(rule, l, Finish(status))
    ensures Inv(Apply(rule, l, Finish(status)))
    ensures OwnInv(l) ==> OwnInv(Apply(rule, l, Finish(status)))
  {
    ServerStepItems(rule, l, Finish(status));
    hide Items, OfReplies, OfFrames, Sorted, Older, Readies, OwnAfter, AllOwn, InOrder;
  }

  lemma AppendKeeps(items: seq<Item>, x: Item, bound: nat, delivered: seq<Delivery>)
    requires Sorted(items, bound) && Older(delivered, items, bound) && x.ticket == bound
    ensures Sorted(items + [x], bound + 1) && Older(delivered, items + [x], bound + 1)
    ensures Readies(items + [x]) == Readies(items) + (if x.ready then 1 else 0)
  {
    ReadiesConcat(items, [x]);
  }

  lemma SendItems(rule: Rule, l: Link, kind: Byte)
    requires Enabled(rule, l, Send(kind))
    ensures Items(Apply(rule, l, Send(kind))) == Items(l) + [Item(Client(l.phase.client), l.next, Counted(kind))]
  {
    FramesAppend(l.outq, [Frame(Client(l.phase.client), l.next, Counted(kind))]);
  }

  lemma WriteItems(rule: Rule, l: Link)
    requires Enabled(rule, l, Write)
    ensures Items(Apply(rule, l, Write)) == Items(l)
  {
    var a, w := OfReplies(l.inbox), OfFrames(l.wire);
    var x, rest := OfFrames([l.outq[0]]), OfFrames(l.outq[1..]);
    FramesAppend(l.wire, [l.outq[0]]);
    FramesAppend([l.outq[0]], l.outq[1..]);
    assert l.outq == [l.outq[0]] + l.outq[1..];
    hide OfReplies, OfFrames;
    assert a + (w + x) + rest == a + w + (x + rest);
  }

  lemma QuitItems(rule: Rule, l: Link)
    requires Enabled(rule, l, Quit)
    ensures Items(Apply(rule, l, Quit)) == Items(l)
  {
    FramesAppend(l.wire, l.outq);
    assert OfFrames([]) == [];
  }

  lemma ClientStepKeeps(rule: Rule, l: Link, step: Step)
    requires Inv(l) && Enabled(rule, l, step) && (step.Send? || step.Write? || step.Tear? || step.Quit?)
    ensures Inv(Apply(rule, l, step))
    ensures OwnInv(l) ==> OwnInv(Apply(rule, l, step))
  {
    hide Items, Sorted, Older, Readies, OwnAfter, WellFormed, AllOwn, InOrder;
    match step
    case Send(kind) =>
      SendItems(rule, l, kind);
      var x := Item(Client(l.phase.client), l.next, Counted(kind));
      AppendKeeps(Items(l), x, l.next, l.delivered);
      if OwnInv(l) {
        OwnAfterAppend(Items(l), x, l.server.deploySync, l.phase.client);
      }
    case Write => WriteItems(rule, l);
    case Tear => ItemsIgnoreHalf(l, Apply(rule, l, step));
    case Quit => QuitItems(rule, l);
  }

  /** The reply that the relay hands to the callback is the first item. */
  lemma HeadOwn(rule: Rule, l: Link)
    requires Inv(l) && OwnInv(l) && l.phase.Attached? && l.inbox != []
    ensures AllOwn(HandleReply(rule, l).delivered)
    ensures var l' := HandleReply(rule, l);
            l'.phase.Attached? ==> OwnAfter(Items(l'), l'.server.deploySync, l'.phase.client)
  {
    HandleReplyItems(rule, l);
    var m := l.inbox[0].message;
    if l.server.deploySync == 0 {
      assert Items(l)[0].owner == Client(l.phase.client);
      assert forall i :: 0 <= i < |Items(l)| - 1 ==> Items(l)[1..][i] == Items(l)[i + 1];
    }
    hide Items, OfReplies, OfFrames, Sorted, Older, Readies;
  }

  lemma TailKeeps(items: seq<Item>, bound: nat, delivered: seq<Delivery>, d: Delivery)
    requires items != [] && Sorted(items, bound) && Older(delivered, items, bound)
    ensures Sorted(items[1..], bound) && Older(delivered, items[1..], bound)
    ensures Readies(items) == (if items[0].ready then 1 else 0) + Readies(items[1..])
    ensures PoolerLast(items) ==> PoolerLast(items[1..])
    ensures d.reply.ticket == items[0].ticket && InOrder(delivered) ==>
              InOrder(delivered + [d]) && Older(delivered + [d], items[1..], bound)
  {
  }

  lemma PrefixKeeps(a: seq<Item>, b: seq<Item>, bound: nat, delivered: seq<Delivery>)
    requires Sorted(a + b, bound) && Older(delivered, a + b, bound)
    ensures Sorted(a, bound) && Older(delivered, a, bound) && Readies(a + b) == Readies(a) + Readies(b)
  {
    ReadiesConcat(a, b);
    assert forall i :: 0 <= i < |a| ==> a[i] == (a + b)[i];
  }

  /** What handling a reply does to the link, whatever the message. */
  lemma HandleReplyShape(rule: Rule, l: Link)
    requires WellFormed(l.inbox) && l.phase.Attached? && l.inbox != []
    ensures var l' := HandleReply(rule, l);
            var d := Delivery(l.phase.client, l.inbox[0]);
            && l'.inbox == l.inbox[1..] && l'.next == l.next && l'.half == l.half
            && WellFormed(l'.inbox)
            && l'.server.syncRequest == l.server.syncRequest
            && l'.server.syncReply == l.server.syncReply + (if l.inbox[0].message.Ready() then 1 else 0)
            && (l'.delivered == l.delivered || l'.delivered == l.delivered + [d])
            && (if l'.phase.Resetting? then
                  && l'.phase == Resetting(l.phase.client, false, []) && l.inbox[0].message.Ready()
                  && l'.wire == l.wire + Stub(l) && l'.outq == [] && l'.left == LeftIn(l) && !l'.torn
                else
                  && l'.phase == l.phase && l'.wire == l.wire && l'.outq == l.outq && l'.left == l.left
                  && l'.torn == l.torn)
  {
  }

  /** What a reset finds on the link when the client is detached, and what stays in the client's relay. */
  function Behind(l: Link): seq<Item>
    requires l.inbox != []
  {
    OfReplies(l.inbox[1..]) + OfFrames(l.wire) + OfFrames(Stub(l))
  }

  function Kept(l: Link): seq<Item>
    requires l.torn ==> l.outq != []
  {
    OfFrames(l.outq)[|Stub(l)|..]
  }

  lemma BehindAndKept(l: Link)
    requires l.inbox != [] && (l.torn ==> l.outq != [])
    ensures Items(l)[1..] == Behind(l) + Kept(l) && Readies(OfFrames(LeftIn(l))) == Readies(Kept(l))
  {
    CutItems(l);
    var first := OfReplies(l.inbox)[..1];
    assert OfReplies(l.inbox) == first + OfReplies(l.inbox[1..]);
    hide OfReplies, OfFrames, LeftIn, Stub, Readies;
    TailOf(first, OfReplies(l.inbox[1..]), OfFrames(l.wire), OfFrames(Stub(l)), Kept(l));
  }

  lemma TailOf(x: seq<Item>, r: seq<Item>, w: seq<Item>, s: seq<Item>, k: seq<Item>)
    requires |x| == 1
    ensures ((x + r) + w + (s + k))[1..] == r + w + s + k
  {
  }

  lemma HandleReplyKeeps(rule: Rule, l: Link)
    requires Inv(l) && l.phase.Attached? && l.inbox != []
    ensures Inv(HandleReply(rule, l).(half := Boundary))
  {
    var l' := HandleReply(rule, l);
    HandleReplyShape(rule, l);
    HandleReplyItems(rule, l);
    BehindAndKept(l);
    ItemsIgnoreHalf(l', l'.(half := Boundary));
    assert Items(l)[0].ticket == l.inbox[0].ticket && Items(l)[0].ready == l.inbox[0].message.Ready();
    assert l'.phase.Resetting? ==> Items(l') == Behind(l);
    hide Items, OfReplies, OfFrames, Sorted, Older, Readies, WellFormed, InOrder;
    hide HandleReply, LeftIn, Stub, Behind, Kept;
    TailKeeps(Items(l), l.next, l.delivered, Delivery(l.phase.client, l.inbox[0]));
    PrefixKeeps(Behind(l), Kept(l), l.next, l'.delivered);
  }

  lemma ItemsIgnoreHalf(l: Link, l': Link)
    ensures l'.inbox == l.inbox && l'.wire == l.wire && l'.outq == l.outq ==> Items(l') == Items(l)
  {
  }

  /** Where the relay stands in a message does not matter to the accounting of a link that is held. */
  lemma HalfKeeps(l: Link, half: Half)
    requires Inv(l) && l.phase.Attached? && (half.Collecting? ==> l.inbox != [])
    ensures Inv(l.(half := half)) && (OwnInv(l) ==> OwnInv(l.(half := half)))
  {
    ItemsIgnoreHalf(l, l.(half := half));
    hide Items, Sorted, Older, Readies, WellFormed, InOrder, OwnAfter, AllOwn;
  }

  lemma HandleReplyOwn(rule: Rule, l: Link)
    requires Inv(l) && OwnInv(l) && l.phase.Attached? && l.inbox != []
    ensures OwnInv(HandleReply(rule, l).(half := Boundary))
  {
    HeadOwn(rule, l);
    ItemsIgnoreHalf(HandleReply(rule, l), HandleReply(rule, l).(half := Boundary));
    hide Items, OwnAfter, AllOwn, HandleReply;
  }

  lemma RelayStepKeeps(rule: Rule, l: Link, step: Step)
    requires Inv(l) && Enabled(rule, l, step) && (step.Read? || step.Begin? || step.End?)
    ensures Inv(Apply(rule, l, step))
    ensures OwnInv(l) ==> OwnInv(Apply(rule, l, step))
  {
    if step.End? && l.half.Streaming? {
      HalfKeeps(l, Boundary);
    } else if step.Begin? && l.inbox[0].message.Reassembled() {
      HalfKeeps(l, Collecting);
    } else {
      var l' := HandleReply(rule, l).(half := Boundary);
      HandleReplyKeeps(rule, l);
      HandleReplyShape(rule, l);
      if OwnInv(l) {
        HandleReplyOwn(rule, l);
      }
      if step.Begin? {
        assert !l'.phase.Resetting?;
        HalfKeeps(l', Streaming);
      }
      assert l.half.Boundary? ==> HandleReply(rule, l) == l';
      hide Inv, OwnInv, HandleReply;
    }
  }

  lemma ResetReadKeeps(rule: Rule, l: Link)
    requires Inv(l) && Enabled(rule, l, ResetRead)
    ensures Inv(Apply(rule, l, ResetRead))
  {
    var l' := Apply(rule, l, ResetRead);
    assert OfReplies(l.inbox)[1..] == OfReplies(l.inbox[1..]);
    assert Items(l') == Items(l)[1..];
    assert Items(l)[0].ready == l.inbox[0].message.Ready();
    assert WellFormed(l'.inbox);
    assert l'.server.syncReply == l.server.syncReply + (if l.inbox[0].message.Ready() then 1 else 0);
    TailKeeps(Items(l), l.next, l.delivered, Delivery(0, l.inbox[0]));
    hide Items, Sorted, Older, Readies, WellFormed, InOrder, BackendReady;
  }

  lemma ResetAskKeeps(rule: Rule, l: Link, query: OwnQuery)
    requires Inv(l) && Enabled(rule, l, ResetAsk(query))
    ensures Inv(Apply(rule, l, ResetAsk(query)))
  {
    var l' := Apply(rule, l, ResetAsk(query));
    var x := Item(Pooler, l.next, true);
    FramesAppend(l.wire, [Frame(Pooler, l.next, true)]);
    assert Items(l') == Items(l) + [x];
    AppendKeeps(Items(l), x, l.next, l.delivered);
    hide Items, Sorted, Older, Readies, WellFormed, InOrder;
  }

  // ------------------------------------------------------------------- attach

  function DeployItems(client: nat, first: nat, deploy: nat): seq<Item> {
    if deploy == 0 then [] else [Item(Deploy(client), first, true)]
  }

  lemma AttachItems(rule: Rule, l: Link, client: nat, deploy: nat, carried: seq<Cargo>)
    requires Enabled(rule, l, Step.Attach(client, deploy, carried)) && l.outq == []
    ensures Items(Apply(rule, l, Step.Attach(client, deploy, carried))) ==
            Items(l) + DeployItems(client, l.next, deploy) + OfFrames(Carried(client, l.next + deploy, carried))
  {
    if deploy != 0 {
      FramesAppend(l.wire, [Frame(Deploy(client), l.next, true)]);
    }
    assert OfFrames([]) == [];
  }

  lemma {:induction false} NoReadies(items: seq<Item>)
    requires forall i :: 0 <= i < |items| ==> !items[i].ready
    ensures Readies(items) == 0
  {
    if items != [] {
      NoReadies(items[1..]);
    }
  }

  lemma {:induction false} NoneReady(items: seq<Item>)
    requires Readies(items) == 0
    ensures forall i :: 0 <= i < |items| ==> !items[i].ready
  {
    if items != [] {
      NoneReady(items[1..]);
      assert forall i :: 1 <= i < |items| ==> items[i] == items[1..][i - 1];
    }
  }

  lemma ExtendKeeps(items: seq<Item>, more: seq<Item>, bound: nat, delivered: seq<Delivery>)
    requires Sorted(items, bound) && Older(delivered, items, bound)
    requires forall i :: 0 <= i < |more| ==> more[i].ticket == bound + i
    ensures Sorted(items + more, bound + |more|) && Older(delivered, items + more, bound + |more|)
  {
  }

  lemma CarriedItems(client: nat, first: nat, carried: seq<Cargo>)
    ensures var c := OfFrames(Carried(client, first, carried));
            && |c| == |carried|
            && (forall i :: 0 <= i < |c| ==> c[i].ticket == first + i && c[i].owner == Client(client))
            && (Request(true) !in carried ==> Readies(c) == 0)
  {
    var c := OfFrames(Carried(client, first, carried));
    if Request(true) !in carried {
      forall i | 0 <= i < |c| ensures !c[i].ready {
        assert carried[i] in carried;
      }
      NoReadies(c);
    }
  }

  lemma ExtendTwice(items: seq<Item>, d: seq<Item>, c: seq<Item>, bound: nat, delivered: seq<Delivery>)
    requires Sorted(items, bound) && Older(delivered, items, bound)
    requires forall i :: 0 <= i < |d| ==> d[i].ticket == bound + i
    requires forall i :: 0 <= i < |c| ==> c[i].ticket == bound + |d| + i
    ensures var all := items + d + c; var end := bound + |d| + |c|;
            && Sorted(all, end) && Older(delivered, all, end)
            && Readies(all) == Readies(items) + Readies(d) + Readies(c)
  {
    hide Sorted, Older, Readies;
    ExtendKeeps(items, d, bound, delivered);
    ExtendKeeps(items + d, c, bound + |d|, delivered);
    ReadiesConcat(items + d, c);
    ReadiesConcat(items, d);
  }

  /** What an attach does to the link beside the items. */
  lemma AttachFields(rule: Rule, l: Link, client: nat, deploy: nat, carried: seq<Cargo>)
    requires Enabled(rule, l, Step.Attach(client, deploy, carried))
    ensures var l' := Apply(rule, l, Step.Attach(client, deploy, carried));
            && l'.phase == Attached(client) && l'.half == l.half && l'.inbox == l.inbox && l'.left == [] && !l'.torn
            && l'.server.syncReply == l.server.syncReply && l'.server.syncRequest == l.server.syncRequest + deploy
            && l'.next == l.next + deploy + |carried| && l'.delivered == l.delivered
  {
  }

  lemma DeployReadies(client: nat, first: nat, deploy: nat)
    requires deploy <= 1
    ensures var d := DeployItems(client, first, deploy);
            Readies(d) == deploy && |d| == deploy && forall i :: 0 <= i < |d| ==> d[i].ticket == first + i
  {
  }

  lemma AttachTotals(rule: Rule, l: Link, client: nat, deploy: nat, carried: seq<Cargo>)
    requires Sorted(Items(l), l.next) && Older(l.delivered, Items(l), l.next) && l.outq == []
    requires Enabled(rule, l, Step.Attach(client, deploy, carried)) && Request(true) !in carried
    ensures var items := Items(Apply(rule, l, Step.Attach(client, deploy, carried)));
            var next := l.next + deploy + |carried|;
            && Sorted(items, next) && Older(l.delivered, items, next) && Readies(items) == Readies(Items(l)) + deploy
  {
    AttachItems(rule, l, client, deploy, carried);
    assert deploy <= 1;
    hide Items, Readies, Sorted, Older, OfFrames, Carried, Apply, DeployItems, Enabled;
    DeployReadies(client, l.next, deploy);
    CarriedItems(client, l.next + deploy, carried);
    ExtendTwice(Items(l), DeployItems(client, l.next, deploy),
                OfFrames(Carried(client, l.next + deploy, carried)), l.next, l.delivered);
  }

  lemma NothingReady(frames: seq<Frame>)
    requires frames == []
    ensures Readies(OfFrames(frames)) == 0
  {
  }

  lemma AttachKeeps(rule: Rule, l: Link, client: nat, deploy: nat, carried: seq<Cargo>)
    requires Inv(l) && Enabled(rule, l, Step.Attach(client, deploy, carried)) && Request(true) !in carried
    ensures Inv(Apply(rule, l, Step.Attach(client, deploy, carried)))
  {
    AttachFields(rule, l, client, deploy, carried);
    hide Items, Readies, WellFormed, InOrder, Sorted, Older, OfFrames, Apply, PoolerLast;
    AttachTotals(rule, l, client, deploy, carried);
    NothingReady(Apply(rule, l, Step.Attach(client, deploy, carried)).left);
  }

  /**
   The condition on an attach: the server came back with result 1, no request that an earlier server was to
   answer comes along, and nothing foreign can slip through.
   */
  predicate Sound(l: Link, step: Step) {
    step.Attach? ==>
      && l.phase == Pooled(1) && Request(true) !in step.carried
      && (step.deploy >= 1 || forall i :: 0 <= i < |Items(l)| ==> Items(l)[i].owner == Client(step.client))
  }

  lemma {:induction false} SkipStale(stale: seq<Item>, x: Item, own: seq<Item>, client: nat)
    requires Readies(stale) == 0 && x.ready
    requires forall i :: 0 <= i < |own| ==> own[i].owner == Client(client)
    ensures OwnAfter(stale + [x] + own, 1, client)
  {
    var items := stale + [x] + own;
    if stale == [] {
      assert items[1..] == own;
    } else {
      assert items[1..] == stale[1..] + [x] + own;
      SkipStale(stale[1..], x, own, client);
    }
  }

  lemma AttachOwn(rule: Rule, l: Link, client: nat, deploy: nat, carried: seq<Cargo>)
    requires Inv(l) && OwnInv(l) && Enabled(rule, l, Step.Attach(client, deploy, carried))
    requires Sound(l, Step.Attach(client, deploy, carried))
    ensures OwnInv(Apply(rule, l, Step.Attach(client, deploy, carried)))
  {
    var c := OfFrames(Carried(client, l.next + deploy, carried));
    AttachItems(rule, l, client, deploy, carried);
    CarriedItems(client, l.next + deploy, carried);
    if deploy == 1 {
      SkipStale(Items(l), Item(Deploy(client), l.next, true), c, client);
    }
  }

  // --------------------------------------------------------------- whole runs

  /** The client brings no request along that an earlier server was to answer with a ReadyForQuery. */
  predicate Settled(step: Step) {
    step.Attach? ==> Request(true) !in step.carried
  }

  lemma StepKeeps(rule: Rule, l: Link, step: Step)
    requires Inv(l) && Enabled(rule, l, step) && Settled(step)
    ensures Inv(Apply(rule, l, step))
    ensures OwnInv(l) && Sound(l, step) ==> OwnInv(Apply(rule, l, step))
  {
    hide Accounted, OwnAfter, Older, InOrder, AllOwn;
    if l.phase.Closed? {
      return;
    }
    match step
    case Emit(m) => EmitKeeps(rule, l, m);
    case Finish(status) => FinishKeeps(rule, l, status);
    case Silent => SilentKeeps(rule, l);
    case Swallow(completes) => SwallowKeeps(rule, l, completes);
    case Send(_) => ClientStepKeeps(rule, l, step);
    case Write => ClientStepKeeps(rule, l, step);
    case Tear => ClientStepKeeps(rule, l, step);
    case Quit => ClientStepKeeps(rule, l, step);
    case Read => RelayStepKeeps(rule, l, step);
    case Begin => RelayStepKeeps(rule, l, step);
    case End => RelayStepKeeps(rule, l, step);
    case ResetRead => ResetReadKeeps(rule, l);
    case ResetAsk(query) => ResetAskKeeps(rule, l, query);
    case ResetDone(rc) => ResetDoneKeeps(rule, l, rc);
    case Attach(client, deploy, carried) =>
      AttachKeeps(rule, l, client, deploy, carried);
      if OwnInv(l) && Sound(l, step) {
        AttachOwn(rule, l, client, deploy, carried);
      }
    case Close =>
  }

  lemma ResetDoneKeeps(rule: Rule, l: Link, rc: int)
    requires Inv(l) && Enabled(rule, l, ResetDone(rc))
    ensures Inv(Apply(rule, l, ResetDone(rc)))
  {
    assert Items(Apply(rule, l, ResetDone(rc))) == Items(l);
  }

  /** Every attach of the run meets the condition. */
  predicate SoundRun(rule: Rule, l: Link, steps: seq<Step>)
    requires ValidRun(rule, l, steps)
    decreases |steps|
  {
    steps == [] || (Sound(l, steps[0]) && SoundRun(rule, Apply(rule, l, steps[0]), steps[1..]))
  }

  lemma {:induction false} RunKeeps(rule: Rule, l: Link, steps: seq<Step>)
    requires Inv(l) && ValidRun(rule, l, steps) && forall i :: 0 <= i < |steps| ==> Settled(steps[i])
    ensures Inv(Exec(rule, l, steps))
    ensures OwnInv(l) && SoundRun(rule, l, steps) ==> OwnInv(Exec(rule, l, steps))
    decreases |steps|
  {
    if steps != [] {
      StepKeeps(rule, l, steps[0]);
      hide Inv, OwnInv, Sound, Settled, Apply, Enabled;
      assert forall i :: 0 <= i < |steps| - 1 ==> steps[1..][i] == steps[i + 1];
      RunKeeps(rule, Apply(rule, l, steps[0]), steps[1..]);
    }
  }

  lemma {:induction false} SoundIsSettled(rule: Rule, l: Link, steps: seq<Step>)
    requires ValidRun(rule, l, steps) && SoundRun(rule, l, steps)
    ensures forall i :: 0 <= i < |steps| ==> Settled(steps[i])
    decreases |steps|
  {
    if steps != [] {
      SoundIsSettled(rule, Apply(rule, l, steps[0]), steps[1..]);
      hide Apply, Enabled;
      assert forall i :: 1 <= i < |steps| ==> steps[i] == steps[1..][i - 1];
    }
  }

  /** A reset that returns 1 has seen a reply to everything its client had counted: the client keeps none of it. */
  lemma ReturnedLeavesNothingCounted(rule: Rule, l: Link)
    requires Inv(l) && l.phase.Resetting? && ResetHolds(rule, l)
    ensures forall i :: 0 <= i < |l.left| ==> !l.left[i].counted
  {
    NoneReady(OfFrames(l.left));
    assert forall i :: 0 <= i < |l.left| ==> OfFrames(l.left)[i].ready == l.left[i].counted;
  }

  lemma NewConnection()
    ensures Inv(Connected()) && OwnInv(Connected()) && Items(Connected()) == []
  {
    var none: seq<Item> := [];
    assert Items(Connected()) == none && OfFrames(Connected().left) == none && Readies(none) == 0;
    assert Sorted(none, 0) && Older([], none, 0) && InOrder([]) && AllOwn([]) && WellFormed([]);
    hide Items, OfFrames, Readies, Sorted, Older, InOrder, AllOwn, WellFormed;
  }

  /**
   No reply crosses clients: over every run of a server connection, if each attach takes the server back
   from a reset that returned 1, brings no request along that an earlier server was to answer, and either
   deploys parameters or finds nothing foreign left over, then every client is forwarded replies to its own
   requests only, in the order of the requests, and never a reply to the deploy query or to the pooler.
   */
  lemma NoReplyCrosses(rule: Rule, steps: seq<Step>)
    requires ValidRun(rule, Connected(), steps) && SoundRun(rule, Connected(), steps)
    ensures var end := Exec(rule, Connected(), steps); AllOwn(end.delivered) && InOrder(end.delivered)
  {
    NewConnection();
    hide Accounted, Apply, Enabled, OwnAfter, Connected;
    SoundIsSettled(rule, Connected(), steps);
    RunKeeps(rule, Connected(), steps);
  }
}
