/**
 Exactly when a pooled server connection can deliver one client's reply to another: the settings under
 which a successful reset is enough, and the runs in which it is not.
 */
module Crossing {
  import opened Framing
  import opened Accounting
  import opened ServerLink

  // ------------------------------------------------------ when the condition holds

  /** Every attach takes the server back from a reset that returned 1 and brings nothing counted along. */
  predicate ReturnedRun(rule: Rule, l: Link, steps: seq<Step>)
    requires ValidRun(rule, l, steps)
    decreases |steps|
  {
    steps == [] ||
    (Returned(l, steps[0]) && ReturnedRun(rule, Apply(rule, l, steps[0]), steps[1..]))
  }

  predicate Returned(l: Link, step: Step) {
    step.Attach? ==> l.phase == Pooled(1) && Request(true) !in step.carried
  }

  predicate Emptied(l: Link) {
    l.phase == Pooled(1) ==> Items(l) == []
  }

  /** A reset that asked a question of its own and returned 1 has read everything there was. */
  lemma AskedEmpties(rule: Rule, l: Link)
    requires Inv(l) && l.phase.Resetting? && l.phase.asked != [] && ResetHolds(rule, l)
    ensures Items(l) == []
  {
    NoneReady(Items(l));
  }

  lemma DiscardStep(rule: Rule, l: Link, step: Step)
    requires rule.poolDiscard && Inv(l) && Emptied(l) && Enabled(rule, l, step)
    ensures Emptied(Apply(rule, l, step))
    ensures Returned(l, step) ==> Sound(l, step)
  {
    if step == ResetDone(1) {
      AskedEmpties(rule, l);
      assert Items(Apply(rule, l, step)) == Items(l);
    }
  }

  lemma {:induction false} DiscardRun(rule: Rule, l: Link, steps: seq<Step>)
    requires rule.poolDiscard && Inv(l) && Emptied(l) && ValidRun(rule, l, steps) && ReturnedRun(rule, l, steps)
    ensures SoundRun(rule, l, steps)
    decreases |steps|
  {
    if steps != [] {
      StepKeeps(rule, l, steps[0]);
      DiscardStep(rule, l, steps[0]);
      hide Inv, Apply, Enabled;
      DiscardRun(rule, Apply(rule, l, steps[0]), steps[1..]);
    }
  }

  /**
   With `pool_discard` on, which is the default, it is enough that every reset returned 1 and that nothing
   counted is brought along.
   */
  lemma DiscardKeepsRepliesApart(rule: Rule, steps: seq<Step>)
    requires rule.poolDiscard
    requires ValidRun(rule, Connected(), steps) && ReturnedRun(rule, Connected(), steps)
    ensures var end := Exec(rule, Connected(), steps); AllOwn(end.delivered) && InOrder(end.delivered)
  {
    NewConnection();
    hide Inv, Apply, Enabled, Connected;
    DiscardRun(rule, Connected(), steps);
    NoReplyCrosses(rule, steps);
  }

  // ------------------------------------------------------- a request that is cut

  /** The request at `k` is cut, those in front of it are whole, and those behind it await a ReadyForQuery. */
  predicate CutAt(wire: seq<Frame>, k: nat) {
    && k < |wire| && wire[k].shape.Cut?
    && (forall j :: 0 <= j < k ==> wire[j].shape.Whole?) && (forall j :: k < j < |wire| ==> wire[j].counted)
  }

  /** A reset cannot bring the link in order: a request is cut, or what was to end it is gone. */
  predicate Doomed(l: Link) {
    Lost(l) || exists k: nat :: k < |l.wire| && CutAt(l.wire, k)
  }

  /** A client that is detached in the middle of writing a request leaves such a link. */
  lemma TornIsDoomed(rule: Rule, l: Link)
    requires l.phase.Attached? && l.inbox != [] && l.torn && l.outq != []
    requires forall i :: 0 <= i < |l.wire| ==> l.wire[i].shape.Whole?
    ensures var l' := HandleReply(rule, l); l'.phase.Resetting? ==> Doomed(l')
  {
    var l' := HandleReply(rule, l);
    if l'.phase.Resetting? {
      assert CutAt(l'.wire, |l.wire|);
    }
  }

  lemma SwallowLoses(rule: Rule, l: Link, completes: bool)
    requires Inv(l) && !l.phase.Closed? && Enabled(rule, l, Swallow(completes)) && l.wire[1].counted
    ensures Lost(Apply(rule, l, Swallow(completes)))
  {
    var a := OfReplies(l.inbox) + OfFrames(l.wire[..1]);
    var x := Item(l.wire[1].owner, l.wire[1].ticket, l.wire[1].counted);
    var b := OfFrames(l.wire[2..]) + OfFrames(l.outq);
    SwallowItems(rule, l, completes);
    hide Items, OfReplies, OfFrames, Sorted, Older, Readies, WellFormed, InOrder, PoolerLast;
    DropKeeps(a, x, b, l.next, l.delivered);
  }

  /** What is lost stays lost while the reset goes on. */
  lemma LostStays(rule: Rule, l: Link, step: Step)
    requires Inv(l) && l.phase.Resetting? && Lost(l) && Enabled(rule, l, step) && !step.ResetDone? && !step.Close?
    ensures Lost(Apply(rule, l, step)) && Apply(rule, l, step).phase.Resetting?
  {
    var l' := Apply(rule, l, step);
    match step
    case Emit(_) =>
      ServerStepItems(rule, l, step);
      AroundReadies(OfReplies(l.inbox), Item(l.wire[0].owner, l.wire[0].ticket, l.wire[0].counted),
                    OfFrames(l.wire[1..]) + OfFrames(l.outq));
    case Finish(_) => ServerStepItems(rule, l, step);
    case Silent =>
      ServerStepItems(rule, l, step);
      AroundReadies(OfReplies(l.inbox), Item(l.wire[0].owner, l.wire[0].ticket, l.wire[0].counted),
                    OfFrames(l.wire[1..]) + OfFrames(l.outq));
    case Swallow(completes) =>
      SwallowItems(rule, l, completes);
      DropKeeps(OfReplies(l.inbox) + OfFrames(l.wire[..1]), Item(l.wire[1].owner, l.wire[1].ticket, l.wire[1].counted),
                OfFrames(l.wire[2..]) + OfFrames(l.outq), l.next, l.delivered);
    case ResetRead =>
      assert OfReplies(l.inbox)[1..] == OfReplies(l.inbox[1..]);
      assert Items(l') == Items(l)[1..];
      assert Items(l)[0].ready == l.inbox[0].message.Ready();
  }

  lemma DoomedStep(rule: Rule, l: Link, step: Step)
    requires Inv(l) && l.phase.Resetting? && Doomed(l) && Enabled(rule, l, step) && !step.ResetDone? && !step.Close?
    ensures Doomed(Apply(rule, l, step)) && Apply(rule, l, step).phase.Resetting?
  {
    var l' := Apply(rule, l, step);
    if Lost(l) {
      LostStays(rule, l, step);
    } else {
      var k: nat :| k < |l.wire| && CutAt(l.wire, k);
      if step.Swallow? {
        assert k == 0;
        SwallowLoses(rule, l, step.completes);
      } else {
        assert step.Finish? || step.Silent? ==> k > 0;
        assert CutAt(l'.wire, if step.Finish? || step.Silent? then k - 1 else k);
      }
    }
  }

  lemma DoomedIsNotReturned(rule: Rule, l: Link)
    requires rule.poolDiscard && Inv(l) && l.phase.Resetting? && Doomed(l)
    ensures !ResetHolds(rule, l)
  {
    if ResetHolds(rule, l) {
      AskedEmpties(rule, l);
      assert false;
    }
  }

  /**
   With `pool_discard` on, the connection of a client that was detached in the middle of writing a request never
   comes back to the pool after a result of 1: the server takes the pooler's own query for the end of that request.
   */
  lemma {:induction false} TornIsNotReturned(rule: Rule, l: Link, steps: seq<Step>)
    requires rule.poolDiscard && Inv(l) && l.phase.Resetting? && Doomed(l)
    requires ValidRun(rule, l, steps) && NoAttach(steps)
    ensures Exec(rule, l, steps).phase != Pooled(1)
    decreases |steps|
  {
    if steps != [] {
      DoomedIsNotReturned(rule, l);
      var l' := Apply(rule, l, steps[0]);
      if steps[0].ResetDone? || steps[0].Close? {
        StaysOut(rule, l', steps[1..]);
      } else {
        DoomedStep(rule, l, steps[0]);
        StepKeeps(rule, l, steps[0]);
        hide Inv, Doomed, Apply, Enabled;
        TornIsNotReturned(rule, l', steps[1..]);
      }
    }
  }

  lemma {:induction false} StaysOut(rule: Rule, l: Link, steps: seq<Step>)
    requires (l.phase.Closed? || (l.phase.Pooled? && l.phase.rc != 1)) && ValidRun(rule, l, steps) && NoAttach(steps)
    ensures Exec(rule, l, steps).phase != Pooled(1)
    decreases |steps|
  {
    if steps != [] {
      StaysOut(rule, Apply(rule, l, steps[0]), steps[1..]);
    }
  }

  // ------------------------------------------------- what the next client can be sent

  predicate NoAttach(steps: seq<Step>) {
    forall i :: 0 <= i < |steps| ==> !steps[i].Attach?
  }

  /** The client keeps the server: no step takes it from the pool or puts it back. */
  predicate Held(steps: seq<Step>) {
    forall i :: 0 <= i < |steps| ==> !steps[i].Attach? && !steps[i].ResetDone?
  }

  /** After the first `n` deliveries someone was forwarded a reply that answers none of its requests. */
  predicate ForeignSince(delivered: seq<Delivery>, n: nat) {
    exists i :: n <= i < |delivered| && delivered[i].reply.owner != Client(delivered[i].client)
  }

  /** The client can be forwarded someone else's reply before it lets go of the server. */
  ghost predicate CanCross(rule: Rule, l: Link, client: nat, deploy: nat, carried: seq<Cargo>)
    requires l.phase.Pooled? && deploy <= 1
  {
    exists steps: seq<Step> :: Crosses(rule, Apply(rule, l, Step.Attach(client, deploy, carried)), steps)
  }

  ghost predicate Crosses(rule: Rule, l: Link, steps: seq<Step>) {
    Held(steps) && ValidRun(rule, l, steps) && ForeignSince(Exec(rule, l, steps).delivered, |l.delivered|)
  }

  /** The reply on which the relay gives the server back. */
  predicate LetsGo(rule: Rule, m: BackendMessage) {
    m.Ready() && m.status.Idle? && rule.transactionPooling && !rule.replication
  }

  /** The requests when a cut one in front has swallowed the one behind it, and is complete then or not. */
  function Swallowed(wire: seq<Frame>, completes: bool): (r: seq<Frame>)
    requires wire != []
    ensures r != [] && |r| <= |wire| && (|wire| >= 2 ==> |r| < |wire|)
  {
    [if completes then wire[0].(shape := Whole) else wire[0]] + (if |wire| >= 2 then wire[2..] else [])
  }

  /**
   Behind `skip` ReadyForQuery messages, a request of someone other than `client` is unanswered. A cut request
   in front is completed by what is written behind it, if only by requests that the client is still to send.
   */
  predicate FramesLeak(wire: seq<Frame>, skip: nat, client: nat)
    decreases |wire|, if wire != [] && wire[0].shape.Cut? then 1 else 0
  {
    wire != [] && !wire[0].shape.Rest? &&
    (if wire[0].shape.Cut? then
       FramesLeak(Swallowed(wire, true), skip, client) ||
       (|wire| >= 2 && FramesLeak(Swallowed(wire, false), skip, client))
     else if skip > 0 then FramesLeak(wire[1..], if wire[0].counted then skip - 1 else skip, client)
     else wire[0].owner != Client(client) || FramesLeak(wire[1..], 0, client))
  }

  /**
   The same for replies on their way followed by unanswered requests; a reply of the client's own that
   makes the relay give the server back protects it from what comes behind.
   */
  predicate Leak(rule: Rule, inbox: seq<Reply>, wire: seq<Frame>, skip: nat, client: nat) {
    if inbox == [] then FramesLeak(wire, skip, client)
    else if skip > 0 then Leak(rule, inbox[1..], wire, if inbox[0].message.Ready() then skip - 1 else skip, client)
    else
      inbox[0].owner != Client(client) ||
      (!LetsGo(rule, inbox[0].message) && Leak(rule, inbox[1..], wire, 0, client))
  }

  lemma {:induction false} EmitKeepsOut(
      rule: Rule, inbox: seq<Reply>, wire: seq<Frame>, r: Reply, skip: nat, client: nat)
    requires !Leak(rule, inbox, wire, skip, client) && wire != [] && wire[0].shape.Whole?
    requires r.owner == wire[0].owner && !r.message.Ready()
    ensures !Leak(rule, inbox + [r], wire, skip, client)
    decreases |inbox|
  {
    assert (inbox + [r])[1..] == if inbox == [] then [] else inbox[1..] + [r];
    if inbox != [] {
      if skip > 0 {
        EmitKeepsOut(rule, inbox[1..], wire, r, if inbox[0].message.Ready() then skip - 1 else skip, client);
      } else if !LetsGo(rule, inbox[0].message) {
        EmitKeepsOut(rule, inbox[1..], wire, r, 0, client);
      }
    }
  }

  lemma {:induction false} FinishKeepsOut(
      rule: Rule, inbox: seq<Reply>, wire: seq<Frame>, r: Reply, skip: nat, client: nat)
    requires !Leak(rule, inbox, wire, skip, client) && wire != [] && wire[0].shape.Whole?
    requires r.owner == wire[0].owner && r.message.Ready() && wire[0].counted
    ensures !Leak(rule, inbox + [r], wire[1..], skip, client)
    decreases |inbox|
  {
    assert (inbox + [r])[1..] == if inbox == [] then [] else inbox[1..] + [r];
    if inbox != [] {
      if skip > 0 {
        FinishKeepsOut(rule, inbox[1..], wire, r, if inbox[0].message.Ready() then skip - 1 else skip, client);
      } else if !LetsGo(rule, inbox[0].message) {
        FinishKeepsOut(rule, inbox[1..], wire, r, 0, client);
      }
    }
  }

  lemma {:induction false} SilentKeepsOut(rule: Rule, inbox: seq<Reply>, wire: seq<Frame>, skip: nat, client: nat)
    requires !Leak(rule, inbox, wire, skip, client) && wire != [] && wire[0].shape.Whole? && !wire[0].counted
    ensures !Leak(rule, inbox, wire[1..], skip, client)
    decreases |inbox|
  {
    if inbox != [] {
      if skip > 0 {
        SilentKeepsOut(rule, inbox[1..], wire, if inbox[0].message.Ready() then skip - 1 else skip, client);
      } else if !LetsGo(rule, inbox[0].message) {
        SilentKeepsOut(rule, inbox[1..], wire, 0, client);
      }
    }
  }

  lemma {:induction false} SwallowKeepsOut(
      rule: Rule, inbox: seq<Reply>, wire: seq<Frame>, completes: bool, skip: nat, client: nat)
    requires !Leak(rule, inbox, wire, skip, client) && |wire| >= 2 && wire[0].shape.Cut?
    ensures !Leak(rule, inbox, Swallowed(wire, completes), skip, client)
    decreases |inbox|
  {
    if inbox != [] {
      hide Swallowed;
      if skip > 0 {
        SwallowKeepsOut(
          rule, inbox[1..], wire, completes, if inbox[0].message.Ready() then skip - 1 else skip, client);
      } else if !LetsGo(rule, inbox[0].message) {
        SwallowKeepsOut(rule, inbox[1..], wire, completes, 0, client);
      }
    }
  }

  predicate Own(frames: seq<Frame>, client: nat) {
    forall i :: 0 <= i < |frames| ==> frames[i].owner == Client(client) && !frames[i].shape.Cut?
  }

  lemma {:induction false} OwnLeaksNothing(own: seq<Frame>, skip: nat, client: nat)
    requires Own(own, client)
    ensures !FramesLeak(own, skip, client)
    decreases |own|
  {
    if own != [] {
      OwnLeaksNothing(own[1..], if skip > 0 && own[0].counted then skip - 1 else skip, client);
    }
  }

  /** Requests of the client's own behind the others make no difference. */
  lemma {:induction false} OwnFramesDoNotLeak(wire: seq<Frame>, own: seq<Frame>, skip: nat, client: nat)
    requires Own(own, client)
    ensures FramesLeak(wire + own, skip, client) <==> FramesLeak(wire, skip, client)
    decreases |wire| + |own|, if wire != [] && wire[0].shape.Cut? then 1 else 0
  {
    if wire == [] {
      assert wire + own == own;
      OwnLeaksNothing(own, skip, client);
    } else if own == [] {
      assert wire + own == wire;
    } else if wire[0].shape.Cut? {
      OwnBehindCut(wire, own, skip, client);
    } else if !wire[0].shape.Rest? {
      assert (wire + own)[1..] == wire[1..] + own;
      OwnFramesDoNotLeak(wire[1..], own, if skip > 0 && wire[0].counted then skip - 1 else skip, client);
    }
  }

  lemma {:induction false} OwnBehindCut(wire: seq<Frame>, own: seq<Frame>, skip: nat, client: nat)
    requires Own(own, client) && own != [] && wire != [] && wire[0].shape.Cut?
    ensures FramesLeak(wire + own, skip, client) <==> FramesLeak(wire, skip, client)
    decreases |wire| + |own|, 0
  {
    var all := wire + own;
    if |wire| >= 2 {
      assert Swallowed(all, true) == Swallowed(wire, true) + own;
      assert Swallowed(all, false) == Swallowed(wire, false) + own;
      OwnFramesDoNotLeak(Swallowed(wire, true), own, skip, client);
      OwnFramesDoNotLeak(Swallowed(wire, false), own, skip, client);
    } else {
      assert Swallowed(all, true) == Swallowed(wire, true) + own[1..];
      assert Swallowed(all, false) == wire + own[1..];
      OwnFramesDoNotLeak(Swallowed(wire, true), own[1..], skip, client);
      OwnFramesDoNotLeak(wire, own[1..], skip, client);
    }
  }

  lemma {:induction false} OwnRequestsDoNotLeak(
      rule: Rule, inbox: seq<Reply>, wire: seq<Frame>, own: seq<Frame>, skip: nat, client: nat)
    requires Own(own, client)
    ensures Leak(rule, inbox, wire + own, skip, client) <==> Leak(rule, inbox, wire, skip, client)
    decreases |inbox|
  {
    if inbox == [] {
      OwnFramesDoNotLeak(wire, own, skip, client);
    } else {
      OwnRequestsDoNotLeak(
        rule, inbox[1..], wire, own, if skip > 0 && inbox[0].message.Ready() then skip - 1 else skip, client);
    }
  }

  // ---------------------------------------------------- no leak, no crossing

  /** Nothing foreign can reach the client that holds the link. */
  predicate Tight(rule: Rule, l: Link, client: nat) {
    && WellFormed(l.inbox)
    && (l.phase.Attached? ==>
          l.phase.client == client && !Leak(rule, l.inbox, l.wire + l.outq, l.server.deploySync, client))
  }

  /** What the step forwards goes to the client whose request it answers. */
  predicate OwnDelivery(l: Link, l': Link) {
    l.delivered <= l'.delivered && !ForeignSince(l'.delivered, |l.delivered|)
  }

  lemma TightServerStep(rule: Rule, l: Link, step: Step, client: nat)
    requires Tight(rule, l, client) && Enabled(rule, l, step)
    requires step.Emit? || step.Finish? || step.Silent? || step.Swallow?
    ensures Tight(rule, Apply(rule, l, step), client) && OwnDelivery(l, Apply(rule, l, step))
  {
    var l' := Apply(rule, l, step);
    if l.phase.Attached? {
      var frames := l.wire + l.outq;
      assert frames[1..] == l.wire[1..] + l.outq;
      match step {
        case Emit(m) =>
          EmitKeepsOut(rule, l.inbox, frames, l'.inbox[|l.inbox|], l.server.deploySync, client);
        case Finish(status) =>
          FinishKeepsOut(rule, l.inbox, frames, l'.inbox[|l.inbox|], l.server.deploySync, client);
        case Silent => SilentKeepsOut(rule, l.inbox, frames, l.server.deploySync, client);
        case Swallow(completes) =>
          assert l'.wire + l'.outq == Swallowed(frames, completes);
          SwallowKeepsOut(rule, l.inbox, frames, completes, l.server.deploySync, client);
      }
    }
  }

  lemma TightRead(rule: Rule, l: Link, client: nat)
    requires Tight(rule, l, client) && l.phase.Attached? && l.inbox != []
    ensures Tight(rule, HandleReply(rule, l), client) && OwnDelivery(l, HandleReply(rule, l))
  {
    var l' := HandleReply(rule, l);
    var r := l.inbox[0];
    assert r.message.Ready() ==> r.message.wellFormed && !r.message.status.Unknown?;
    if l'.delivered != l.delivered {
      assert r.owner == Client(client) && l'.delivered == l.delivered + [Delivery(client, r)];
    }
  }

  lemma TightStep(rule: Rule, l: Link, step: Step, client: nat)
    requires Tight(rule, l, client) && Enabled(rule, l, step) && !step.Attach?
    ensures Tight(rule, Apply(rule, l, step), client) && OwnDelivery(l, Apply(rule, l, step))
  {
    var l' := Apply(rule, l, step);
    if step.Emit? || step.Finish? || step.Silent? || step.Swallow? {
      TightServerStep(rule, l, step, client);
    } else if step.Read? || step.Begin? || step.End? {
      if l.inbox != [] {
        TightRead(rule, l, client);
      }
      hide Leak, HandleReply;
    } else if step.Send? {
      var own := [l'.outq[|l.outq|]];
      assert l'.wire + l'.outq == (l.wire + l.outq) + own;
      OwnRequestsDoNotLeak(rule, l.inbox, l.wire + l.outq, own, l.server.deploySync, client);
    } else if step.Write? {
      assert l'.wire + l'.outq == l.wire + l.outq;
    }
  }

  lemma {:induction false} TightRun(rule: Rule, l: Link, steps: seq<Step>, client: nat, n: nat)
    requires Tight(rule, l, client) && ValidRun(rule, l, steps) && NoAttach(steps)
    requires !ForeignSince(l.delivered, n)
    ensures !ForeignSince(Exec(rule, l, steps).delivered, n)
    decreases |steps|
  {
    if steps != [] {
      TightStep(rule, l, steps[0], client);
      var l' := Apply(rule, l, steps[0]);
      assert !ForeignSince(l'.delivered, n) by {
        assert forall i :: 0 <= i < |l.delivered| ==> l'.delivered[i] == l.delivered[i];
      }
      hide Tight, Apply, Enabled, ForeignSince, OwnDelivery;
      TightRun(rule, l', steps[1..], client, n);
    }
  }

  // ------------------------------------------------------- a leak, a crossing

  lemma CrossesCons(rule: Rule, l: Link, step: Step, more: seq<Step>)
    requires Enabled(rule, l, step) && !step.Attach? && !step.ResetDone? && Crosses(rule, Apply(rule, l, step), more)
    requires |l.delivered| <= |Apply(rule, l, step).delivered|
    ensures Crosses(rule, l, [step] + more)
  {
    assert ([step] + more)[1..] == more;
    var end := Exec(rule, Apply(rule, l, step), more).delivered;
    var i :| |Apply(rule, l, step).delivered| <= i < |end| && end[i].reply.owner != Client(end[i].client);
    assert |l.delivered| <= i;
  }

  /** The relay reads the first reply: it crosses, or the rest still leaks. */
  lemma ReadLeaks(rule: Rule, l: Link, client: nat) returns (crossed: bool)
    requires l.phase == Attached(client) && l.half.Boundary? && WellFormed(l.inbox) && l.inbox != []
    requires Leak(rule, l.inbox, l.wire, l.server.deploySync, client)
    ensures crossed <==> l.server.deploySync == 0 && l.inbox[0].owner != Client(client)
    ensures var l' := Apply(rule, l, Read);
            && |l.delivered| <= |l'.delivered|
            && (crossed ==> Crosses(rule, l, [Read]))
            && (!crossed ==> l'.phase == l.phase && l'.half.Boundary? && WellFormed(l'.inbox) && l'.wire == l.wire &&
                             l'.inbox == l.inbox[1..] && Leak(rule, l'.inbox, l'.wire, l'.server.deploySync, client))
  {
    var r, l' := l.inbox[0], Apply(rule, l, Read);
    assert r.message.Ready() ==> r.message.wellFormed && !r.message.status.Unknown?;
    crossed := l.server.deploySync == 0 && r.owner != Client(client);
    if crossed {
      assert l'.delivered == l.delivered + [Delivery(client, r)];
      assert l'.delivered[|l.delivered|].reply.owner != Client(client);
      assert [Read][1..] == [] && Exec(rule, l, [Read]) == l';
    }
  }

  /** The status with which the server ends a request so that the relay does not give it back. */
  function Ending(owner: Owner): TxStatus {
    if owner.Pooler? then Idle else Open
  }

  lemma FinishLeaks(rule: Rule, l: Link, client: nat)
    requires l.phase == Attached(client) && WellFormed(l.inbox) && l.inbox == []
    requires l.wire != [] && l.wire[0].shape.Whole? && l.wire[0].counted
    requires Leak(rule, l.inbox, l.wire, l.server.deploySync, client)
    ensures Enabled(rule, l, Finish(Ending(l.wire[0].owner)))
    ensures var l' := Apply(rule, l, Finish(Ending(l.wire[0].owner)));
            && |l'.inbox| == 1 && WellFormed(l'.inbox) && l'.wire == l.wire[1..]
            && Leak(rule, l'.inbox, l'.wire, l'.server.deploySync, client)
  {
    var l' := Apply(rule, l, Finish(Ending(l.wire[0].owner)));
    assert l'.inbox[1..] == [];
  }

  const PARSE: Byte := 'P' as Byte

  /** The client writes a request behind a cut one that is alone. */
  lemma WriteBehind(rule: Rule, l: Link, client: nat) returns (steps: seq<Step>, end: Link)
    requires l.phase == Attached(client) && |l.wire| == 1 && l.wire[0].shape.Cut?
    ensures ValidRun(rule, l, steps) && Exec(rule, l, steps) == end && Held(steps)
    ensures end.phase == l.phase && end.half == l.half && end.inbox == l.inbox && end.delivered == l.delivered
    ensures end.server.deploySync == l.server.deploySync && |end.wire| == 2 && end.wire[0] == l.wire[0]
  {
    if l.outq != [] {
      end := Apply(rule, l, Write);
      steps := [Write];
      assert steps[1..] == [];
    } else {
      var l1 := Apply(rule, l, Send(PARSE));
      assert |l1.outq| == 1;
      end := Apply(rule, l1, Write);
      steps := [Send(PARSE), Write];
      assert steps[1..] == [Write] && [Write][1..] == [];
      assert ValidRun(rule, l1, [Write]) && Exec(rule, l1, [Write]) == end;
    }
  }

  lemma {:induction false} CrossesAfter(rule: Rule, l: Link, first: seq<Step>, mid: Link, more: seq<Step>)
    requires ValidRun(rule, l, first) && Exec(rule, l, first) == mid && Held(first) && Crosses(rule, mid, more)
    requires mid.delivered == l.delivered
    ensures Crosses(rule, l, first + more)
  {
    RunThen(rule, l, first, mid, more);
  }

  lemma {:induction false} RunThen(rule: Rule, l: Link, first: seq<Step>, mid: Link, more: seq<Step>)
    requires ValidRun(rule, l, first) && Exec(rule, l, first) == mid && ValidRun(rule, mid, more)
    ensures ValidRun(rule, l, first + more) && Exec(rule, l, first + more) == Exec(rule, mid, more)
    decreases |first|
  {
    if first == [] {
      assert first + more == more;
    } else {
      assert (first + more)[1..] == first[1..] + more;
      hide Apply, Enabled;
      RunThen(rule, Apply(rule, l, first[0]), first[1..], mid, more);
    }
  }

  /** The server answers, the relay forwards: the foreign reply reaches the client. */
  lemma {:induction false} LeakCrosses(rule: Rule, l: Link, client: nat) returns (steps: seq<Step>)
    requires l.phase == Attached(client) && l.half.Boundary? && WellFormed(l.inbox)
    requires Leak(rule, l.inbox, l.wire, l.server.deploySync, client)
    ensures Crosses(rule, l, steps)
    decreases |l.wire|, |l.inbox|, if l.wire != [] && l.wire[0].shape.Cut? then 1 else 0, 1
  {
    if l.inbox != [] {
      var crossed := ReadLeaks(rule, l, client);
      hide Leak, Crosses, WellFormed;
      if crossed {
        return [Read];
      }
      var more := LeakCrosses(rule, Apply(rule, l, Read), client);
      CrossesCons(rule, l, Read, more);
      steps := [Read] + more;
    } else if l.wire[0].shape.Cut? {
      steps := CutCrosses(rule, l, client);
    } else if l.wire[0].counted {
      var step := Finish(Ending(l.wire[0].owner));
      FinishLeaks(rule, l, client);
      hide Leak, Crosses, WellFormed;
      var more := LeakCrosses(rule, Apply(rule, l, step), client);
      CrossesCons(rule, l, step, more);
      steps := [step] + more;
    } else if l.server.deploySync == 0 && l.wire[0].owner != Client(client) {
      var l1 := Apply(rule, l, Emit(CopyDone));
      assert l1.inbox[1..] == [];
      var crossed := ReadLeaks(rule, l1, client);
      CrossesCons(rule, l, Emit(CopyDone), [Read]);
      steps := [Emit(CopyDone)] + [Read];
    } else {
      var more := LeakCrosses(rule, Apply(rule, l, Silent), client);
      CrossesCons(rule, l, Silent, more);
      steps := [Silent] + more;
    }
  }

  /** The server takes what is written behind a cut request for its end. */
  lemma {:induction false} CutCrosses(rule: Rule, l: Link, client: nat) returns (steps: seq<Step>)
    requires l.phase == Attached(client) && l.half.Boundary? && l.inbox == [] && l.wire != [] && l.wire[0].shape.Cut?
    requires FramesLeak(l.wire, l.server.deploySync, client)
    ensures Crosses(rule, l, steps)
    decreases |l.wire|, 0, 1, 0
  {
    if |l.wire| >= 2 {
      var step := Swallow(FramesLeak(Swallowed(l.wire, true), l.server.deploySync, client));
      var l1 := Apply(rule, l, step);
      assert l1.wire == Swallowed(l.wire, step.completes);
      hide FramesLeak, Crosses, Swallowed;
      var more := LeakCrosses(rule, l1, client);
      CrossesCons(rule, l, step, more);
      steps := [step] + more;
    } else {
      var first, mid := WriteBehind(rule, l, client);
      var l1 := Apply(rule, mid, Swallow(true));
      assert l1.wire == Swallowed(l.wire, true);
      hide FramesLeak, Crosses, Swallowed;
      var more := LeakCrosses(rule, l1, client);
      CrossesCons(rule, mid, Swallow(true), more);
      CrossesAfter(rule, l, first, mid, [Swallow(true)] + more);
      steps := first + ([Swallow(true)] + more);
    }
  }

  // ------------------------------------------------------------- the condition

  /** What holds of every link, whatever was brought along and whatever its resets returned. */
  predicate Shaped(l: Link) {
    && WellFormed(l.inbox)
    && (l.phase.Attached? || l.outq == [])
    && (l.phase.Pooled? || (l.phase.Resetting? && !l.phase.cleanup) ==> l.half.Boundary?)
  }

  lemma StepShaped(rule: Rule, l: Link, step: Step)
    requires (l.phase.Closed? || Shaped(l)) && Enabled(rule, l, step)
    ensures var l' := Apply(rule, l, step); l'.phase.Closed? || Shaped(l')
  {
    if !l.phase.Closed? && l.phase.Attached? && l.inbox != [] {
      HandleReplyShape(rule, l);
      hide HandleReply;
    }
  }

  lemma {:induction false} RunShaped(rule: Rule, l: Link, steps: seq<Step>)
    requires (l.phase.Closed? || Shaped(l)) && ValidRun(rule, l, steps)
    ensures var end := Exec(rule, l, steps); end.phase.Closed? || Shaped(end)
    decreases |steps|
  {
    if steps != [] {
      StepShaped(rule, l, steps[0]);
      hide Shaped, Apply, Enabled;
      RunShaped(rule, Apply(rule, l, steps[0]), steps[1..]);
    }
  }

  function DeployFrames(client: nat, first: nat, deploy: nat): seq<Frame> {
    if deploy == 0 then [] else [Frame(Deploy(client), first, true)]
  }

  /**
   The exact condition, whatever the server's reset returned: the client can be forwarded someone else's
   reply if and only if, behind the deploy query's ReadyForQuery, something on the link is not its own and
   no reply of its own makes the relay give the server back before.
   */
  lemma CrossesIff(rule: Rule, l: Link, client: nat, deploy: nat, carried: seq<Cargo>)
    requires Shaped(l) && l.phase.Pooled? && deploy <= 1
    ensures CanCross(rule, l, client, deploy, carried) <==>
            Leak(rule, l.inbox, l.wire + DeployFrames(client, l.next, deploy), deploy, client)
  {
    var l1 := Apply(rule, l, Step.Attach(client, deploy, carried));
    assert l1.wire == l.wire + DeployFrames(client, l.next, deploy);
    OwnRequestsDoNotLeak(rule, l1.inbox, l1.wire, l1.outq, deploy, client);
    hide Leak;
    if Leak(rule, l1.inbox, l1.wire, deploy, client) {
      var steps := LeakCrosses(rule, l1, client);
    } else {
      forall steps: seq<Step> | Held(steps) && ValidRun(rule, l1, steps) ensures !Crosses(rule, l1, steps) {
        TightRun(rule, l1, steps, client, |l1.delivered|);
      }
    }
  }

  // --------------------------------------------------------------- special cases

  /** Items seen from the replies and the requests they stand for, when nothing waits to be written. */
  lemma ItemsParts(l: Link)
    requires l.outq == []
    ensures |Items(l)| == |l.inbox| + |l.wire|
    ensures forall i :: 0 <= i < |l.inbox| ==>
              Items(l)[i].owner == l.inbox[i].owner && Items(l)[i].ready == l.inbox[i].message.Ready()
    ensures forall i :: 0 <= i < |l.wire| ==>
              Items(l)[|l.inbox| + i].owner == l.wire[i].owner && Items(l)[|l.inbox| + i].ready == l.wire[i].counted
  {
  }

  predicate NoReplyReady(inbox: seq<Reply>) {
    forall i :: 0 <= i < |inbox| ==> !inbox[i].message.Ready()
  }

  predicate NoFrameCounted(wire: seq<Frame>) {
    forall i :: 0 <= i < |wire| ==> !wire[i].counted
  }

  predicate RepliesOf(inbox: seq<Reply>, client: nat) {
    forall i :: 0 <= i < |inbox| ==> inbox[i].owner == Client(client)
  }

  predicate FramesOf(wire: seq<Frame>, client: nat) {
    forall i :: 0 <= i < |wire| ==> wire[i].owner == Client(client)
  }

  predicate NoneCut(wire: seq<Frame>) {
    forall i :: 0 <= i < |wire| ==> wire[i].shape.Whole?
  }

  /** Without a ReadyForQuery, nothing gets past a deploy query. */
  lemma {:induction false} UncountedHide(wire: seq<Frame>, skip: nat, client: nat)
    requires NoFrameCounted(wire) && skip > 0
    ensures !FramesLeak(wire, skip, client)
    decreases |wire|, if wire != [] && wire[0].shape.Cut? then 1 else 0
  {
    if wire != [] {
      if wire[0].shape.Cut? {
        UncountedHide(Swallowed(wire, true), skip, client);
        if |wire| >= 2 {
          UncountedHide(Swallowed(wire, false), skip, client);
        }
      } else {
        UncountedHide(wire[1..], skip, client);
      }
    }
  }

  lemma {:induction false} FramesHide(wire: seq<Frame>, deploy: Frame, client: nat)
    requires NoFrameCounted(wire) && deploy.counted && deploy.shape.Whole?
    ensures !FramesLeak(wire + [deploy], 1, client)
    decreases |wire|, if wire != [] && wire[0].shape.Cut? then 1 else 0
  {
    var all := wire + [deploy];
    if wire == [] {
      assert all == [deploy] && [deploy][1..] == [] && !FramesLeak([], 0, client);
    } else if wire[0].shape.Cut? {
      if |wire| >= 2 {
        assert Swallowed(all, true) == Swallowed(wire, true) + [deploy];
        assert Swallowed(all, false) == Swallowed(wire, false) + [deploy];
        FramesHide(Swallowed(wire, true), deploy, client);
        FramesHide(Swallowed(wire, false), deploy, client);
      } else {
        UncountedHide(Swallowed(all, true), 1, client);
        UncountedHide(Swallowed(all, false), 1, client);
      }
    } else {
      assert all[1..] == wire[1..] + [deploy];
      FramesHide(wire[1..], deploy, client);
    }
  }

  /** Behind a deploy query's ReadyForQuery there is something only if an older one comes first. */
  lemma {:induction false} DeployHides(rule: Rule, inbox: seq<Reply>, wire: seq<Frame>, deploy: Frame, client: nat)
    requires deploy.counted && deploy.shape.Whole?
    ensures NoReplyReady(inbox) && NoFrameCounted(wire) ==> !Leak(rule, inbox, wire + [deploy], 1, client)
    decreases |inbox|
  {
    if NoReplyReady(inbox) && NoFrameCounted(wire) {
      if inbox == [] {
        FramesHide(wire, deploy, client);
      } else {
        hide FramesLeak;
        DeployHides(rule, inbox[1..], wire, deploy, client);
      }
    }
  }

  /** What belongs to the client does not leak. */
  lemma {:induction false} OwnIsSafe(wire: seq<Frame>, skip: nat, client: nat)
    requires FramesOf(wire, client)
    ensures !FramesLeak(wire, skip, client)
    decreases |wire|, if wire != [] && wire[0].shape.Cut? then 1 else 0
  {
    if wire != [] {
      if wire[0].shape.Cut? {
        OwnIsSafe(Swallowed(wire, true), skip, client);
        if |wire| >= 2 {
          OwnIsSafe(Swallowed(wire, false), skip, client);
        }
      } else {
        OwnIsSafe(wire[1..], if skip > 0 && wire[0].counted then skip - 1 else skip, client);
      }
    }
  }

  /** With no ReadyForQuery to come, only what is foreign leaks, and all of that does if no request is cut. */
  lemma {:induction false} ForeignLeaks(rule: Rule, inbox: seq<Reply>, wire: seq<Frame>, client: nat)
    requires NoReplyReady(inbox) && NoFrameCounted(wire)
    ensures Leak(rule, inbox, wire, 0, client) ==> !(RepliesOf(inbox, client) && FramesOf(wire, client))
    ensures NoneCut(wire) && !(RepliesOf(inbox, client) && FramesOf(wire, client)) ==>
              Leak(rule, inbox, wire, 0, client)
    decreases |inbox| + |wire|
  {
    if inbox != [] {
      ForeignLeaks(rule, inbox[1..], wire, client);
      assert RepliesOf(inbox, client) <==> inbox[0].owner == Client(client) && RepliesOf(inbox[1..], client) by {
        assert forall i :: 1 <= i < |inbox| ==> inbox[i] == inbox[1..][i - 1];
      }
      hide FramesLeak;
    } else {
      if FramesOf(wire, client) {
        OwnIsSafe(wire, 0, client);
      }
      if wire != [] && NoneCut(wire) {
        ForeignLeaks(rule, inbox, wire[1..], client);
        assert FramesOf(wire, client) <==> wire[0].owner == Client(client) && FramesOf(wire[1..], client) by {
          assert forall i :: 1 <= i < |wire| ==> wire[i] == wire[1..][i - 1];
        }
      }
    }
  }

  /** An older ReadyForQuery is taken for the deploy query's, so that the deploy query's own reply leaks. */
  lemma {:induction false} OlderReadyLeaks(rule: Rule, inbox: seq<Reply>, wire: seq<Frame>, deploy: Frame, client: nat)
    requires deploy.owner != Client(client) && deploy.shape.Whole? && NoneCut(wire)
    requires Stranger(inbox, wire, client) && !(NoReplyReady(inbox) && NoFrameCounted(wire))
    ensures Leak(rule, inbox, wire + [deploy], 1, client)
    decreases |inbox| + |wire|
  {
    if inbox != [] {
      if inbox[0].message.Ready() {
        SomethingLeaks(rule, inbox[1..], wire + [deploy], client);
      } else {
        assert !NoReplyReady(inbox[1..]) || !NoFrameCounted(wire) by {
          assert forall i :: 1 <= i < |inbox| ==> inbox[i] == inbox[1..][i - 1];
        }
        OlderReadyLeaks(rule, inbox[1..], wire, deploy, client);
      }
    } else {
      assert (wire + [deploy])[1..] == wire[1..] + [deploy];
      if wire[0].counted {
        SomethingLeaks(rule, [], wire[1..] + [deploy], client);
      } else {
        assert forall i :: 1 <= i < |wire| ==> wire[i] == wire[1..][i - 1];
        OlderReadyLeaks(rule, inbox, wire[1..], deploy, client);
      }
    }
  }

  lemma SomethingLeaks(rule: Rule, inbox: seq<Reply>, wire: seq<Frame>, client: nat)
    requires Stranger(inbox, wire, client) && wire != [] && wire[0].shape.Whole?
    ensures Leak(rule, inbox, wire, 0, client)
  {
  }

  lemma ReadiesParts(l: Link)
    requires l.outq == []
    ensures Readies(Items(l)) == 0 <==> NoReplyReady(l.inbox) && NoFrameCounted(l.wire)
  {
    ItemsParts(l);
    hide Items;
    if Readies(Items(l)) == 0 {
      NoneReady(Items(l));
      forall i | 0 <= i < |l.wire| ensures !l.wire[i].counted {
        assert !Items(l)[|l.inbox| + i].ready;
      }
    } else if NoReplyReady(l.inbox) && NoFrameCounted(l.wire) {
      forall i | 0 <= i < |Items(l)| ensures !Items(l)[i].ready {
        assert i >= |l.inbox| ==> Items(l)[i].ready == l.wire[i - |l.inbox|].counted;
      }
      NoReadies(Items(l));
    }
  }

  predicate Foreign(l: Link, client: nat) {
    exists i :: 0 <= i < |Items(l)| && Items(l)[i].owner != Client(client)
  }

  lemma ForeignParts(l: Link, client: nat)
    requires l.outq == []
    ensures Foreign(l, client) <==> !(RepliesOf(l.inbox, client) && FramesOf(l.wire, client))
  {
    ItemsParts(l);
    hide Items;
    if !FramesOf(l.wire, client) {
      var i :| 0 <= i < |l.wire| && l.wire[i].owner != Client(client);
      assert Items(l)[|l.inbox| + i].owner != Client(client);
    }
    if RepliesOf(l.inbox, client) && FramesOf(l.wire, client) {
      forall i | 0 <= i < |Items(l)| ensures Items(l)[i].owner == Client(client) {
        assert i >= |l.inbox| ==> Items(l)[i].owner == l.wire[i - |l.inbox|].owner;
      }
    }
  }

  /**
   A server that came back with result 1 can hand a foreign reply to a client that attaches without a
   deploy query only when a request of someone else is still unanswered on the link, and always then if no
   request is cut; with a deploy query it never can.
   */
  lemma CanCrossIff(rule: Rule, l: Link, client: nat, carried: seq<Cargo>)
    requires Inv(l) && l.phase == Pooled(1)
    ensures CanCross(rule, l, client, 0, carried) ==> Foreign(l, client)
    ensures NoneCut(l.wire) ==> (CanCross(rule, l, client, 0, carried) <==> Foreign(l, client))
    ensures !CanCross(rule, l, client, 1, carried)
  {
    ReadiesParts(l);
    ForeignParts(l, client);
    hide Leak, CanCross, Foreign, Items;
    CrossesIff(rule, l, client, 0, carried);
    CrossesIff(rule, l, client, 1, carried);
    ForeignLeaks(rule, l.inbox, l.wire, client);
    DeployHides(rule, l.inbox, l.wire, Frame(Deploy(client), l.next, true), client);
    assert l.wire + [] == l.wire;
  }

  /** Nothing on the link is the client's own. */
  predicate Stranger(inbox: seq<Reply>, wire: seq<Frame>, client: nat) {
    (forall i :: 0 <= i < |inbox| ==> inbox[i].owner != Client(client)) &&
    (forall i :: 0 <= i < |wire| ==> wire[i].owner != Client(client))
  }

  lemma StrangerParts(l: Link, client: nat)
    requires l.outq == [] && forall i :: 0 <= i < |Items(l)| ==> Items(l)[i].owner != Client(client)
    ensures Stranger(l.inbox, l.wire, client)
    ensures Items(l) != [] <==> l.inbox != [] || l.wire != []
  {
    ItemsParts(l);
    hide Items;
    forall i | 0 <= i < |l.wire| ensures l.wire[i].owner != Client(client) {
      assert l.wire[i].owner == Items(l)[|l.inbox| + i].owner;
    }
  }

  lemma StrangerLeaks(rule: Rule, inbox: seq<Reply>, wire: seq<Frame>, client: nat)
    requires Stranger(inbox, wire, client)
    ensures Leak(rule, inbox, wire, 0, client) <==> inbox != [] || (wire != [] && !wire[0].shape.Rest?)
  {
    if inbox == [] && wire != [] && wire[0].shape.Cut? {
      assert FramesLeak(Swallowed(wire, true), 0, client);
    }
  }

  /**
   Whatever the reset returned, a client with nothing of its own on the link can be forwarded a foreign
   reply only when anything is left on the link or, with a deploy query, a ReadyForQuery is to come; and always
   then if no request is cut.
   */
  lemma NewClientCrossesIff(rule: Rule, l: Link, client: nat, carried: seq<Cargo>)
    requires Shaped(l) && l.phase.Pooled?
    requires forall i :: 0 <= i < |Items(l)| ==> Items(l)[i].owner != Client(client)
    ensures CanCross(rule, l, client, 0, carried) ==> Items(l) != []
    ensures CanCross(rule, l, client, 1, carried) ==> Readies(Items(l)) > 0
    ensures NoneCut(l.wire) ==> && (CanCross(rule, l, client, 0, carried) <==> Items(l) != [])
                                && (CanCross(rule, l, client, 1, carried) <==> Readies(Items(l)) > 0)
  {
    hide Leak, CanCross, Items, NoReplyReady, NoFrameCounted, WellFormed, Stranger;
    StrangerParts(l, client);
    ReadiesParts(l);
    CrossesIff(rule, l, client, 0, carried);
    CrossesIff(rule, l, client, 1, carried);
    assert l.wire + [] == l.wire;
    StrangerLeaks(rule, l.inbox, l.wire, client);
    var deploy := Frame(Deploy(client), l.next, true);
    DeployHides(rule, l.inbox, l.wire, deploy, client);
    if Readies(Items(l)) > 0 && NoneCut(l.wire) {
      OlderReadyLeaks(rule, l.inbox, l.wire, deploy, client);
    }
  }
}
