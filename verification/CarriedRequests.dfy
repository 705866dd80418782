/**
 Requests that one server counted and another one gets. A client that leaves a server with such a request
 unwritten writes it to its next server, which answers it without having counted it; from then on a reset
 of that server can end one ReadyForQuery too early.
 */
module CarriedRequests {
  import opened Framing
  import opened Accounting
  import opened ServerLink
  import opened Crossing
  import opened CrossingRuns

  /** Some run in which every later attach is after a reset result of 1 forwards a foreign reply. */
  ghost predicate EventuallyCrosses(rule: Rule, l: Link) {
    exists steps: seq<Step> :: CrossesLater(rule, l, steps)
  }

  ghost predicate CrossesLater(rule: Rule, l: Link, steps: seq<Step>) {
    ValidRun(rule, l, steps) && ReturnedRun(rule, l, steps) &&
    ForeignSince(Exec(rule, l, steps).delivered, |l.delivered|)
  }

  // --------------------------------------------------------- reading up to an answer

  /** What is left of the requests behind the first one that is answered with a ReadyForQuery. */
  function Behind(wire: seq<Frame>): seq<Frame> {
    if wire == [] then [] else if wire[0].counted then wire[1..] else Behind(wire[1..])
  }

  predicate AnyCounted(wire: seq<Frame>) {
    exists i :: 0 <= i < |wire| && wire[i].counted
  }

  lemma {:induction false} BehindKeeps(wire: seq<Frame>, last: Frame)
    requires AnyCounted(wire)
    ensures Behind(wire + [last]) == Behind(wire) + [last]
    ensures (forall f :: f in Behind(wire) ==> f in wire) && (NoneCut(wire) ==> NoneCut(Behind(wire)))
  {
    assert (wire + [last])[1..] == wire[1..] + [last];
    if !wire[0].counted {
      assert AnyCounted(wire[1..]) by {
        assert forall i :: 1 <= i < |wire| ==> wire[i] == wire[1..][i - 1];
      }
      BehindKeeps(wire[1..], last);
    }
  }

  /** The server answers up to the first ReadyForQuery, and the reset reads it. */
  lemma {:induction false} AnswerRead(rule: Rule, l: Link) returns (steps: seq<Step>, end: Link)
    requires l.phase.Resetting? && l.half.Boundary? && l.inbox == [] && AnyCounted(l.wire) && NoneCut(l.wire)
    ensures ResetDone(0) !in steps
    ensures Leads(rule, l, steps, end)
    ensures end == l.(wire := Behind(l.wire),
                      server := l.server.(isTransaction := false, syncReply := l.server.syncReply + 1))
    decreases |l.wire|
  {
    if l.wire[0].counted {
      steps, end := AnswerFirst(rule, l);
    } else {
      var l1 := l.(wire := l.wire[1..]);
      assert Moves(rule, l, Silent, l1);
      assert AnyCounted(l1.wire) by {
        assert forall i :: 1 <= i < |l.wire| ==> l.wire[i] == l1.wire[i - 1];
      }
      hide Moves, Leads, AnyCounted;
      var more;
      more, end := AnswerRead(rule, l1);
      LeadsCons(rule, l, Silent, l1, more, end);
      steps := [Silent] + more;
    }
  }

  lemma AnswerFirst(rule: Rule, l: Link) returns (steps: seq<Step>, end: Link)
    requires l.phase.Resetting? && l.half.Boundary? && l.inbox == [] && l.wire != [] && NoneCut(l.wire)
    requires l.wire[0].counted
    ensures ResetDone(0) !in steps
    ensures Leads(rule, l, steps, end)
    ensures end == l.(wire := l.wire[1..],
                      server := l.server.(isTransaction := false, syncReply := l.server.syncReply + 1))
  {
    var done := Reply(l.wire[0].owner, l.wire[0].ticket, ReadyForQuery(true, Idle));
    var l1 := l.(inbox := [done], wire := l.wire[1..]);
    end := l.(wire := l.wire[1..],
              server := l.server.(isTransaction := false, syncReply := l.server.syncReply + 1));
    assert [] + [done] == [done] && [done][1..] == [];
    assert Moves(rule, l, Finish(Idle), l1);
    assert Moves(rule, l1, ResetRead, end);
    assert Leads(rule, end, [], end);
    hide Moves, Leads;
    LeadsCons(rule, l1, ResetRead, end, [], end);
    LeadsCons(rule, l, Finish(Idle), l1, [ResetRead] + [], end);
    steps := [Finish(Idle)] + ([ResetRead] + []);
  }

  // ------------------------------------------------------------- a reset cut short

  /** Once the counts agree, the reset returns 1 whatever else is still unanswered. */
  lemma ReturnedEarly(rule: Rule, l: Link, query: Frame) returns (steps: seq<Step>, end: Link)
    requires l.phase.Resetting? && l.phase.asked == [] && l.half.Boundary? && l.inbox == [] && l.outq == []
    requires l.server.Synchronized() && !l.server.isTransaction && !l.server.isCopy && NoneCut(l.wire)
    requires l.wire != [] && l.wire[|l.wire| - 1] == query && query.counted
    ensures ResetDone(0) !in steps
    ensures Leads(rule, l, steps, end) && end.phase == Pooled(1) && Shaped(end)
    ensures end.inbox == [] && end.wire != [] && end.delivered == l.delivered
    ensures NoneCut(end.wire) && forall f :: f in end.wire ==> f in l.wire || f.owner.Pooler?
  {
    assert AnyCounted(l.wire);
    if rule.poolDiscard {
      var ask := Frame(Pooler, l.next, true);
      var l1 := l.(wire := l.wire + [ask], next := l.next + 1, phase := l.phase.(asked := [Discard]),
                   server := l.server.(syncRequest := l.server.syncRequest + 1));
      assert l.phase.asked + [Discard] == [Discard];
      assert Moves(rule, l, ResetAsk(Discard), l1);
      assert AnyCounted(l1.wire) by {
        assert l1.wire[|l.wire|].counted;
      }
      BehindKeeps(l.wire, ask);
      var more, l2 := AnswerRead(rule, l1);
      end := l2.(phase := Pooled(1));
      assert Moves(rule, l2, ResetDone(1), end);
      assert Leads(rule, end, [], end);
      hide Moves, Leads;
      LeadsCons(rule, l2, ResetDone(1), end, [], end);
      LeadsConcat(rule, l1, more, l2, [ResetDone(1)] + [], end);
      LeadsCons(rule, l, ResetAsk(Discard), l1, more + ([ResetDone(1)] + []), end);
      steps := [ResetAsk(Discard)] + (more + ([ResetDone(1)] + []));
    } else {
      end := l.(phase := Pooled(1));
      assert Moves(rule, l, ResetDone(1), end);
      assert Leads(rule, end, [], end);
      LeadsCons(rule, l, ResetDone(1), end, [], end);
      steps := [ResetDone(1)] + [];
    }
  }

  /** The client sends one more query and leaves; everything is written. */
  lemma QueryAndQuit(rule: Rule, l: Link, client: nat) returns (steps: seq<Step>, end: Link)
    requires l.phase == Attached(client) && NoneCut(l.outq) && !l.torn
    ensures ResetDone(0) !in steps
    ensures Leads(rule, l, steps, end)
    ensures end == l.(server := l.server.(syncRequest := l.server.syncRequest + 1),
                      phase := Resetting(client, true, []), outq := [], next := l.next + 1,
                      wire := l.wire + (l.outq + [Frame(Client(client), l.next, true)]))
  {
    var query := Frame(Client(client), l.next, true);
    var l1 := l.(server := l.server.(syncRequest := l.server.syncRequest + 1),
                 outq := l.outq + [query], next := l.next + 1);
    end := l1.(phase := Resetting(client, true, []), outq := [], wire := l.wire + (l.outq + [query]));
    assert Moves(rule, l, Send(QUERY), l1);
    assert Moves(rule, l1, Quit, end);
    assert Leads(rule, end, [], end);
    hide Moves, Leads;
    LeadsCons(rule, l1, Quit, end, [], end);
    LeadsCons(rule, l, Send(QUERY), l1, [Quit] + [], end);
    steps := [Send(QUERY)] + ([Quit] + []);
  }

  /** The deploy query's answer and that of the carried request make the counts agree. */
  lemma CountsAgreeEarly(rule: Rule, l: Link, deploy: nat, rest: seq<Frame>, query: Frame)
    returns (steps: seq<Step>, end: Link)
    requires l.phase.Resetting? && l.half.Boundary? && l.inbox == [] && deploy <= 1 && NoneCut(l.wire)
    requires deploy == 1 ==> l.wire != [] && l.wire[0].counted
    requires l.wire[deploy..] == rest + [query] && AnyCounted(rest)
    ensures ResetDone(0) !in steps
    ensures Leads(rule, l, steps, end)
    ensures end == l.(wire := Behind(rest) + [query],
                      server := l.server.(isTransaction := false, syncReply := l.server.syncReply + deploy + 1))
  {
    BehindKeeps(rest, query);
    assert AnyCounted(rest + [query]) by {
      var i :| 0 <= i < |rest| && rest[i].counted;
      assert (rest + [query])[i].counted;
    }
    if deploy == 0 {
      assert l.wire == rest + [query];
      steps, end := AnswerRead(rule, l);
    } else {
      var first, mid := AnswerRead(rule, l);
      assert Behind(l.wire) == l.wire[1..];
      hide Leads, AnyCounted;
      var second;
      second, end := AnswerRead(rule, mid);
      LeadsConcat(rule, l, first, mid, second, end);
      steps := first + second;
    }
  }

  // --------------------------------------------------------------- the condition

  /** From a pooled server on which a client can be sent a foreign reply. */
  lemma PooledCrosses(rule: Rule, l: Link, first: seq<Step>, mid: Link, client: nat)
    requires Leads(rule, l, first, mid) && mid.phase == Pooled(1) && CanCross(rule, mid, client, 0, [])
    requires mid.delivered == l.delivered
    ensures EventuallyCrosses(rule, l)
  {
    var attach := Step.Attach(client, 0, []);
    var l1 := Apply(rule, mid, attach);
    var steps: seq<Step> :| Crosses(rule, l1, steps);
    assert l1.delivered == l.delivered;
    LeadsReturned(rule, l1, steps, Exec(rule, l1, steps));
    assert CrossesLater(rule, mid, [attach] + steps) by {
      assert ([attach] + steps)[1..] == steps;
    }
    PrefixCrosses(rule, l, first, mid, [attach] + steps);
  }

  lemma {:induction false} PrefixCrosses(rule: Rule, l: Link, first: seq<Step>, mid: Link, steps: seq<Step>)
    requires Leads(rule, l, first, mid) && CrossesLater(rule, mid, steps)
    ensures ValidRun(rule, l, first + steps) && ReturnedRun(rule, l, first + steps)
    ensures Exec(rule, l, first + steps) == Exec(rule, mid, steps)
    ensures |mid.delivered| == |l.delivered| ==> CrossesLater(rule, l, first + steps)
    decreases |first|
  {
    if first == [] {
      assert first + steps == steps;
    } else {
      assert (first + steps)[1..] == first[1..] + steps;
      hide Apply, Enabled;
      PrefixCrosses(rule, Apply(rule, l, first[0]), first[1..], mid, steps);
    }
  }

  lemma CarriedOwn(client: nat, first: nat, cargo: seq<Cargo>)
    ensures forall f :: f in Carried(client, first, cargo) ==> f.owner == Client(client)
    ensures Request(true) in cargo ==> AnyCounted(Carried(client, first, cargo))
    ensures Remains !in cargo ==> NoneCut(Carried(client, first, cargo))
  {
    if Request(true) in cargo {
      var i :| 0 <= i < |cargo| && cargo[i] == Request(true);
      assert Carried(client, first, cargo)[i].counted;
    }
  }

  /** A client holds a server that is one ReadyForQuery short: it was to answer `deploy` and gets `l.outq` too. */
  predicate Short(l: Link, client: nat, deploy: nat) {
    && l.phase == Attached(client) && l.half.Boundary? && l.inbox == [] && deploy <= 1
    && |l.wire| == deploy && (forall i :: 0 <= i < |l.wire| ==> l.wire[i].counted)
    && (forall f :: f in l.outq ==> f.owner == Client(client)) && AnyCounted(l.outq)
    && l.server.syncRequest == l.server.syncReply + deploy && !l.server.isCopy
    && NoneCut(l.wire) && NoneCut(l.outq) && !l.torn
  }

  lemma AttachedShort(rule: Rule, l: Link, client: nat, deploy: nat, carried: seq<Cargo>)
    requires Inv(l) && l.phase == Pooled(1) && Items(l) == [] && deploy <= 1
    requires Request(true) in carried && Remains !in carried
    ensures Short(Apply(rule, l, Step.Attach(client, deploy, carried)), client, deploy)
  {
    CarriedOwn(client, l.next + deploy, carried);
    ItemsParts(l);
    hide Carried, Items, AnyCounted;
  }

  /** One more query, the client leaves, and the reset stops early. */
  lemma CutShort(rule: Rule, l: Link, client: nat, deploy: nat) returns (steps: seq<Step>, end: Link)
    requires Short(l, client, deploy)
    ensures ResetDone(0) !in steps
    ensures Leads(rule, l, steps, end) && end.phase == Pooled(1) && Shaped(end)
    ensures end.inbox == [] && end.wire != [] && end.delivered == l.delivered
    ensures NoneCut(end.wire) && forall f :: f in end.wire ==> f.owner == Client(client) || f.owner.Pooler?
  {
    hide Leads, AnyCounted, Shaped;
    var s1, l2 := QueryAndQuit(rule, l, client);
    var query := Frame(Client(client), l.next, true);
    assert l2.wire[deploy..] == l.outq + [query];
    var s2, l3 := CountsAgreeEarly(rule, l2, deploy, l.outq, query);
    BehindKeeps(l.outq, query);
    var s3;
    s3, end := ReturnedEarly(rule, l3, query);
    LeadsConcat(rule, l, s1, l2, s2, l3);
    LeadsConcat(rule, l, s1 + s2, l3, s3, end);
    steps := s1 + s2 + s3;
  }

  /** The next client is sent what is left. */
  lemma CarriedCrosses(rule: Rule, l: Link, client: nat, deploy: nat, carried: seq<Cargo>)
    requires Inv(l) && l.phase == Pooled(1) && Items(l) == [] && deploy <= 1
    requires Request(true) in carried && Remains !in carried
    ensures EventuallyCrosses(rule, Apply(rule, l, Step.Attach(client, deploy, carried)))
  {
    var l1 := Apply(rule, l, Step.Attach(client, deploy, carried));
    AttachedShort(rule, l, client, deploy, carried);
    hide Inv, Items, Apply, Short, EventuallyCrosses, Leads, CanCross;
    var steps, end := CutShort(rule, l1, client, deploy);
    forall i | 0 <= i < |end.wire| ensures end.wire[i].owner != Client(client + 1) {
      assert end.wire[i] in end.wire;
    }
    LeftoverCrosses(rule, end, client + 1);
    PooledCrosses(rule, l1, steps, end, client + 1);
  }

  // ------------------------------------------------ the end of a request comes along

  /** The deploy query's replies, the last of them its ReadyForQuery. */
  predicate OnlyDeploy(inbox: seq<Reply>, wire: seq<Frame>, deploySync: nat) {
    && WellFormed(inbox) && |wire| <= 1 && (wire != [] ==> wire[0].counted && wire[0].shape.Whole?)
    && (forall i :: 0 <= i < |inbox| ==>
          (inbox[i].message.Ready() <==> i == |inbox| - 1 && wire == []))
    && deploySync == if inbox == [] && wire == [] then 0 else 1
  }

  /** The client holds a server that closes at the first byte it writes. */
  predicate Jammed(l: Link, client: nat) {
    l.phase.Closed? ||
    (&& l.phase == Attached(client) && l.outq != [] && l.outq[0].shape.Rest? && !l.torn
     && OnlyDeploy(l.inbox, l.wire, l.server.deploySync))
  }

  lemma JammedRead(rule: Rule, l: Link, client: nat)
    requires Jammed(l, client) && !l.phase.Closed? && l.inbox != []
    ensures var l' := HandleReply(rule, l); Jammed(l', client) && l'.delivered == l.delivered
  {
    assert l.inbox[0].message.Ready() ==> |l.inbox| == 1;
    assert forall i :: 0 <= i < |l.inbox| - 1 ==> l.inbox[1..][i] == l.inbox[i + 1];
  }

  lemma JammedStep(rule: Rule, l: Link, client: nat, step: Step)
    requires Jammed(l, client) && Enabled(rule, l, step) && !step.Attach?
    ensures Jammed(Apply(rule, l, step), client) && Apply(rule, l, step).delivered == l.delivered
  {
    if (step.Read? || step.Begin? || step.End?) && l.inbox != [] {
      JammedRead(rule, l, client);
      hide HandleReply;
    }
  }

  lemma {:induction false} JammedRun(rule: Rule, l: Link, client: nat, steps: seq<Step>)
    requires Jammed(l, client) && ValidRun(rule, l, steps)
    ensures Exec(rule, l, steps).delivered == l.delivered
    decreases |steps|
  {
    if steps != [] {
      assert !steps[0].Attach?;
      JammedStep(rule, l, client, steps[0]);
      hide Jammed, Apply, Enabled;
      JammedRun(rule, Apply(rule, l, steps[0]), client, steps[1..]);
    }
  }

  /** A client that brings the end of a request along gets nothing at all from an empty server. */
  lemma RemainsNeverCross(rule: Rule, l: Link, client: nat, deploy: nat, carried: seq<Cargo>)
    requires Inv(l) && l.phase == Pooled(1) && Items(l) == [] && deploy <= 1 && carried != [] && carried[0].Remains?
    ensures !EventuallyCrosses(rule, Apply(rule, l, Step.Attach(client, deploy, carried)))
  {
    var l1 := Apply(rule, l, Step.Attach(client, deploy, carried));
    ItemsParts(l);
    assert Jammed(l1, client);
    hide Jammed, Apply, Enabled, Inv;
    forall steps: seq<Step> | ValidRun(rule, l1, steps) ensures !CrossesLater(rule, l1, steps) {
      JammedRun(rule, l1, client, steps);
    }
  }

  /** Only the first thing in a relay's queue can be the end of a request. */
  predicate Loadable(carried: seq<Cargo>) {
    forall i :: 1 <= i < |carried| ==> carried[i].Request?
  }

  /**
   A client attaches to an empty server that came back with result 1. With `pool_discard` on, some client is
   forwarded a foreign reply in a run from there, all of whose later attaches are after a reset result of 1
   and bring nothing counted along, if and only if this client brought a counted request along, and not the end
   of a request before it. With `pool_discard` off it is enough that it did.
   */
  lemma CarriedCrossesIff(rule: Rule, l: Link, client: nat, deploy: nat, carried: seq<Cargo>)
    requires Inv(l) && AllOwn(l.delivered) && l.phase == Pooled(1) && Items(l) == [] && deploy <= 1
    requires Loadable(carried)
    ensures Request(true) in carried && Remains !in carried ==>
              EventuallyCrosses(rule, Apply(rule, l, Step.Attach(client, deploy, carried)))
    ensures rule.poolDiscard ==>
              (EventuallyCrosses(rule, Apply(rule, l, Step.Attach(client, deploy, carried))) <==>
               Request(true) in carried && Remains !in carried)
  {
    var attach := Step.Attach(client, deploy, carried);
    var l1 := Apply(rule, l, attach);
    if Remains in carried {
      assert carried[0].Remains?;
      RemainsNeverCross(rule, l, client, deploy, carried);
    } else if Request(true) in carried {
      CarriedCrosses(rule, l, client, deploy, carried);
    } else if rule.poolDiscard {
      StepKeeps(rule, l, attach);
      DiscardStep(rule, l, attach);
      hide Inv, Apply, Enabled, OwnAfter;
      forall steps: seq<Step> | ValidRun(rule, l1, steps) && ReturnedRun(rule, l1, steps)
        ensures !CrossesLater(rule, l1, steps)
      {
        DiscardRun(rule, l1, steps);
        SoundIsSettled(rule, l1, steps);
        RunKeeps(rule, l1, steps);
      }
    }
  }
}
