/**
 Runs in which a reply reaches the wrong client, for every rule that admits them, and the proof that the
 other rules admit none.
 */
module CrossingRuns {
  import opened Framing
  import opened Accounting
  import opened ServerLink
  import opened Crossing

  const QUERY: Byte := 'Q' as Byte

  // ------------------------------------------------------------- composing runs

  predicate Moves(rule: Rule, l: Link, step: Step, l': Link) {
    Enabled(rule, l, step) && Apply(rule, l, step) == l' && !step.Attach?
  }

  /** `steps` lead from `l` to `end` under one client. */
  predicate Leads(rule: Rule, l: Link, steps: seq<Step>, end: Link) {
    ValidRun(rule, l, steps) && Exec(rule, l, steps) == end && NoAttach(steps)
  }

  lemma LeadsCons(rule: Rule, l: Link, step: Step, l': Link, steps: seq<Step>, end: Link)
    requires Moves(rule, l, step, l') && Leads(rule, l', steps, end)
    ensures Leads(rule, l, [step] + steps, end)
  {
    assert ([step] + steps)[1..] == steps;
  }

  lemma {:induction false} LeadsConcat(
      rule: Rule, l: Link, first: seq<Step>, mid: Link, second: seq<Step>, end: Link)
    requires Leads(rule, l, first, mid) && Leads(rule, mid, second, end)
    ensures Leads(rule, l, first + second, end)
    decreases |first|
  {
    if first == [] {
      assert first + second == second;
    } else {
      assert (first + second)[1..] == first[1..] + second;
      hide Apply, Enabled;
      LeadsConcat(rule, Apply(rule, l, first[0]), first[1..], mid, second, end);
    }
  }

  lemma {:induction false} LeadsReturned(rule: Rule, l: Link, steps: seq<Step>, end: Link)
    requires Leads(rule, l, steps, end)
    ensures ReturnedRun(rule, l, steps)
    decreases |steps|
  {
    if steps != [] {
      hide Apply, Enabled;
      LeadsReturned(rule, Apply(rule, l, steps[0]), steps[1..], end);
    }
  }

  /** The first client holds a new connection. */
  function FirstHeld(): Link {
    Link(Server(false, false, 0, 1, 1), Attached(1), Boundary, [], [], [], [], 0, [])
  }

  lemma FirstAttach(rule: Rule)
    ensures Enabled(rule, Connected(), Step.Attach(1, 0, []))
    ensures Apply(rule, Connected(), Step.Attach(1, 0, [])) == FirstHeld()
  {
    var none: seq<Frame> := [];
    assert Carried(1, 0, []) == none && none + none == none;
  }

  /** A run from a new connection in which every attach is after a reset result of 1. */
  predicate Reaches(rule: Rule, steps: seq<Step>, end: Link) {
    ValidRun(rule, Connected(), steps) && ReturnedRun(rule, Connected(), steps) &&
    Exec(rule, Connected(), steps) == end
  }

  lemma ReachesFirst(rule: Rule, steps: seq<Step>, end: Link)
    requires Leads(rule, FirstHeld(), steps, end)
    ensures Reaches(rule, [Step.Attach(1, 0, [])] + steps, end)
  {
    FirstAttach(rule);
    LeadsReturned(rule, FirstHeld(), steps, end);
    assert ([Step.Attach(1, 0, [])] + steps)[1..] == steps;
  }

  /** Some run ends with the server in the pool after result `rc`, and a client can then be sent a foreign reply. */
  ghost predicate LeaksAfter(rule: Rule, rc: int) {
    exists steps: seq<Step>, end: Link, client: nat ::
      Reaches(rule, steps, end) && end.phase == Pooled(rc) && CanCross(rule, end, client, 0, [])
  }

  // ------------------------------------------------------------ a result of 1

  /** A Parse that no Sync follows is left on the link although the reset returns 1. */
  lemma ParseLeft(rule: Rule) returns (steps: seq<Step>, end: Link)
    requires !rule.poolDiscard
    ensures Leads(rule, FirstHeld(), steps, end)
    ensures end ==
            Link(Server(false, false, 0, 1, 1), Pooled(1), Boundary, [], [Frame(Client(1), 0, false)], [], [], 1, [])
  {
    var s := Server(false, false, 0, 1, 1);
    var parse := Frame(Client(1), 0, false);
    assert [] + [parse] == [parse];
    var l1 := FirstHeld();
    var l2 := Link(s, Attached(1), Boundary, [], [], [parse], [], 1, []);
    var l3 := Link(s, Resetting(1, true, []), Boundary, [], [parse], [], [], 1, []);
    var l4 := Link(s, Pooled(1), Boundary, [], [parse], [], [], 1, []);
    assert Moves(rule, l1, Send(PARSE), l2);
    assert Moves(rule, l2, Quit, l3);
    assert Moves(rule, l3, ResetDone(1), l4);
    assert Leads(rule, l4, [], l4);
    hide Moves, Leads;
    LeadsCons(rule, l3, ResetDone(1), l4, [], l4);
    LeadsCons(rule, l2, Quit, l3, [ResetDone(1)] + [], l4);
    LeadsCons(rule, l1, Send(PARSE), l2, [Quit] + ([ResetDone(1)] + []), l4);
    steps, end := [Send(PARSE)] + ([Quit] + ([ResetDone(1)] + [])), l4;
  }

  lemma LeftoverOwners(l: Link, client: nat)
    requires Shaped(l) && l.phase.Pooled? && l.inbox == [] && l.wire != []
    requires forall i :: 0 <= i < |l.wire| ==> l.wire[i].owner != Client(client)
    ensures Items(l) != [] && forall i :: 0 <= i < |Items(l)| ==> Items(l)[i].owner != Client(client)
  {
    assert l.outq == [];
    assert Items(l) == OfReplies([]) + OfFrames(l.wire) + OfFrames([]);
    assert OfReplies([]) == [] && OfFrames([]) == [];
    hide Items, Shaped;
    assert Items(l) == OfFrames(l.wire);
  }

  /** What is left on the link in any of the runs here answers no request of client 2. */
  lemma LeftoverCrosses(rule: Rule, l: Link, client: nat)
    requires Shaped(l) && l.phase.Pooled? && l.inbox == [] && l.wire != [] && NoneCut(l.wire)
    requires forall i :: 0 <= i < |l.wire| ==> l.wire[i].owner != Client(client)
    ensures CanCross(rule, l, client, 0, [])
  {
    hide CanCross, Items;
    LeftoverOwners(l, client);
    NewClientCrossesIff(rule, l, client, []);
  }

  lemma {:induction false} DiscardRunEmpties(rule: Rule, l: Link, steps: seq<Step>)
    requires rule.poolDiscard && Inv(l) && Emptied(l) && ValidRun(rule, l, steps) && ReturnedRun(rule, l, steps)
    ensures var end := Exec(rule, l, steps); Inv(end) && Emptied(end)
    decreases |steps|
  {
    if steps != [] {
      StepKeeps(rule, l, steps[0]);
      DiscardStep(rule, l, steps[0]);
      hide Inv, Apply, Enabled;
      DiscardRunEmpties(rule, Apply(rule, l, steps[0]), steps[1..]);
    }
  }

  /** After a reset result of 1 a foreign reply can reach the next client if and only if `pool_discard` is off. */
  lemma ReturnedServerLeaksIff(rule: Rule)
    ensures LeaksAfter(rule, 1) <==> !rule.poolDiscard
  {
    if !rule.poolDiscard {
      var steps, end := ParseLeft(rule);
      ReachesFirst(rule, steps, end);
      LeftoverCrosses(rule, end, 2);
    } else {
      NewConnection();
      hide Inv, Apply, Enabled, Connected;
      forall steps: seq<Step>, end: Link, client: nat
        | Reaches(rule, steps, end) && end.phase == Pooled(1)
        ensures !CanCross(rule, end, client, 0, [])
      {
        DiscardRunEmpties(rule, Connected(), steps);
        CanCrossIff(rule, end, client, []);
      }
    }
  }

  /** The query is written, and the Parse behind it in part. */
  lemma ParseTorn(rule: Rule) returns (steps: seq<Step>, end: Link)
    ensures Leads(rule, FirstHeld(), steps, end)
    ensures end == Link(Server(false, false, 0, 2, 1), Attached(1), Boundary, [], [Frame(Client(1), 0, true)],
                        [Frame(Client(1), 1, false)], [], 2, [], true)
  {
    var s := Server(false, false, 0, 2, 1);
    var q, p := Frame(Client(1), 0, true), Frame(Client(1), 1, false);
    var l2 := Link(s, Attached(1), Boundary, [], [], [q], [], 1, []);
    var l3 := Link(s, Attached(1), Boundary, [], [], [q, p], [], 2, []);
    var l4 := Link(s, Attached(1), Boundary, [], [q], [p], [], 2, []);
    end := l4.(torn := true);
    assert [] + [q] == [q] && [q] + [p] == [q, p] && [q, p][1..] == [p];
    assert Moves(rule, FirstHeld(), Send(QUERY), l2);
    assert Moves(rule, l2, Send(PARSE), l3);
    assert Moves(rule, l3, Write, l4);
    assert Moves(rule, l4, Tear, end);
    assert Leads(rule, end, [], end);
    hide Moves, Leads;
    LeadsCons(rule, l4, Tear, end, [], end);
    LeadsCons(rule, l3, Write, l4, [Tear] + [], end);
    LeadsCons(rule, l2, Send(PARSE), l3, [Write] + ([Tear] + []), end);
    LeadsCons(rule, FirstHeld(), Send(QUERY), l2, [Send(PARSE)] + ([Write] + ([Tear] + [])), end);
    steps := [Send(QUERY)] + ([Send(PARSE)] + ([Write] + ([Tear] + [])));
  }

  lemma TornRead(rule: Rule, l: Link, done: Reply, end: Link)
    requires rule.transactionPooling && !rule.replication && done == Reply(Client(1), 0, ReadyForQuery(true, Idle))
    requires l == Link(Server(false, false, 0, 2, 1), Attached(1), Boundary, [done], [], [Frame(Client(1), 1, false)],
                       [], 2, [], true)
    requires end == Link(Server(false, false, 0, 2, 2), Resetting(1, false, []), Boundary, [],
                         [Frame(Client(1), 1, false, Cut)], [], [Frame(Client(1), 1, false, Rest)], 2,
                         [Delivery(1, done)])
    ensures Moves(rule, l, Read, end)
  {
    assert l.inbox[1..] == [] && l.outq[1..] == [] && l.wire + Stub(l) == end.wire && LeftIn(l) == end.left;
    assert [] + [Delivery(1, done)] == [Delivery(1, done)];
    hide Stub, LeftIn;
  }

  /** The query is answered, and the client detached in the middle of its Parse. */
  lemma TornDetached(rule: Rule, l: Link) returns (steps: seq<Step>, end: Link)
    requires !rule.poolDiscard && rule.transactionPooling && !rule.replication
    requires l == Link(Server(false, false, 0, 2, 1), Attached(1), Boundary, [], [Frame(Client(1), 0, true)],
                       [Frame(Client(1), 1, false)], [], 2, [], true)
    ensures Leads(rule, l, steps, end) && end.phase == Pooled(1) && Shaped(end) && end.inbox == []
    ensures end.wire == [Frame(Client(1), 1, false, Cut)] && end.left == [Frame(Client(1), 1, false, Rest)]
  {
    var done := Reply(Client(1), 0, ReadyForQuery(true, Idle));
    var s := Server(false, false, 0, 2, 2);
    var cut, rest := Frame(Client(1), 1, false, Cut), Frame(Client(1), 1, false, Rest);
    var l1 := l.(inbox := [done], wire := []);
    var l2 := Link(s, Resetting(1, false, []), Boundary, [], [cut], [], [rest], 2, [Delivery(1, done)]);
    end := l2.(phase := Pooled(1));
    assert [] + [done] == [done] && l.wire[1..] == [];
    assert Moves(rule, l, Finish(Idle), l1);
    TornRead(rule, l1, done, l2);
    assert Moves(rule, l2, ResetDone(1), end);
    assert Leads(rule, end, [], end);
    hide Moves, Leads;
    LeadsCons(rule, l2, ResetDone(1), end, [], end);
    LeadsCons(rule, l1, Read, l2, [ResetDone(1)] + [], end);
    LeadsCons(rule, l, Finish(Idle), l1, [Read] + ([ResetDone(1)] + []), end);
    steps := [Finish(Idle)] + ([Read] + ([ResetDone(1)] + []));
  }

  /**
   With `pool_discard` off, a Parse that is cut in the middle is on the link although the reset returns 1. The
   next client's own requests complete it, and the reply to it can go to that client.
   */
  lemma TornRequestLeaks(rule: Rule) returns (steps: seq<Step>, end: Link)
    requires !rule.poolDiscard && rule.transactionPooling && !rule.replication
    ensures Reaches(rule, steps, end) && end.phase == Pooled(1) && CanCross(rule, end, 2, 0, [])
    ensures exists i :: 0 <= i < |end.wire| && end.wire[i].shape.Cut?
  {
    var first, l := ParseTorn(rule);
    var second;
    second, end := TornDetached(rule, l);
    assert end.wire[0].shape.Cut?;
    assert end.wire + DeployFrames(2, end.next, 0) == end.wire;
    StrangerLeaks(rule, end.inbox, end.wire, 2);
    hide Leads, Leak, CanCross, Reaches;
    LeadsConcat(rule, FirstHeld(), first, l, second, end);
    ReachesFirst(rule, first + second, end);
    CrossesIff(rule, end, 2, 0, []);
    steps := [Step.Attach(1, 0, [])] + (first + second);
  }

  // ------------------------------------------------------------ a result of 0

  function Sent(ticket: nat): Frame {
    Frame(Client(1), ticket, true)
  }

  function CopyLog(): seq<Delivery> {
    [Delivery(1, Reply(Client(1), 0, CopyIn)), Delivery(1, Reply(Client(1), 0, ReadyForQuery(true, Idle)))]
  }

  /** The server starts a copy and the client learns of it. */
  lemma CopyStarts(rule: Rule, l: Link) returns (steps: seq<Step>, end: Link)
    requires l.phase == Attached(1) && l.half.Boundary? && l.inbox == [] && l.wire != [] && l.wire[0] == Sent(0)
    requires !l.torn
    requires l.server == Server(false, false, 0, 3, 1) && l.delivered == []
    ensures Leads(rule, l, steps, end)
    ensures end == l.(server := Server(false, true, 0, 3, 1), delivered := CopyLog()[..1])
  {
    var copy := Reply(Client(1), 0, CopyIn);
    var l1 := l.(inbox := [copy]);
    end := l.(server := Server(false, true, 0, 3, 1), delivered := CopyLog()[..1]);
    assert [] + [copy] == [copy] && [copy][1..] == [] && [] + [Delivery(1, copy)] == CopyLog()[..1];
    assert Moves(rule, l, Emit(CopyIn), l1);
    assert Moves(rule, l1, Read, end);
    assert Leads(rule, end, [], end);
    hide Moves, Leads;
    LeadsCons(rule, l1, Read, end, [], end);
    LeadsCons(rule, l, Emit(CopyIn), l1, [Read] + [], end);
    steps := [Emit(CopyIn)] + ([Read] + []);
  }

  /** The query is over: the relay gives the idle server back, and the reset finds the copy flag still set. */
  lemma CopyEnds(rule: Rule, l: Link) returns (steps: seq<Step>, end: Link)
    requires rule.transactionPooling && !rule.replication
    requires l.phase == Attached(1) && l.half.Boundary? && l.inbox == [] && l.wire != [] && l.wire[0] == Sent(0)
    requires !l.torn
    requires l.server == Server(false, true, 0, 3, 1) && l.delivered == CopyLog()[..1]
    ensures Leads(rule, l, steps, end)
    ensures end ==
            Link(Server(false, true, 0, 3, 2), Pooled(0), Boundary, [], l.wire[1..], [], l.outq, l.next, CopyLog())
  {
    var done := Reply(Client(1), 0, ReadyForQuery(true, Idle));
    var s := Server(false, true, 0, 3, 2);
    var l1 := l.(inbox := [done], wire := l.wire[1..]);
    var l2 := Link(s, Resetting(1, false, []), Boundary, [], l.wire[1..], [], l.outq, l.next, CopyLog());
    end := l2.(phase := Pooled(0));
    assert [] + [done] == [done] && [done][1..] == [] && CopyLog()[..1] + [Delivery(1, done)] == CopyLog();
    assert Moves(rule, l, Finish(Idle), l1);
    assert Moves(rule, l1, Read, l2);
    assert Moves(rule, l2, ResetDone(0), end);
    assert Leads(rule, end, [], end);
    hide Moves, Leads;
    LeadsCons(rule, l2, ResetDone(0), end, [], end);
    LeadsCons(rule, l1, Read, l2, [ResetDone(0)] + [], end);
    LeadsCons(rule, l, Finish(Idle), l1, [Read] + ([ResetDone(0)] + []), end);
    steps := [Finish(Idle)] + ([Read] + ([ResetDone(0)] + []));
  }

  /**
   A query starts a copy and fails before the client ends it: the server is idle, so the relay gives it back;
   the copy flag is still set, so the reset returns 0 and the server goes to the pool as it is.
   */
  lemma CopyFails(rule: Rule, l: Link) returns (steps: seq<Step>, end: Link)
    requires rule.transactionPooling && !rule.replication
    requires l.phase == Attached(1) && l.half.Boundary? && l.inbox == [] && l.wire != [] && l.wire[0] == Sent(0)
    requires !l.torn
    requires l.server == Server(false, false, 0, 3, 1) && l.delivered == []
    ensures Leads(rule, l, steps, end)
    ensures end ==
            Link(Server(false, true, 0, 3, 2), Pooled(0), Boundary, [], l.wire[1..], [], l.outq, l.next, CopyLog())
  {
    hide Leads;
    var first, mid := CopyStarts(rule, l);
    var second;
    second, end := CopyEnds(rule, mid);
    LeadsConcat(rule, l, first, mid, second, end);
    steps := first + second;
  }

  /** Two queries sent, the first of them written. */
  lemma TwoQueriesSent(rule: Rule) returns (steps: seq<Step>, end: Link)
    ensures Leads(rule, FirstHeld(), steps, end)
    ensures end ==
            Link(Server(false, false, 0, 3, 1), Attached(1), Boundary, [], [Sent(0)], [Sent(1)], [], 2, [])
  {
    var s1, s2 := Server(false, false, 0, 2, 1), Server(false, false, 0, 3, 1);
    var q0, q1 := Sent(0), Sent(1);
    var l1 := FirstHeld();
    var l2 := Link(s1, Attached(1), Boundary, [], [], [q0], [], 1, []);
    var l3 := Link(s2, Attached(1), Boundary, [], [], [q0, q1], [], 2, []);
    end := Link(s2, Attached(1), Boundary, [], [q0], [q1], [], 2, []);
    assert [] + [q0] == [q0] && [q0] + [q1] == [q0, q1] && [q0, q1][1..] == [q1];
    assert Moves(rule, l1, Send(QUERY), l2);
    assert Moves(rule, l2, Send(QUERY), l3);
    assert Moves(rule, l3, Write, end);
    assert Leads(rule, end, [], end);
    hide Moves, Leads;
    LeadsCons(rule, l3, Write, end, [], end);
    LeadsCons(rule, l2, Send(QUERY), l3, [Write] + [], end);
    LeadsCons(rule, l1, Send(QUERY), l2, [Send(QUERY)] + ([Write] + []), end);
    steps := [Send(QUERY)] + ([Send(QUERY)] + ([Write] + []));
  }

  /** The second query reached the server: it is still unanswered when the server is back in the pool. */
  lemma QueryLeftOnServer(rule: Rule) returns (steps: seq<Step>, end: Link)
    requires rule.transactionPooling && !rule.replication
    ensures Leads(rule, FirstHeld(), steps, end) && end.phase == Pooled(0) && CanCross(rule, end, 2, 0, [])
  {
    var first, l := TwoQueriesSent(rule);
    var l1 := l.(wire := [Sent(0)] + [Sent(1)], outq := []);
    assert [Sent(1)][1..] == [];
    assert Moves(rule, l, Write, l1);
    var rest;
    rest, end := CopyFails(rule, l1);
    assert l1.wire[1..] == [Sent(1)];
    hide Moves, Leads, CanCross;
    LeadsCons(rule, l, Write, l1, rest, end);
    LeadsConcat(rule, FirstHeld(), first, l, [Write] + rest, end);
    LeftoverCrosses(rule, end, 2);
    steps := first + ([Write] + rest);
  }

  /** The second query did not: it stays with the client, which takes it to its next server uncounted. */
  lemma CountedLeftBehind(rule: Rule) returns (steps: seq<Step>, end: Link)
    requires rule.transactionPooling && !rule.replication
    ensures Leads(rule, FirstHeld(), steps, end) && end.phase == Pooled(0)
    ensures end.left == [Frame(Client(1), 1, true)]
  {
    var first, l := TwoQueriesSent(rule);
    var rest;
    rest, end := CopyFails(rule, l);
    LeadsConcat(rule, FirstHeld(), first, l, rest, end);
    steps := first + rest;
  }

  /** Without transaction pooling only the final cleanup resets, and it keeps nothing but a result of 1. */
  predicate OnlyCleanup(l: Link) {
    (l.phase.Pooled? ==> l.phase.rc == 1) && (l.phase.Resetting? ==> l.phase.cleanup)
  }

  lemma SessionStep(rule: Rule, l: Link, step: Step)
    requires !(rule.transactionPooling && !rule.replication) && OnlyCleanup(l) && Enabled(rule, l, step)
    ensures OnlyCleanup(Apply(rule, l, step))
  {
    if l.phase.Attached? && l.inbox != [] {
      assert !HandleReply(rule, l).phase.Resetting?;
      hide HandleReply;
    }
  }

  lemma {:induction false} SessionRun(rule: Rule, l: Link, steps: seq<Step>)
    requires !(rule.transactionPooling && !rule.replication) && OnlyCleanup(l) && ValidRun(rule, l, steps)
    ensures OnlyCleanup(Exec(rule, l, steps))
    decreases |steps|
  {
    if steps != [] {
      SessionStep(rule, l, steps[0]);
      hide Apply, Enabled;
      SessionRun(rule, Apply(rule, l, steps[0]), steps[1..]);
    }
  }

  /**
   The relay loop puts the server back after a reset result of 0 too. A run that ends so, and from which a
   foreign reply can reach the next client, exists if and only if the relay loop gives servers back at all:
   under transaction pooling, for clients that do not replicate, whatever the other settings.
   */
  lemma DroppedServerLeaksIff(rule: Rule)
    ensures LeaksAfter(rule, 0) <==> rule.transactionPooling && !rule.replication
  {
    if rule.transactionPooling && !rule.replication {
      var steps, end := QueryLeftOnServer(rule);
      ReachesFirst(rule, steps, end);
    } else {
      forall steps: seq<Step>, end: Link | Reaches(rule, steps, end) ensures end.phase != Pooled(0) {
        SessionRun(rule, Connected(), steps);
      }
    }
  }
}
