/**
 All the server connections of one route and the clients that move between them. What a client relay has
 not written when its client leaves a server goes along to the next one.
 */
module Fleet {
  import opened Framing
  import opened Accounting
  import opened ServerLink
  import opened Crossing
  import opened CrossingRuns
  import opened CarriedRequests

  // ---------------------------------------------------------------- state and events

  /**
   `bags` holds, for each client without a server, what is left in its relay: requests, with whether a server
   answers them with a ReadyForQuery, and the end of one that was cut.
   */
  datatype State = State(links: map<nat, Link>, bags: map<nat, seq<Cargo>>, known: set<nat>)

  function Start(): State {
    State(map[], map[], {})
  }

  datatype Event = Connect(server: nat) | Arrive(client: nat) | On(server: nat, step: Step)

  predicate Possible(rule: Rule, f: State, e: Event) {
    match e
    case Connect(server) => server !in f.links
    case Arrive(client) => client !in f.known
    case On(server, step) =>
      && server in f.links && Enabled(rule, f.links[server], step)
      && (step.Attach? ==> step.client in f.bags && step.carried == f.bags[step.client])
  }

  function Packed(f: Frame): Cargo {
    if f.shape.Whole? then Request(f.counted) else Remains
  }

  function Flags(frames: seq<Frame>): (r: seq<Cargo>)
    ensures |r| == |frames| && forall i :: 0 <= i < |r| ==> r[i] == Packed(frames[i])
  {
    seq(|frames|, i requires 0 <= i < |frames| => Packed(frames[i]))
  }

  /** The client that a step leaves without a server, but connected. */
  predicate Frees(rule: Rule, l: Link, step: Step)
    requires Enabled(rule, l, step)
  {
    step.ResetDone? && !l.phase.cleanup && Apply(rule, l, step).phase.Pooled?
  }

  function After(rule: Rule, f: State, e: Event): State
    requires Possible(rule, f, e)
  {
    match e
    case Connect(server) => f.(links := f.links[server := Connected()])
    case Arrive(client) => f.(bags := f.bags[client := []], known := f.known + {client})
    case On(server, step) =>
      var l := f.links[server];
      f.(links := f.links[server := Apply(rule, l, step)],
         bags := if step.Attach? then f.bags - {step.client}
                 else if Frees(rule, l, step) then f.bags[l.phase.client := Flags(l.left)]
                 else f.bags)
  }

  /** The events lead from `f` to `end`. */
  predicate Goes(rule: Rule, f: State, events: seq<Event>, end: State)
    decreases |events|
  {
    if events == [] then f == end
    else Possible(rule, f, events[0]) && Goes(rule, After(rule, f, events[0]), events[1..], end)
  }

  // ------------------------------------------------------------------ safety

  /** The event does not put a server back whose reset returned 0. */
  predicate KeepsOnlyReset(f: State, e: Event) {
    e.On? && e.server in f.links && e.step == ResetDone(0) && f.links[e.server].phase.Resetting? ==>
      f.links[e.server].phase.cleanup
  }

  predicate AllReset(rule: Rule, f: State, events: seq<Event>)
    decreases |events|
  {
    events != [] && Possible(rule, f, events[0]) ==>
      KeepsOnlyReset(f, events[0]) && AllReset(rule, After(rule, f, events[0]), events[1..])
  }

  predicate LinkInv(l: Link) {
    Inv(l) && OwnInv(l) && Emptied(l) && (l.phase.Pooled? ==> l.phase.rc == 1)
  }

  predicate FleetInv(f: State) {
    && (forall s | s in f.links :: LinkInv(f.links[s]))
    && (forall c | c in f.bags :: Request(true) !in f.bags[c])
  }

  lemma NothingCountedPacked(rule: Rule, l: Link)
    requires Inv(l) && l.phase.Resetting? && ResetHolds(rule, l)
    ensures Request(true) !in Flags(l.left)
  {
    ReturnedLeavesNothingCounted(rule, l);
    hide Inv;
  }

  lemma LinkStepKeeps(rule: Rule, l: Link, step: Step)
    requires rule.poolDiscard && LinkInv(l) && Enabled(rule, l, step)
    requires step.Attach? ==> Request(true) !in step.carried
    requires step == ResetDone(0) ==> l.phase.cleanup
    ensures LinkInv(Apply(rule, l, step))
    ensures Frees(rule, l, step) ==> Request(true) !in Flags(l.left)
  {
    hide Inv, OwnInv, Emptied, Sound;
    StepKeeps(rule, l, step);
    DiscardStep(rule, l, step);
    if Frees(rule, l, step) {
      NothingCountedPacked(rule, l);
    }
  }

  lemma EventKeeps(rule: Rule, f: State, e: Event)
    requires rule.poolDiscard && FleetInv(f) && Possible(rule, f, e) && KeepsOnlyReset(f, e)
    ensures FleetInv(After(rule, f, e))
  {
    assert e.On? && e.step == ResetDone(0) ==> f.links[e.server].phase.Resetting?;
    hide LinkInv, Apply, Enabled;
    match e
    case Connect(server) => ConnectedHolds();
    case Arrive(client) =>
    case On(server, step) => LinkStepKeeps(rule, f.links[server], step);
  }

  lemma ConnectedHolds()
    ensures LinkInv(Connected())
  {
    NewConnection();
  }

  lemma {:induction false} FleetRunKeeps(rule: Rule, f: State, events: seq<Event>, end: State)
    requires rule.poolDiscard && FleetInv(f) && Goes(rule, f, events, end) && AllReset(rule, f, events)
    ensures FleetInv(end)
    decreases |events|
  {
    if events != [] {
      EventKeeps(rule, f, events[0]);
      hide FleetInv, After, Possible, KeepsOnlyReset;
      FleetRunKeeps(rule, After(rule, f, events[0]), events[1..], end);
    }
  }

  predicate Crossed(f: State) {
    exists s | s in f.links :: !AllOwn(f.links[s].delivered)
  }

  /**
   With `pool_discard` on, and no server put back but after a reset result of 1, nothing counted is ever
   carried from one server to another and no client of any server is forwarded a foreign reply, over every
   run of any number of clients and servers.
   */
  lemma FleetKeepsRepliesApart(rule: Rule, events: seq<Event>, end: State)
    requires rule.poolDiscard && Goes(rule, Start(), events, end) && AllReset(rule, Start(), events)
    ensures !Crossed(end) && forall s | s in end.links :: InOrder(end.links[s].delivered)
    ensures forall c | c in end.bags :: Request(true) !in end.bags[c]
  {
    FleetRunKeeps(rule, Start(), events, end);
    hide OwnAfter, Accounted;
  }

  // ------------------------------------------------------------ runs of the fleet

  lemma {:induction false} GoesConcat(
      rule: Rule, f: State, first: seq<Event>, mid: State, second: seq<Event>, end: State)
    requires Goes(rule, f, first, mid) && Goes(rule, mid, second, end)
    ensures Goes(rule, f, first + second, end)
    decreases |first|
  {
    if first == [] {
      assert first + second == second;
    } else {
      assert (first + second)[1..] == first[1..] + second;
      hide After, Possible;
      GoesConcat(rule, After(rule, f, first[0]), first[1..], mid, second, end);
    }
  }

  function Events(server: nat, steps: seq<Step>): (r: seq<Event>)
    ensures |r| == |steps| && forall i :: 0 <= i < |r| ==> r[i] == On(server, steps[i])
  {
    seq(|steps|, i requires 0 <= i < |steps| => On(server, steps[i]))
  }

  /** The link is held by the client, or its relay loop put it back after result 0 and the leftovers are in its bag. */
  predicate BagKept(f: State, server: nat, client: nat) {
    server in f.links &&
    (match f.links[server].phase
     case Attached(c) => c == client
     case Resetting(c, _, _) => c == client
     case Pooled(rc) => rc == 0 ==> client in f.bags && f.bags[client] == Flags(f.links[server].left)
     case Closed => true)
  }

  lemma BagKeptStep(rule: Rule, f: State, server: nat, step: Step, client: nat)
    requires BagKept(f, server, client) && Possible(rule, f, On(server, step)) && !step.Attach?
    ensures BagKept(After(rule, f, On(server, step)), server, client)
  {
    var l := f.links[server];
    var l' := Apply(rule, l, step);
    assert l.phase.Attached? && l.inbox != [] ==>
           HandleReply(rule, l).phase in {l.phase, Resetting(client, false, []), Closed};
    assert !l.phase.Attached? ==> l'.left == l.left;
    hide HandleReply;
  }

  /** What one link does under one client is a run of the fleet. */
  lemma {:induction false} Lift(rule: Rule, f: State, server: nat, client: nat, steps: seq<Step>, end: Link)
    returns (f': State)
    requires BagKept(f, server, client) && Leads(rule, f.links[server], steps, end)
    ensures Goes(rule, f, Events(server, steps), f')
    ensures f'.links == f.links[server := end] && f'.known == f.known && BagKept(f', server, client)
    decreases |steps|
  {
    if steps == [] {
      f' := f;
      assert f.links == f.links[server := end];
    } else {
      assert Possible(rule, f, On(server, steps[0]));
      var f1 := After(rule, f, On(server, steps[0]));
      BagKeptStep(rule, f, server, steps[0], client);
      assert Events(server, steps)[1..] == Events(server, steps[1..]);
      assert f1.links[server := end] == f.links[server := end];
      hide BagKept, Apply, Enabled, Frees;
      f' := Lift(rule, f1, server, client, steps[1..], end);
    }
  }

  // ------------------------------------------------------------------ crossings

  ghost predicate Crossable(rule: Rule) {
    exists events: seq<Event>, end: State :: Goes(rule, Start(), events, end) && Crossed(end)
  }

  lemma Goes2(rule: Rule, f: State, e1: Event, e2: Event, end: State)
    requires Possible(rule, f, e1) && Possible(rule, After(rule, f, e1), e2)
    requires After(rule, After(rule, f, e1), e2) == end
    ensures Goes(rule, f, [e1, e2], end)
  {
    assert [e1, e2][1..] == [e2] && [e2][1..] == [];
    assert Goes(rule, After(rule, f, e1), [e2], end);
  }

  /** The first client takes the first connection. */
  function Opened(): State {
    State(map[0 := FirstHeld()], map[], {1})
  }

  lemma Opening(rule: Rule) returns (events: seq<Event>)
    ensures Goes(rule, Start(), events, Opened()) && forall e <- events :: e != On(1, ResetDone(0))
  {
    var f1 := State(map[0 := Connected()], map[], {});
    var f2 := State(map[0 := Connected()], map[1 := []], {1});
    FirstAttach(rule);
    assert After(rule, Start(), Connect(0)) == f1;
    assert After(rule, f1, Arrive(1)) == f2;
    var attach := On(0, Step.Attach(1, 0, []));
    assert After(rule, f2, attach) == Opened();
    Goes2(rule, f1, Arrive(1), attach, Opened());
    events := [Connect(0)] + [Arrive(1), attach];
    assert events[1..] == [Arrive(1), attach];
  }

  /** A new client takes a server from the pool on which it can be sent a foreign reply. */
  lemma NewClientCrosses(rule: Rule, f: State, server: nat, client: nat) returns (events: seq<Event>, end: State)
    requires server in f.links && f.links[server].phase.Pooled? && client !in f.known
    requires CanCross(rule, f.links[server], client, 0, [])
    ensures Goes(rule, f, events, end) && server in end.links && !AllOwn(end.links[server].delivered)
    ensures forall e <- events :: !(e.On? && e.step.ResetDone?)
  {
    var attach := Step.Attach(client, 0, []);
    var f1 := After(rule, f, Arrive(client));
    var f2 := After(rule, f1, On(server, attach));
    Goes2(rule, f, Arrive(client), On(server, attach), f2);
    var steps: seq<Step> :| Crosses(rule, f2.links[server], steps);
    var last := Exec(rule, f2.links[server], steps);
    assert Leads(rule, f2.links[server], steps, last);
    hide Leads, Apply, Enabled, After, Possible;
    end := Lift(rule, f2, server, client, steps, last);
    GoesConcat(rule, f, [Arrive(client), On(server, attach)], f2, Events(server, steps), end);
    events := [Arrive(client), On(server, attach)] + Events(server, steps);
  }

  /** The first client leaves the first server so that the second one can be sent a foreign reply. */
  lemma FirstServerCrosses(rule: Rule, steps: seq<Step>, left: Link)
    requires Leads(rule, FirstHeld(), steps, left) && left.phase.Pooled? && CanCross(rule, left, 2, 0, [])
    ensures Crossable(rule)
  {
    hide Leads, CanCross, Goes;
    var e1 := Opening(rule);
    var f := Lift(rule, Opened(), 0, 1, steps, left);
    var e2, end := NewClientCrosses(rule, f, 0, 2);
    GoesConcat(rule, Start(), e1, Opened(), Events(0, steps), f);
    GoesConcat(rule, Start(), e1 + Events(0, steps), f, e2, end);
    assert Crossed(end);
  }

  predicate OnlyCleanups(f: State) {
    forall s | s in f.links :: OnlyCleanup(f.links[s])
  }

  lemma SessionEvent(rule: Rule, f: State, e: Event)
    requires !(rule.transactionPooling && !rule.replication) && OnlyCleanups(f) && Possible(rule, f, e)
    ensures OnlyCleanups(After(rule, f, e)) && KeepsOnlyReset(f, e)
  {
    if e.On? {
      SessionStep(rule, f.links[e.server], e.step);
    }
    hide Apply, Enabled;
  }

  lemma {:induction false} SessionAllReset(rule: Rule, f: State, events: seq<Event>, end: State)
    requires !(rule.transactionPooling && !rule.replication) && OnlyCleanups(f) && Goes(rule, f, events, end)
    ensures AllReset(rule, f, events)
    decreases |events|
  {
    if events != [] {
      SessionEvent(rule, f, events[0]);
      hide After, Possible, OnlyCleanups;
      SessionAllReset(rule, After(rule, f, events[0]), events[1..], end);
    }
  }

  /**
   Some run of the fleet forwards a foreign reply if and only if `pool_discard` is off or the relay loop gives
   servers back, that is, under transaction pooling for clients that do not replicate.
   */
  lemma CrossableIff(rule: Rule)
    ensures Crossable(rule) <==> !rule.poolDiscard || (rule.transactionPooling && !rule.replication)
  {
    if !rule.poolDiscard {
      var steps, end := ParseLeft(rule);
      LeftoverCrosses(rule, end, 2);
      FirstServerCrosses(rule, steps, end);
    } else if rule.transactionPooling && !rule.replication {
      var steps, end := QueryLeftOnServer(rule);
      FirstServerCrosses(rule, steps, end);
    } else {
      forall events: seq<Event>, end: State | Goes(rule, Start(), events, end) ensures !Crossed(end) {
        SessionAllReset(rule, Start(), events, end);
        FleetKeepsRepliesApart(rule, events, end);
      }
    }
  }

  /** The client of the first server takes its unwritten query to a second, new server. */
  lemma CarriedToSecond(rule: Rule) returns (events: seq<Event>, end: State)
    requires rule.transactionPooling && !rule.replication
    ensures Goes(rule, Start(), events, end) && end.known == {1} && 1 in end.links
    ensures Short(end.links[1], 1, 0) && end.links[1].delivered == []
    ensures forall e <- events :: e != On(1, ResetDone(0))
  {
    var e1 := Opening(rule);
    var steps, left := CountedLeftBehind(rule);
    hide Leads, Goes;
    var f := Lift(rule, Opened(), 0, 1, steps, left);
    assert f.bags[1] == [Request(true)];
    GoesConcat(rule, Start(), e1, Opened(), Events(0, steps), f);
    var e2;
    e2, end := SecondAttach(rule, f);
    GoesConcat(rule, Start(), e1 + Events(0, steps), f, e2, end);
    events := e1 + Events(0, steps) + e2;
  }

  lemma SecondAttach(rule: Rule, f: State) returns (events: seq<Event>, end: State)
    requires 1 !in f.links && 1 in f.bags && f.bags[1] == [Request(true)]
    ensures Goes(rule, f, events, end) && end.known == f.known && 1 in end.links
    ensures Short(end.links[1], 1, 0) && end.links[1].delivered == []
    ensures forall e <- events :: e != On(1, ResetDone(0))
  {
    var attach := Step.Attach(1, 0, [Request(true)]);
    ConnectedHolds();
    assert Request(true) in [Request(true)];
    assert Items(Connected()) == [];
    AttachedShort(rule, Connected(), 1, 0, [Request(true)]);
    hide Short, LinkInv, Items;
    var f1 := After(rule, f, Connect(1));
    end := After(rule, f1, On(1, attach));
    Goes2(rule, f, Connect(1), On(1, attach), end);
    events := [Connect(1), On(1, attach)];
  }

  /**
   Under transaction pooling, whatever the other settings, a foreign reply can be forwarded on a server all of
   whose resets returned 1: a request that another server had counted was written to it.
   */
  lemma CarriedAcrossServers(rule: Rule) returns (events: seq<Event>, end: State)
    requires rule.transactionPooling && !rule.replication
    ensures Goes(rule, Start(), events, end) && forall e <- events :: e != On(1, ResetDone(0))
    ensures 1 in end.links && !AllOwn(end.links[1].delivered)
  {
    var e1, f := CarriedToSecond(rule);
    var steps, left := CutShort(rule, f.links[1], 1, 0);
    forall i | 0 <= i < |left.wire| ensures left.wire[i].owner != Client(2) {
      assert left.wire[i] in left.wire;
    }
    LeftoverCrosses(rule, left, 2);
    hide Leads, Goes, Short, CanCross;
    assert BagKept(f, 1, 1);
    var f1 := Lift(rule, f, 1, 1, steps, left);
    var e2;
    e2, end := NewClientCrosses(rule, f1, 1, 2);
    GoesConcat(rule, Start(), e1, f, Events(1, steps), f1);
    GoesConcat(rule, Start(), e1 + Events(1, steps), f1, e2, end);
    events := e1 + Events(1, steps) + e2;
  }
}
