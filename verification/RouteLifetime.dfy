/**
 How long rules and routes live: routing a client, garbage collection of routes and configuration
 reload, with the router lock, one lock per route, and the hand-over from the first to the second.
 */
module RouteLifetime {
  import opened Wrappers

  // ------------------------------------------------------------------ state

  /** `dynamic` routes are collected when unused, others only when their rule is obsolete. */
  datatype Rule = Rule(refs: int, obsolete: bool, dynamic: bool)

  datatype Route = Route(rule: nat, clients: nat, servers: nat, lock: Option<nat>)

  /** What a thread is doing between two steps. */
  datatype Pc =
    | Choosing                        // has the router lock, before matching a route
    | Entering(t: nat, isNew: bool)   // has the router lock, about to take the lock of route `t`
    | Placing(t: nat)                 // has only the route lock, not yet in the client pool
    | Routed(t: nat)                  // in the client pool of route `t`
    | Turned(r: nat)                  // turned away without any lock, yet to read rule `r` for the error message
    | Collecting                      // garbage collection, has the router lock
    | Merging                         // reload, has the router lock
  {
    predicate HasRouter() {
      Choosing? || Entering? || Collecting? || Merging?
    }
  }

  datatype Router = Router(lock: Option<nat>, rules: map<nat, Rule>, routes: map<nat, Route>, pcs: map<nat, Pc>)

  const EMPTY := Router(None, map[], map[], map[])

  /** `client_max` of each rule, when it is set. */
  type Limits = nat -> Option<int>

  function RoutesOf(s: Router, r: nat): set<nat> {
    set t | t in s.routes && s.routes[t].rule == r
  }

  function ClientsOf(s: Router, t: nat): set<nat> {
    set c | c in s.pcs && s.pcs[c] == Routed(t)
  }

  predicate AtLimit(limits: Limits, s: Router, t: nat)
    requires t in s.routes
  {
    limits(s.routes[t].rule).Some? && s.routes[t].clients >= limits(s.routes[t].rule).value
  }

  // ------------------------------------------------------------------ steps

  datatype Step =
    | Lock(c: nat, pc: Pc)
    | Unlock(c: nat)
    | Choose(c: nat, r: nat, t: nat)
    | Admit(c: nat)
    | Reject(c: nat)
    | Report(c: nat)
    | Place(c: nat)
    | Unroute(c: nat)
    | AddServer(c: nat)
    | RemoveServer(t: nat)
    | Collect(c: nat, t: nat)
    | AddRule(c: nat, r: nat, dynamic: bool)
    | MarkObsolete(c: nat, r: nat)
    | FreeRule(c: nat, r: nat)

  predicate At(s: Router, c: nat, pc: Pc) {
    c in s.pcs && s.pcs[c] == pc
  }

  predicate Unlocked(s: Router, t: nat) {
    t in s.routes && s.routes[t].lock == None
  }

  predicate Enabled(limits: Limits, s: Router, step: Step) {
    match step
    case Lock(c, pc) => s.lock == None && c !in s.pcs && (pc.Choosing? || pc.Collecting? || pc.Merging?)
    case Unlock(c) => At(s, c, Choosing) || At(s, c, Collecting) || At(s, c, Merging)
    case Choose(c, r, t) =>
      At(s, c, Choosing) && r in s.rules && !s.rules[r].obsolete && (t in s.routes ==> s.routes[t].rule == r)
    case Admit(c) => c in s.pcs && s.pcs[c].Entering? && Unlocked(s, s.pcs[c].t) && !AtLimit(limits, s, s.pcs[c].t)
    case Reject(c) =>
      && c in s.pcs && s.pcs[c].Entering? && Unlocked(s, s.pcs[c].t) && AtLimit(limits, s, s.pcs[c].t)
      && s.routes[s.pcs[c].t].rule in s.rules
    case Report(c) => c in s.pcs && s.pcs[c].Turned?
    case Place(c) => c in s.pcs && s.pcs[c].Placing? && s.pcs[c].t in s.routes
    case Unroute(c) => c in s.pcs && s.pcs[c].Routed? && Unlocked(s, s.pcs[c].t) && s.routes[s.pcs[c].t].clients > 0
    case AddServer(c) => c in s.pcs && s.pcs[c].Routed? && Unlocked(s, s.pcs[c].t)
    case RemoveServer(t) => Unlocked(s, t) && s.routes[t].servers > 0
    case Collect(c, t) =>
      && At(s, c, Collecting) && Unlocked(s, t) && s.routes[t].servers == 0 && s.routes[t].clients == 0
      && s.routes[t].rule in s.rules
      && (s.rules[s.routes[t].rule].dynamic || s.rules[s.routes[t].rule].obsolete)
    case AddRule(c, r, _) => At(s, c, Merging) && r !in s.rules && RoutesOf(s, r) == {}
    case MarkObsolete(c, r) => At(s, c, Merging) && r in s.rules
    case FreeRule(c, r) => At(s, c, Merging) && r in s.rules && s.rules[r].obsolete && s.rules[r].refs == 0
  }

  /** Drops one reference; an obsolete rule goes with its last one. */
  function Unref(rules: map<nat, Rule>, r: nat): map<nat, Rule>
    requires r in rules
  {
    var rule := rules[r].(refs := rules[r].refs - 1);
    if rule.obsolete && rule.refs == 0 then rules - {r} else rules[r := rule]
  }

  function NewRules(limits: Limits, s: Router, step: Step): map<nat, Rule>
    requires Enabled(limits, s, step)
  {
    match step
    case Choose(_, r, _) => s.rules[r := s.rules[r].(refs := s.rules[r].refs + 1)]
    case Reject(c) => Unref(s.rules, s.routes[s.pcs[c].t].rule)
    case Collect(_, t) => Unref(s.rules, s.routes[t].rule)
    case AddRule(_, r, dynamic) => s.rules[r := Rule(0, false, dynamic)]
    case MarkObsolete(_, r) => s.rules[r := s.rules[r].(obsolete := true)]
    case FreeRule(_, r) => s.rules - {r}
    case _ => s.rules
  }

  function NewRoutes(limits: Limits, s: Router, step: Step): map<nat, Route>
    requires Enabled(limits, s, step)
  {
    match step
    case Choose(_, r, t) => if t in s.routes then s.routes else s.routes[t := Route(r, 0, 0, None)]
    case Admit(c) => s.routes[s.pcs[c].t := s.routes[s.pcs[c].t].(lock := Some(c))]
    case Place(c) =>
      var route := s.routes[s.pcs[c].t];
      s.routes[s.pcs[c].t := route.(clients := route.clients + 1, lock := None)]
    case Unroute(c) =>
      var route := s.routes[s.pcs[c].t];
      s.routes[s.pcs[c].t := route.(clients := route.clients - 1)]
    case AddServer(c) =>
      var route := s.routes[s.pcs[c].t];
      s.routes[s.pcs[c].t := route.(servers := route.servers + 1)]
    case RemoveServer(t) => s.routes[t := s.routes[t].(servers := s.routes[t].servers - 1)]
    case Collect(_, t) => s.routes - {t}
    case _ => s.routes
  }

  function NewPcs(limits: Limits, s: Router, step: Step): map<nat, Pc>
    requires Enabled(limits, s, step)
  {
    match step
    case Lock(c, pc) => s.pcs[c := pc]
    case Choose(c, _, t) => s.pcs[c := Entering(t, t !in s.routes)]
    case Admit(c) => s.pcs[c := Placing(s.pcs[c].t)]
    case Place(c) => s.pcs[c := Routed(s.pcs[c].t)]
    case Unlock(c) => s.pcs - {c}
    case Reject(c) => s.pcs[c := Turned(s.routes[s.pcs[c].t].rule)]
    case Report(c) => s.pcs - {c}
    case Unroute(c) => s.pcs - {c}
    case _ => s.pcs
  }

  function NewLock(s: Router, step: Step): Option<nat> {
    if step.Lock? then Some(step.c)
    else if step.Unlock? || step.Admit? || step.Reject? then None
    else s.lock
  }

  function Apply(limits: Limits, s: Router, step: Step): Router
    requires Enabled(limits, s, step)
  {
    Router(NewLock(s, step), NewRules(limits, s, step), NewRoutes(limits, s, step), NewPcs(limits, s, step))
  }

  // -------------------------------------------------------------- invariants

  /** Only one thread has the router lock, and a route lock belongs to the client being placed there. */
  predicate Locks(s: Router) {
    && (forall c :: c in s.pcs && s.pcs[c].HasRouter() ==> s.lock == Some(c))
    && (forall c :: c in s.pcs && s.pcs[c].Placing? ==>
          s.pcs[c].t in s.routes && s.routes[s.pcs[c].t].lock == Some(c))
  }

  /** Whoever stands in a route, or is about to, stands in one that exists. */
  predicate NoDanglingRoute(s: Router) {
    forall c :: c in s.pcs && (s.pcs[c].Entering? || s.pcs[c].Placing? || s.pcs[c].Routed?) ==> s.pcs[c].t in s.routes
  }

  /** A route that was created for the client entering it is still untouched. */
  predicate NewIsEmpty(s: Router) {
    forall c :: c in s.pcs && s.pcs[c].Entering? && s.pcs[c].isNew ==>
      s.pcs[c].t in s.routes && s.routes[s.pcs[c].t].clients == 0 && s.routes[s.pcs[c].t].lock == None
  }

  /** A route's client count is the number of clients in it. */
  predicate Counted(s: Router) {
    forall t :: t in s.routes ==> s.routes[t].clients == |ClientsOf(s, t)|
  }

  /** The rule a client was routed by before its route lock is taken: one reference more than routes. */
  predicate Extra(s: Router, r: nat) {
    s.lock.Some? && s.lock.value in s.pcs && s.pcs[s.lock.value].Entering? && !s.pcs[s.lock.value].isNew &&
    s.pcs[s.lock.value].t in s.routes && s.routes[s.pcs[s.lock.value].t].rule == r
  }

  /** Every live route's rule is alive and has a reference for each of its routes. */
  predicate NoDanglingRule(s: Router) {
    && (forall t :: t in s.routes ==> s.routes[t].rule in s.rules)
    && (forall r :: r in s.rules ==> s.rules[r].refs >= |RoutesOf(s, r)| + (if Extra(s, r) then 1 else 0))
  }

  predicate Inv(s: Router) {
    Locks(s) && NoDanglingRoute(s) && NewIsEmpty(s) && Counted(s) && NoDanglingRule(s)
  }

  /** The configuration rule that `client_max`, when it is set, is at least one. */
  ghost predicate PositiveLimits(limits: Limits) {
    forall r :: limits(r).Some? ==> limits(r).value >= 1
  }

  // ------------------------------------------------------------ preservation

  lemma LocksKeep(limits: Limits, s: Router, step: Step)
    requires Locks(s) && Enabled(limits, s, step)
    ensures Locks(Apply(limits, s, step))
  {
    hide AtLimit, RoutesOf, NewRules;
  }

  /** A route is only removed while nobody is in it, on the way into it, or holding its lock. */
  lemma CollectLeavesNobody(limits: Limits, s: Router, c: nat, t: nat)
    requires Locks(s) && NoDanglingRoute(s) && Counted(s) && Enabled(limits, s, Collect(c, t))
    ensures forall d :: d in s.pcs && (s.pcs[d].Entering? || s.pcs[d].Placing? || s.pcs[d].Routed?) ==> s.pcs[d].t != t
    ensures s.routes[t].servers == 0
  {
    assert ClientsOf(s, t) == {};
    assert forall d :: d in s.pcs && s.pcs[d] == Routed(t) ==> d in ClientsOf(s, t);
  }

  lemma RoutesKeep(limits: Limits, s: Router, step: Step)
    requires Locks(s) && NoDanglingRoute(s) && Counted(s) && Enabled(limits, s, step)
    ensures NoDanglingRoute(Apply(limits, s, step))
  {
    var s' := Apply(limits, s, step);
    if step.Collect? {
      CollectLeavesNobody(limits, s, step.c, step.t);
      assert s'.pcs == s.pcs;
      hide Locks, Counted, AtLimit, RoutesOf, NewRules, NewPcs;
    } else {
      assert forall t :: t in s.routes ==> t in s'.routes;
      hide Locks, Counted, AtLimit, RoutesOf, NewRules;
    }
  }

  lemma NewKeeps(limits: Limits, s: Router, step: Step)
    requires Locks(s) && NoDanglingRoute(s) && NewIsEmpty(s) && Counted(s) && Enabled(limits, s, step)
    ensures NewIsEmpty(Apply(limits, s, step))
  {
    if step.Collect? {
      CollectLeavesNobody(limits, s, step.c, step.t);
    }
    hide AtLimit, RoutesOf, NewRules, Counted;
  }

  lemma ClientsAfter(limits: Limits, s: Router, step: Step, t: nat)
    requires Enabled(limits, s, step)
    ensures ClientsOf(Apply(limits, s, step), t) ==
            if step.Place? && s.pcs[step.c].t == t then ClientsOf(s, t) + {step.c}
            else if step.Unroute? && s.pcs[step.c].t == t then ClientsOf(s, t) - {step.c}
            else ClientsOf(s, t)
  {
    hide AtLimit, RoutesOf, NewRules, NewRoutes;
  }

  lemma CountedKeeps(limits: Limits, s: Router, step: Step)
    requires NoDanglingRoute(s) && Counted(s) && Enabled(limits, s, step)
    ensures Counted(Apply(limits, s, step))
  {
    var s' := Apply(limits, s, step);
    forall t | t in s'.routes
      ensures s'.routes[t].clients == |ClientsOf(s', t)|
    {
      ClientsAfter(limits, s, step, t);
      hide AtLimit, RoutesOf, NewRules, NewPcs, NewRoutes;
    }
  }

  lemma RoutesAfter(limits: Limits, s: Router, step: Step, r: nat)
    requires Enabled(limits, s, step)
    ensures RoutesOf(Apply(limits, s, step), r) ==
            if step.Choose? && step.r == r && step.t !in s.routes then RoutesOf(s, r) + {step.t}
            else if step.Collect? && s.routes[step.t].rule == r then RoutesOf(s, r) - {step.t}
            else RoutesOf(s, r)
  {
    hide AtLimit, NewRules, NewPcs;
  }

  /** Where a rejected client's reference comes from: its route had clients, so it was not new. */
  lemma RejectedWasMatched(limits: Limits, s: Router, c: nat)
    requires PositiveLimits(limits) && Locks(s) && NewIsEmpty(s) && Enabled(limits, s, Reject(c))
    ensures !s.pcs[c].isNew && Extra(s, s.routes[s.pcs[c].t].rule)
  {
  }

  /** No step but the ones of the client that has the router lock makes or uses up the extra reference. */
  lemma ExtraAfter(limits: Limits, s: Router, step: Step, r: nat)
    requires Locks(s) && NoDanglingRoute(s) && Enabled(limits, s, step) && Extra(Apply(limits, s, step), r)
    ensures Extra(s, r) || (step.Choose? && step.r == r && step.t in s.routes)
  {
    hide AtLimit, NewRules, RoutesOf;
  }

  /** The rule whose reference a step drops. */
  function Dropped(s: Router, step: Step): Option<nat> {
    if step.Reject? && step.c in s.pcs && s.pcs[step.c].Entering? && s.pcs[step.c].t in s.routes then
      Some(s.routes[s.pcs[step.c].t].rule)
    else if step.Collect? && step.t in s.routes then Some(s.routes[step.t].rule)
    else None
  }

  lemma RefsAfter(limits: Limits, s: Router, step: Step, r: nat)
    requires Enabled(limits, s, step)
    ensures r in NewRules(limits, s, step) && !(step.AddRule? && step.r == r) ==>
              && r in s.rules
              && NewRules(limits, s, step)[r].refs ==
                   s.rules[r].refs + (if step.Choose? && step.r == r then 1 else 0)
                                   - (if Dropped(s, step) == Some(r) then 1 else 0)
    ensures step.AddRule? && step.r == r ==> NewRules(limits, s, step)[r].refs == 0 && RoutesOf(s, r) == {}
    ensures r in s.rules && r !in NewRules(limits, s, step) ==>
              || (step.FreeRule? && s.rules[r].refs == 0)
              || (Dropped(s, step) == Some(r) && s.rules[r].refs == 1)
  {
    hide NewRoutes, NewPcs, AtLimit;
  }

  /** A step that drops a reference finds one that no remaining route needs. */
  lemma DroppedIsSpare(limits: Limits, s: Router, step: Step, r: nat)
    requires Inv(s) && PositiveLimits(limits) && Enabled(limits, s, step) && Dropped(s, step) == Some(r)
    ensures var s' := Apply(limits, s, step); |RoutesOf(s', r)| <= s.rules[r].refs - 1 && !Extra(s', r)
  {
    RoutesAfter(limits, s, step, r);
    if step.Reject? {
      RejectedWasMatched(limits, s, step.c);
    } else {
      assert step.t in RoutesOf(s, r);
      assert |RoutesOf(s, r) - {step.t}| == |RoutesOf(s, r)| - 1;
    }
    hide RoutesOf, AtLimit, NewRoutes, NewRules, Counted;
  }

  lemma RefsKeep(limits: Limits, s: Router, step: Step, r: nat)
    requires Inv(s) && PositiveLimits(limits) && Enabled(limits, s, step)
    requires r in NewRules(limits, s, step)
    ensures var s' := Apply(limits, s, step);
            s'.rules[r].refs >= |RoutesOf(s', r)| + (if Extra(s', r) then 1 else 0)
  {
    var s' := Apply(limits, s, step);
    RefsAfter(limits, s, step, r);
    RoutesAfter(limits, s, step, r);
    if Extra(s', r) {
      ExtraAfter(limits, s, step, r);
      if Extra(s, r) {
        ExtraRoute(s, r);
      }
    }
    if Dropped(s, step) == Some(r) {
      DroppedIsSpare(limits, s, step, r);
    }
    hide Locks, NoDanglingRoute, NewIsEmpty, Counted, RoutesOf, AtLimit;
    hide NewRoutes, NewPcs, NewRules, Extra, Dropped, Enabled;
  }

  lemma ExtraRoute(s: Router, r: nat)
    requires Extra(s, r)
    ensures RoutesOf(s, r) != {}
  {
    assert s.pcs[s.lock.value].t in RoutesOf(s, r);
  }

  /** A rule is only freed, by reload or with its last reference, when no route uses it. */
  lemma FreedHasNoRoutes(limits: Limits, s: Router, step: Step, r: nat)
    requires Inv(s) && PositiveLimits(limits) && Enabled(limits, s, step)
    requires r in s.rules && r !in NewRules(limits, s, step)
    ensures s.rules[r].obsolete && RoutesOf(Apply(limits, s, step), r) == {}
  {
    RefsAfter(limits, s, step, r);
    RoutesAfter(limits, s, step, r);
    if Dropped(s, step) == Some(r) {
      DroppedIsSpare(limits, s, step, r);
    }
    hide Locks, NoDanglingRoute, NewIsEmpty, Counted, AtLimit, NewRoutes, NewPcs, NewRules, Extra, RoutesOf, Dropped;
  }

  /** The servers of a route; one that is not there has none. */
  function ServersAt(s: Router, t: nat): nat {
    if t in s.routes then s.routes[t].servers else 0
  }

  /** How many servers the step opens in route `t`, less those that it takes away. */
  function Opens(s: Router, step: Step, t: nat): int {
    if step.AddServer? && step.c in s.pcs && s.pcs[step.c] == Routed(t) then 1
    else if step == RemoveServer(t) then -1
    else 0
  }

  function OpensAll(limits: Limits, s: Router, steps: seq<Step>, t: nat): int
    requires ValidRun(limits, s, steps)
    decreases |steps|
  {
    if steps == [] then 0
    else Opens(s, steps[0], t) + OpensAll(limits, Apply(limits, s, steps[0]), steps[1..], t)
  }

  /** No server is lost or made up: a route has those that were opened in it and not taken away, collected or not. */
  lemma {:induction false} ServersCount(limits: Limits, s: Router, steps: seq<Step>, t: nat)
    requires ValidRun(limits, s, steps)
    ensures ServersAt(Exec(limits, s, steps), t) == ServersAt(s, t) + OpensAll(limits, s, steps, t)
    decreases |steps|
  {
    if steps != [] {
      ServersStep(limits, s, steps[0], t);
      hide Apply, Enabled, ServersAt, Opens;
      ServersCount(limits, Apply(limits, s, steps[0]), steps[1..], t);
    }
  }

  lemma ServersStep(limits: Limits, s: Router, step: Step, t: nat)
    requires Enabled(limits, s, step)
    ensures ServersAt(Apply(limits, s, step), t) == ServersAt(s, t) + Opens(s, step, t)
  {
  }

  lemma RulesKeep(limits: Limits, s: Router, step: Step)
    requires Inv(s) && PositiveLimits(limits) && Enabled(limits, s, step)
    ensures NoDanglingRule(Apply(limits, s, step))
  {
    var s' := Apply(limits, s, step);
    forall r | r in s'.rules
      ensures s'.rules[r].refs >= |RoutesOf(s', r)| + (if Extra(s', r) then 1 else 0)
    {
      RefsKeep(limits, s, step, r);
    }
    forall t | t in s'.routes
      ensures s'.routes[t].rule in s'.rules
    {
      var r := s'.routes[t].rule;
      assert t in RoutesOf(s', r);
      if r !in s'.rules {
        FreedHasNoRoutes(limits, s, step, r);
        assert false;
      }
    }
  }

  // --------------------------------------------------------------- whole runs

  predicate ValidRun(limits: Limits, s: Router, steps: seq<Step>)
    decreases |steps|
  {
    steps == [] || (Enabled(limits, s, steps[0]) && ValidRun(limits, Apply(limits, s, steps[0]), steps[1..]))
  }

  function Exec(limits: Limits, s: Router, steps: seq<Step>): Router
    requires ValidRun(limits, s, steps)
    decreases |steps|
  {
    if steps == [] then s else Exec(limits, Apply(limits, s, steps[0]), steps[1..])
  }

  lemma StepKeeps(limits: Limits, s: Router, step: Step)
    requires Inv(s) && PositiveLimits(limits) && Enabled(limits, s, step)
    ensures Inv(Apply(limits, s, step))
  {
    RulesKeep(limits, s, step);
    hide Locks, NoDanglingRoute, NewIsEmpty, Counted, NoDanglingRule, Enabled, Apply;
    LocksKeep(limits, s, step);
    RoutesKeep(limits, s, step);
    NewKeeps(limits, s, step);
    CountedKeeps(limits, s, step);
  }

  lemma {:induction false} RunKeeps(limits: Limits, s: Router, steps: seq<Step>)
    requires Inv(s) && PositiveLimits(limits) && ValidRun(limits, s, steps)
    ensures Inv(Exec(limits, s, steps))
    decreases |steps|
  {
    if steps != [] {
      StepKeeps(limits, s, steps[0]);
      hide Inv, Apply, Enabled, PositiveLimits;
      RunKeeps(limits, Apply(limits, s, steps[0]), steps[1..]);
    }
  }

  /** In every reachable state every rule has at least as many references as routes. */
  ghost predicate RefsCoverRoutes(limits: Limits) {
    forall steps: seq<Step> :: ValidRun(limits, EMPTY, steps) ==> Covered(Exec(limits, EMPTY, steps))
  }

  predicate Covered(s: Router) {
    && (forall t :: t in s.routes ==> s.routes[t].rule in s.rules)
    && (forall r :: r in s.rules ==> s.rules[r].refs >= |RoutesOf(s, r)|)
  }

  /**
   References cover routes in all reachable states, for any number of clients, reloads and collections,
   exactly when no rule sets `client_max` below one.
   */
  lemma RefsCoverRoutesIff(limits: Limits)
    ensures RefsCoverRoutes(limits) <==> PositiveLimits(limits)
  {
    if PositiveLimits(limits) {
      forall steps: seq<Step> | ValidRun(limits, EMPTY, steps)
        ensures Covered(Exec(limits, EMPTY, steps))
      {
        RunKeeps(limits, EMPTY, steps);
        hide Exec, ValidRun;
      }
    } else {
      var r :| limits(r).Some? && limits(r).value < 1;
      var steps := ZeroLimitLeavesRoute(limits, r);
    }
  }

  lemma RunCons(limits: Limits, s: Router, step: Step, s': Router, steps: seq<Step>)
    requires Enabled(limits, s, step) && Apply(limits, s, step) == s' && ValidRun(limits, s', steps)
    ensures ValidRun(limits, s, [step] + steps) && Exec(limits, s, [step] + steps) == Exec(limits, s', steps)
  {
    assert ([step] + steps)[1..] == steps;
  }

  /** With `client_max` zero the first client is turned away and its new route is left without a reference. */
  lemma ZeroLimitLeavesRoute(limits: Limits, r: nat) returns (steps: seq<Step>)
    requires limits(r).Some? && limits(r).value < 1
    ensures ValidRun(limits, EMPTY, steps) && !Covered(Exec(limits, EMPTY, steps))
  {
    var s3 := Router(None, map[r := Rule(0, false, true)], map[], map[]);
    var more := FirstClientRejected(limits, r, s3);
    var s1 := Router(Some(0), map[], map[], map[0 := Merging]);
    var s2 := Router(Some(0), map[r := Rule(0, false, true)], map[], map[0 := Merging]);
    assert Apply(limits, EMPTY, Lock(0, Merging)) == s1;
    assert RoutesOf(s1, r) == {};
    assert Apply(limits, s1, AddRule(0, r, true)) == s2;
    assert Apply(limits, s2, Unlock(0)) == s3;
    hide Apply, Enabled;
    RunCons(limits, s2, Unlock(0), s3, more);
    RunCons(limits, s1, AddRule(0, r, true), s2, [Unlock(0)] + more);
    steps := [Lock(0, Merging)] + ([AddRule(0, r, true)] + ([Unlock(0)] + more));
    RunCons(limits, EMPTY, Lock(0, Merging), s1, [AddRule(0, r, true)] + ([Unlock(0)] + more));
  }

  lemma FirstClientRejected(limits: Limits, r: nat, s3: Router) returns (steps: seq<Step>)
    requires limits(r).Some? && limits(r).value < 1
    requires s3 == Router(None, map[r := Rule(0, false, true)], map[], map[])
    ensures ValidRun(limits, s3, steps) && !Covered(Exec(limits, s3, steps))
  {
    var s4 := Router(Some(1), map[r := Rule(0, false, true)], map[], map[1 := Choosing]);
    var s5 :=
      Router(Some(1), map[r := Rule(1, false, true)], map[0 := Route(r, 0, 0, None)], map[1 := Entering(0, true)]);
    var s6 := Router(None, map[r := Rule(0, false, true)], map[0 := Route(r, 0, 0, None)], map[1 := Turned(r)]);
    assert Apply(limits, s3, Lock(1, Choosing)) == s4;
    assert Apply(limits, s4, Choose(1, r, 0)) == s5;
    assert Apply(limits, s5, Reject(1)) == s6;
    assert 0 in RoutesOf(s6, r);
    assert ValidRun(limits, s6, []);
    hide Apply, Enabled;
    RunCons(limits, s5, Reject(1), s6, []);
    RunCons(limits, s4, Choose(1, r, 0), s5, [Reject(1)] + []);
    RunCons(limits, s3, Lock(1, Choosing), s4, [Choose(1, r, 0)] + ([Reject(1)] + []));
    steps := [Lock(1, Choosing)] + ([Choose(1, r, 0)] + ([Reject(1)] + []));
  }

  /**
   In every reachable state nobody stands in, enters or is being placed into a route that is gone, every
   live route's rule is alive, and unref finds a positive count: dropping a collected route's reference or
   a rejected client's never takes `refs` below zero.
   */
  lemma NothingDangles(limits: Limits, steps: seq<Step>)
    requires PositiveLimits(limits) && ValidRun(limits, EMPTY, steps)
    ensures var s := Exec(limits, EMPTY, steps);
            && NoDanglingRoute(s) && Covered(s)
            && (forall c, t :: Enabled(limits, s, Collect(c, t)) ==> s.rules[s.routes[t].rule].refs > 0)
            && (forall c :: Enabled(limits, s, Reject(c)) ==> s.rules[s.routes[s.pcs[c].t].rule].refs > 0)
  {
    RunKeeps(limits, EMPTY, steps);
    var s := Exec(limits, EMPTY, steps);
    hide Exec, ValidRun;
    forall c, t | Enabled(limits, s, Collect(c, t))
      ensures s.rules[s.routes[t].rule].refs > 0
    {
      assert t in RoutesOf(s, s.routes[t].rule);
    }
    forall c | Enabled(limits, s, Reject(c))
      ensures s.rules[s.routes[s.pcs[c].t].rule].refs > 0
    {
      RejectedWasMatched(limits, s, c);
    }
  }
}
