/**
 What the reference count of a rule amounts to. A reference is taken for every routed client and given back
 for every collected route, so each client that enters a route already there leaves one behind for good.
 */
module RuleReferences {
  import opened RouteLifetime
  import opened Wrappers

  /** References that no route and no client on its way in accounts for. */
  function Surplus(s: Router, r: nat): int
    requires r in s.rules
  {
    s.rules[r].refs - |RoutesOf(s, r)| - (if Extra(s, r) then 1 else 0)
  }

  /** A client is admitted to a route of `r` that was there before it. */
  predicate Shares(s: Router, step: Step, r: nat) {
    step.Admit? && step.c in s.pcs && s.pcs[step.c].Entering? && !s.pcs[step.c].isNew &&
    s.pcs[step.c].t in s.routes && s.routes[s.pcs[step.c].t].rule == r
  }

  lemma ExtraIff(limits: Limits, s: Router, step: Step, r: nat)
    requires Locks(s) && NoDanglingRoute(s) && Enabled(limits, s, step)
    ensures Extra(Apply(limits, s, step), r) <==>
            (step.Choose? && step.r == r && step.t in s.routes) || (Extra(s, r) && !step.Admit? && !step.Reject?)
  {
    hide AtLimit, NewRules, RoutesOf;
  }

  /** Every step keeps the surplus, but for the admission of a client to a route that is there. */
  lemma SurplusAfter(limits: Limits, s: Router, step: Step, r: nat)
    requires Inv(s) && PositiveLimits(limits) && Enabled(limits, s, step)
    requires r in s.rules && r in NewRules(limits, s, step)
    ensures Surplus(Apply(limits, s, step), r) == Surplus(s, r) + (if Shares(s, step, r) then 1 else 0)
  {
    RefsAfter(limits, s, step, r);
    RoutesAfter(limits, s, step, r);
    ExtraIff(limits, s, step, r);
    if step.Reject? {
    } else if step.Collect? {
      assert s.routes[step.t].rule == r ==> step.t in RoutesOf(s, r);
    } else if step.Choose? {
      assert step.t !in s.routes ==> step.t !in RoutesOf(s, r);
    }
    assert step.AddRule? ==> step.r != r;
    hide Inv, Extra, RoutesOf, AtLimit, NewRoutes, NewPcs, NewRules;
  }

  /** A step frees a rule only when it has no surplus. */
  lemma FreedWithoutSurplus(limits: Limits, s: Router, step: Step, r: nat)
    requires Inv(s) && PositiveLimits(limits) && Enabled(limits, s, step)
    requires r in s.rules && r !in NewRules(limits, s, step)
    ensures Surplus(s, r) == 0
  {
    RefsAfter(limits, s, step, r);
    if Dropped(s, step) == Some(r) && step.Reject? {
      RejectedWasMatched(limits, s, step.c);
      ExtraRoute(s, r);
    } else if Dropped(s, step) == Some(r) {
      assert step.t in RoutesOf(s, r);
    }
    assert |RoutesOf(s, r)| == 0 <==> RoutesOf(s, r) == {};
    hide Locks, NoDanglingRoute, NewIsEmpty, Counted, Extra, RoutesOf, AtLimit, NewRoutes, NewPcs, NewRules;
  }

  // ------------------------------------------------------------------- whole runs

  /** How often in a run a client was admitted to a route of `r` that was there. */
  function Sharings(limits: Limits, s: Router, steps: seq<Step>, r: nat): nat
    requires ValidRun(limits, s, steps)
    decreases |steps|
  {
    if steps == [] then 0
    else (if Shares(s, steps[0], r) then 1 else 0) + Sharings(limits, Apply(limits, s, steps[0]), steps[1..], r)
  }

  /** Once a client was admitted to a route that was there, the rule is never freed. */
  lemma {:induction false} SharedRuleStays(limits: Limits, s: Router, steps: seq<Step>, r: nat)
    requires Inv(s) && PositiveLimits(limits) && ValidRun(limits, s, steps)
    requires r in s.rules && Surplus(s, r) > 0
    ensures r in Exec(limits, s, steps).rules
    decreases |steps|
  {
    if steps != [] {
      var s' := Apply(limits, s, steps[0]);
      StepKeeps(limits, s, steps[0]);
      if r !in s'.rules {
        FreedWithoutSurplus(limits, s, steps[0], r);
        assert false;
      }
      SurplusAfter(limits, s, steps[0], r);
      hide Inv, Apply, Enabled, Surplus, PositiveLimits;
      SharedRuleStays(limits, s', steps[1..], r);
    }
  }

  /**
   Over a run in which a rule stays, its references are its routes, one more while a client enters a route
   that is there, and one for every client that was ever admitted to a route that was there.
   */
  lemma {:induction false} ReferencesCount(limits: Limits, s: Router, steps: seq<Step>, r: nat)
    requires Inv(s) && PositiveLimits(limits) && ValidRun(limits, s, steps) && r in s.rules
    requires r in Exec(limits, s, steps).rules
    requires forall i :: 0 <= i < |steps| ==> !(steps[i].AddRule? && steps[i].r == r)
    ensures Surplus(Exec(limits, s, steps), r) == Surplus(s, r) + Sharings(limits, s, steps, r)
    decreases |steps|
  {
    if steps != [] {
      var s' := Apply(limits, s, steps[0]);
      assert forall i :: 0 <= i < |steps| - 1 ==> steps[1..][i] == steps[i + 1];
      if r !in s'.rules {
        NotAddedAgain(limits, s', steps[1..], r);
        assert false;
      }
      StepKeeps(limits, s, steps[0]);
      SurplusAfter(limits, s, steps[0], r);
      hide Inv, Apply, Enabled, Surplus, PositiveLimits, Shares;
      ReferencesCount(limits, s', steps[1..], r);
    }
  }

  lemma {:induction false} NotAddedAgain(limits: Limits, s: Router, steps: seq<Step>, r: nat)
    requires ValidRun(limits, s, steps) && r !in s.rules
    requires forall i :: 0 <= i < |steps| ==> !(steps[i].AddRule? && steps[i].r == r)
    ensures r !in Exec(limits, s, steps).rules
    decreases |steps|
  {
    if steps != [] {
      assert r !in Apply(limits, s, steps[0]).rules;
      assert forall i :: 0 <= i < |steps| - 1 ==> steps[1..][i] == steps[i + 1];
      hide Apply, Enabled;
      NotAddedAgain(limits, Apply(limits, s, steps[0]), steps[1..], r);
    }
  }

  /** The collection of an obsolete rule's last route frees the rule exactly when there is no surplus. */
  lemma LastRouteFreesIff(limits: Limits, s: Router, c: nat, t: nat)
    requires Inv(s) && PositiveLimits(limits) && Enabled(limits, s, Collect(c, t))
    requires s.rules[s.routes[t].rule].obsolete && RoutesOf(s, s.routes[t].rule) == {t}
    ensures s.routes[t].rule !in Apply(limits, s, Collect(c, t)).rules <==> Surplus(s, s.routes[t].rule) == 0
  {
    assert !Extra(s, s.routes[t].rule);
  }

  // ------------------------------------------------------------- clients turned away

  /** A client that was turned away still finds the rule it reports about. */
  predicate ReportersHaveRule(s: Router) {
    forall c :: c in s.pcs && s.pcs[c].Turned? ==> s.pcs[c].r in s.rules
  }

  /** A route has at most one client more than its rule has surplus references. */
  predicate Crowded(s: Router) {
    forall t :: t in s.routes ==>
      s.routes[t].rule in s.rules &&
      s.routes[t].clients + (if s.routes[t].lock.Some? then 1 else 0) <= Surplus(s, s.routes[t].rule) + 1
  }

  /** The rule of a client turned away has surplus references, so that it stays. */
  predicate ReportersSafe(s: Router) {
    forall c :: c in s.pcs && s.pcs[c].Turned? ==> s.pcs[c].r in s.rules && Surplus(s, s.pcs[c].r) > 0
  }

  ghost predicate LimitsFromTwo(limits: Limits) {
    forall r :: limits(r).Some? ==> limits(r).value >= 2
  }

  /** What a step adds to the clients in a route and on their way into its pool. */
  lemma CrowdAfter(limits: Limits, s: Router, step: Step, t: nat)
    requires Inv(s) && Enabled(limits, s, step) && t in NewRoutes(limits, s, step)
    ensures var route := NewRoutes(limits, s, step)[t];
            var n := route.clients + (if route.lock.Some? then 1 else 0);
            if t !in s.routes then n == 0
            else
              && route.rule == s.routes[t].rule
              && n <= s.routes[t].clients + (if s.routes[t].lock.Some? then 1 else 0) +
                      (if step.Admit? && s.pcs[step.c].t == t then 1 else 0)
              && (step.Admit? && s.pcs[step.c].t == t && s.pcs[step.c].isNew ==> n <= 1)
  {
    hide Counted, NoDanglingRule, AtLimit, RoutesOf, NewRules, NewPcs;
  }

  lemma CrowdedKeeps(limits: Limits, s: Router, step: Step)
    requires Inv(s) && PositiveLimits(limits) && Enabled(limits, s, step) && Crowded(s)
    ensures Crowded(Apply(limits, s, step))
  {
    var s' := Apply(limits, s, step);
    StepKeeps(limits, s, step);
    forall t | t in s'.routes
      ensures s'.routes[t].rule in s'.rules &&
              s'.routes[t].clients + (if s'.routes[t].lock.Some? then 1 else 0) <= Surplus(s', s'.routes[t].rule) + 1
    {
      var r := s'.routes[t].rule;
      assert r in s'.rules && Surplus(s', r) >= 0;
      CrowdAfter(limits, s, step, t);
      if t in s.routes {
        SurplusAfter(limits, s, step, r);
      }
      hide Inv, Surplus, AtLimit, RoutesOf, NewRules, NewRoutes, NewPcs;
    }
  }

  lemma ReportersKeep(limits: Limits, s: Router, step: Step)
    requires Inv(s) && LimitsFromTwo(limits) && Enabled(limits, s, step) && Crowded(s) && ReportersSafe(s)
    ensures ReportersSafe(Apply(limits, s, step))
  {
    var s' := Apply(limits, s, step);
    forall c | c in s'.pcs && s'.pcs[c].Turned?
      ensures s'.pcs[c].r in s'.rules && Surplus(s', s'.pcs[c].r) > 0
    {
      var r := s'.pcs[c].r;
      if r !in s'.rules {
        FreedWithoutSurplus(limits, s, step, r);
        assert false;
      }
      SurplusAfter(limits, s, step, r);
    }
  }

  lemma {:induction false} ReportersRun(limits: Limits, s: Router, steps: seq<Step>)
    requires Inv(s) && LimitsFromTwo(limits) && ValidRun(limits, s, steps) && Crowded(s) && ReportersSafe(s)
    ensures ReportersSafe(Exec(limits, s, steps))
    decreases |steps|
  {
    if steps != [] {
      StepKeeps(limits, s, steps[0]);
      CrowdedKeeps(limits, s, steps[0]);
      ReportersKeep(limits, s, steps[0]);
      hide Inv, Apply, Enabled, Crowded, ReportersSafe, PositiveLimits;
      ReportersRun(limits, Apply(limits, s, steps[0]), steps[1..]);
    }
  }

  // ---------------------------------------------------------------------- witnesses

  predicate Moves(limits: Limits, s: Router, step: Step, s': Router) {
    Enabled(limits, s, step) && Apply(limits, s, step) == s'
  }

  predicate Reached(limits: Limits, steps: seq<Step>, s: Router) {
    ValidRun(limits, EMPTY, steps) && Exec(limits, EMPTY, steps) == s
  }

  lemma {:induction false} RunSnoc(limits: Limits, s: Router, steps: seq<Step>, step: Step)
    requires ValidRun(limits, s, steps) && Enabled(limits, Exec(limits, s, steps), step)
    ensures ValidRun(limits, s, steps + [step])
    ensures Exec(limits, s, steps + [step]) == Apply(limits, Exec(limits, s, steps), step)
    decreases |steps|
  {
    if steps == [] {
      assert steps + [step] == [step] && [step][1..] == [];
    } else {
      hide Apply, Enabled;
      assert (steps + [step])[1..] == steps[1..] + [step];
      RunSnoc(limits, Apply(limits, s, steps[0]), steps[1..], step);
    }
  }

  lemma Extend(limits: Limits, steps: seq<Step>, s: Router, step: Step, s': Router) returns (more: seq<Step>)
    requires Reached(limits, steps, s) && Moves(limits, s, step, s')
    ensures Reached(limits, more, s')
  {
    RunSnoc(limits, EMPTY, steps, step);
    more := steps + [step];
  }

  /** One dynamic rule with its references, the routes, and what the threads do. */
  function Small(lock: Option<nat>, r: nat, refs: int, routes: map<nat, Route>, pcs: map<nat, Pc>): Router {
    Router(lock, map[r := Rule(refs, false, true)], routes, pcs)
  }

  lemma RuleAdded(limits: Limits, r: nat) returns (steps: seq<Step>)
    ensures Reached(limits, steps, Small(None, r, 0, map[], map[]))
  {
    var s1 := Router(Some(0), map[], map[], map[0 := Merging]);
    var s2 := Small(Some(0), r, 0, map[], map[0 := Merging]);
    assert Moves(limits, EMPTY, Lock(0, Merging), s1);
    assert RoutesOf(s1, r) == {};
    assert Moves(limits, s1, AddRule(0, r, true), s2);
    assert Moves(limits, s2, Unlock(0), Small(None, r, 0, map[], map[]));
    steps := [];
    assert Reached(limits, steps, EMPTY);
    hide Moves, Reached;
    steps := Extend(limits, steps, EMPTY, Lock(0, Merging), s1);
    steps := Extend(limits, steps, s1, AddRule(0, r, true), s2);
    steps := Extend(limits, steps, s2, Unlock(0), Small(None, r, 0, map[], map[]));
  }

  /** A reload frees the rule, whose references are all gone, behind the back of client 2. */
  lemma RuleFreed(limits: Limits, before: seq<Step>, r: nat, routes: map<nat, Route>)
    returns (steps: seq<Step>, end: Router)
    requires Reached(limits, before, Small(None, r, 0, routes, map[2 := Turned(r)]))
    ensures Reached(limits, steps, end) && !ReportersHaveRule(end)
  {
    var s := Small(None, r, 0, routes, map[2 := Turned(r)]);
    var pcs := map[2 := Turned(r)][0 := Merging];
    var s1 := Small(Some(0), r, 0, routes, pcs);
    var s2 := s1.(rules := map[r := Rule(0, true, true)]);
    end := Router(Some(0), map[], routes, pcs);
    assert Moves(limits, s, Lock(0, Merging), s1);
    assert Moves(limits, s1, MarkObsolete(0, r), s2);
    assert s2.rules - {r} == map[];
    assert Moves(limits, s2, FreeRule(0, r), end);
    assert end.pcs[2] == Turned(r);
    hide Moves, Reached;
    steps := Extend(limits, before, s, Lock(0, Merging), s1);
    steps := Extend(limits, steps, s1, MarkObsolete(0, r), s2);
    steps := Extend(limits, steps, s2, FreeRule(0, r), end);
  }

  /** Client 2 matches a route at its limit and is turned away. */
  lemma TurnedAway(limits: Limits, before: seq<Step>, r: nat, refs: int, route: Route, pcs: map<nat, Pc>)
    returns (steps: seq<Step>)
    requires limits(r).Some? && route.rule == r && route.lock == None && route.clients >= limits(r).value
    requires 2 !in pcs && Reached(limits, before, Small(None, r, refs, map[0 := route], pcs))
    ensures Reached(limits, steps, Small(None, r, refs, map[0 := route], pcs[2 := Turned(r)]))
  {
    var routes := map[0 := route];
    var s := Small(None, r, refs, routes, pcs);
    var s1 := Small(Some(2), r, refs, routes, pcs[2 := Choosing]);
    var s2 := Small(Some(2), r, refs + 1, routes, pcs[2 := Entering(0, false)]);
    var s3 := Small(None, r, refs, routes, pcs[2 := Turned(r)]);
    assert Moves(limits, s, Lock(2, Choosing), s1);
    assert Moves(limits, s1, Choose(2, r, 0), s2);
    assert Moves(limits, s2, Reject(2), s3);
    hide Moves, Reached;
    steps := Extend(limits, before, s, Lock(2, Choosing), s1);
    steps := Extend(limits, steps, s1, Choose(2, r, 0), s2);
    steps := Extend(limits, steps, s2, Reject(2), s3);
  }

  /** With a limit below one, client 2 is turned away from the route that was made for it. */
  lemma FirstTurnedAway(limits: Limits, r: nat) returns (steps: seq<Step>)
    requires limits(r).Some? && limits(r).value < 1
    ensures Reached(limits, steps, Small(None, r, 0, map[0 := Route(r, 0, 0, None)], map[2 := Turned(r)]))
  {
    var routes := map[0 := Route(r, 0, 0, None)];
    var s := Small(None, r, 0, map[], map[]);
    var s1 := Small(Some(2), r, 0, map[], map[2 := Choosing]);
    var s2 := Small(Some(2), r, 1, routes, map[2 := Entering(0, true)]);
    var s3 := Small(None, r, 0, routes, map[2 := Turned(r)]);
    assert Moves(limits, s, Lock(2, Choosing), s1);
    assert Moves(limits, s1, Choose(2, r, 0), s2);
    assert Moves(limits, s2, Reject(2), s3);
    steps := RuleAdded(limits, r);
    hide Moves, Reached;
    steps := Extend(limits, steps, s, Lock(2, Choosing), s1);
    steps := Extend(limits, steps, s1, Choose(2, r, 0), s2);
    steps := Extend(limits, steps, s2, Reject(2), s3);
  }

  /** Client 1 matches the rule, and a route is made for it. */
  lemma FirstMatched(limits: Limits, r: nat) returns (steps: seq<Step>)
    ensures Reached(limits, steps, Small(Some(1), r, 1, map[0 := Route(r, 0, 0, None)], map[1 := Entering(0, true)]))
  {
    var s := Small(None, r, 0, map[], map[]);
    var s1 := Small(Some(1), r, 0, map[], map[1 := Choosing]);
    var s2 := Small(Some(1), r, 1, map[0 := Route(r, 0, 0, None)], map[1 := Entering(0, true)]);
    assert Moves(limits, s, Lock(1, Choosing), s1);
    assert Moves(limits, s1, Choose(1, r, 0), s2);
    hide Moves, Reached;
    steps := RuleAdded(limits, r);
    steps := Extend(limits, steps, s, Lock(1, Choosing), s1);
    steps := Extend(limits, steps, s1, Choose(1, r, 0), s2);
  }

  lemma FirstRouted(limits: Limits, r: nat) returns (steps: seq<Step>)
    requires limits(r) == Some(1)
    ensures Reached(limits, steps, Small(None, r, 1, map[0 := Route(r, 1, 0, None)], map[1 := Routed(0)]))
  {
    var s2 := Small(Some(1), r, 1, map[0 := Route(r, 0, 0, None)], map[1 := Entering(0, true)]);
    var s3 := Small(None, r, 1, map[0 := Route(r, 0, 0, Some(1))], map[1 := Placing(0)]);
    var s4 := Small(None, r, 1, map[0 := Route(r, 1, 0, None)], map[1 := Routed(0)]);
    assert Moves(limits, s2, Admit(1), s3);
    assert Moves(limits, s3, Place(1), s4);
    hide Moves, Reached;
    steps := FirstMatched(limits, r);
    steps := Extend(limits, steps, s2, Admit(1), s3);
    steps := Extend(limits, steps, s3, Place(1), s4);
  }

  /** Client 1 leaves. */
  lemma FirstLeaves(limits: Limits, before: seq<Step>, r: nat) returns (steps: seq<Step>)
    requires Reached(limits, before,
                     Small(None, r, 1, map[0 := Route(r, 1, 0, None)], map[1 := Routed(0)][2 := Turned(r)]))
    ensures Reached(limits, steps, Small(None, r, 1, map[0 := Route(r, 0, 0, None)], map[2 := Turned(r)]))
  {
    var s := Small(None, r, 1, map[0 := Route(r, 1, 0, None)], map[1 := Routed(0)][2 := Turned(r)]);
    var s1 := Small(None, r, 1, map[0 := Route(r, 0, 0, None)], map[2 := Turned(r)]);
    assert map[1 := Routed(0)][2 := Turned(r)] - {1} == map[2 := Turned(r)];
    assert Moves(limits, s, Unroute(1), s1);
    hide Moves, Reached;
    steps := Extend(limits, before, s, Unroute(1), s1);
  }

  /** Its route is collected with the last reference. */
  lemma RouteCollected(limits: Limits, before: seq<Step>, r: nat, turned: map<nat, Pc>) returns (steps: seq<Step>)
    requires 0 !in turned && Reached(limits, before, Small(None, r, 1, map[0 := Route(r, 0, 0, None)], turned))
    ensures Reached(limits, steps, Small(None, r, 0, map[], turned))
  {
    var routes := map[0 := Route(r, 0, 0, None)];
    var s1 := Small(None, r, 1, routes, turned);
    var s2 := Small(Some(0), r, 1, routes, turned[0 := Collecting]);
    var s3 := Small(Some(0), r, 0, map[], turned[0 := Collecting]);
    assert Moves(limits, s1, Lock(0, Collecting), s2);
    assert routes - {0} == map[] && turned[0 := Collecting] - {0} == turned;
    assert Moves(limits, s2, Collect(0, 0), s3);
    assert Moves(limits, s3, Unlock(0), Small(None, r, 0, map[], turned));
    hide Moves, Reached;
    steps := Extend(limits, before, s1, Lock(0, Collecting), s2);
    steps := Extend(limits, steps, s2, Collect(0, 0), s3);
    steps := Extend(limits, steps, s3, Unlock(0), Small(None, r, 0, map[], turned));
  }

  lemma ReporterStranded(limits: Limits, r: nat) returns (steps: seq<Step>, end: Router)
    requires limits(r).Some? && limits(r).value < 2
    ensures Reached(limits, steps, end) && !ReportersHaveRule(end)
  {
    hide Reached;
    if limits(r).value < 1 {
      steps := FirstTurnedAway(limits, r);
      steps, end := RuleFreed(limits, steps, r, map[0 := Route(r, 0, 0, None)]);
    } else {
      steps := FirstRouted(limits, r);
      steps := TurnedAway(limits, steps, r, 1, Route(r, 1, 0, None), map[1 := Routed(0)]);
      steps := FirstLeaves(limits, steps, r);
      steps := RouteCollected(limits, steps, r, map[2 := Turned(r)]);
      steps, end := RuleFreed(limits, steps, r, map[]);
    }
  }

  /**
   A client that was turned away reads its rule after it has given up reference and locks. In every run the
   rule is still there, if and only if no rule sets `client_max` below two: from two on, the clients that fill
   the route have left references behind that keep the rule for good.
   */
  lemma ReportersHaveRuleIff(limits: Limits)
    ensures (forall steps: seq<Step> :: ValidRun(limits, EMPTY, steps) ==>
               ReportersHaveRule(Exec(limits, EMPTY, steps))) <==> LimitsFromTwo(limits)
  {
    if LimitsFromTwo(limits) {
      forall steps: seq<Step> | ValidRun(limits, EMPTY, steps) ensures ReportersHaveRule(Exec(limits, EMPTY, steps)) {
        ReportersRun(limits, EMPTY, steps);
      }
    } else {
      var r :| limits(r).Some? && limits(r).value < 2;
      var steps, end := ReporterStranded(limits, r);
      assert !ReportersHaveRule(Exec(limits, EMPTY, steps));
    }
  }
}
