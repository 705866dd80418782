/**
 Clients of one route competing for its servers: attach, detach, close, expiry, and the wait bus on which
 a detaching client wakes a queued one. A step is one critical section under the route lock, or one
 operation on the bus; between them any client of any worker may run.
 */
module AttachProtocol {
  import opened Wrappers

  // ------------------------------------------------------------------ state

  /** A server: its pool, the client it is attached to, and the cancel key it was given at its last attach. */
  datatype Slot = Slot(active: bool, client: Option<nat>, key: nat)

  /** Where a client is between its critical sections. */
  datatype Place =
    | Rest        // pending, not asking for a server
    | Spin        // sleeping because too many connections are being opened
    | Parting     // found no server and has released the lock, not yet on the bus
    | Blocked     // reading from the bus
    | Woken       // has a message from the bus, not yet back under the lock
    | Creating    // has released the lock to allocate a server
    | Refused     // gave up; still counted as queued until it leaves
    | Attached
    | Owing       // has put its server back and still has to signal
  {
    /** The client is in the pool's queue. */
    predicate Queued() {
      Spin? || Parting? || Blocked? || Woken? || Creating? || Refused?
    }

    predicate Waiting() {
      Parting? || Blocked?
    }
  }

  /** `idleOnly`: the last server could not be opened for too many connections, so it wants an idle one. */
  datatype Client = Client(place: Place, worker: nat, key: nat, server: Option<nat>, idleOnly: bool)

  /** `messages` are on the bus; `dropped` is a ghost count of those a timed-out reader took with it. */
  datatype Route = Route(servers: map<nat, Slot>, clients: map<nat, Client>, messages: nat, dropped: nat)

  datatype Config = Config(poolSize: nat, workers: nat, poolTimeout: int)
  {
    /** A wait can time out: a timeout of zero stands for the largest unsigned one, and that one starts no timer. */
    predicate TimesOut() {
      poolTimeout != 0 && poolTimeout != -1
    }
  }

  const EMPTY := Route(map[], map[], 0, 0)

  function IdleServers(r: Route): set<nat> {
    set s | s in r.servers && !r.servers[s].active
  }

  function ActiveServers(r: Route): set<nat> {
    set s | s in r.servers && r.servers[s].active
  }

  function In(r: Route, p: Place): set<nat> {
    set c | c in r.clients && r.clients[c].place == p
  }

  // ------------------------------------------------------------------ steps

  datatype Step =
    | Join(c: nat, worker: nat, key: nat)
    | Leave(c: nat)
    | Seek(c: nat, busy: bool, s: nat)
    | ReadStopFails(c: nat)
    | Wait(c: nat)
    | Deliver(c: nat)
    | Timeout(c: nat, drops: bool)
    | Create(c: nat, s: nat)
    | CreateFails(c: nat)
    | Detach(c: nat)
    | Signal(c: nat)
    | Close(c: nat, retry: bool)
    | Expire(s: nat)

  /** No other client of the same worker is between the capacity check and the insertion. */
  predicate WorkerFree(r: Route, c: nat)
    requires c in r.clients
  {
    forall d :: d in r.clients && d != c && r.clients[d].worker == r.clients[c].worker ==>
      !r.clients[d].place.Creating?
  }

  predicate Has(r: Route, c: nat, places: set<Place>) {
    c in r.clients && r.clients[c].place in places && WorkerFree(r, c)
  }

  predicate HasCapacity(cfg: Config, r: Route) {
    cfg.poolSize == 0 || |r.servers| < cfg.poolSize
  }

  predicate Enabled(cfg: Config, r: Route, step: Step) {
    match step
    case Join(c, worker, _) => c !in r.clients && worker < cfg.workers
    case Leave(c) => Has(r, c, {Rest, Refused})
    case Seek(c, _, s) => Has(r, c, {Rest, Spin, Woken}) && (IdleServers(r) != {} ==> s in IdleServers(r))
    case ReadStopFails(c) => Has(r, c, {Parting})
    case Wait(c) => Has(r, c, {Parting})
    case Deliver(c) => Has(r, c, {Blocked}) && r.messages > 0
    case Timeout(c, drops) => cfg.TimesOut() && Has(r, c, {Blocked}) && (drops ==> r.messages > 0)
    case Create(c, s) => Has(r, c, {Creating}) && s !in r.servers
    case CreateFails(c) => Has(r, c, {Creating})
    case Detach(c) => Has(r, c, {Attached}) && r.clients[c].server.Some? && r.clients[c].server.value in r.servers
    case Signal(c) => Has(r, c, {Owing})
    case Close(c, retry) =>
      && Has(r, c, {Attached}) && r.clients[c].server.Some? && r.clients[c].server.value in r.servers
      && (retry ==> cfg.poolTimeout > 0)
    case Expire(s) => s in IdleServers(r)
  }

  /** What a step does to the two pools. */
  datatype Effect =
    | Joins(c: nat, client: Client)
    | Leaves(c: nat)
    | Moves(c: nat, to: Place)
    | Takes(c: nat, s: nat)
    | Frees(c: nat, to: Place, keep: bool, idleOnly: bool)
    | Expires(s: nat)

  /** One pass of the attach loop under the lock. */
  function SeekPass(cfg: Config, r: Route, c: nat, busy: bool, s: nat): Effect
    requires c in r.clients
  {
    if IdleServers(r) != {} then Takes(c, s)
    else if r.clients[c].idleOnly then Moves(c, if ActiveServers(r) == {} then Refused else Parting)
    else if HasCapacity(cfg, r) then Moves(c, if busy then Spin else Creating)
    else Moves(c, Parting)
  }

  /** Whether anybody is queued; the detaching client itself is pending again by then. */
  predicate SomeQueued(r: Route) {
    exists d :: d in r.clients && r.clients[d].place.Queued()
  }

  function EffectOf(cfg: Config, r: Route, step: Step): Effect
    requires Enabled(cfg, r, step)
  {
    match step
    case Join(c, worker, key) => Joins(c, Client(Rest, worker, key, None, false))
    case Leave(c) => Leaves(c)
    case Seek(c, busy, s) => SeekPass(cfg, r, c, busy, s)
    case ReadStopFails(c) => Moves(c, Refused)
    case Wait(c) => Moves(c, Blocked)
    case Deliver(c) => Moves(c, Woken)
    case Timeout(c, _) => Moves(c, Refused)
    case Create(c, s) => Takes(c, s)
    case CreateFails(c) => Moves(c, Refused)
    case Detach(c) => Frees(c, if SomeQueued(r) then Owing else Rest, true, false)
    case Signal(c) => Moves(c, Rest)
    case Close(c, retry) => Frees(c, Rest, false, retry)
    case Expire(s) => Expires(s)
  }

  function Clients(r: Route, e: Effect): map<nat, Client>
    requires e.Joins? || e.Expires? || e.c in r.clients
  {
    match e
    case Joins(c, client) => r.clients[c := client]
    case Leaves(c) => r.clients - {c}
    case Moves(c, p) => r.clients[c := r.clients[c].(place := p)]
    case Takes(c, s) => r.clients[c := r.clients[c].(place := Attached, server := Some(s))]
    case Frees(c, p, _, idleOnly) => r.clients[c := r.clients[c].(place := p, server := None, idleOnly := idleOnly)]
    case Expires(_) => r.clients
  }

  function Servers(r: Route, e: Effect): map<nat, Slot>
    requires e.Joins? || e.Expires? || e.c in r.clients
    requires e.Frees? ==> r.clients[e.c].server.Some? && r.clients[e.c].server.value in r.servers
  {
    match e
    case Takes(c, s) => r.servers[s := Slot(true, Some(c), r.clients[c].key)]
    case Frees(c, _, keep, _) =>
      var s := r.clients[c].server.value;
      if keep then r.servers[s := r.servers[s].(active := false, client := None)] else r.servers - {s}
    case Expires(s) => r.servers - {s}
    case _ => r.servers
  }

  function Apply(cfg: Config, r: Route, step: Step): Route
    requires Enabled(cfg, r, step)
  {
    var e := EffectOf(cfg, r, step);
    Route(Servers(r, e), Clients(r, e),
          if step.Signal? then r.messages + 1
          else if step.Deliver? || (step.Timeout? && step.drops) then r.messages - 1
          else r.messages,
          if step.Timeout? && step.drops then r.dropped + 1 else r.dropped)
  }

  // -------------------------------------------------------------- invariants

  /** Attached clients and active servers are in bijection, and a server carries its client's key. */
  predicate Paired(r: Route) {
    && (forall c :: c in r.clients ==> (r.clients[c].place.Attached? <==> r.clients[c].server.Some?))
    && (forall c :: c in r.clients && r.clients[c].server.Some? ==>
          && r.clients[c].server.value in r.servers
          && r.servers[r.clients[c].server.value] == Slot(true, Some(c), r.clients[c].key))
    && (forall s :: s in r.servers ==> (r.servers[s].active <==> r.servers[s].client.Some?))
    && (forall s :: s in r.servers && r.servers[s].client.Some? ==>
          && r.servers[s].client.value in r.clients
          && r.clients[r.servers[s].client.value].server == Some(s))
  }

  /**
   While somebody waits, every idle server is accounted for by a message on the bus, a signal that is
   still owed, or a woken client that has not come back yet.
   */
  predicate NoLostWakeup(r: Route) {
    (exists c :: c in r.clients && r.clients[c].place.Waiting()) ==>
      |IdleServers(r)| <= Wakeups(r)
  }

  function Wakeups(r: Route): nat {
    r.messages + |In(r, Owing)| + |In(r, Woken)| + r.dropped
  }

  predicate OneCreationPerWorker(cfg: Config, r: Route) {
    && (forall c :: c in r.clients ==> r.clients[c].worker < cfg.workers)
    && (forall c, d :: c in In(r, Creating) && d in In(r, Creating) && c != d ==>
          r.clients[c].worker != r.clients[d].worker)
  }

  predicate WithinPool(cfg: Config, r: Route) {
    cfg.poolSize > 0 ==> |r.servers| + |In(r, Creating)| <= cfg.poolSize + cfg.workers - 1
  }

  predicate Inv(cfg: Config, r: Route) {
    Paired(r) && NoLostWakeup(r) && OneCreationPerWorker(cfg, r) && WithinPool(cfg, r)
  }

  // ------------------------------------------------------------ preservation

  /** What an enabled step guarantees about its effect. */
  predicate Fits(cfg: Config, r: Route, e: Effect) {
    && (e.Joins? ==> e.c !in r.clients && e.client.place.Rest? && e.client.server == None &&
                     e.client.worker < cfg.workers)
    && (e.Leaves? || e.Moves? || e.Takes? || e.Frees? ==> e.c in r.clients && WorkerFree(r, e.c))
    && (e.Leaves? ==> r.clients[e.c].place.Rest? || r.clients[e.c].place.Refused?)
    && (e.Moves? ==> !r.clients[e.c].place.Attached? && !e.to.Attached?)
    && (e.Moves? && e.to.Creating? ==> HasCapacity(cfg, r))
    && (e.Takes? ==> !r.clients[e.c].place.Attached? && (e.s in r.servers ==> !r.servers[e.s].active))
    && (e.Takes? && e.s !in r.servers ==> r.clients[e.c].place.Creating?)
    && (e.Frees? ==> r.clients[e.c].place.Attached? && r.clients[e.c].server.Some? &&
                     r.clients[e.c].server.value in r.servers && (e.to.Rest? || e.to.Owing?))
    && (e.Expires? ==> e.s in r.servers && !r.servers[e.s].active)
  }

  lemma EffectFits(cfg: Config, r: Route, step: Step)
    requires Enabled(cfg, r, step)
    ensures Fits(cfg, r, EffectOf(cfg, r, step))
  {
  }

  lemma PairedKeeps(cfg: Config, r: Route, r': Route, e: Effect)
    requires Paired(r) && Fits(cfg, r, e) && r'.clients == Clients(r, e) && r'.servers == Servers(r, e)
    ensures Paired(r')
  {
  }

  lemma CreationKeeps(cfg: Config, r: Route, r': Route, e: Effect)
    requires OneCreationPerWorker(cfg, r) && Fits(cfg, r, e) && r'.clients == Clients(r, e)
    ensures OneCreationPerWorker(cfg, r')
  {
  }

  /** How the clients at a place change. */
  lemma InAfter(cfg: Config, r: Route, r': Route, e: Effect, p: Place)
    requires Fits(cfg, r, e) && r'.clients == Clients(r, e)
    ensures In(r', p) == if e.Expires? then In(r, p)
                         else if !e.Leaves? && r'.clients[e.c].place == p then In(r, p) + {e.c}
                         else In(r, p) - {e.c}
  {
  }

  /** Clients on different workers are no more than there are workers. */
  lemma {:induction false} WorkersBound(clients: map<nat, Client>, some: set<nat>, workers: nat)
    requires forall c :: c in some ==> c in clients && clients[c].worker < workers
    requires forall c, d :: c in some && d in some && c != d ==> clients[c].worker != clients[d].worker
    ensures |some| <= workers
  {
    if some != {} {
      if w :| w in some && clients[w].worker == workers - 1 {
        WorkersBound(clients, some - {w}, workers - 1);
      } else {
        var c :| c in some;
        assert clients[c].worker < workers;
        WorkersBound(clients, some, workers - 1);
      }
    }
  }

  lemma ServersAfter(cfg: Config, r: Route, e: Effect)
    requires Fits(cfg, r, e)
    ensures |Servers(r, e)| <= |r.servers| + (if e.Takes? && e.s !in r.servers then 1 else 0)
  {
    if e.Expires? {
      assert |r.servers| == |Servers(r, e)| + 1;
    } else if e.Frees? && !e.keep {
      assert |r.servers| == |Servers(r, e)| + 1;
    }
  }

  lemma WithinKeeps(cfg: Config, r: Route, r': Route, e: Effect)
    requires OneCreationPerWorker(cfg, r) && WithinPool(cfg, r) && Fits(cfg, r, e)
    requires r'.clients == Clients(r, e) && r'.servers == Servers(r, e)
    ensures WithinPool(cfg, r')
  {
    CreationKeeps(cfg, r, r', e);
    WorkersBound(r'.clients, In(r', Creating), cfg.workers);
    InAfter(cfg, r, r', e, Creating);
    ServersAfter(cfg, r, e);
    hide OneCreationPerWorker, Servers, WorkerFree;
    if e.Takes? && e.s !in r.servers {
      assert e.c in In(r, Creating);
    }
  }

  // ------------------------------------------------------------------- wakeup

  lemma IdleSet(r: Route, r': Route, s: nat, slot: Slot)
    requires r'.servers == r.servers[s := slot]
    ensures IdleServers(r') == if slot.active then IdleServers(r) - {s} else IdleServers(r) + {s}
  {
  }

  lemma IdleRemoved(r: Route, r': Route, s: nat)
    requires r'.servers == r.servers - {s}
    ensures IdleServers(r') == IdleServers(r) - {s}
  {
  }

  lemma IdleAfter(cfg: Config, r: Route, r': Route, e: Effect)
    requires Fits(cfg, r, e) && r'.servers == Servers(r, e)
    ensures |IdleServers(r')| <= |IdleServers(r)| + (if e.Frees? && e.keep then 1 else 0)
    ensures e.Takes? && e.s in r.servers ==> |IdleServers(r')| == |IdleServers(r)| - 1
  {
    if e.Takes? {
      IdleSet(r, r', e.s, Slot(true, Some(e.c), r.clients[e.c].key));
      assert e.s in r.servers ==> e.s in IdleServers(r);
    } else if e.Frees? {
      var s := r.clients[e.c].server.value;
      if e.keep {
        IdleSet(r, r', s, r'.servers[s]);
      } else {
        IdleRemoved(r, r', s);
      }
    } else if e.Expires? {
      IdleRemoved(r, r', e.s);
    }
    hide IdleServers, Fits;
  }

  /** A client that waits now was waiting before, unless it just found that nothing is idle. */
  lemma WaitingBefore(cfg: Config, r: Route, step: Step)
    requires Enabled(cfg, r, step)
    requires exists c :: c in Apply(cfg, r, step).clients && Apply(cfg, r, step).clients[c].place.Waiting()
    ensures (step.Seek? && IdleServers(r) == {}) || exists c :: c in r.clients && r.clients[c].place.Waiting()
  {
    var r' := Apply(cfg, r, step);
    var w :| w in r'.clients && r'.clients[w].place.Waiting();
    hide IdleServers, ActiveServers, HasCapacity, SomeQueued, WorkerFree;
    if w in r.clients && r.clients[w].place.Waiting() {
    } else {
      assert !step.Expire? && w == step.c;
    }
  }

  function Before(r: Route, e: Effect): Option<Place>
    requires e.Joins? || e.Expires? || e.c in r.clients
  {
    if e.Joins? || e.Expires? then None else Some(r.clients[e.c].place)
  }

  function After(e: Effect): Option<Place> {
    match e
    case Joins(_, client) => Some(client.place)
    case Leaves(_) => None
    case Moves(_, p) => Some(p)
    case Takes(_, _) => Some(Attached)
    case Frees(_, p, _, _) => Some(p)
    case Expires(_) => None
  }

  lemma CountAfter(cfg: Config, r: Route, r': Route, e: Effect, p: Place)
    requires Fits(cfg, r, e) && r'.clients == Clients(r, e)
    ensures |In(r', p)| ==
            |In(r, p)| - (if Before(r, e) == Some(p) then 1 else 0) + (if After(e) == Some(p) then 1 else 0)
  {
    InAfter(cfg, r, r', e, p);
    if !e.Expires? {
      assert e.c in In(r, p) <==> Before(r, e) == Some(p);
      assert !e.Leaves? ==> (r'.clients[e.c].place == p <==> After(e) == Some(p));
      hide Fits, WorkerFree, In, Clients;
      Sizes(In(r, p), e.c);
    }
  }

  lemma Sizes(a: set<nat>, c: nat)
    ensures |a + {c}| == |a| + (if c in a then 0 else 1) && |a - {c}| == |a| - (if c in a then 1 else 0)
  {
    assert c in a ==> a + {c} == a;
  }

  lemma WakeupsAfter(cfg: Config, r: Route, step: Step)
    requires Enabled(cfg, r, step)
    ensures var r' := Apply(cfg, r, step);
            Wakeups(r') >= Wakeups(r) - (if step.Seek? then 1 else 0)
                           + (if step.Detach? && SomeQueued(r) then 1 else 0)
  {
    var r' := Apply(cfg, r, step);
    var e := EffectOf(cfg, r, step);
    EffectFits(cfg, r, step);
    CountAfter(cfg, r, r', e, Owing);
    CountAfter(cfg, r, r', e, Woken);
    hide Fits, In, IdleServers, ActiveServers, HasCapacity, SomeQueued, WorkerFree, Clients, Servers;
  }

  lemma WakeupKeeps(cfg: Config, r: Route, step: Step)
    requires NoLostWakeup(r) && Enabled(cfg, r, step)
    ensures NoLostWakeup(Apply(cfg, r, step))
  {
    var r' := Apply(cfg, r, step);
    var e := EffectOf(cfg, r, step);
    if exists c :: c in r'.clients && r'.clients[c].place.Waiting() {
      WaitingBefore(cfg, r, step);
      WakeupsAfter(cfg, r, step);
      EffectFits(cfg, r, step);
      IdleAfter(cfg, r, r', e);
      if step.Detach? {
        var d :| d in r.clients && r.clients[d].place.Waiting();
        assert r.clients[d].place.Queued();
      }
      hide In, Wakeups, ActiveServers, HasCapacity, WorkerFree, Apply;
    }
  }

  // --------------------------------------------------------------- whole runs

  predicate ValidRun(cfg: Config, r: Route, steps: seq<Step>)
    decreases |steps|
  {
    steps == [] || (Enabled(cfg, r, steps[0]) && ValidRun(cfg, Apply(cfg, r, steps[0]), steps[1..]))
  }

  function Exec(cfg: Config, r: Route, steps: seq<Step>): Route
    requires ValidRun(cfg, r, steps)
    decreases |steps|
  {
    if steps == [] then r else Exec(cfg, Apply(cfg, r, steps[0]), steps[1..])
  }

  lemma {:induction false} RunSnoc(cfg: Config, r: Route, steps: seq<Step>, step: Step)
    requires ValidRun(cfg, r, steps) && Enabled(cfg, Exec(cfg, r, steps), step)
    ensures ValidRun(cfg, r, steps + [step])
    ensures Exec(cfg, r, steps + [step]) == Apply(cfg, Exec(cfg, r, steps), step)
    decreases |steps|
  {
    if steps == [] {
      assert steps + [step] == [step] && [step][1..] == [];
    } else {
      hide Apply, Enabled;
      assert (steps + [step])[1..] == steps[1..] + [step];
      RunSnoc(cfg, Apply(cfg, r, steps[0]), steps[1..], step);
    }
  }

  lemma StepKeeps(cfg: Config, r: Route, step: Step)
    requires Inv(cfg, r) && Enabled(cfg, r, step)
    ensures Inv(cfg, Apply(cfg, r, step))
  {
    var r' := Apply(cfg, r, step);
    var e := EffectOf(cfg, r, step);
    EffectFits(cfg, r, step);
    hide Fits, Paired, NoLostWakeup, OneCreationPerWorker, WithinPool, EffectOf;
    PairedKeeps(cfg, r, r', e);
    CreationKeeps(cfg, r, r', e);
    WithinKeeps(cfg, r, r', e);
    WakeupKeeps(cfg, r, step);
  }

  lemma {:induction false} RunKeeps(cfg: Config, r: Route, steps: seq<Step>)
    requires Inv(cfg, r) && ValidRun(cfg, r, steps)
    ensures Inv(cfg, Exec(cfg, r, steps))
    decreases |steps|
  {
    if steps != [] {
      StepKeeps(cfg, r, steps[0]);
      hide Inv, Apply, Enabled;
      RunKeeps(cfg, Apply(cfg, r, steps[0]), steps[1..]);
    }
  }

  lemma {:induction false} NothingDropped(cfg: Config, r: Route, steps: seq<Step>)
    requires ValidRun(cfg, r, steps) && !cfg.TimesOut()
    ensures Exec(cfg, r, steps).dropped == r.dropped
    decreases |steps|
  {
    if steps != [] {
      NothingDropped(cfg, Apply(cfg, r, steps[0]), steps[1..]);
    }
  }

  /**
   In every reachable state, for any number of clients and any interleaving: attached clients and active
   servers are in bijection, no wakeup is lost unless a message was dropped, which does not happen when waits
   have no time limit, and a positive `pool_size` is exceeded by at most
   `workers - 1` servers, counting those being created.
   */
  lemma AttachSafety(cfg: Config, steps: seq<Step>)
    requires ValidRun(cfg, EMPTY, steps)
    ensures var r := Exec(cfg, EMPTY, steps);
            && Paired(r)
            && (r.dropped == 0 && In(r, Blocked) != {} ==>
                  |IdleServers(r)| <= r.messages + |In(r, Owing)| + |In(r, Woken)|)
            && (cfg.poolTimeout in {0, -1} ==> r.dropped == 0)
            && (cfg.poolSize > 0 ==> |r.servers| + |In(r, Creating)| <= cfg.poolSize + cfg.workers - 1)
  {
    assert In(EMPTY, Creating) == {};
    RunKeeps(cfg, EMPTY, steps);
    if !cfg.TimesOut() {
      NothingDropped(cfg, EMPTY, steps);
    }
    var r := Exec(cfg, EMPTY, steps);
    hide Exec, ValidRun;
    if In(r, Blocked) != {} {
      var b :| b in In(r, Blocked);
      assert r.clients[b].place.Waiting();
    }
  }
}
