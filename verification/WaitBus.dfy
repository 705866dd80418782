/**
 The wait bus and the pool's capacity: how far the pool size can be exceeded, and in which runs a client
 keeps waiting although a server is idle or another one could be opened.
 */
module WaitBus {
  import opened AttachProtocol
  import opened Wrappers

  // ---------------------------------------------------------------- runs by kind

  /** The steps that take something away without telling anybody. */
  datatype Kind = Closing | FailedCreation | Dropping

  function KindOf(step: Step): Option<Kind> {
    match step
    case Close(_, _) => Some(Closing)
    case CreateFails(_) => Some(FailedCreation)
    case Timeout(_, true) => Some(Dropping)
    case _ => None
  }

  predicate Only(steps: seq<Step>, kinds: set<Kind>) {
    forall i :: 0 <= i < |steps| && KindOf(steps[i]).Some? ==> KindOf(steps[i]).value in kinds
  }

  predicate Moved(cfg: Config, r: Route, step: Step, r': Route) {
    Enabled(cfg, r, step) && Apply(cfg, r, step) == r'
  }

  /** A run to `r` in which of the steps above only those in `kinds` occur. */
  predicate Reached(cfg: Config, kinds: set<Kind>, steps: seq<Step>, r: Route) {
    ValidRun(cfg, EMPTY, steps) && Exec(cfg, EMPTY, steps) == r && Only(steps, kinds)
  }

  lemma Extend(cfg: Config, kinds: set<Kind>, steps: seq<Step>, r: Route, step: Step, r': Route)
    returns (more: seq<Step>)
    requires Reached(cfg, kinds, steps, r) && Moved(cfg, r, step, r')
    requires KindOf(step).Some? ==> KindOf(step).value in kinds
    ensures Reached(cfg, kinds, more, r')
  {
    RunSnoc(cfg, EMPTY, steps, step);
    more := steps + [step];
  }

  lemma ReachedInv(cfg: Config, kinds: set<Kind>, steps: seq<Step>, r: Route)
    requires Reached(cfg, kinds, steps, r)
    ensures Inv(cfg, r)
  {
    assert In(EMPTY, Creating) == {};
    RunKeeps(cfg, EMPTY, steps);
  }

  // --------------------------------------------------------- the bound is exact

  function CrowdServers(n: nat): (m: map<nat, Slot>)
    ensures forall s: nat :: s in m <==> s < n
    ensures forall s: nat :: s in m ==> m[s] == Slot(true, Some(s), 0)
  {
    if n == 0 then map[] else CrowdServers(n - 1)[n - 1 := Slot(true, Some(n - 1), 0)]
  }

  function CrowdClients(n: nat, k: nat): (m: map<nat, Client>)
    ensures forall c: nat :: c in m <==> c < n + k
    ensures forall c: nat :: c in m ==>
              m[c] == if c < n then Client(Attached, 0, 0, Some(c), false)
                      else Client(Creating, c - n, 0, None, false)
    decreases n, k
  {
    if k > 0 then CrowdClients(n, k - 1)[n + k - 1 := Client(Creating, k - 1, 0, None, false)]
    else if n > 0 then CrowdClients(n - 1, 0)[n - 1 := Client(Attached, 0, 0, Some(n - 1), false)]
    else map[]
  }

  predicate HasRoom(cfg: Config, n: nat) {
    cfg.poolSize == 0 || n < cfg.poolSize
  }

  /** `n` attached clients with a server each, and `k` more between capacity check and insertion. */
  function Crowd(n: nat, k: nat): Route {
    Route(CrowdServers(n), CrowdClients(n, k), 0, 0)
  }

  ghost function Range(lo: nat, hi: nat): (r: set<nat>)
    requires lo <= hi
    ensures forall i :: i in r <==> lo <= i < hi
    ensures |r| == hi - lo
    decreases hi
  {
    if lo == hi then {} else Range(lo, hi - 1) + {hi - 1}
  }

  lemma CrowdSize(n: nat, k: nat)
    ensures |Crowd(n, k).servers| == n && |In(Crowd(n, k), Creating)| == k && IdleServers(Crowd(n, k)) == {}
  {
    assert Crowd(n, k).servers.Keys == Range(0, n);
    assert |Crowd(n, k).servers| == |Crowd(n, k).servers.Keys|;
    assert In(Crowd(n, k), Creating) == Range(n, n + k);
  }

  lemma CrowdNone()
    ensures Crowd(0, 0) == EMPTY
  {
  }

  /** The crowd with one more client of worker `k` at rest. */
  function Visited(n: nat, k: nat): Route {
    Route(CrowdServers(n), CrowdClients(n, k)[n + k := Client(Rest, k, 0, None, false)], 0, 0)
  }

  lemma CrowdJoined(cfg: Config, n: nat, k: nat)
    requires k < cfg.workers
    ensures Enabled(cfg, Crowd(n, k), Join(n + k, k, 0))
    ensures Apply(cfg, Crowd(n, k), Join(n + k, k, 0)) == Visited(n, k)
  {
  }

  lemma SeekCreates(cfg: Config, r: Route, c: nat)
    requires Has(r, c, {Rest}) && !r.clients[c].idleOnly && IdleServers(r) == {} && HasCapacity(cfg, r)
    ensures Enabled(cfg, r, Seek(c, false, 0))
    ensures Apply(cfg, r, Seek(c, false, 0)) ==
            Route(r.servers, r.clients[c := r.clients[c].(place := Creating)], r.messages, r.dropped)
  {
  }

  lemma VisitorAlone(n: nat, k: nat)
    ensures var r := Visited(n, k); Has(r, n + k, {Rest}) && !r.clients[n + k].idleOnly
  {
  }

  lemma VisitedFacts(cfg: Config, n: nat, k: nat)
    requires HasRoom(cfg, n)
    ensures var r := Visited(n, k);
            Has(r, n + k, {Rest}) && !r.clients[n + k].idleOnly && IdleServers(r) == {} && HasCapacity(cfg, r)
  {
    VisitorAlone(n, k);
    CrowdSize(n, k);
    assert IdleServers(Visited(n, k)) == IdleServers(Crowd(n, k));
    hide In, Has, IdleServers, CrowdServers, CrowdClients;
  }

  lemma VisitedMoves(n: nat, k: nat)
    ensures
      var clients := Visited(n, k).clients;
      clients[n + k := clients[n + k].(place := Creating)] == CrowdClients(n, k + 1)
  {
  }

  lemma CrowdSought(cfg: Config, n: nat, k: nat)
    requires HasRoom(cfg, n) && k < cfg.workers
    ensures Enabled(cfg, Visited(n, k), Seek(n + k, false, 0))
    ensures Apply(cfg, Visited(n, k), Seek(n + k, false, 0)) == Crowd(n, k + 1)
  {
    VisitedMoves(n, k);
    hide Enabled, Apply, CrowdServers, CrowdClients, Has, IdleServers, HasCapacity;
    VisitedFacts(cfg, n, k);
    SeekCreates(cfg, Visited(n, k), n + k);
  }

  /** Another client of worker `k` slips through the capacity check. */
  lemma CrowdGrows(cfg: Config, n: nat, k: nat)
    requires HasRoom(cfg, n) && k < cfg.workers
    ensures var join, seek := Join(n + k, k, 0), Seek(n + k, false, 0);
            && Enabled(cfg, Crowd(n, k), join)
            && Enabled(cfg, Apply(cfg, Crowd(n, k), join), seek)
            && Apply(cfg, Apply(cfg, Crowd(n, k), join), seek) == Crowd(n, k + 1)
  {
    hide Crowd, Visited, Enabled, Apply;
    CrowdJoined(cfg, n, k);
    CrowdSought(cfg, n, k);
  }

  lemma CrowdSettles(cfg: Config, n: nat)
    requires cfg.workers > 0
    ensures Enabled(cfg, Crowd(n, 1), Create(n, n)) && Apply(cfg, Crowd(n, 1), Create(n, n)) == Crowd(n + 1, 0)
  {
  }

  /** Every crowd of fewer than `pool_size` attached clients and up to one creation a worker can come about. */
  lemma {:induction false} CrowdReached(cfg: Config, n: nat, k: nat) returns (steps: seq<Step>)
    requires HasRoom(cfg, n) && k <= cfg.workers && cfg.workers > 0
    ensures Reached(cfg, {}, steps, Crowd(n, k))
    decreases n, k
  {
    hide Crowd, Apply, Enabled;
    if k > 0 {
      steps := CrowdReached(cfg, n, k - 1);
      CrowdGrows(cfg, n, k - 1);
      var join, seek := Join(n + k - 1, k - 1, 0), Seek(n + k - 1, false, 0);
      hide Reached;
      steps := Extend(cfg, {}, steps, Crowd(n, k - 1), join, Apply(cfg, Crowd(n, k - 1), join));
      steps := Extend(cfg, {}, steps, Apply(cfg, Crowd(n, k - 1), join), seek, Crowd(n, k));
    } else if n > 0 {
      steps := CrowdReached(cfg, n - 1, 1);
      CrowdSettles(cfg, n - 1);
      steps := Extend(cfg, {}, steps, Crowd(n - 1, 1), Create(n - 1, n - 1), Crowd(n, 0));
    } else {
      steps := [];
      CrowdNone();
    }
  }

  /** No smaller bound than `pool_size + workers - 1` holds, whatever the two numbers are. */
  lemma BoundIsReached(cfg: Config) returns (steps: seq<Step>)
    requires cfg.poolSize > 0 && cfg.workers > 0
    ensures ValidRun(cfg, EMPTY, steps)
    ensures var r := Exec(cfg, EMPTY, steps); |r.servers| + |In(r, Creating)| == cfg.poolSize + cfg.workers - 1
  {
    steps := CrowdReached(cfg, cfg.poolSize - 1, cfg.workers);
    CrowdSize(cfg.poolSize - 1, cfg.workers);
  }

  // ------------------------------------------------------------- clients that wait

  /** Every server is in use, nothing is on the bus, and no client is under way. */
  predicate Quiet(r: Route) {
    && r.messages == 0 && (forall s :: s in r.servers ==> r.servers[s].active)
    && (forall c :: c in r.clients ==> r.clients[c].place in {Rest, Parting, Blocked, Refused, Attached})
  }

  function Put(r: Route, c: nat, p: Place): Route
    requires c in r.clients
  {
    r.(clients := r.clients[c := r.clients[c].(place := p)])
  }

  /** The client would have to wait. */
  predicate NoServerFor(cfg: Config, r: Route, c: nat)
    requires c in r.clients
  {
    if r.clients[c].idleOnly then r.servers != map[] else !HasCapacity(cfg, r)
  }

  lemma QuietFacts(r: Route)
    requires Quiet(r)
    ensures IdleServers(r) == {} && ActiveServers(r) == r.servers.Keys
    ensures forall c :: c in r.clients ==> WorkerFree(r, c)
  {
  }

  lemma Blocks(cfg: Config, kinds: set<Kind>, before: seq<Step>, r: Route, c: nat) returns (steps: seq<Step>)
    requires Reached(cfg, kinds, before, r) && Quiet(r) && c in r.clients && r.clients[c].place.Rest?
    requires NoServerFor(cfg, r, c)
    ensures Reached(cfg, kinds, steps, Put(r, c, Blocked)) && Quiet(Put(r, c, Blocked))
  {
    QuietFacts(r);
    QuietFacts(Put(r, c, Parting));
    assert r.clients[c].idleOnly ==> ActiveServers(r) != {} by {
      assert r.servers != map[] ==> r.servers.Keys != {};
    }
    hide IdleServers, ActiveServers, HasCapacity, WorkerFree, Reached;
    assert Moved(cfg, r, Seek(c, false, 0), Put(r, c, Parting));
    assert Put(r, c, Parting).clients[c := r.clients[c].(place := Blocked)] == Put(r, c, Blocked).clients;
    assert Moved(cfg, Put(r, c, Parting), Wait(c), Put(r, c, Blocked));
    steps := Extend(cfg, kinds, before, r, Seek(c, false, 0), Put(r, c, Parting));
    steps := Extend(cfg, kinds, steps, Put(r, c, Parting), Wait(c), Put(r, c, Blocked));
  }

  function Joined(r: Route, c: nat, p: Place): Route {
    r.(clients := r.clients[c := Client(p, 0, 0, None, false)])
  }

  lemma Joins(cfg: Config, kinds: set<Kind>, before: seq<Step>, r: Route, c: nat) returns (steps: seq<Step>)
    requires Reached(cfg, kinds, before, r) && cfg.workers > 0 && c !in r.clients
    ensures Reached(cfg, kinds, steps, Joined(r, c, Rest))
  {
    assert Moved(cfg, r, Join(c, 0, 0), Joined(r, c, Rest));
    steps := Extend(cfg, kinds, before, r, Join(c, 0, 0), Joined(r, c, Rest));
  }

  /** A new client blocks because the pool is full. */
  lemma LatecomerBlocks(cfg: Config, kinds: set<Kind>, before: seq<Step>, r: Route, c: nat) returns (steps: seq<Step>)
    requires Reached(cfg, kinds, before, r) && Quiet(r) && c !in r.clients && cfg.workers > 0 && !HasCapacity(cfg, r)
    ensures Reached(cfg, kinds, steps, Joined(r, c, Blocked)) && Quiet(Joined(r, c, Blocked))
  {
    hide Reached, HasCapacity;
    steps := Joins(cfg, kinds, before, r, c);
    var r1 := Joined(r, c, Rest);
    assert NoServerFor(cfg, r1, c) by { SameCapacity(cfg, r, r1); }
    assert Put(r1, c, Blocked) == Joined(r, c, Blocked);
    steps := Blocks(cfg, kinds, steps, r1, c);
  }

  lemma SameCapacity(cfg: Config, r: Route, r': Route)
    requires r'.servers == r.servers
    ensures HasCapacity(cfg, r') == HasCapacity(cfg, r)
  {
  }

  // -------------------------------------------------------------- a wakeup that is lost

  /** `r` with server `s` taken from client `z`. */
  function Returned(r: Route, z: nat, s: nat, p: Place): Route
    requires z in r.clients && s in r.servers
  {
    r.(servers := r.servers[s := r.servers[s].(active := false, client := None)],
       clients := r.clients[z := r.clients[z].(place := p, server := None, idleOnly := false)])
  }

  predicate Holds(r: Route, z: nat, s: nat) {
    z in r.clients && r.clients[z].place.Attached? && r.clients[z].server == Some(s) && s in r.servers
  }

  /** The holder gives its server back while somebody waits, and signals. */
  lemma GivesBack(cfg: Config, kinds: set<Kind>, before: seq<Step>, r: Route, z: nat, s: nat, a: nat)
    returns (steps: seq<Step>)
    requires Reached(cfg, kinds, before, r) && Quiet(r) && Holds(r, z, s)
    requires a in r.clients && r.clients[a].place.Blocked?
    ensures Reached(cfg, kinds, steps, Returned(r, z, s, Rest).(messages := 1))
  {
    var r1, r2 := Returned(r, z, s, Owing), Returned(r, z, s, Rest).(messages := 1);
    QuietFacts(r);
    assert r.clients[a].place.Queued();
    hide IdleServers, ActiveServers, HasCapacity, Reached;
    assert Moved(cfg, r, Detach(z), r1);
    assert WorkerFree(r1, z);
    assert r1.clients[z := r1.clients[z].(place := Rest)] == r2.clients;
    assert Moved(cfg, r1, Signal(z), r2);
    steps := Extend(cfg, kinds, before, r, Detach(z), r1);
    steps := Extend(cfg, kinds, steps, r1, Signal(z), r2);
  }

  /** The state after the message for `a` was dropped. */
  function Forgotten(r: Route, z: nat, s: nat, a: nat): Route
    requires z in r.clients && s in r.servers && a in r.clients
  {
    Put(Returned(r, z, s, Rest), a, Refused).(dropped := r.dropped + 1)
  }

  /** A reader whose timeout fires after a writer has handed it a message drops that message. */
  lemma MessageDropped(cfg: Config, kinds: set<Kind>, before: seq<Step>, r: Route, z: nat, s: nat, a: nat)
    returns (steps: seq<Step>)
    requires Reached(cfg, kinds, before, r) && Quiet(r) && Holds(r, z, s)
    requires a in r.clients && r.clients[a].place.Blocked?
    requires cfg.TimesOut() && Dropping in kinds
    ensures Reached(cfg, kinds, steps, Forgotten(r, z, s, a))
  {
    QuietFacts(r);
    var r1 := Returned(r, z, s, Rest).(messages := 1);
    assert WorkerFree(r1, a);
    hide Reached, IdleServers, ActiveServers, HasCapacity;
    steps := GivesBack(cfg, kinds, before, r, z, s, a);
    assert r1.clients[a] == r.clients[a];
    assert Moved(cfg, r1, Timeout(a, true), Forgotten(r, z, s, a));
    steps := Extend(cfg, kinds, steps, r1, Timeout(a, true), Forgotten(r, z, s, a));
  }

  /** While somebody is on the bus, there is something under way for every idle server. */
  predicate Answered(r: Route) {
    In(r, Blocked) != {} ==> |IdleServers(r)| <= r.messages + |In(r, Owing)| + |In(r, Woken)|
  }

  lemma ForgottenIsStuck(r: Route, z: nat, s: nat, a: nat, b: nat)
    requires Quiet(r) && Holds(r, z, s) && a in r.clients && r.clients[a].place.Blocked?
    requires b in r.clients && r.clients[b].place.Blocked? && a != b
    ensures !Answered(Forgotten(r, z, s, a))
  {
    var end := Forgotten(r, z, s, a);
    assert b in In(end, Blocked) && IdleServers(end) == {s} && In(end, Owing) == {} && In(end, Woken) == {};
  }

  /** The pool is full, and clients `n` and `n + 1` are blocked. */
  function FullHouse(n: nat): Route {
    Joined(Joined(Crowd(n, 0), n, Blocked), n + 1, Blocked)
  }

  lemma CrowdIsFull(cfg: Config, n: nat)
    requires n == cfg.poolSize && n > 0
    ensures Quiet(Crowd(n, 0)) && Holds(Crowd(n, 0), 0, 0) && !HasCapacity(cfg, Crowd(n, 0))
    ensures n !in Crowd(n, 0).clients && n + 1 !in Crowd(n, 0).clients
  {
    CrowdSize(n, 0);
    hide In, IdleServers;
  }

  /** Each of the kinds may occur beside those that do. */
  lemma Wider(cfg: Config, steps: seq<Step>, r: Route, kinds: set<Kind>)
    requires Reached(cfg, {}, steps, r)
    ensures Reached(cfg, kinds, steps, r)
  {
  }

  lemma FullCrowdReached(cfg: Config) returns (steps: seq<Step>)
    requires cfg.workers > 0 && cfg.poolSize > 0
    ensures Reached(cfg, {}, steps, Crowd(cfg.poolSize, 0))
  {
    var n := cfg.poolSize;
    hide Reached, Crowd, Enabled, Apply;
    CrowdSettles(cfg, n - 1);
    steps := CrowdReached(cfg, n - 1, 1);
    steps := Extend(cfg, {}, steps, Crowd(n - 1, 1), Create(n - 1, n - 1), Crowd(n, 0));
  }

  /** Two new clients block one after the other. */
  lemma TwoBlock(cfg: Config, kinds: set<Kind>, before: seq<Step>, r: Route, a: nat, b: nat) returns (steps: seq<Step>)
    requires Reached(cfg, kinds, before, r) && Quiet(r) && a !in r.clients && b !in r.clients && a != b
    requires cfg.workers > 0 && !HasCapacity(cfg, r)
    ensures var end := Joined(Joined(r, a, Blocked), b, Blocked); Reached(cfg, kinds, steps, end) && Quiet(end)
  {
    hide Reached, Quiet, HasCapacity;
    steps := LatecomerBlocks(cfg, kinds, before, r, a);
    SameCapacity(cfg, r, Joined(r, a, Blocked));
    steps := LatecomerBlocks(cfg, kinds, steps, Joined(r, a, Blocked), b);
  }

  lemma FullHouseReached(cfg: Config, kinds: set<Kind>) returns (steps: seq<Step>)
    requires cfg.workers > 0 && cfg.poolSize > 0
    ensures Reached(cfg, kinds, steps, FullHouse(cfg.poolSize)) && Quiet(FullHouse(cfg.poolSize))
    ensures Holds(FullHouse(cfg.poolSize), 0, 0)
  {
    var n := cfg.poolSize;
    CrowdIsFull(cfg, n);
    hide Reached, Crowd, Quiet, HasCapacity;
    steps := FullCrowdReached(cfg);
    Wider(cfg, steps, Crowd(n, 0), kinds);
    steps := TwoBlock(cfg, kinds, steps, Crowd(n, 0), n, n + 1);
  }

  // -------------------------------------------------------- waiting for an idle server

  /** `c` holds the new server `s`. */
  function Taken(r: Route, c: nat, s: nat): Route {
    r.(servers := r.servers[s := Slot(true, Some(c), 0)],
       clients := r.clients[c := Client(Attached, 0, 0, Some(s), false)])
  }

  lemma OpensMoves(cfg: Config, r: Route, c: nat, s: nat)
    requires Quiet(r) && c !in r.clients && s !in r.servers && HasCapacity(cfg, r)
    ensures Moved(cfg, Joined(r, c, Rest), Seek(c, false, 0), Joined(r, c, Creating))
    ensures Moved(cfg, Joined(r, c, Creating), Create(c, s), Taken(r, c, s))
  {
    var r1, r2 := Joined(r, c, Rest), Joined(r, c, Creating);
    QuietFacts(r1);
    SameCapacity(cfg, r, r1);
    assert WorkerFree(r2, c);
    assert r1.clients[c := r1.clients[c].(place := Creating)] == r2.clients;
    assert r2.clients[c := r2.clients[c].(place := Attached, server := Some(s))] == Taken(r, c, s).clients;
    hide IdleServers, ActiveServers, HasCapacity, WorkerFree, Quiet;
  }

  /** A new client opens a server. */
  lemma Opens(cfg: Config, kinds: set<Kind>, before: seq<Step>, r: Route, c: nat, s: nat) returns (steps: seq<Step>)
    requires Reached(cfg, kinds, before, r) && Quiet(r) && c !in r.clients && s !in r.servers
    requires cfg.workers > 0 && HasCapacity(cfg, r)
    ensures Reached(cfg, kinds, steps, Taken(r, c, s)) && Quiet(Taken(r, c, s))
  {
    assert Quiet(Taken(r, c, s));
    OpensMoves(cfg, r, c, s);
    hide Reached, Moved, HasCapacity, Quiet, Taken;
    steps := Joins(cfg, kinds, before, r, c);
    steps := Extend(cfg, kinds, steps, Joined(r, c, Rest), Seek(c, false, 0), Joined(r, c, Creating));
    steps := Extend(cfg, kinds, steps, Joined(r, c, Creating), Create(c, s), Taken(r, c, s));
  }

  /** `c` is at rest and wants an idle server. */
  function Choosy(r: Route, c: nat): Route {
    r.(clients := r.clients[c := Client(Rest, 0, 0, None, true)])
  }

  /** A new client opens a server in vain: too many connections. */
  lemma Visits(cfg: Config, kinds: set<Kind>, before: seq<Step>, r: Route, c: nat, s: nat) returns (steps: seq<Step>)
    requires Reached(cfg, kinds, before, r) && Quiet(r) && c !in r.clients && s !in r.servers
    requires cfg.workers > 0 && HasCapacity(cfg, r) && cfg.poolTimeout > 0 && Closing in kinds
    ensures Reached(cfg, kinds, steps, Choosy(r, c)) && Quiet(Choosy(r, c))
  {
    var r1 := Taken(r, c, s);
    hide Reached, HasCapacity;
    steps := Opens(cfg, kinds, before, r, c, s);
    QuietFacts(r1);
    assert r1.servers - {s} == r.servers;
    assert r1.clients[c := r1.clients[c].(place := Rest, server := None, idleOnly := true)] == Choosy(r, c).clients;
    hide IdleServers, ActiveServers, WorkerFree;
    assert Moved(cfg, r1, Close(c, true), Choosy(r, c));
    steps := Extend(cfg, kinds, steps, r1, Close(c, true), Choosy(r, c));
  }

  /** Clients 1 and 2 want an idle server, and client 0 has the only one. */
  function Choosers(): Route {
    Taken(Choosy(Choosy(EMPTY, 1), 2), 0, 0)
  }

  lemma ChoosersBlocked(cfg: Config, kinds: set<Kind>) returns (steps: seq<Step>, r: Route)
    requires cfg.workers > 0 && cfg.poolSize == 0 && cfg.poolTimeout > 0 && Closing in kinds
    ensures Reached(cfg, kinds, steps, r) && Quiet(r) && Holds(r, 0, 0)
    ensures 1 in r.clients && r.clients[1].place.Blocked? && 2 in r.clients && r.clients[2].place.Blocked?
  {
    assert Reached(cfg, kinds, [], EMPTY);
    hide Reached;
    steps := Visits(cfg, kinds, [], EMPTY, 1, 0);
    steps := Visits(cfg, kinds, steps, Choosy(EMPTY, 1), 2, 0);
    steps := Opens(cfg, kinds, steps, Choosy(Choosy(EMPTY, 1), 2), 0, 0);
    assert 0 in Choosers().servers;
    steps := Blocks(cfg, kinds, steps, Choosers(), 1);
    var r1 := Put(Choosers(), 1, Blocked);
    assert 0 in r1.servers;
    steps := Blocks(cfg, kinds, steps, r1, 2);
    r := Put(r1, 2, Blocked);
  }

  /** Nobody ever waits: there is always room, and nobody insists on an idle server. */
  predicate NobodyWaits(r: Route) {
    forall c :: c in r.clients ==> !r.clients[c].place.Waiting() && !r.clients[c].idleOnly
  }

  lemma {:induction false} NobodyWaitsRun(cfg: Config, r: Route, steps: seq<Step>)
    requires cfg.poolSize == 0 && cfg.poolTimeout <= 0 && NobodyWaits(r) && ValidRun(cfg, r, steps)
    ensures NobodyWaits(Exec(cfg, r, steps))
    decreases |steps|
  {
    if steps != [] {
      NobodyWaitsStep(cfg, r, steps[0]);
      hide Apply, Enabled, NobodyWaits;
      NobodyWaitsRun(cfg, Apply(cfg, r, steps[0]), steps[1..]);
    }
  }

  lemma NobodyWaitsStep(cfg: Config, r: Route, step: Step)
    requires cfg.poolSize == 0 && cfg.poolTimeout <= 0 && NobodyWaits(r) && Enabled(cfg, r, step)
    ensures NobodyWaits(Apply(cfg, r, step))
  {
    hide IdleServers, ActiveServers, WorkerFree, SomeQueued;
  }

  /** A wait that can time out can come about at all: for want of room, or of an idle server. */
  predicate LosesMessages(cfg: Config) {
    cfg.TimesOut() && (cfg.poolSize > 0 || cfg.poolTimeout > 0)
  }

  lemma WakeupLost(cfg: Config) returns (steps: seq<Step>, end: Route)
    requires cfg.workers > 0 && LosesMessages(cfg)
    ensures Reached(cfg, {Closing, Dropping}, steps, end) && !Answered(end)
  {
    var kinds := {Closing, Dropping};
    hide Reached, Quiet;
    if cfg.poolSize > 0 {
      var n := cfg.poolSize;
      var r := FullHouse(n);
      steps := FullHouseReached(cfg, kinds);
      steps := MessageDropped(cfg, kinds, steps, r, 0, 0, n);
      ForgottenIsStuck(r, 0, 0, n, n + 1);
      end := Forgotten(r, 0, 0, n);
    } else {
      var r;
      steps, r := ChoosersBlocked(cfg, kinds);
      steps := MessageDropped(cfg, kinds, steps, r, 0, 0, 1);
      ForgottenIsStuck(r, 0, 0, 1, 2);
      end := Forgotten(r, 0, 0, 1);
    }
  }

  /**
   No run leaves a client waiting beside an idle server with nothing under way to wake it, if and only if
   waits have no time limit, or nobody ever waits: there is no pool size and a negative time limit.
   */
  lemma NoLostWakeupIff(cfg: Config)
    requires cfg.workers > 0
    ensures (forall steps: seq<Step> :: ValidRun(cfg, EMPTY, steps) ==> Answered(Exec(cfg, EMPTY, steps)))
            <==> cfg.poolTimeout in {0, -1} || (cfg.poolSize == 0 && cfg.poolTimeout <= 0)
  {
    if LosesMessages(cfg) {
      var steps, end := WakeupLost(cfg);
      assert !Answered(Exec(cfg, EMPTY, steps));
    } else {
      forall steps: seq<Step> | ValidRun(cfg, EMPTY, steps) ensures Answered(Exec(cfg, EMPTY, steps)) {
        AttachSafety(cfg, steps);
        if cfg.TimesOut() {
          NobodyWaitsRun(cfg, EMPTY, steps);
          assert In(Exec(cfg, EMPTY, steps), Blocked) == {};
        }
      }
    }
  }

  // ------------------------------------------------- capacity that nobody is told of

  /** Servers in use or about to be, and everybody who is awake or will be woken to look for one. */
  function Claims(r: Route): nat {
    |ActiveServers(r)| + |In(r, Creating)| + |In(r, Spin)| + r.messages + |In(r, Owing)| + |In(r, Woken)|
  }

  predicate SomeWait(r: Route) {
    exists c :: c in r.clients && r.clients[c].place.Waiting()
  }

  /** While somebody waits, the whole pool is claimed. */
  predicate Claimed(cfg: Config, r: Route) {
    SomeWait(r) ==> Claims(r) >= cfg.poolSize
  }

  predicate NobodyChoosy(r: Route) {
    forall c :: c in r.clients ==> !r.clients[c].idleOnly
  }

  lemma ActiveSet(r: Route, r': Route, s: nat, slot: Slot)
    requires r'.servers == r.servers[s := slot]
    ensures ActiveServers(r') == if slot.active then ActiveServers(r) + {s} else ActiveServers(r) - {s}
  {
  }

  lemma ActiveRemoved(r: Route, r': Route, s: nat)
    requires r'.servers == r.servers - {s}
    ensures ActiveServers(r') == ActiveServers(r) - {s}
  {
  }

  lemma ActiveAfter(cfg: Config, r: Route, r': Route, e: Effect)
    requires Paired(r) && Fits(cfg, r, e) && r'.servers == Servers(r, e)
    ensures |ActiveServers(r')| ==
            |ActiveServers(r)| + (if e.Takes? then 1 else 0) - (if e.Frees? then 1 else 0)
  {
    if e.Takes? {
      ActiveSet(r, r', e.s, Slot(true, Some(e.c), r.clients[e.c].key));
      assert e.s !in ActiveServers(r);
    } else if e.Frees? {
      var s := r.clients[e.c].server.value;
      assert s in ActiveServers(r);
      if e.keep {
        ActiveSet(r, r', s, r'.servers[s]);
      } else {
        ActiveRemoved(r, r', s);
      }
    } else if e.Expires? {
      ActiveRemoved(r, r', e.s);
      assert e.s !in ActiveServers(r);
    } else {
      assert ActiveServers(r') == ActiveServers(r);
    }
    hide ActiveServers, Fits, Paired;
  }

  lemma AllActive(cfg: Config, r: Route)
    requires IdleServers(r) == {} && !HasCapacity(cfg, r)
    ensures |ActiveServers(r)| >= cfg.poolSize
  {
    assert ActiveServers(r) == r.servers.Keys by {
      forall s | s in r.servers ensures s in ActiveServers(r) {
        assert s !in IdleServers(r);
      }
    }
    assert |r.servers| == |r.servers.Keys|;
  }

  /** A client finds neither an idle server nor room for another one. */
  predicate FindsNothing(cfg: Config, r: Route, step: Step) {
    step.Seek? && IdleServers(r) == {} && !HasCapacity(cfg, r)
  }

  lemma ClaimsAfter(cfg: Config, r: Route, step: Step)
    requires Paired(r) && NobodyChoosy(r) && Enabled(cfg, r, step) && KindOf(step).None?
    requires !FindsNothing(cfg, r, step) && (step.Detach? ==> SomeQueued(r))
    ensures Claims(Apply(cfg, r, step)) >= Claims(r)
  {
    var r', e := Apply(cfg, r, step), EffectOf(cfg, r, step);
    EffectFits(cfg, r, step);
    hide Paired, Fits, In, IdleServers, ActiveServers, HasCapacity, SomeQueued, WorkerFree, Clients, Servers;
    ActiveAfter(cfg, r, r', e);
    CountAfter(cfg, r, r', e, Creating);
    CountAfter(cfg, r, r', e, Spin);
    CountAfter(cfg, r, r', e, Owing);
    CountAfter(cfg, r, r', e, Woken);
  }

  lemma NothingFound(cfg: Config, r: Route, step: Step)
    requires Enabled(cfg, r, step) && FindsNothing(cfg, r, step)
    ensures Claims(Apply(cfg, r, step)) >= cfg.poolSize
  {
    AllActive(cfg, r);
    assert Apply(cfg, r, step).servers == r.servers;
    hide IdleServers, HasCapacity, WorkerFree;
  }

  lemma ClaimsKeep(cfg: Config, r: Route, step: Step)
    requires Paired(r) && NobodyChoosy(r) && Enabled(cfg, r, step) && KindOf(step).None? && Claimed(cfg, r)
    ensures Claimed(cfg, Apply(cfg, r, step))
  {
    var r' := Apply(cfg, r, step);
    if FindsNothing(cfg, r, step) {
      NothingFound(cfg, r, step);
    } else if SomeWait(r') {
      WaitingBefore(cfg, r, step);
      assert SomeWait(r) || (step.Seek? && IdleServers(r) == {});
      if SomeWait(r) {
        var d :| d in r.clients && r.clients[d].place.Waiting();
        assert r.clients[d].place.Queued() && SomeQueued(r);
        ClaimsAfter(cfg, r, step);
      } else {
        RoomFound(cfg, r, step);
      }
    }
  }

  /** With room for another server nobody starts to wait. */
  lemma RoomFound(cfg: Config, r: Route, step: Step)
    requires Enabled(cfg, r, step) && NobodyChoosy(r) && step.Seek? && HasCapacity(cfg, r) && !SomeWait(r)
    ensures !SomeWait(Apply(cfg, r, step))
  {
    assert forall c :: c in r.clients ==> !r.clients[c].place.Waiting();
    hide IdleServers, HasCapacity, WorkerFree;
  }

  lemma ChoosyKeeps(cfg: Config, r: Route, step: Step)
    requires NobodyChoosy(r) && Enabled(cfg, r, step) && !step.Close?
    ensures NobodyChoosy(Apply(cfg, r, step))
  {
    hide IdleServers, ActiveServers, HasCapacity, WorkerFree, SomeQueued;
  }

  lemma {:induction false} ClaimsRun(cfg: Config, r: Route, steps: seq<Step>)
    requires Inv(cfg, r) && NobodyChoosy(r) && Claimed(cfg, r) && ValidRun(cfg, r, steps)
    requires Only(steps, {Dropping}) && (cfg.TimesOut() ==> Only(steps, {}))
    ensures Claimed(cfg, Exec(cfg, r, steps))
    decreases |steps|
  {
    if steps != [] {
      assert KindOf(steps[0]).None?;
      StepKeeps(cfg, r, steps[0]);
      ClaimsKeep(cfg, r, steps[0]);
      ChoosyKeeps(cfg, r, steps[0]);
      assert forall i :: 0 <= i < |steps| - 1 ==> steps[1..][i] == steps[i + 1];
      hide Inv, Apply, Enabled, KindOf, NobodyChoosy, Claimed;
      ClaimsRun(cfg, Apply(cfg, r, steps[0]), steps[1..]);
    }
  }

  /**
   In runs in which no client closes its server, no allocation fails and no message is dropped: while somebody
   waits, the whole pool is in use, being opened, or about to be asked for by somebody who is awake or will be
   woken.
   */
  lemma CapacityIsClaimed(cfg: Config, steps: seq<Step>)
    requires ValidRun(cfg, EMPTY, steps) && Only(steps, {Dropping}) && (cfg.TimesOut() ==> Only(steps, {}))
    ensures Claimed(cfg, Exec(cfg, EMPTY, steps))
  {
    assert In(EMPTY, Creating) == {};
    ClaimsRun(cfg, EMPTY, steps);
  }

  // ------------------------------------------------------------ each kind is needed

  /** Nobody is awake or will be woken; a server of the pool is missing. */
  predicate Deserted(r: Route, n: nat) {
    && SomeWait(r) && r.messages == 0 && |ActiveServers(r)| < n
    && forall c :: c in r.clients ==> r.clients[c].place in {Rest, Parting, Blocked, Refused, Attached}
  }

  lemma DesertedIsUnclaimed(cfg: Config, r: Route)
    requires Deserted(r, cfg.poolSize)
    ensures !Claimed(cfg, r)
  {
    assert In(r, Creating) == {} && In(r, Spin) == {} && In(r, Owing) == {} && In(r, Woken) == {};
  }

  lemma FullHouseServers(n: nat)
    requires n > 0
    ensures |ActiveServers(FullHouse(n))| == n && 0 in ActiveServers(FullHouse(n))
  {
    CrowdSize(n, 0);
    assert ActiveServers(FullHouse(n)) == CrowdServers(n).Keys;
    assert |CrowdServers(n)| == |CrowdServers(n).Keys|;
  }

  /** Client 0 has no server any more and client `n` is at `p`; client `n + 1` still waits. */
  predicate Left(r: Route, n: nat, p: Place) {
    && r.messages == 0 && n in r.clients && r.clients[n].place == p && !r.clients[n].idleOnly
    && ActiveServers(r) == ActiveServers(FullHouse(n)) - {0}
    && n + 1 in r.clients && r.clients[n + 1].place.Blocked?
    && forall c :: c in r.clients && c != n ==> r.clients[c].place in {Rest, Blocked, Attached}
  }

  lemma LeftIsDeserted(r: Route, n: nat, p: Place)
    requires n > 0 && Left(r, n, p) && p in {Blocked, Refused}
    ensures Deserted(r, n)
  {
    FullHouseServers(n);
    assert r.clients[n + 1].place.Waiting();
  }

  /** A client that closes its server frees capacity without telling anybody. */
  lemma CloseLosesWakeup(cfg: Config) returns (steps: seq<Step>, end: Route)
    requires cfg.workers > 0 && cfg.poolSize > 0
    ensures Reached(cfg, {Closing}, steps, end) && !Claimed(cfg, end) && HasCapacity(cfg, end)
  {
    var n := cfg.poolSize;
    var r := FullHouse(n);
    steps := FullHouseReached(cfg, {Closing});
    end := ServerClosed(cfg, n);
    hide Reached, FullHouse, Left;
    steps := Extend(cfg, {Closing}, steps, r, Close(0, false), end);
    LeftIsDeserted(end, n, Blocked);
    DesertedIsUnclaimed(cfg, end);
  }

  lemma ServerClosed(cfg: Config, n: nat) returns (end: Route)
    requires n == cfg.poolSize && n > 0 && Quiet(FullHouse(n)) && Holds(FullHouse(n), 0, 0)
    ensures Moved(cfg, FullHouse(n), Close(0, false), end) && Left(end, n, Blocked) && HasCapacity(cfg, end)
  {
    var r := FullHouse(n);
    QuietFacts(r);
    end := Apply(cfg, r, Close(0, false));
    ActiveRemoved(r, end, 0);
    CrowdSize(n, 0);
    assert |r.servers| == |end.servers| + 1;
  }

  /** A dropped message leaves an idle server that nobody is told of. */
  lemma DropLosesWakeup(cfg: Config) returns (steps: seq<Step>, end: Route)
    requires cfg.workers > 0 && cfg.poolSize > 0 && cfg.TimesOut()
    ensures Reached(cfg, {Dropping}, steps, end) && !Claimed(cfg, end)
  {
    var n := cfg.poolSize;
    var r := FullHouse(n);
    steps := FullHouseReached(cfg, {Dropping});
    hide Reached;
    steps := MessageDropped(cfg, {Dropping}, steps, r, 0, 0, n);
    end := Forgotten(r, 0, 0, n);
    ForgottenIsLeft(n);
    LeftIsDeserted(end, n, Refused);
    DesertedIsUnclaimed(cfg, end);
  }

  lemma ForgottenIsLeft(n: nat)
    requires n > 0 && Quiet(FullHouse(n)) && Holds(FullHouse(n), 0, 0)
    ensures Left(Forgotten(FullHouse(n), 0, 0, n), n, Refused)
  {
    var r, end := FullHouse(n), Forgotten(FullHouse(n), 0, 0, n);
    ActiveSet(r, end, 0, end.servers[0]);
  }

  /** `r` without server `s` of client `z`, which it gave back, and client `a` woken. */
  function Outlived(r: Route, z: nat, s: nat, a: nat, p: Place, messages: nat): Route
    requires z in r.clients && s in r.servers && a in r.clients
  {
    Put(Returned(r, z, s, Rest), a, p).(servers := r.servers - {s}, messages := messages)
  }

  /** The message for a client arrives after the idle server has expired. */
  lemma ExpiredMoves(cfg: Config, r: Route, z: nat, s: nat, a: nat)
    requires Quiet(r) && Holds(r, z, s) && a in r.clients && r.clients[a].place.Blocked?
    ensures Moved(cfg, Returned(r, z, s, Rest).(messages := 1), Expire(s), Outlived(r, z, s, a, Blocked, 1))
    ensures Moved(cfg, Outlived(r, z, s, a, Blocked, 1), Deliver(a), Outlived(r, z, s, a, Woken, 0))
  {
    var r1, r2 := Returned(r, z, s, Rest).(messages := 1), Outlived(r, z, s, a, Blocked, 1);
    assert s in IdleServers(r1) && r1.servers - {s} == r2.servers && r2.clients == r1.clients;
    assert WorkerFree(r2, a);
    assert r2.clients[a := r2.clients[a].(place := Woken)] == Outlived(r, z, s, a, Woken, 0).clients;
    hide IdleServers, ActiveServers, HasCapacity, WorkerFree;
  }

  lemma OutlivedIsLeft(cfg: Config, n: nat)
    requires n == cfg.poolSize && n > 0 && Quiet(FullHouse(n)) && Holds(FullHouse(n), 0, 0)
    ensures var end := Outlived(FullHouse(n), 0, 0, n, Woken, 0);
            Left(end, n, Woken) && IdleServers(end) == {} && HasCapacity(cfg, end)
  {
    var r, end := FullHouse(n), Outlived(FullHouse(n), 0, 0, n, Woken, 0);
    ActiveRemoved(r, end, 0);
    QuietFacts(r);
    CrowdSize(n, 0);
    assert |r.servers| == |end.servers| + 1;
    hide In, CrowdServers, CrowdClients;
  }

  /** There is room for another server. */
  lemma WokenTooLate(cfg: Config, kinds: set<Kind>) returns (steps: seq<Step>, end: Route)
    requires cfg.workers > 0 && cfg.poolSize > 0
    ensures Reached(cfg, kinds, steps, end) && Left(end, cfg.poolSize, Woken)
    ensures IdleServers(end) == {} && HasCapacity(cfg, end)
  {
    var n := cfg.poolSize;
    var r := FullHouse(n);
    steps := FullHouseReached(cfg, kinds);
    end := Outlived(r, 0, 0, n, Woken, 0);
    ExpiredMoves(cfg, r, 0, 0, n);
    OutlivedIsLeft(cfg, n);
    hide Reached, Quiet, Moved, Left, HasCapacity, IdleServers, Returned, Outlived;
    steps := GivesBack(cfg, kinds, steps, r, 0, 0, n);
    steps := Extend(cfg, kinds, steps, Returned(r, 0, 0, Rest).(messages := 1), Expire(0),
                    Outlived(r, 0, 0, n, Blocked, 1));
    steps := Extend(cfg, kinds, steps, Outlived(r, 0, 0, n, Blocked, 1), Deliver(n), end);
  }

  /** It opens one, and that fails. */
  lemma FailedCreationLosesWakeup(cfg: Config) returns (steps: seq<Step>, end: Route)
    requires cfg.workers > 0 && cfg.poolSize > 0
    ensures Reached(cfg, {FailedCreation}, steps, end) && !Claimed(cfg, end) && HasCapacity(cfg, end)
  {
    var n := cfg.poolSize;
    var kinds := {FailedCreation};
    var r;
    steps, r := WokenTooLate(cfg, kinds);
    var r1 := Put(r, n, Creating);
    end := Put(r, n, Refused);
    CreationFails(cfg, r, n);
    hide Reached, Left, HasCapacity;
    steps := Extend(cfg, kinds, steps, r, Seek(n, false, 0), r1);
    steps := Extend(cfg, kinds, steps, r1, CreateFails(n), end);
    LeftIsDeserted(end, n, Refused);
    DesertedIsUnclaimed(cfg, end);
  }

  lemma CreationFails(cfg: Config, r: Route, n: nat)
    requires Left(r, n, Woken) && IdleServers(r) == {} && HasCapacity(cfg, r)
    ensures Moved(cfg, r, Seek(n, false, 0), Put(r, n, Creating))
    ensures Moved(cfg, Put(r, n, Creating), CreateFails(n), Put(r, n, Refused))
    ensures Left(Put(r, n, Refused), n, Refused) && HasCapacity(cfg, Put(r, n, Refused))
  {
    assert WorkerFree(r, n) && WorkerFree(Put(r, n, Creating), n);
    assert Put(r, n, Creating).clients[n := r.clients[n].(place := Refused)] == Put(r, n, Refused).clients;
    assert ActiveServers(Put(r, n, Refused)) == ActiveServers(r);
  }

  /**
   With a positive pool size, and over the runs that avoid a set of kinds of steps: the whole pool is claimed
   while somebody waits, in every such run, if and only if the set holds every kind that can occur.
   */
  lemma CapacityIsClaimedIff(cfg: Config, avoided: set<Kind>)
    requires cfg.workers > 0 && cfg.poolSize > 0
    ensures (forall steps: seq<Step> :: ValidRun(cfg, EMPTY, steps) && Avoids(steps, avoided) ==>
               Claimed(cfg, Exec(cfg, EMPTY, steps))) <==>
            && Closing in avoided && FailedCreation in avoided
            && (cfg.poolTimeout !in {0, -1} ==> Dropping in avoided)
  {
    if Closing !in avoided {
      var steps, end := CloseLosesWakeup(cfg);
      OnlyAvoids(steps, Closing, avoided);
    } else if FailedCreation !in avoided {
      var steps, end := FailedCreationLosesWakeup(cfg);
      OnlyAvoids(steps, FailedCreation, avoided);
    } else if cfg.TimesOut() && Dropping !in avoided {
      var steps, end := DropLosesWakeup(cfg);
      OnlyAvoids(steps, Dropping, avoided);
    } else {
      forall steps: seq<Step> | ValidRun(cfg, EMPTY, steps) && Avoids(steps, avoided)
        ensures Claimed(cfg, Exec(cfg, EMPTY, steps))
      {
        CapacityIsClaimed(cfg, steps);
      }
    }
  }

  predicate Avoids(steps: seq<Step>, avoided: set<Kind>) {
    forall i :: 0 <= i < |steps| && KindOf(steps[i]).Some? ==> KindOf(steps[i]).value !in avoided
  }

  lemma OnlyAvoids(steps: seq<Step>, kind: Kind, avoided: set<Kind>)
    requires Only(steps, {kind}) && kind !in avoided
    ensures Avoids(steps, avoided)
  {
  }
}
