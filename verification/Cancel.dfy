/**
 Cancel requests: a request is matched to a server under the route lock, and the cancel is sent to that server
 later, over a connection of its own.
 */
module Cancel {
  import opened AttachProtocol
  import opened Wrappers

  /** The servers that a cancel request with `key` is matched to. */
  function CancelMatches(r: Route, key: nat): set<nat> {
    set s | s in r.servers && r.servers[s].active && r.servers[s].client.Some? && r.servers[s].key == key
  }

  /**
   A server keeps the key of its last client when it is idle. Even so, a cancel key matches exactly the servers
   that are attached to a client holding that key.
   */
  lemma CancelMatchesHolders(cfg: Config, steps: seq<Step>, key: nat, s: nat)
    requires ValidRun(cfg, EMPTY, steps)
    ensures var r := Exec(cfg, EMPTY, steps);
            s in CancelMatches(r, key) <==>
            exists c :: c in r.clients && r.clients[c].place.Attached? && r.clients[c].server == Some(s) &&
                        r.clients[c].key == key
  {
    AttachSafety(cfg, steps);
    hide Exec, ValidRun;
  }

  // -------------------------------------------------------- from match to sending

  predicate LetsGo(step: Step, c: nat) {
    (step.Detach? || step.Close?) && step.c == c
  }

  lemma StepHolds(cfg: Config, r: Route, step: Step, c: nat, s: nat)
    requires Inv(cfg, r) && Enabled(cfg, r, step) && !LetsGo(step, c)
    requires s in r.servers && r.servers[s].client == Some(c)
    ensures var r' := Apply(cfg, r, step); s in r'.servers && r'.servers[s] == r.servers[s]
  {
    hide NoLostWakeup, OneCreationPerWorker, WithinPool, HasCapacity, SomeQueued, WorkerFree;
    assert r.servers[s].active;
    if step.Detach? || step.Close? {
      assert r.clients[step.c].server.value != s;
    }
  }

  lemma {:induction false} RunHolds(cfg: Config, r: Route, later: seq<Step>, c: nat, s: nat)
    requires Inv(cfg, r) && ValidRun(cfg, r, later) && forall i :: 0 <= i < |later| ==> !LetsGo(later[i], c)
    requires s in r.servers && r.servers[s].client == Some(c)
    ensures var end := Exec(cfg, r, later); Inv(cfg, end) && s in end.servers && end.servers[s] == r.servers[s]
    decreases |later|
  {
    if later != [] {
      StepHolds(cfg, r, later[0], c, s);
      StepKeeps(cfg, r, later[0]);
      assert forall i :: 0 <= i < |later| - 1 ==> later[1..][i] == later[i + 1];
      hide Inv, Apply, Enabled, LetsGo;
      RunHolds(cfg, Apply(cfg, r, later[0]), later[1..], c, s);
    }
  }

  /** A cancel reaches the client it was matched to, whatever else happens, if that client keeps the server. */
  lemma CancelReachesOwner(cfg: Config, steps: seq<Step>, key: nat, s: nat, later: seq<Step>)
    requires ValidRun(cfg, EMPTY, steps) && s in CancelMatches(Exec(cfg, EMPTY, steps), key)
    requires var r := Exec(cfg, EMPTY, steps);
             ValidRun(cfg, r, later) &&
             forall i :: 0 <= i < |later| ==> !LetsGo(later[i], r.servers[s].client.value)
    ensures var r := Exec(cfg, EMPTY, steps);
            var end := Exec(cfg, r, later);
            var owner := r.servers[s].client.value;
            && s in end.servers && end.servers[s].client == Some(owner)
            && owner in end.clients && end.clients[owner].server == Some(s) && end.clients[owner].key == key
  {
    assert In(EMPTY, Creating) == {};
    RunKeeps(cfg, EMPTY, steps);
    var r := Exec(cfg, EMPTY, steps);
    RunHolds(cfg, r, later, r.servers[s].client.value, s);
    hide Exec, ValidRun, NoLostWakeup, OneCreationPerWorker, WithinPool;
  }

  lemma {:induction false} Unused(some: set<nat>) returns (n: nat)
    ensures forall x :: x in some ==> x < n
  {
    if some == {} {
      n := 0;
    } else {
      var x :| x in some;
      var m := Unused(some - {x});
      n := if m <= x then x + 1 else m;
      assert forall y :: y in some ==> y == x || y in some - {x};
    }
  }

  /** The owner gives the server back, and `d` joins. */
  lemma OwnerLeaves(cfg: Config, r: Route, c: nat, s: nat, d: nat, key: nat) returns (later: seq<Step>, end: Route)
    requires Paired(r) && In(r, Creating) == {} && s in r.servers && r.servers[s].client == Some(c)
    requires cfg.workers > 0 && d !in r.clients
    ensures ValidRun(cfg, r, later) && Exec(cfg, r, later) == end && In(end, Creating) == {}
    ensures s in IdleServers(end) && d in end.clients && end.clients[d] == Client(Rest, 0, key, None, false)
  {
    assert forall x :: x in r.clients ==> !r.clients[x].place.Creating? by {
      assert forall x :: x in r.clients && r.clients[x].place.Creating? ==> x in In(r, Creating);
    }
    assert Enabled(cfg, r, Detach(c));
    var r1 := Apply(cfg, r, Detach(c));
    end := Apply(cfg, r1, Join(d, 0, key));
    later := [Detach(c), Join(d, 0, key)];
    assert later[1..] == [Join(d, 0, key)] && later[1..][1..] == [];
    assert ValidRun(cfg, r1, later[1..]) && Exec(cfg, r1, later[1..]) == end;
    hide SomeQueued;
  }

  lemma NewcomerTakes(cfg: Config, r: Route, d: nat, s: nat)
    requires In(r, Creating) == {} && s in IdleServers(r) && d in r.clients && r.clients[d].place.Rest?
    ensures var seek := Seek(d, false, s);
            Enabled(cfg, r, seek) && s in Apply(cfg, r, seek).servers && d in Apply(cfg, r, seek).clients &&
            Apply(cfg, r, seek).servers[s].client == Some(d) && Apply(cfg, r, seek).clients[d].key == r.clients[d].key
  {
    assert forall x :: x in r.clients && r.clients[x].place.Creating? ==> x in In(r, Creating);
    assert IdleServers(r) != {};
    hide HasCapacity, ActiveServers;
  }

  lemma {:induction false} RunAppend(cfg: Config, r: Route, first: seq<Step>, second: seq<Step>)
    requires ValidRun(cfg, r, first) && ValidRun(cfg, Exec(cfg, r, first), second)
    ensures ValidRun(cfg, r, first + second)
    ensures Exec(cfg, r, first + second) == Exec(cfg, Exec(cfg, r, first), second)
    decreases |first|
  {
    if first == [] {
      assert first + second == second;
    } else {
      hide Apply, Enabled;
      assert (first + second)[1..] == first[1..] + second;
      RunAppend(cfg, Apply(cfg, r, first[0]), first[1..], second);
    }
  }

  /** One client that is opening a server gives up. */
  lemma CreatorFails(cfg: Config, r: Route, c: nat)
    requires Inv(cfg, r) && c in In(r, Creating)
    ensures Enabled(cfg, r, CreateFails(c))
    ensures var r' := Apply(cfg, r, CreateFails(c));
            r'.servers == r.servers && In(r', Creating) == In(r, Creating) - {c}
  {
    assert WorkerFree(r, c) by {
      forall d | d in r.clients && d != c && r.clients[d].worker == r.clients[c].worker
        ensures !r.clients[d].place.Creating?
      {
        assert r.clients[d].place.Creating? ==> d in In(r, Creating);
      }
    }
    hide Paired, NoLostWakeup, WithinPool, WorkerFree;
  }

  /** All of them do. */
  lemma {:induction false} CreatorsFail(cfg: Config, r: Route) returns (later: seq<Step>, end: Route)
    requires Inv(cfg, r)
    ensures ValidRun(cfg, r, later) && Exec(cfg, r, later) == end && Inv(cfg, end)
    ensures In(end, Creating) == {} && end.servers == r.servers
    decreases |In(r, Creating)|
  {
    if In(r, Creating) == {} {
      later, end := [], r;
    } else {
      var c :| c in In(r, Creating);
      CreatorFails(cfg, r, c);
      StepKeeps(cfg, r, CreateFails(c));
      hide Inv, Apply, Enabled, In;
      var more;
      more, end := CreatorsFail(cfg, Apply(cfg, r, CreateFails(c)));
      later := [CreateFails(c)] + more;
      assert later[1..] == more;
    }
  }

  /**
   The condition is needed: from every reachable state with a match, the owner can leave and a client with
   another key take the server, so that the cancel that is still to be sent reaches that client.
   */
  lemma CancelCanReachAnother(cfg: Config, steps: seq<Step>, key: nat, s: nat) returns (later: seq<Step>)
    requires ValidRun(cfg, EMPTY, steps) && cfg.workers > 0 && s in CancelMatches(Exec(cfg, EMPTY, steps), key)
    ensures ValidRun(cfg, Exec(cfg, EMPTY, steps), later)
    ensures var r := Exec(cfg, EMPTY, steps);
            var end := Exec(cfg, r, later);
            && s in end.servers && end.servers[s].client.Some? && end.servers[s].client != r.servers[s].client
            && end.servers[s].client.value in end.clients && end.clients[end.servers[s].client.value].key != key
  {
    assert In(EMPTY, Creating) == {};
    RunKeeps(cfg, EMPTY, steps);
    var r := Exec(cfg, EMPTY, steps);
    hide ValidRun, Exec, In;
    var first, mid := CreatorsFail(cfg, r);
    var second := OwnerReplaced(cfg, mid, key, s);
    RunAppend(cfg, r, first, second);
    later := first + second;
  }

  lemma OwnerReplaced(cfg: Config, r: Route, key: nat, s: nat) returns (later: seq<Step>)
    requires Inv(cfg, r) && In(r, Creating) == {} && cfg.workers > 0 && s in CancelMatches(r, key)
    ensures ValidRun(cfg, r, later)
    ensures var end := Exec(cfg, r, later);
            && s in end.servers && end.servers[s].client.Some? && end.servers[s].client != r.servers[s].client
            && end.servers[s].client.value in end.clients && end.clients[end.servers[s].client.value].key != key
  {
    var owner := r.servers[s].client.value;
    var d := Unused(r.clients.Keys);
    assert owner in r.clients.Keys;
    var first, mid := OwnerLeaves(cfg, r, owner, s, d, key + 1);
    NewcomerTakes(cfg, mid, d, s);
    hide Inv, In, IdleServers, Apply, Enabled;
    RunSnoc(cfg, r, first, Seek(d, false, s));
    later := first + [Seek(d, false, s)];
  }
}
