/**
 The server and client pools: one list per state, a counter beside each list, and a state field in every
 member. A server pool has the states 1 (idle) and 2 (active) and puts members first; a client pool has three
 states and puts them last. A member in state 0 is in no list.
 */
module Pools {
  import opened Lists

  class Pool {
    const heads: seq<Link>
    const front: bool
    var counts: seq<int>
    /** The ring of each list, head first, and the list each link is in. */
    ghost var rings: seq<seq<Link>>
    ghost var home: map<Link, nat>

    /** `od_server_pool_init` and `od_client_pool_init`: empty lists. */
    constructor (heads: seq<Link>, front: bool)
      requires Distinct(heads)
      modifies heads`next, heads`prev
      ensures Valid() && this.heads == heads && this.front == front
      ensures home.Keys == (set l | l in heads) && forall s :: 0 <= s < |rings| ==> |rings[s]| == 1
    {
      this.heads, this.front := heads, front;
      counts, rings, home := [], [], map[];
      new;
      hide Ring, Sound, Listed, Valid;
      for s := 0 to |heads|
        modifies this, heads`next, heads`prev
        invariant |counts| == |rings| == s
        invariant forall t :: 0 <= t < s ==> counts[t] == 0
        invariant forall t :: 0 <= t < s ==> rings[t] == [heads[t]] && heads[t].next == heads[t] == heads[t].prev
        invariant forall t :: 0 <= t < s ==> heads[t] in home && home[heads[t]] == t
        invariant forall l :: l in home ==> home[l] < s && l == heads[home[l]]
      {
        heads[s].Init();
        counts, rings, home := counts + [0], rings + [[heads[s]]], home[heads[s] := s];
        AloneAgain(heads[s]);
      }
      EmptyIsValid();
    }

    lemma EmptyIsValid()
      requires |counts| == |rings| == |heads| && forall s :: 0 <= s < |counts| ==> counts[s] == 0
      requires forall s :: 0 <= s < |heads| ==> rings[s] == [heads[s]] && heads[s].next == heads[s] == heads[s].prev
      requires forall s :: 0 <= s < |heads| ==> heads[s] in home && home[heads[s]] == s
      requires forall l :: l in home ==> home[l] < |heads| && l == heads[home[l]]
      ensures Valid()
    {
    }

    ghost predicate Listed()
      reads `rings, `home, home.Keys`next, home.Keys`prev
    {
      |rings| == |heads| && forall s :: 0 <= s < |rings| ==> Sound(rings[s], s)
    }

    ghost predicate Sound(ring: seq<Link>, s: nat)
      reads `home, home.Keys`next, home.Keys`prev
    {
      && (forall l :: l in ring ==> l in home && home[l] == s)
      && (forall l :: l in home && home[l] == s ==> l in ring)
      && Ring(ring) && s < |heads| && ring[0] == heads[s]
    }

    /** List lengths equal counters, and a member is in the list of its state. */
    ghost predicate Valid()
      reads this, home.Keys
    {
      && Listed()
      && |counts| == |rings| == |heads| && (forall s :: 0 <= s < |rings| ==> counts[s] == |rings[s]| - 1)
      && (forall l :: l in home ==> l in heads || l.state == home[l] + 1)
    }

    ghost predicate Knows(link: Link)
      reads this, link
    {
      && link !in heads && link.state <= |heads|
      && (link.state > 0 ==> link in home && home[link] == link.state - 1)
      && (link.state == 0 ==> link !in home && Ring([link]))
    }

    lemma SoundFacts(ring: seq<Link>, s: nat)
      requires Sound(ring, s)
      ensures forall l :: l in ring ==> l in home && home[l] == s
      ensures forall l :: l in home && home[l] == s ==> l in ring
      ensures Ring(ring) && Distinct(ring) && s < |heads| && ring[0] == heads[s]
    {
    }

    lemma IsSound(ring: seq<Link>, s: nat)
      requires forall l :: l in ring ==> l in home && home[l] == s
      requires forall l :: l in home && home[l] == s ==> l in ring
      requires Ring(ring) && s < |heads| && ring[0] == heads[s]
      ensures Sound(ring, s)
    {
    }

    lemma MoveFacts(link: Link, state: nat)
      requires Valid() && Knows(link) && state <= |heads| && state != link.state
      ensures Moves(front, rings, Entered(front, Left(rings, link, link.state), link, state), link, link.state, state)
    {
      hide Moves, Left, Entered;
      MovesSo(front, rings, link, link.state, state);
    }

    /** A list none of whose links were touched is as it was. */
    twostate lemma SoundKept(new touched: seq<Link>, state: nat)
      requires old(Listed()) && |rings| == |heads|
      requires forall l :: l in touched && l in old(home) ==> old(home)[l] + 1 == state
      requires forall l :: l in old(home) && l !in touched ==>
                             l.next == old(l.next) && l.prev == old(l.prev) && l in home && home[l] == old(home)[l]
      requires forall l :: l in home && l !in old(home) ==> home[l] + 1 == state
      requires forall l :: l in home && l in old(home) ==> home[l] == old(home)[l]
      requires forall s :: 0 <= s < |heads| && s + 1 != state ==> rings[s] == old(rings[s])
      ensures forall s :: 0 <= s < |heads| && s + 1 != state ==> Sound(rings[s], s)
    {
      forall s | 0 <= s < |heads| && s + 1 != state
        ensures Sound(rings[s], s)
      {
        assert old(Sound(rings[s], s));
        RingKept(rings[s]);
      }
    }

    /** Takes `link` out of the list it is in. */
    method Leave(link: Link)
      requires Listed() && Knows(link) && link.state > 0
      modifies `rings, `home, home.Keys`next, home.Keys`prev
      ensures Listed() && Ring([link])
      ensures home == old(home) - {link}
      ensures rings == Left(old(rings), link, link.state)
    {
      hide Ring, Sound;
      ghost var state := link.state;
      ghost var ring := rings[state - 1];
      SoundFacts(ring, state - 1);
      link.Detach(ring, Position(ring, link));
      rings := Left(rings, link, state);
      home := home - {link};
      IsSound(rings[state - 1], state - 1);
      SoundKept(ring, state);
    }

    /** Puts `link` into the list of `state`. */
    method Enter(link: Link, state: nat)
      requires Listed() && 0 < state <= |heads| && link !in home
      modifies `rings, `home, home.Keys`next, home.Keys`prev, link`next, link`prev
      ensures Listed()
      ensures home == old(home)[link := state - 1]
      ensures rings == Entered(front, old(rings), link, state)
    {
      hide Ring, Sound;
      ghost var ring := rings[state - 1];
      SoundFacts(ring, state - 1);
      if front {
        link.PushTo(heads[state - 1], ring);
      } else {
        link.AppendTo(heads[state - 1], ring);
      }
      assert Ring(Insert(front, ring, link));
      rings := Entered(front, rings, link, state);
      home := home[link := state - 1];
      IsSound(rings[state - 1], state - 1);
      SoundKept(ring, state);
    }

    /** One member fewer in `from`, one more in `to`. */
    method Recount(from: nat, to: nat)
      requires from <= |counts| && to <= |counts|
      modifies `counts
      ensures |counts| == old(|counts|)
      ensures forall s :: 0 <= s < |counts| ==>
                counts[s] == old(counts[s]) - (if s + 1 == from then 1 else 0) + if s + 1 == to then 1 else 0
    {
      if from > 0 {
        counts := counts[from - 1 := counts[from - 1] - 1];
      }
      if to > 0 {
        counts := counts[to - 1 := counts[to - 1] + 1];
      }
    }

    /** `od_server_pool_set` and `od_client_pool_set`. */
    method Set(link: Link, state: nat)
      requires Valid() && Knows(link) && state <= |heads|
      modifies this, home.Keys`next, home.Keys`prev, link`next, link`prev, link`state
      ensures Valid() && Knows(link) && link.state == state
      ensures state == old(link.state) ==> rings == old(rings) && home == old(home)
      ensures state != old(link.state) ==>
                && rings == Entered(front, Left(old(rings), link, old(link.state)), link, state)
                && home == if state == 0 then old(home) - {link} else old(home)[link := state - 1]
      ensures state != old(link.state) ==> Moves(front, old(rings), rings, link, old(link.state), state)
    {
      hide Ring, Sound, Listed, Left, Entered, Moves, Distinct;
      if link.state == state {
        return;
      }
      MoveFacts(link, state);
      Recount(link.state, state);
      if link.state > 0 {
        Leave(link);
      } else {
        link.Detach([link], 0);
      }
      if state > 0 {
        Enter(link, state);
      }
      link.state := state;
    }

    /** `od_server_pool_next`: the first member in a state. */
    method Next(state: nat) returns (link: Link?)
      requires Valid() && 0 < state <= |heads|
      ensures link == null <==> |rings[state - 1]| == 1
      ensures link != null ==> link == rings[state - 1][1] && link.state == state
    {
      assert forall s :: 0 <= s < |rings| ==> Sound(rings[s], s);
      if counts[state - 1] == 0 {
        return null;
      }
      link := heads[state - 1].next;
      assert link in rings[state - 1] && link != heads[state - 1];
      assert forall s :: 0 <= s < |heads| ==> heads[s] == rings[s][0];
    }

    /** `od_router_expire_server_tick_cb`; `gone` is the ring of `list`. */
    method Tick(server: Link, list: Link, ghost gone: seq<Link>, count: int, limits: Limits)
      returns (count': int)
      requires Valid() && |heads| > 0 && Knows(server) && server.state == IDLE
      requires Ring(gone) && gone[0] == list && forall l :: l in gone ==> l !in home
      modifies this, home.Keys`next, home.Keys`prev, gone`next, gone`prev
      modifies server`next, server`prev, server`state, server`idleTime
      ensures Valid()
      ensures
        var out := old(Expires(server, count, limits));
        && count' == (if out then count + 1 else count)
        && Ring(if out then gone + [server] else gone)
        && (forall l :: l in gone ==> l !in home) && (out ==> server !in home)
        && rings == (if out then Left(old(rings), server, IDLE) else old(rings))
        && home == (if out then old(home) - {server} else old(home))
        && server.state == (if out then 0 else IDLE)
      ensures server.idleTime == old(server.idleTime) + (if old(Young(server, limits)) then 1 else 0)
      // While the clock has not wrapped around since the server was opened: it ages, stays as it is, or leaves.
      ensures server.initTime <= limits.now < 0x1_0000_0000_0000_0000 ==>
                var past := limits.now - server.initTime >= limits.lifetime || old(server.idleTime) >= limits.ttl;
                && server.idleTime == old(server.idleTime) + (if past then 0 else 1)
                && (server.state == 0 <==> past && count <= limits.maxRouting)
                && count' == count + (if server.state == 0 then 1 else 0)
    {
      hide Ring, Left, Entered, Listed;
      count' := count;
      if Young(server, limits) {
        server.idleTime := server.idleTime + 1;
        return;
      }
      if count > limits.maxRouting {
        return;
      }
      Set(server, 0);
      server.AppendTo(list, gone);
      count' := count + 1;
    }

    /** What `Valid` says of the link at position `k` of the idle ring. */
    lemma IdleFacts(k: nat)
      requires Valid() && |heads| > 0 && (k == 0 || k < |rings[0]|)
      ensures |rings| == |heads| && Ring(rings[0]) && rings[0] != [] && Distinct(rings[0]) && rings[0][0] == heads[0]
      ensures k > 0 ==> Knows(rings[0][k]) && rings[0][k].state == IDLE
      ensures forall l :: l in rings[0] ==> l in home
      ensures rings[0][k].next == if k + 1 < |rings[0]| then rings[0][k + 1] else heads[0]
    {
      SoundFacts(rings[0], 0);
      forall s | 0 <= s < |heads|
        ensures heads[s] in home && home[heads[s]] == s
      {
        SoundFacts(rings[s], s);
        assert rings[s][0] in rings[s];
      }
      assert rings[0][k] in rings[0];
    }

    /** One round of the loop over the idle servers: `kept` lie behind, `rest` ahead, and `i` is the first of them. */
    method Round(i: Link, list: Link, ghost kept: seq<Link>, ghost rest: seq<Link>, ghost gone: seq<Link>, count: int,
                 limits: Limits)
      returns (n: Link, count': int)
      requires Valid() && |heads| > 0 && rings[0] == [heads[0]] + kept + rest && rest != [] && i == rest[0]
      requires Ring(gone) && gone[0] == list && forall l :: l in gone ==> l !in home
      modifies this, home.Keys`next, home.Keys`prev, gone`next, gone`prev, i`state, i`idleTime
      ensures Valid() && n == (if |rest| == 1 then heads[0] else rest[1]) && home.Keys <= old(home.Keys)
      ensures
        var out := old(Expires(i, count, limits));
        && count' == (if out then count + 1 else count)
        && rings == old(rings)[0 := [heads[0]] + (if out then kept else kept + [i]) + rest[1..]]
        && Ring(if out then gone + [i] else gone)
        && (forall l :: l in gone ==> l !in home) && (out ==> i !in home && i.state == 0)
      ensures i.idleTime == old(i.idleTime) + (if old(Young(i, limits)) then 1 else 0)
    {
      hide Ring, Listed, Sound, Valid, Distinct, Remove, Expires;
      IdleFacts(0);
      ghost var ring, k := rings[0], |kept| + 1;
      assert ring[k] == i;
      IdleFacts(k);
      n := i.next;
      count' := Tick(i, list, gone, count, limits);
      Splice(heads[0], kept, rest);
    }

    /** `od_server_pool_foreach` over the idle servers with the callback `Tick`, the next link saved first. */
    method Foreach(list: Link, ghost gone: seq<Link>, count: int, limits: Limits) returns (count': int)
      requires Valid() && |heads| > 0
      requires Ring(gone) && gone[0] == list && forall l :: l in gone ==> l !in home
      modifies this, home.Keys`next, home.Keys`prev, rings[0]`state, rings[0]`idleTime, gone`next, gone`prev
      ensures Valid()
      ensures
        var idle, young := old(rings[0])[1..], old(YoungIn(rings[0], limits));
        var expired := Expired(idle, young, count, limits.maxRouting);
        && rings == old(rings)[0 := [heads[0]] + Kept(idle, young, count, limits.maxRouting)]
        && Ring(gone + expired) && (forall l :: l in gone + expired ==> l !in home)
        && count' == count + |expired|
        && (forall l :: l in idle ==> l.idleTime == old(l.idleTime) + (if l in young then 1 else 0))
    {
      hide Ring, Listed, Sound, Valid, Distinct, Young, Kept, Expired, Progress;
      RingFacts(gone);
      IdleFacts(0);
      ghost var idle, young, quota := rings[0][1..], YoungIn(rings[0], limits), limits.maxRouting;
      ghost var kept, rest, out: seq<Link> := [], idle, [];
      ghost var ring := gone;
      assert [heads[0]] + kept + rest == rings[0];
      ProgressBegins(idle, young, count, quota);
      assert heads[0] !in rest;
      count' := count;
      var i: Link := heads[0].next;
      while i != heads[0]
        invariant Valid() && home.Keys <= old(home.Keys)
        invariant rings == old(rings)[0 := [heads[0]] + kept + rest]
        invariant heads[0] !in rest && i == if rest == [] then heads[0] else rest[0]
        invariant forall l :: l in out || l in rest ==> l in old(home)
        invariant ring == gone + out && Ring(ring) && forall l :: l in ring ==> l !in home
        invariant Progress(idle, kept, out, rest, young, count, count', quota)
        invariant forall l :: l in rest ==> l in idle
        invariant forall l :: l in idle ==>
                    l.idleTime == old(l.idleTime) + (if l in young && l !in rest then 1 else 0)
        decreases |rest|
      {
        ghost var before := count';
        assert i in young <==> Young(i, limits);
        IdleFacts(0);
        Once(heads[0], kept, rest);
        ProgressNext(idle, kept, out, rest, young, count, count', quota);
        i, count' := Round(i, list, kept, rest, ring, count', limits);
        if count' != before {
          ring := ring + [rest[0]];
          out := out + [rest[0]];
        } else {
          kept := kept + [rest[0]];
        }
        rest := rest[1..];
      }
      ProgressDone(idle, kept, out, rest, young, count, count', quota);
      assert [heads[0]] + kept + rest == [heads[0]] + kept;
    }

    /** The idle servers of a route whose rule has an idle limit, in `od_router_expire_cb`. */
    method Sweep(list: Link, ghost gone: seq<Link>, count: int, limits: Limits) returns (count': int)
      requires Valid() && |heads| > 0
      requires Ring(gone) && gone[0] == list && forall l :: l in gone ==> l !in home
      modifies this, home.Keys`next, home.Keys`prev, rings[0]`state, rings[0]`idleTime, gone`next, gone`prev
      ensures Valid()
      ensures
        var idle, young := old(rings[0])[1..], old(YoungIn(rings[0], limits));
        var expired := Expired(idle, young, count, limits.maxRouting);
        && rings == old(rings)[0 := [heads[0]] + Kept(idle, young, count, limits.maxRouting)]
        && Ring(gone + expired) && (forall l :: l in gone + expired ==> l !in home)
        && count' == count + |expired|
        && (forall l :: l in idle ==> l.idleTime == old(l.idleTime) + (if l in young then 1 else 0))
      // Who ages and who leaves, while the clock has not wrapped around since the servers were opened.
      ensures forall l :: l in old(rings[0])[1..] && l.initTime <= limits.now < 0x1_0000_0000_0000_0000 ==>
                var past := limits.now - l.initTime >= limits.lifetime || old(l.idleTime) >= limits.ttl;
                && l.idleTime == old(l.idleTime) + (if past then 0 else 1)
                && (l !in home ==> past)
                && (l in home && past ==> count' > limits.maxRouting)
      // One more than the quota may leave.
      ensures count <= count' && (count' > count ==> count' <= limits.maxRouting + 1)
    {
      hide Ring, Listed, Sound, Valid, Distinct, Kept, Expired;
      IdleFacts(0);
      ghost var idle, young, quota := rings[0][1..], YoungIn(rings[0], limits), limits.maxRouting;
      assert forall l :: l in idle && l.initTime <= limits.now < 0x1_0000_0000_0000_0000 ==>
               (l in young <==> limits.now - l.initTime < limits.lifetime && l.idleTime < limits.ttl);
      count' := Foreach(list, gone, count, limits);
      hide Young;
      SweepBounds(idle, young, count, quota);
      IdleFacts(0);
      ghost var out := Expired(idle, young, count, quota);
      forall l | l in idle
        ensures l in home || l in out
        ensures l !in home <==> l in out
      {
        assert l in out ==> l in gone + out;
        assert l in Kept(idle, young, count, quota) ==> l in rings[0];
      }
    }
  }

  /** Of the servers `kept` stay, `out` leave, and `rest` are still to be looked at. */
  ghost predicate Progress(
      servers: seq<Link>, kept: seq<Link>, out: seq<Link>, rest: seq<Link>, young: set<Link>, count: int, count': int,
      quota: int)
  {
    && Kept(servers, young, count, quota) == kept + Kept(rest, young, count', quota)
    && Expired(servers, young, count, quota) == out + Expired(rest, young, count', quota)
    && count' == count + |out|
  }

  lemma ProgressBegins(servers: seq<Link>, young: set<Link>, count: int, quota: int)
    ensures Progress(servers, [], [], servers, young, count, count, quota)
  {
  }

  lemma ProgressNext(
      servers: seq<Link>, kept: seq<Link>, out: seq<Link>, rest: seq<Link>, young: set<Link>, count: int, count': int,
      quota: int)
    requires rest != [] && Progress(servers, kept, out, rest, young, count, count', quota)
    ensures if rest[0] !in young && count' <= quota
            then Progress(servers, kept, out + [rest[0]], rest[1..], young, count, count' + 1, quota)
            else Progress(servers, kept + [rest[0]], out, rest[1..], young, count, count', quota)
  {
  }

  lemma ProgressDone(
      servers: seq<Link>, kept: seq<Link>, out: seq<Link>, rest: seq<Link>, young: set<Link>, count: int, count': int,
      quota: int)
    requires rest == [] && Progress(servers, kept, out, rest, young, count, count', quota)
    ensures Kept(servers, young, count, quota) == kept && Expired(servers, young, count, quota) == out
    ensures count' == count + |out|
  {
  }

  lemma AloneAgain(link: Link)
    requires Ring([link])
    ensures link.next == link == link.prev
  {
  }

  lemma Once(head: Link, kept: seq<Link>, rest: seq<Link>)
    requires Distinct([head] + kept + rest) && rest != []
    ensures rest[0] !in rest[1..] && rest[0] in [head] + kept + rest
  {
    var ring := [head] + kept + rest;
    assert forall k :: 0 <= k < |rest| ==> rest[k] == ring[|kept| + 1 + k];
  }

  /** Taking out or passing over the first of `rest`. */
  lemma Splice(head: Link, kept: seq<Link>, rest: seq<Link>)
    requires Distinct([head] + kept + rest) && rest != []
    ensures
      var ring := [head] + kept + rest;
      && rest[0] in ring && rest[0] != ring[0]
      && Remove(ring, rest[0]) == [head] + kept + rest[1..] && ring == [head] + (kept + [rest[0]]) + rest[1..]
  {
    var ring, k := [head] + kept + rest, |kept| + 1;
    assert ring[k] == rest[0];
    assert Position(ring, ring[k]) == k;
  }

  const IDLE := 1

  datatype Limits = Limits(lifetime: nat, ttl: nat, maxRouting: int, now: nat)

  /** The server has reached neither its lifetime nor its idle limit; the clock is a 64-bit counter. */
  predicate Young(server: Link, limits: Limits)
    reads server`idleTime
  {
    (limits.now - server.initTime) % 0x1_0000_0000_0000_0000 < limits.lifetime && server.idleTime < limits.ttl
  }

  ghost function YoungIn(servers: seq<Link>, limits: Limits): set<Link>
    reads servers`idleTime
  {
    set l | l in servers && Young(l, limits)
  }

  /** The servers that leave the pool and those that stay, when `count` have left before. */
  ghost function Expired(servers: seq<Link>, young: set<Link>, count: int, quota: int): seq<Link> {
    if servers == [] then []
    else if servers[0] !in young && count <= quota then
      [servers[0]] + Expired(servers[1..], young, count + 1, quota)
    else Expired(servers[1..], young, count, quota)
  }

  ghost function Kept(servers: seq<Link>, young: set<Link>, count: int, quota: int): seq<Link> {
    if servers == [] then []
    else if servers[0] !in young && count <= quota then Kept(servers[1..], young, count + 1, quota)
    else [servers[0]] + Kept(servers[1..], young, count, quota)
  }

  ghost function Aged(servers: seq<Link>, young: set<Link>): seq<Link> {
    if servers == [] then []
    else (if servers[0] in young then [] else [servers[0]]) + Aged(servers[1..], young)
  }

  /** A sweep takes the first servers that are past their limits, up to one more than the quota. */
  lemma {:induction false} SweepTakes(servers: seq<Link>, young: set<Link>, count: int, quota: int)
    ensures
      var aged := Aged(servers, young);
      var room := if count <= quota then quota + 1 - count else 0;
      Expired(servers, young, count, quota) == if room <= |aged| then aged[..room] else aged
  {
    if servers != [] {
      var out := servers[0] !in young && count <= quota;
      var count' := if out then count + 1 else count;
      SweepTakes(servers[1..], young, count', quota);
      var aged, aged' := Aged(servers, young), Aged(servers[1..], young);
      if out {
        assert aged == [servers[0]] + aged';
        var room := quota - count;
        if room <= |aged'| {
          assert aged[..room + 1] == [servers[0]] + aged'[..room];
        }
      }
    }
  }

  /** A sweep loses no server. */
  lemma {:induction false} SweepKeeps(servers: seq<Link>, young: set<Link>, count: int, quota: int)
    ensures multiset(Kept(servers, young, count, quota)) + multiset(Expired(servers, young, count, quota)) ==
            multiset(servers)
  {
    if servers != [] {
      var out := servers[0] !in young && count <= quota;
      SweepKeeps(servers[1..], young, if out then count + 1 else count, quota);
      assert servers == [servers[0]] + servers[1..];
    }
  }

  /** Who is taken is past a limit, and who is past one and not taken is so because the quota was used up. */
  lemma {:induction false} SweepBounds(servers: seq<Link>, young: set<Link>, count: int, quota: int)
    ensures
      var expired, kept := Expired(servers, young, count, quota), Kept(servers, young, count, quota);
      && (forall l :: l in expired ==> l in servers && l !in young)
      && (forall l :: l in servers ==> l in expired || l in kept)
      && (forall l :: l in kept && l !in young ==> count + |expired| > quota)
      && (expired != [] ==> count + |expired| <= quota + 1)
  {
    if servers != [] {
      var out := servers[0] !in young && count <= quota;
      SweepBounds(servers[1..], young, if out then count + 1 else count, quota);
    }
  }

  predicate Expires(server: Link, count: int, limits: Limits)
    reads server`idleTime
  {
    !Young(server, limits) && count <= limits.maxRouting
  }

  twostate lemma RingKept(ring: seq<Link>)
    requires old(Ring(ring)) && forall l :: l in ring ==> l.next == old(l.next) && l.prev == old(l.prev)
    ensures Ring(ring)
  {
  }

  lemma RingFacts(ring: seq<Link>)
    requires Ring(ring)
    ensures ring != [] && Distinct(ring)
  {
  }

  ghost function Position(ring: seq<Link>, link: Link): (k: nat)
    requires link in ring && link != ring[0]
    ensures 0 < k < |ring| && ring[k] == link
  {
    var k :| 0 < k < |ring| && ring[k] == link;
    k
  }

  ghost function Remove(ring: seq<Link>, link: Link): (r: seq<Link>)
    requires link in ring && link != ring[0]
    ensures forall l :: l in r ==> l in ring
    ensures forall l :: l in ring ==> l in r || l == link
    ensures Distinct(ring) ==> link !in r
    ensures |r| == |ring| - 1 && r[0] == ring[0]
  {
    Without(ring, Position(ring, link))
  }

  /** The rings when `link` has left the list of `state`. */
  ghost function Left(rings: seq<seq<Link>>, link: Link, state: nat): (r: seq<seq<Link>>)
    requires state <= |rings| && (state > 0 ==> link in rings[state - 1] && link != rings[state - 1][0])
    ensures |r| == |rings| && (state == 0 ==> r == rings)
    ensures forall s :: 0 <= s < |r| ==> |r[s]| == |rings[s]| - if s + 1 == state then 1 else 0
  {
    if state == 0 then rings else rings[state - 1 := Remove(rings[state - 1], link)]
  }

  /**
   Between two lists of rings: the list of `from` lacks `link` and is else as it was, the list of `to` has it next to
   its head or at its end and is else as it was, and no other list has changed.
   */
  ghost predicate Moves(
      front: bool, before: seq<seq<Link>>, after: seq<seq<Link>>, link: Link, from: nat, to: nat)
  {
    && |after| == |before| && from <= |before| && to <= |before|
    && (forall s :: 0 <= s < |before| && s + 1 != from && s + 1 != to ==> after[s] == before[s])
    && (from > 0 ==> LacksOnly(before[from - 1], after[from - 1], link))
    && (to > 0 ==> before[to - 1] != [] &&
                   after[to - 1] == if front then [before[to - 1][0], link] + before[to - 1][1..]
                                    else before[to - 1] + [link])
  }

  ghost predicate LacksOnly(before: seq<Link>, after: seq<Link>, link: Link) {
    forall k :: 0 <= k < |before| && before[k] == link ==> after == before[..k] + before[k + 1..]
  }

  lemma MovesSo(front: bool, rings: seq<seq<Link>>, link: Link, from: nat, to: nat)
    requires from <= |rings| && to <= |rings| && from != to && (to > 0 ==> rings[to - 1] != [])
    requires from > 0 ==> link in rings[from - 1] && link != rings[from - 1][0] && Distinct(rings[from - 1])
    ensures Moves(front, rings, Entered(front, Left(rings, link, from), link, to), link, from, to)
  {
  }

  function Insert(front: bool, ring: seq<Link>, link: Link): (r: seq<Link>)
    requires ring != []
    ensures forall l :: l in r ==> l in ring || l == link
    ensures forall l :: l in ring ==> l in r
    ensures |r| == |ring| + 1 && r[0] == ring[0] && link in r
  {
    var r := if front then [ring[0], link] + ring[1..] else ring + [link];
    assert link == if front then r[1] else r[|ring|];
    r
  }

  /** The rings when `link` has entered the list of `state`. */
  function Entered(front: bool, rings: seq<seq<Link>>, link: Link, state: nat): (r: seq<seq<Link>>)
    requires state <= |rings| && (state > 0 ==> rings[state - 1] != [])
    ensures |r| == |rings| && (state == 0 ==> r == rings)
    ensures forall s :: 0 <= s < |r| ==> |r[s]| == |rings[s]| + if s + 1 == state then 1 else 0
  {
    if state == 0 then rings else rings[state - 1 := Insert(front, rings[state - 1], link)]
  }
}
