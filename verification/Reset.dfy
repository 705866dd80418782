/**
 `od_reset` as it runs over a live connection: waiting for outstanding replies, cancelling, rolling back
 and discarding. Every action is a step of the connection's machine, so a reset is part of a run.
 */
module Reset {
  import opened Framing
  import opened Accounting
  import opened ServerLink

  /**
   One wait for a ReadyForQuery: what the server does meanwhile, and how the wait ends if none comes;
   `written` says whether a query of the pooler's own that precedes the wait can be written.
   */
  datatype Wait = Wait(serverSteps: seq<Step>, timedOut: bool, written: bool)

  datatype Waited = GotReady | TimedOut | ReadFailed | WriteFailed

  /** What the reset does beyond the connection's steps: waits, cancel requests, its own queries. */
  datatype Act = Awaited(r: Waited) | Cancelled(through: bool) | Asked(query: OwnQuery, answer: Waited)

  const CANCEL_LIMIT := 1

  function Replies(n: nat): (r: seq<Act>)
    ensures |r| == n && forall i :: 0 <= i < n ==> r[i] == Awaited(GotReady)
  {
    seq(n, _ => Awaited(GotReady))
  }

  /**
   How `n` outstanding replies are waited for, with result `rc`: `a` of them come; then, if that is not all, the
   wait fails, or times out. A timeout is the end without cancelling; with it, one cancel request is sent, and
   after it `b` more replies come, and a second failure or timeout is the end.
   */
  predicate SyncShape(rule: Rule, cancels: bool, n: nat, acts: seq<Act>, rc: int, a: nat, b: nat) {
    var timeout := [Awaited(TimedOut)];
    var failure := [Awaited(ReadFailed)];
    if a == n then rc == 1 && acts == Replies(a)
    else
      && a < n
      && if !rule.poolCancel then
           || (rc == 0 && acts == Replies(a) + timeout)
           || (rc == -1 && acts == Replies(a) + failure)
         else if !cancels then
           || (rc == -1 && acts == Replies(a) + timeout + [Cancelled(false)])
           || (rc == -1 && acts == Replies(a) + failure)
         else
           || (rc == -1 && acts == Replies(a) + failure)
           || (rc == 1 && b == n - a && acts == Replies(a) + timeout + [Cancelled(true)] + Replies(b))
           || (rc == -1 && b < n - a && acts == Replies(a) + timeout + [Cancelled(true)] + Replies(b) + failure)
           || (rc == -1 && b < n - a && acts == Replies(a) + timeout + [Cancelled(true)] + Replies(b) + timeout)
  }

  ghost predicate SyncActs(rule: Rule, cancels: bool, n: nat, acts: seq<Act>, rc: int) {
    exists a: nat, b: nat :: SyncShape(rule, cancels, n, acts, rc, a, b)
  }

  /** How far the wait is when `a` replies came before the first timeout and, if there was one, `b` since. */
  predicate SyncSofar(rule: Rule, cancels: bool, acts: seq<Act>, tried: nat, a: nat, b: nat) {
    if tried == 0 then acts == Replies(a) && b == 0
    else
      && tried == 1 && rule.poolCancel && cancels
      && acts == Replies(a) + [Awaited(TimedOut)] + [Cancelled(true)] + Replies(b)
  }

  lemma ReplyCame(rule: Rule, cancels: bool, acts: seq<Act>, tried: nat, a: nat, b: nat)
    requires SyncSofar(rule, cancels, acts, tried, a, b)
    ensures SyncSofar(rule, cancels, acts + [Awaited(GotReady)], tried, if tried == 0 then a + 1 else a,
                      if tried == 0 then b else b + 1)
  {
    var n := if tried == 0 then a else b;
    assert Replies(n) + [Awaited(GotReady)] == Replies(n + 1);
    if tried != 0 {
      var front := Replies(a) + [Awaited(TimedOut)] + [Cancelled(true)];
      assert front + Replies(b) + [Awaited(GotReady)] == front + (Replies(b) + [Awaited(GotReady)]);
    }
  }

  lemma CancelSent(rule: Rule, acts: seq<Act>, a: nat)
    requires SyncSofar(rule, true, acts, 0, a, 0) && rule.poolCancel
    ensures SyncSofar(rule, true, acts + [Awaited(TimedOut)] + [Cancelled(true)], 1, a, 0)
  {
    assert Replies(0) == [];
  }

  lemma SyncEnds(
      rule: Rule, cancels: bool, n: nat, acts: seq<Act>, tried: nat, a: nat, b: nat, last: seq<Act>, rc: int)
    requires SyncSofar(rule, cancels, acts, tried, a, b) && a + b <= n && (tried > 0 ==> a < n)
    requires
      if a + b == n then last == [] && rc == 1
      else
        || (last == [Awaited(ReadFailed)] && rc == -1)
        || (last == [Awaited(TimedOut)] && rc == 0 && !rule.poolCancel)
        || (last == [Awaited(TimedOut)] && rc == -1 && tried == 1)
        || (last == [Awaited(TimedOut), Cancelled(false)] && rc == -1 && tried == 0 && rule.poolCancel && !cancels)
    ensures SyncActs(rule, cancels, n, acts + last, rc)
  {
    assert acts + [] == acts;
    assert acts + [Awaited(TimedOut), Cancelled(false)] == acts + [Awaited(TimedOut)] + [Cancelled(false)];
    assert SyncShape(rule, cancels, n, acts + last, rc, a, b);
  }

  lemma SyncBegins(rule: Rule, cancels: bool)
    ensures SyncSofar(rule, cancels, [], 0, 0, 0)
  {
    assert Replies(0) == [];
  }

  /** The queries that are due are asked one after the other, and all but a last one that fails are answered. */
  predicate Answered(asks: seq<Act>, due: seq<OwnQuery>, ok: bool) {
    && |asks| <= |due| && (ok ==> |asks| == |due|) && (!ok ==> asks != [])
    && forall i :: 0 <= i < |asks| ==>
         && asks[i].Asked? && asks[i].query == due[i]
         && (asks[i].answer.GotReady? <==> ok || i < |asks| - 1)
  }

  lemma AnsweredSo(rollback: bool, discard: bool, first: Waited, second: Waited)
    ensures var due := (if rollback then [Rollback] else []) + (if discard then [Discard] else []);
            var one := if rollback then [Asked(Rollback, first)] else [];
            var two := if discard then [Asked(Discard, second)] else [];
            && (rollback && !first.GotReady? ==> Answered(one, due, false))
            && (discard && first.GotReady? && !second.GotReady? ==> Answered(one + two, due, false))
            && (first.GotReady? && second.GotReady? ==> Answered(one + two, due, true))
  {
  }

  /** The pooler's own queries among the steps, in order. */
  function Queries(steps: seq<Step>): seq<OwnQuery> {
    if steps == [] then []
    else
      var last := steps[|steps| - 1];
      Queries(steps[..|steps| - 1]) + if last.ResetAsk? then [last.query] else []
  }

  lemma {:induction false} RunSnoc(rule: Rule, l: Link, steps: seq<Step>, step: Step)
    requires ValidRun(rule, l, steps) && Enabled(rule, Exec(rule, l, steps), step)
    ensures ValidRun(rule, l, steps + [step])
    ensures Exec(rule, l, steps + [step]) == Apply(rule, Exec(rule, l, steps), step)
    decreases |steps|
  {
    if steps == [] {
      assert steps + [step] == [step] && [step][1..] == [];
    } else {
      hide Apply, Enabled;
      assert (steps + [step])[1..] == steps[1..] + [step];
      RunSnoc(rule, Apply(rule, l, steps[0]), steps[1..], step);
    }
  }

  /** The only ReadyForQuery still to come answers the pooler's own query and is the last item. */
  lemma OnlyPoolerReady(l: Link)
    requires Inv(l) && l.phase.Resetting? && l.phase.asked != [] && l.inbox != [] && l.inbox[0].message.Ready()
    requires l.server.syncRequest == l.server.syncReply + 1
    ensures l.inbox[0].message.status.Idle?
  {
    var items := Items(l);
    assert items[0] == Item(l.inbox[0].owner, l.inbox[0].ticket, true);
    assert Readies(items[1..]) == 0;
    NoneReady(items[1..]);
  }

  lemma FirstWellFormed(l: Link)
    requires Inv(l) && !l.phase.Closed? && l.inbox != []
    ensures l.inbox[0].message.Ready() ==> l.inbox[0].message.wellFormed && !l.inbox[0].message.status.Unknown?
  {
  }

  class Connection {
    const rule: Rule
    var link: Link
    ghost const origin: Link
    ghost var trace: seq<Step>

    /** The connection is where the steps of `trace` lead from `origin`. */
    ghost predicate Valid()
      reads this
    {
      Inv(link) && ValidRun(rule, origin, trace) && Exec(rule, origin, trace) == link
    }

    constructor (rule: Rule, link: Link)
      requires Inv(link)
      ensures Valid() && this.rule == rule && this.link == link && trace == []
    {
      this.rule, this.link, this.origin, this.trace := rule, link, link, [];
    }

    method Do(step: Step)
      requires Valid() && Enabled(rule, link, step) && Settled(step)
      modifies this
      ensures Valid() && link == Apply(rule, old(link), step) && trace == old(trace) + [step]
      ensures Queries(trace) == Queries(old(trace)) + if step.ResetAsk? then [step.query] else []
    {
      hide Inv, Apply, Enabled;
      StepKeeps(rule, link, step);
      RunSnoc(rule, origin, trace, step);
      link := Apply(rule, link, step);
      assert (trace + [step])[..|trace|] == trace;
      trace := trace + [step];
    }

    /** Nothing but the counters, the transaction flag and the traffic changes while waiting. */
    ghost predicate Waiting(before: Link)
      reads this
    {
      && link.phase == before.phase && link.half == before.half
      && link.server.isCopy == before.server.isCopy && link.server.syncRequest == before.server.syncRequest
    }

    /** Reads until a ReadyForQuery has been read, or the wait ends without one. */
    method ReadyWait(w: Wait) returns (r: Waited)
      requires Valid() && link.phase.Resetting? && link.half.Boundary?
      modifies this
      ensures Valid() && Waiting(old(link)) && old(trace) <= trace && Queries(trace) == Queries(old(trace))
      ensures link.server.syncReply == old(link.server.syncReply) + (if r == GotReady then 1 else 0)
      ensures r == GotReady && old(link.phase.asked) != [] && link.server.Synchronized() ==> !link.server.isTransaction
      ensures r != GotReady ==> link.inbox == [] && r == (if w.timedOut then TimedOut else ReadFailed)
    {
      hide Inv, ValidRun, Exec, Queries;
      var i := 0;
      while true
        invariant 0 <= i <= |w.serverSteps| && Valid() && Waiting(old(link)) && old(trace) <= trace
        invariant link.server.syncReply == old(link.server.syncReply) && Queries(trace) == Queries(old(trace))
        decreases |w.serverSteps| - i, |link.inbox|
      {
        if link.inbox != [] {
          var ready := ReadReply();
          if ready {
            return GotReady;
          }
        } else if i == |w.serverSteps| {
          return if w.timedOut then TimedOut else ReadFailed;
        } else {
          ServerMakesProgress(w.serverSteps[i]);
          i := i + 1;
        }
      }
    }

    method ReadReply() returns (ready: bool)
      requires Valid() && link.phase.Resetting? && link.half.Boundary? && link.inbox != []
      modifies this
      ensures Valid() && Waiting(old(link)) && old(trace) <= trace && Queries(trace) == Queries(old(trace))
      ensures |link.inbox| < old(|link.inbox|)
      ensures link.server.syncReply == old(link.server.syncReply) + (if ready then 1 else 0)
      ensures ready && old(link.phase.asked) != [] && link.server.Synchronized() ==> !link.server.isTransaction
    {
      hide Inv, Queries, ValidRun, Exec;
      ready := link.inbox[0].message.Ready();
      if ready && link.phase.asked != [] && link.server.syncRequest == link.server.syncReply + 1 {
        OnlyPoolerReady(link);
      }
      FirstWellFormed(link);
      Do(ResetRead);
    }

    method ServerMakesProgress(step: Step)
      requires Valid() && link.phase.Resetting?
      modifies this
      ensures Valid() && Waiting(old(link)) && old(trace) <= trace && link.server == old(link.server)
      ensures Queries(trace) == Queries(old(trace))
    {
      hide Inv;
      if (step.Emit? || step.Finish? || step.Silent? || step.Swallow?) && Enabled(rule, link, step) {
        Do(step);
      }
    }

    /** One of the pooler's own queries, counted once it is written, and its answer. */
    method Query(query: OwnQuery, w: Wait) returns (ok: bool, ghost r: Waited)
      requires Valid() && Enabled(rule, link, ResetAsk(query))
      modifies this
      ensures Valid() && old(trace) <= trace
      ensures link.phase == old(link.phase).(asked := old(link.phase.asked) + if w.written then [query] else [])
      ensures Queries(trace) == Queries(old(trace)) + if w.written then [query] else []
      ensures link.half == old(link.half) && link.server.isCopy == old(link.server.isCopy)
      ensures ok ==> link.server.Synchronized() && !link.server.isTransaction && w.written
      ensures ok <==> r == GotReady
      ensures r == WriteFailed <==> !w.written
      ensures !w.written ==> link == old(link)
    {
      hide Inv, Queries;
      if !w.written {
        return false, WriteFailed;
      }
      Do(ResetAsk(query));
      var waited := ReadyWait(w);
      r := waited;
      ok := waited == GotReady;
    }

    /**
     The pooler's own queries of a reset, once the server is synchronized: `ROLLBACK` if it is still in a
     transaction, and then `DISCARD ALL`, each of them if the rule says so.
     */
    method Clean(rollback: Wait, discard: Wait) returns (ok: bool, ghost asks: seq<Act>)
      requires Valid() && link.phase.Resetting? && link.phase.asked == [] && link.half.Boundary?
      requires link.server.Synchronized() && !link.server.isCopy
      modifies this
      ensures Valid() && old(trace) <= trace
      ensures link.phase.Resetting? && link.phase.cleanup == old(link.phase.cleanup)
      ensures Queries(trace) == Queries(old(trace)) + link.phase.asked
      ensures ok ==> ResetHolds(rule, link)
      ensures
        var due := (if rule.poolRollback && old(link.server.isTransaction) then [Rollback] else []) +
                   (if rule.poolDiscard then [Discard] else []);
        && link.phase.asked <= due && (ok ==> link.phase.asked == due)
        && Answered(asks, due, ok)
    {
      hide Inv, Queries, ValidRun, Exec, Answered;
      ghost var r: Waited;
      ghost var rollbackDue := rule.poolRollback && link.server.isTransaction;
      asks := [];
      if rule.poolRollback && link.server.isTransaction {
        ok, r := Query(Rollback, rollback);
        asks := [Asked(Rollback, r)];
        AnsweredSo(rollbackDue, rule.poolDiscard, r, GotReady);
        if !ok {
          return;
        }
        assert !link.server.isTransaction;
      }
      if rule.poolDiscard {
        ok, r := Query(Discard, discard);
        asks := asks + [Asked(Discard, r)];
        AnsweredSo(rollbackDue, rule.poolDiscard, GotReady, r);
        if !ok {
          return;
        }
      }
      assert asks + [] == asks;
      AnsweredSo(rollbackDue, rule.poolDiscard, GotReady, GotReady);
      ok := true;
    }

    /**
     The reset between two clients. `waits` decides how each wait goes, `cancels` whether a cancel request
     gets through. Result 1: reusable; 0: drop the connection; -1: error. `sync` is how the outstanding replies
     were waited for, `asks` are the queries after that, and `mid` steps were done when they began.
     */
    method OdReset(waits: nat -> Wait, cancels: bool)
      returns (rc: int, ghost sync: seq<Act>, ghost asks: seq<Act>, ghost mid: nat)
      requires Valid() && link.phase.Resetting? && link.phase.asked == []
      modifies this
      ensures Valid() && old(trace) <= trace
      ensures link.phase.Resetting? && link.phase.cleanup == old(link.phase.cleanup)
      ensures rc in {1, 0, -1}
      ensures rc == 1 ==> ResetHolds(rule, link)
      ensures rc == 0 ==> ResetDrops(rule, link)
      ensures
        var drops := old(link.server.isCopy || (!rule.poolRollback && link.server.isTransaction));
        var broken := old(!link.half.Boundary?);
        if drops || broken then rc == (if drops then 0 else -1) && sync == asks == [] && trace == old(trace)
        else
          && old(link.server.syncReply <= link.server.syncRequest)
          && SyncActs(rule, cancels, old(link.server.syncRequest - link.server.syncReply), sync,
                      if asks != [] then 1 else rc)
          && (asks != [] ==> rc != 0)
      // The queries: what is due once the server is synchronized, in this order, all of it if the result is 1.
      ensures Queries(trace) == Queries(old(trace)) + link.phase.asked
      ensures
        |old(trace)| <= mid <= |trace| && ValidRun(rule, origin, trace[..mid]) &&
        var synced := Exec(rule, origin, trace[..mid]).server;
        var due := (if rule.poolRollback && synced.isTransaction then [Rollback] else []) +
                   (if rule.poolDiscard then [Discard] else []);
        && Queries(trace[..mid]) == Queries(old(trace))
        && link.phase.asked <= due && (link.phase.asked != [] ==> synced.Synchronized())
        && (rc == 1 ==> synced.Synchronized() && link.phase.asked == due && Answered(asks, due, true))
        && (rc == -1 && asks != [] ==> Answered(asks, due, false))
    {
      hide Inv, Queries, SyncActs, Exec, ValidRun;
      sync, asks, mid := [], [], |trace|;
      assert trace[..mid] == trace;
      if link.server.isCopy {
        return 0, [], [], mid;
      }
      if !rule.poolRollback && link.server.isTransaction {
        return 0, [], [], mid;
      }
      if !link.half.Boundary? {
        return -1, [], [], mid;
      }
      SyncBound();
      var next: nat;
      rc, next, sync := Synchronize(waits, cancels);
      mid := |trace|;
      assert trace[..mid] == trace;
      if rc != 1 {
        return;
      }
      ghost var before := trace;
      var ok;
      ok, asks := Clean(waits(next), waits(next + 1));
      assert trace[..mid] == before;
      rc := if ok then 1 else -1;
    }

    /** Waits until every request has its reply; it ends because each wait uses up a reply or a cancel. */
    method Synchronize(waits: nat -> Wait, cancels: bool) returns (rc: int, next: nat, ghost acts: seq<Act>)
      requires Valid() && link.phase.Resetting? && link.half.Boundary?
      requires link.server.syncReply <= link.server.syncRequest
      modifies this
      ensures Valid() && Waiting(old(link)) && old(trace) <= trace && Queries(trace) == Queries(old(trace))
      ensures rc in {1, 0, -1} && (rc == 1 <==> link.server.Synchronized())
      ensures rc == 0 ==> !rule.poolCancel
      ensures SyncActs(rule, cancels, old(link.server.syncRequest - link.server.syncReply), acts, rc)
    {
      hide Inv, Queries, SyncActs, SyncSofar;
      ghost var n := link.server.syncRequest - link.server.syncReply;
      ghost var a, b: nat := 0, 0;
      next, acts := 0, [];
      var tried := 0;
      assert SyncSofar(rule, cancels, acts, tried, a, b) by { SyncBegins(rule, cancels); }
      while !link.server.Synchronized()
        invariant Valid() && Waiting(old(link)) && old(trace) <= trace && Queries(trace) == Queries(old(trace))
        invariant link.server.syncReply <= link.server.syncRequest
        invariant n - a - b == link.server.syncRequest - link.server.syncReply && (tried > 0 ==> a < n)
        invariant tried == 0 ==> b == 0
        invariant 0 <= tried <= CANCEL_LIMIT && SyncSofar(rule, cancels, acts, tried, a, b)
        decreases CANCEL_LIMIT - tried, link.server.syncRequest - link.server.syncReply
      {
        var r := ReadyWait(waits(next));
        next := next + 1;
        match r
        case GotReady =>
          ReplyCame(rule, cancels, acts, tried, a, b);
          acts := acts + [Awaited(r)];
          if tried == 0 {
            a := a + 1;
          } else {
            b := b + 1;
          }
        case ReadFailed =>
          SyncEnds(rule, cancels, n, acts, tried, a, b, [Awaited(r)], -1);
          return -1, next, acts + [Awaited(r)];
        case TimedOut =>
          if !rule.poolCancel {
            SyncEnds(rule, cancels, n, acts, tried, a, b, [Awaited(r)], 0);
            return 0, next, acts + [Awaited(r)];
          }
          if tried == CANCEL_LIMIT {
            SyncEnds(rule, cancels, n, acts, tried, a, b, [Awaited(r)], -1);
            return -1, next, acts + [Awaited(r)];
          }
          tried := tried + 1;
          if !cancels {
            SyncEnds(rule, cancels, n, acts, 0, a, b, [Awaited(r), Cancelled(false)], -1);
            return -1, next, acts + [Awaited(r), Cancelled(false)];
          }
          CancelSent(rule, acts, a);
          acts := acts + [Awaited(r)] + [Cancelled(true)];
      }
      SyncEnds(rule, cancels, n, acts, tried, a, b, [], 1);
      assert acts + [] == acts;
      rc := 1;
    }

    /** What the relay loop (`cleanup` false) or the final cleanup does with the server after a reset. */
    method ResetAndReturn(waits: nat -> Wait, cancels: bool) returns (rc: int, ghost asked: seq<OwnQuery>)
      requires Valid() && link.phase.Resetting? && link.phase.asked == []
      modifies this
      ensures Valid() && old(trace) <= trace
      ensures link.phase == (if rc == 1 || (rc == 0 && !old(link.phase.cleanup)) then Pooled(rc) else Closed)
      ensures link.phase == Pooled(1) ==>
                && link.server.Synchronized() && !link.server.isCopy && link.half.Boundary?
                && (rule.poolRollback ==> !link.server.isTransaction)
      ensures Queries(trace) == Queries(old(trace)) + asked
      ensures link.phase == Pooled(1) ==>
                && asked ==
                     (if Rollback in asked then [Rollback] else []) + (if rule.poolDiscard then [Discard] else [])
                && (Rollback in asked ==> rule.poolRollback)
    {
      hide Inv, Queries, SyncActs, Exec, ValidRun;
      ghost var sync, asks, mid;
      rc, sync, asks, mid := OdReset(waits, cancels);
      asked := link.phase.asked;
      Do(ResetDone(rc));
    }

    lemma SyncBound()
      requires Valid() && !link.phase.Closed?
      ensures link.server.syncReply <= link.server.syncRequest
    {
    }
  }
}
