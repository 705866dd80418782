/**
 Counting errors over a sliding window: a ring of hash tables, one per interval, against a plain log of stored
 codes and interval changes.
 */
module ErrorWindow {

  datatype Item = Item(value: nat, cnt: nat)

  type Bucket = seq<Item>
  type Table = seq<Bucket>

  predicate Has(b: Bucket, v: nat) {
    exists i :: 0 <= i < |b| && b[i].value == v
  }

  /** The count of the first item with value `v`. */
  function CountIn(b: Bucket, v: nat): nat {
    if b == [] then 0 else if b[0].value == v then b[0].cnt else CountIn(b[1..], v)
  }

  /** The bucket after `v` was counted once more: its first item goes up, or a new one is put in front. */
  function Bumped(b: Bucket, v: nat): Bucket {
    if b == [] then []
    else if b[0].value == v then [b[0].(cnt := b[0].cnt + 1)] + b[1..]
    else [b[0]] + Bumped(b[1..], v)
  }

  function Counting(b: Bucket, v: nat): Bucket {
    if Has(b, v) then Bumped(b, v) else [Item(v, 1)] + b
  }

  /** A reset sets the values to 0 and leaves the counts. */
  function Cleared(b: Bucket): Bucket {
    seq(|b|, i requires 0 <= i < |b| => Item(0, b[i].cnt))
  }

  function Counted(t: Table, v: nat): nat
    requires t != []
  {
    CountIn(t[v % |t|], v)
  }

  function Stored(t: Table, v: nat): Table
    requires t != []
  {
    t[v % |t| := Counting(t[v % |t|], v)]
  }

  function Reset(t: Table): Table {
    seq(|t|, i requires 0 <= i < |t| => Cleared(t[i]))
  }

  lemma {:induction false} BumpedCounts(b: Bucket, v: nat, w: nat)
    requires Has(b, v)
    ensures CountIn(Bumped(b, v), w) == CountIn(b, w) + if w == v then 1 else 0
  {
    if b[0].value != v {
      var i :| 0 <= i < |b| && b[i].value == v;
      assert b[1..][i - 1].value == v;
      BumpedCounts(b[1..], v, w);
    }
  }

  lemma {:induction false} AbsentCounts(b: Bucket, v: nat)
    requires !Has(b, v)
    ensures CountIn(b, v) == 0
  {
    if b != [] {
      assert b[0].value != v;
      assert forall i :: 0 <= i < |b[1..]| ==> b[1..][i] == b[i + 1];
      AbsentCounts(b[1..], v);
    }
  }

  /** Storing a code raises its own count by one and no other. */
  lemma StoredCounts(t: Table, v: nat, w: nat)
    requires t != []
    ensures Counted(Stored(t, v), w) == Counted(t, w) + if w == v then 1 else 0
  {
    var b := t[v % |t|];
    if w % |t| == v % |t| {
      if Has(b, v) {
        BumpedCounts(b, v, w);
      } else {
        AbsentCounts(b, v);
        assert ([Item(v, 1)] + b)[1..] == b;
      }
    }
  }

  lemma {:induction false} ClearedCounts(b: Bucket, v: nat)
    ensures CountIn(Cleared(b), v) == if v == 0 && b != [] then b[0].cnt else 0
  {
    if b != [] {
      assert Cleared(b)[1..] == Cleared(b[1..]);
      ClearedCounts(b[1..], v);
    }
  }

  /** A reset forgets every code but 0, although it keeps the counts. */
  lemma ResetCounts(t: Table, v: nat)
    requires t != []
    ensures Counted(Reset(t), v) == if v == 0 && t[0] != [] then t[0][0].cnt else 0
  {
    ClearedCounts(t[v % |t|], v);
  }

  datatype Event = Store(code: nat) | Advance

  /** How often `code` was stored `d` intervals ago. */
  function Interval(log: seq<Event>, d: nat, code: nat): nat {
    if log == [] then 0
    else
      var rest, last := log[..|log| - 1], log[|log| - 1];
      match last
      case Store(c) => Interval(rest, d, code) + if d == 0 && c == code then 1 else 0
      case Advance => if d == 0 then 0 else Interval(rest, d - 1, code)
  }

  /** How often `code` was stored in the current interval and the `n - 1` before it. */
  function Recent(log: seq<Event>, n: nat, code: nat): nat {
    if n == 0 || log == [] then 0
    else
      var rest, last := log[..|log| - 1], log[|log| - 1];
      match last
      case Store(c) => Recent(rest, n, code) + if c == code then 1 else 0
      case Advance => Recent(rest, n - 1, code)
  }

  /** The window is the sum of its intervals. */
  lemma {:induction false} RecentIntervals(log: seq<Event>, n: nat, code: nat)
    ensures Recent(log, n + 1, code) == Recent(log, n, code) + Interval(log, n, code)
  {
    if log != [] {
      var rest := log[..|log| - 1];
      if log[|log| - 1].Store? || n > 0 {
        RecentIntervals(rest, if log[|log| - 1].Store? then n else n - 1, code);
      }
    }
  }

  /** How many interval changes the log holds. */
  function Advances(log: seq<Event>): nat {
    if log == [] then 0
    else Advances(log[..|log| - 1]) + if log[|log| - 1].Advance? then 1 else 0
  }

  /** At place `i` of the log `code` was stored, with fewer than `n` interval changes behind it. */
  predicate InWindow(log: seq<Event>, n: nat, code: nat, i: nat)
    requires i < |log|
  {
    log[i] == Store(code) && Advances(log[i..]) < n
  }

  ghost function Window(log: seq<Event>, n: nat, code: nat): set<nat> {
    set i: nat | i < |log| && InWindow(log, n, code, i)
  }

  lemma StillInWindow(log: seq<Event>, last: Event, n: nat, code: nat, i: nat)
    requires i < |log|
    ensures InWindow(log + [last], n, code, i) <==>
            if last.Advance? then n > 0 && InWindow(log, n - 1, code, i) else InWindow(log, n, code, i)
  {
    var all := log + [last];
    assert all[i..][..|log| - i] == log[i..];
    assert all[i..][|log| - i] == last;
  }

  lemma LastInWindow(log: seq<Event>, last: Event, n: nat, code: nat)
    ensures InWindow(log + [last], n, code, |log|) <==> last == Store(code) && n > 0
  {
    assert (log + [last])[|log|..] == [last] && [last][..0] == [];
    assert Advances([last]) == Advances([]) + if last.Advance? then 1 else 0;
  }

  lemma WindowSnoc(log: seq<Event>, last: Event, n: nat, code: nat)
    ensures Window(log + [last], n, code) ==
            if last.Advance? then if n == 0 then {} else Window(log, n - 1, code)
            else Window(log, n, code) + if last == Store(code) && n > 0 then {|log|} else {}
  {
    hide InWindow;
    forall i: nat | i < |log|
      ensures InWindow(log + [last], n, code, i) <==>
              if last.Advance? then n > 0 && InWindow(log, n - 1, code, i) else InWindow(log, n, code, i)
    {
      StillInWindow(log, last, n, code, i);
    }
    LastInWindow(log, last, n, code);
  }

  lemma NoWindow(log: seq<Event>, code: nat)
    ensures Window(log, 0, code) == {}
  {
  }

  /** The count over the window is the number of the places in it. */
  lemma {:induction false} RecentIs(log: seq<Event>, n: nat, code: nat)
    ensures Recent(log, n, code) == |Window(log, n, code)|
    decreases |log|
  {
    if log == [] || n == 0 {
      NoWindow(log, code);
      assert log == [] ==> Window(log, n, code) == {};
    } else {
      var rest, last := log[..|log| - 1], log[|log| - 1];
      assert log == rest + [last];
      assert |rest| !in Window(rest, n, code);
      hide Window;
      WindowSnoc(rest, last, n, code);
      RecentIs(rest, if last.Advance? then n - 1 else n, code);
    }
  }

  /** The slot that was current `d` intervals ago. */
  function Slot(n: nat, current: nat, d: nat): (r: nat)
    requires d < n && current < n
    ensures r < n
  {
    if d <= current then current - d else current + n - d
  }

  /** Every slot counts the codes other than 0 of its interval. */
  ghost predicate Tracks(tables: seq<Table>, current: nat, log: seq<Event>) {
    && current < |tables| && (forall i :: 0 <= i < |tables| ==> tables[i] != [])
    && forall d: nat, code: nat :: d < |tables| && code != 0 ==>
         Counted(tables[Slot(|tables|, current, d)], code) == Interval(log, d, code)
  }

  lemma StoreTracks(tables: seq<Table>, current: nat, log: seq<Event>, code: nat)
    requires Tracks(tables, current, log)
    ensures Tracks(tables[current := Stored(tables[current], code)], current, log + [Store(code)])
  {
    var after, log' := tables[current := Stored(tables[current], code)], log + [Store(code)];
    assert log'[..|log|] == log;
    forall d: nat, c: nat | d < |tables| && c != 0
      ensures Counted(after[Slot(|tables|, current, d)], c) == Interval(log', d, c)
    {
      StoredCounts(tables[current], code, c);
    }
  }

  lemma AdvanceTracks(tables: seq<Table>, current: nat, log: seq<Event>)
    requires Tracks(tables, current, log)
    ensures
      var next := (current + 1) % |tables|;
      Tracks(tables[next := Reset(tables[next])], next, log + [Advance])
  {
    var n := |tables|;
    var next := (current + 1) % n;
    NextSlot(n, current);
    var after, log' := tables[next := Reset(tables[next])], log + [Advance];
    assert log'[..|log|] == log;
    forall d: nat, c: nat | d < n && c != 0
      ensures Counted(after[Slot(n, next, d)], c) == Interval(log', d, c)
    {
      if d == 0 {
        ResetCounts(tables[next], c);
      } else {
        assert Slot(n, next, d) == Slot(n, current, d - 1) != next;
      }
    }
  }

  lemma NextSlot(n: nat, current: nat)
    requires current < n
    ensures (current + 1) % n == if current + 1 == n then 0 else current + 1
  {
  }

  function Sum(s: seq<nat>): nat {
    if s == [] then 0 else s[0] + Sum(s[1..])
  }

  lemma {:induction false} SumSplit(s: seq<nat>, k: nat)
    requires k <= |s|
    ensures Sum(s) == Sum(s[..k]) + Sum(s[k..])
  {
    if k > 0 {
      SumSplit(s[1..], k - 1);
      assert s[..k][1..] == s[1..][..k - 1] && s[1..][k - 1..] == s[k..];
    } else {
      assert s[..0] == [] && s[0..] == s;
    }
  }

  /** The slots of the last `m` intervals, current one last. */
  lemma {:induction false} SumOfWindow(counts: seq<nat>, current: nat, log: seq<Event>, code: nat, m: nat)
    requires current < |counts| && m <= |counts|
    requires forall d: nat :: d < |counts| ==> counts[Slot(|counts|, current, d)] == Interval(log, d, code)
    ensures m <= current + 1 ==> Recent(log, m, code) == Sum(counts[current + 1 - m..current + 1])
    ensures m > current + 1 ==>
              Recent(log, m, code) == Sum(counts[..current + 1]) + Sum(counts[|counts| + current + 1 - m..])
  {
    var n := |counts|;
    if m > 0 {
      SumOfWindow(counts, current, log, code, m - 1);
      RecentIntervals(log, m - 1, code);
      var i := Slot(n, current, m - 1);
      assert counts[i] == Interval(log, m - 1, code);
      hide Sum, Recent, Interval;
      if m > current + 1 {
        assert counts[i..] == counts[i..n] && counts[i + 1..] == counts[i + 1..n];
        if m == current + 2 {
          assert counts[0..current + 1] == counts[..current + 1];
        }
      }
    }
  }

  /** Adding up all slots gives the count over the whole window. */
  lemma SumOfSlots(counts: seq<nat>, current: nat, log: seq<Event>, code: nat)
    requires current < |counts|
    requires forall d: nat :: d < |counts| ==> counts[Slot(|counts|, current, d)] == Interval(log, d, code)
    ensures Sum(counts) == Recent(log, |counts|, code)
  {
    SumOfWindow(counts, current, log, code, |counts|);
    SumSplit(counts, current + 1);
    assert counts[0..current + 1] == counts[..current + 1];
    if current + 1 == |counts| {
      assert counts[|counts|..] == [];
    }
  }

  // ------------------------------------------------------------------------ code 0

  /** A code of bucket 0 was ever stored in the slot that was current `d` intervals ago. */
  predicate Occupied(log: seq<Event>, n: nat, size: nat, d: nat)
    requires d < n && size > 0
  {
    log != [] &&
    var rest, last := log[..|log| - 1], log[|log| - 1];
    match last
    case Store(c) => (d == 0 && c % size == 0) || Occupied(rest, n, size, d)
    case Advance => Occupied(rest, n, size, if d == 0 then n - 1 else d - 1)
  }

  /** One was stored before the slot was last reset. */
  predicate Stale(log: seq<Event>, n: nat, size: nat, d: nat)
    requires d < n && size > 0
  {
    log != [] &&
    var rest, last := log[..|log| - 1], log[|log| - 1];
    match last
    case Store(_) => Stale(rest, n, size, d)
    case Advance => if d == 0 then Occupied(rest, n, size, n - 1) else Stale(rest, n, size, d - 1)
  }

  /** One was stored `m` intervals ago or before. */
  predicate Ever(log: seq<Event>, m: nat, size: nat)
    requires size > 0
  {
    log != [] &&
    var rest, last := log[..|log| - 1], log[|log| - 1];
    match last
    case Store(c) => (m == 0 && c % size == 0) || Ever(rest, m, size)
    case Advance => Ever(rest, if m == 0 then 0 else m - 1, size)
  }

  ghost predicate SomeInterval(log: seq<Event>, m: nat, size: nat)
    requires size > 0
  {
    exists d: nat, c: nat :: d >= m && c % size == 0 && Interval(log, d, c) > 0
  }

  lemma {:induction false} EverIff(log: seq<Event>, m: nat, size: nat)
    requires size > 0
    ensures Ever(log, m, size) <==> SomeInterval(log, m, size)
    decreases |log|
  {
    if log != [] {
      var rest, last := log[..|log| - 1], log[|log| - 1];
      var m' := if last.Advance? && m > 0 then m - 1 else m;
      EverIff(rest, m', size);
      if SomeInterval(log, m, size) {
        var d: nat, c: nat :| d >= m && c % size == 0 && Interval(log, d, c) > 0;
        var d' := if last.Advance? then d - 1 else d;
        assert Interval(rest, d', c) > 0 || (last == Store(c) && d == 0);
      }
      if SomeInterval(rest, m', size) {
        var d: nat, c: nat :| d >= m' && c % size == 0 && Interval(rest, d, c) > 0;
        assert Interval(log, if last.Advance? then d + 1 else d, c) > 0;
      }
      if last.Store? && m == 0 && last.code % size == 0 {
        assert Interval(log, 0, last.code) > 0;
      }
    }
  }

  lemma {:induction false} StaleIsOccupied(log: seq<Event>, n: nat, size: nat, d: nat)
    requires d < n && size > 0 && Stale(log, n, size, d)
    ensures Occupied(log, n, size, d)
    decreases |log|
  {
    var rest := log[..|log| - 1];
    if log[|log| - 1].Store? {
      StaleIsOccupied(rest, n, size, d);
    } else if d > 0 {
      StaleIsOccupied(rest, n, size, d - 1);
    }
  }

  ghost predicate SomeStale(log: seq<Event>, n: nat, size: nat)
    requires size > 0
  {
    exists d: nat :: d < n && Stale(log, n, size, d)
  }

  ghost predicate SomeOccupied(log: seq<Event>, n: nat, size: nat, from: nat)
    requires size > 0
  {
    exists d: nat :: from <= d < n && Occupied(log, n, size, d)
  }

  /** The slots together remember what was stored before the window. */
  lemma {:induction false} EverStale(log: seq<Event>, n: nat, size: nat, j: nat)
    requires 0 < n && size > 0 && j <= n
    ensures Ever(log, j, size) <==> SomeStale(log, n, size) || SomeOccupied(log, n, size, j)
    decreases |log|
  {
    if log != [] {
      var rest, last := log[..|log| - 1], log[|log| - 1];
      if last.Store? {
        EverStale(rest, n, size, j);
        StoreStale(log, n, size, j);
      } else {
        EverStale(rest, n, size, if j == 0 then 0 else j - 1);
        AdvanceStale(log, n, size, j);
      }
    }
  }

  lemma StoreStale(log: seq<Event>, n: nat, size: nat, j: nat)
    requires 0 < n && size > 0 && j <= n && log != [] && log[|log| - 1].Store?
    ensures var rest := log[..|log| - 1];
            && (SomeStale(log, n, size) <==> SomeStale(rest, n, size))
            && (SomeOccupied(log, n, size, j) <==>
                (j == 0 && log[|log| - 1].code % size == 0) || SomeOccupied(rest, n, size, j))
  {
    var rest := log[..|log| - 1];
    assert forall d: nat | d < n :: Stale(log, n, size, d) == Stale(rest, n, size, d);
    assert forall d: nat | d < n ::
      Occupied(log, n, size, d) == ((d == 0 && log[|log| - 1].code % size == 0) || Occupied(rest, n, size, d));
    if j == 0 && log[|log| - 1].code % size == 0 {
      assert Occupied(log, n, size, 0);
    }
  }

  lemma AdvanceStale(log: seq<Event>, n: nat, size: nat, j: nat)
    requires 0 < n && size > 0 && j <= n && log != [] && log[|log| - 1].Advance?
    ensures var rest := log[..|log| - 1];
            SomeStale(log, n, size) || SomeOccupied(log, n, size, j) <==>
            SomeStale(rest, n, size) || SomeOccupied(rest, n, size, if j == 0 then 0 else j - 1)
  {
    var rest := log[..|log| - 1];
    var j' := if j == 0 then 0 else j - 1;
    if SomeStale(log, n, size) {
      var d: nat :| d < n && Stale(log, n, size, d);
      assert if d == 0 then Occupied(rest, n, size, n - 1) else Stale(rest, n, size, d - 1);
    }
    if SomeOccupied(log, n, size, j) {
      var d: nat :| j <= d < n && Occupied(log, n, size, d);
      assert Occupied(rest, n, size, if d == 0 then n - 1 else d - 1);
    }
    if SomeStale(rest, n, size) {
      var d: nat :| d < n && Stale(rest, n, size, d);
      if d == n - 1 {
        StaleIsOccupied(rest, n, size, d);
        assert Stale(log, n, size, 0);
      } else {
        assert Stale(log, n, size, d + 1);
      }
    }
    if SomeOccupied(rest, n, size, j') {
      var d: nat :| j' <= d < n && Occupied(rest, n, size, d);
      if d == n - 1 {
        assert Stale(log, n, size, 0);
      } else {
        assert Occupied(log, n, size, d + 1);
      }
    }
  }

  /** What bucket 0 and the count of code 0 are in a slot. */
  ghost predicate ZeroSlot(t: Table, log: seq<Event>, n: nat, size: nat, d: nat)
    requires d < n && size > 0
  {
    && |t| == size
    && (forall i :: 0 <= i < |t[0]| ==> t[0][i].cnt > 0)
    && (t[0] != [] <==> Occupied(log, n, size, d))
    && Counted(t, 0) >= Interval(log, d, 0)
    && (Counted(t, 0) == Interval(log, d, 0) <==> !Stale(log, n, size, d))
  }

  ghost predicate TracksZero(tables: seq<Table>, current: nat, log: seq<Event>, size: nat) {
    && current < |tables| && size > 0
    && forall d: nat :: d < |tables| ==> ZeroSlot(tables[Slot(|tables|, current, d)], log, |tables|, size, d)
  }

  lemma {:induction false} BumpedPositive(b: Bucket, v: nat)
    requires forall i :: 0 <= i < |b| ==> b[i].cnt > 0
    ensures |Bumped(b, v)| == |b| && forall i :: 0 <= i < |b| ==> Bumped(b, v)[i].cnt > 0
  {
    if b != [] && b[0].value != v {
      BumpedPositive(b[1..], v);
    }
  }

  /** A table that gets a code, while the log does or, for the slots that are not current, does not. */
  lemma StoreZero(t: Table, log: seq<Event>, n: nat, size: nat, d: nat, code: nat)
    requires d < n && size > 0 && ZeroSlot(t, log, n, size, d)
    ensures ZeroSlot(if d == 0 then Stored(t, code) else t, log + [Store(code)], n, size, d)
  {
    var log' := log + [Store(code)];
    assert log'[..|log|] == log;
    if d == 0 {
      StoredCounts(t, code, 0);
      BumpedPositive(t[0], code);
    }
  }

  lemma ResetZero(t: Table, log: seq<Event>, n: nat, size: nat)
    requires 0 < n && size > 0 && ZeroSlot(t, log, n, size, n - 1)
    ensures ZeroSlot(Reset(t), log + [Advance], n, size, 0)
  {
    assert (log + [Advance])[..|log|] == log;
    ResetCounts(t, 0);
    assert Reset(t)[0] == Cleared(t[0]);
  }

  lemma AgeZero(t: Table, log: seq<Event>, n: nat, size: nat, d: nat)
    requires d + 1 < n && size > 0 && ZeroSlot(t, log, n, size, d)
    ensures ZeroSlot(t, log + [Advance], n, size, d + 1)
  {
    assert (log + [Advance])[..|log|] == log;
  }

  lemma StoreTracksZero(tables: seq<Table>, current: nat, log: seq<Event>, size: nat, code: nat)
    requires TracksZero(tables, current, log, size) && tables[current] != []
    ensures TracksZero(tables[current := Stored(tables[current], code)], current, log + [Store(code)], size)
  {
    hide ZeroSlot;
    var n := |tables|;
    forall d: nat | d < n
      ensures var after := tables[current := Stored(tables[current], code)];
              ZeroSlot(after[Slot(n, current, d)], log + [Store(code)], n, size, d)
    {
      StoreZero(tables[Slot(n, current, d)], log, n, size, d, code);
    }
  }

  lemma AdvanceTracksZero(tables: seq<Table>, current: nat, log: seq<Event>, size: nat)
    requires TracksZero(tables, current, log, size)
    ensures
      var next := (current + 1) % |tables|;
      TracksZero(tables[next := Reset(tables[next])], next, log + [Advance], size)
  {
    hide ZeroSlot;
    var n := |tables|;
    var next := (current + 1) % n;
    NextSlot(n, current);
    var after := tables[next := Reset(tables[next])];
    forall d: nat | d < n
      ensures ZeroSlot(after[Slot(n, next, d)], log + [Advance], n, size, d)
    {
      if d == 0 {
        assert Slot(n, current, n - 1) == next;
        ResetZero(tables[next], log, n, size);
      } else {
        assert Slot(n, next, d) == Slot(n, current, d - 1) != next;
        AgeZero(tables[Slot(n, current, d - 1)], log, n, size, d - 1);
      }
    }
  }

  lemma {:induction false} SumCompare(a: seq<nat>, b: seq<nat>)
    requires |a| == |b| && forall i :: 0 <= i < |a| ==> a[i] >= b[i]
    ensures Sum(a) >= Sum(b) && (Sum(a) == Sum(b) <==> forall i :: 0 <= i < |a| ==> a[i] == b[i])
  {
    if a != [] {
      SumCompare(a[1..], b[1..]);
      assert forall i :: 1 <= i < |a| ==> a[i] == a[1..][i - 1] && b[i] == b[1..][i - 1];
    }
  }

  /** For code 0 the slots add up to the count over the window exactly when bucket 0 was not used before it. */
  lemma SumOfZero(tables: seq<Table>, counts: seq<nat>, current: nat, log: seq<Event>, size: nat)
    requires TracksZero(tables, current, log, size) && |counts| == |tables|
    requires forall i :: 0 <= i < |counts| ==> tables[i] != [] && counts[i] == Counted(tables[i], 0)
    ensures Sum(counts) >= Recent(log, |counts|, 0)
    ensures Sum(counts) == Recent(log, |counts|, 0) <==> !Ever(log, |counts|, size)
  {
    var n := |counts|;
    var due := seq(n, i requires 0 <= i < n => Interval(log, Slot(n, current, i), 0));
    assert forall d: nat :: d < n ==> Slot(n, current, Slot(n, current, d)) == d;
    forall i | 0 <= i < n
      ensures counts[i] >= due[i] && (counts[i] == due[i] <==> !Stale(log, n, size, Slot(n, current, i)))
    {
      assert ZeroSlot(tables[Slot(n, current, Slot(n, current, i))], log, n, size, Slot(n, current, i));
    }
    SumOfSlots(due, current, log, 0);
    SumCompare(counts, due);
    EverStale(log, n, size, n);
    assert !SomeOccupied(log, n, size, n);
    if SomeStale(log, n, size) {
      var d: nat :| d < n && Stale(log, n, size, d);
      assert counts[Slot(n, current, d)] != due[Slot(n, current, d)];
    }
  }

  /** Raising the item at `i`, the first with value `v`. */
  lemma {:induction false} BumpedAt(b: Bucket, v: nat, i: nat)
    requires i < |b| && b[i].value == v && forall j :: 0 <= j < i ==> b[j].value != v
    ensures Has(b, v) && b[i := b[i].(cnt := b[i].cnt + 1)] == Bumped(b, v)
  {
    var x := b[i].(cnt := b[i].cnt + 1);
    if i > 0 {
      assert b[1..][i - 1] == b[i];
      assert forall j :: 0 <= j < i - 1 ==> b[1..][j] == b[j + 1];
      BumpedAt(b[1..], v, i - 1);
      assert b[i := x] == [b[0]] + b[1..][i - 1 := x];
    } else {
      assert b[0 := x] == [x] + b[1..];
    }
  }

  lemma {:induction false} CountAt(b: Bucket, v: nat, i: nat)
    requires i < |b| && b[i].value == v && forall j :: 0 <= j < i ==> b[j].value != v
    ensures CountIn(b, v) == b[i].cnt
  {
    if i > 0 {
      CountAt(b[1..], v, i - 1);
    }
  }

  class Counter {
    var buckets: Table

    /** `od_counter_create`. */
    constructor (size: nat)
      requires size > 0
      ensures |buckets| == size && forall i :: 0 <= i < size ==> buckets[i] == []
      ensures forall v: nat :: Counted(buckets, v) == 0
    {
      buckets := seq(size, _ => []);
    }

    /** `od_counter_inc`. */
    method Inc(item: nat)
      requires buckets != []
      modifies this
      ensures buckets == Stored(old(buckets), item)
    {
      var key := item % |buckets|;
      var list := buckets[key];
      for i := 0 to |list|
        invariant buckets == old(buckets) && forall j :: 0 <= j < i ==> list[j].value != item
      {
        if list[i].value == item {
          BumpedAt(list, item, i);
          buckets := buckets[key := list[i := list[i].(cnt := list[i].cnt + 1)]];
          return;
        }
      }
      assert !Has(list, item);
      buckets := buckets[key := [Item(item, 1)] + list];
    }

    /** `od_counter_get_count`. */
    method GetCount(value: nat) returns (count: nat)
      requires buckets != []
      ensures count == Counted(buckets, value)
    {
      var list := buckets[value % |buckets|];
      for i := 0 to |list|
        invariant forall j :: 0 <= j < i ==> list[j].value != value
      {
        if list[i].value == value {
          CountAt(list, value, i);
          return list[i].cnt;
        }
      }
      AbsentCounts(list, value);
      return 0;
    }

    /** `od_counter_reset_all`. */
    method ResetAll()
      modifies this
      ensures buckets == Reset(old(buckets))
    {
      for i := 0 to |buckets|
        invariant |buckets| == old(|buckets|)
        invariant forall j :: 0 <= j < i ==> buckets[j] == Cleared(old(buckets)[j])
        invariant forall j :: i <= j < |buckets| ==> buckets[j] == old(buckets)[j]
      {
        var list := ClearBucket(buckets[i]);
        buckets := buckets[i := list];
      }
    }
  }

  /** `od_counter_reset_target_bucket`. */
  method ClearBucket(b: Bucket) returns (list: Bucket)
    ensures list == Cleared(b)
  {
    list := b;
    for i := 0 to |b|
      invariant |list| == |b|
      invariant forall j :: 0 <= j < i ==> list[j] == Item(0, b[j].cnt)
      invariant forall j :: i <= j < |b| ==> list[j] == b[j]
    {
      list := list[i := list[i].(value := 0)];
    }
  }

  class ErrorLogger {
    const counters: seq<Counter>
    const size: nat
    var current: nat
    /** The contents of the counters, and everything that happened so far. */
    ghost var tables: seq<Table>
    ghost var log: seq<Event>

    ghost predicate Valid()
      reads this, counters
    {
      && |counters| == |tables| && (forall i, j :: 0 <= i < j < |counters| ==> counters[i] != counters[j])
      && (forall i :: 0 <= i < |counters| ==> counters[i].buckets == tables[i])
      && Tracks(tables, current, log) && TracksZero(tables, current, log, size)
    }

    /** `od_err_logger_create` over fresh counters. */
    constructor (counters: seq<Counter>, size: nat)
      requires counters != [] && forall i, j :: 0 <= i < j < |counters| ==> counters[i] != counters[j]
      requires size > 0
      requires forall c :: c in counters ==> |c.buckets| == size && forall i :: 0 <= i < size ==> c.buckets[i] == []
      ensures Valid() && this.counters == counters && this.size == size && log == []
    {
      this.counters, this.size, current, log, tables := counters, size, 0, [], [];
      new;
      for i := 0 to |counters|
        invariant log == [] && current == 0
        invariant |tables| == i && forall j :: 0 <= j < i ==> tables[j] == counters[j].buckets
      {
        tables := tables + [counters[i].buckets];
      }
    }

    /** `od_error_logger_store_err`. */
    method StoreError(code: nat)
      requires Valid()
      modifies this, counters
      ensures Valid() && log == old(log) + [Store(code)]
    {
      StoreTracks(tables, current, log, code);
      StoreTracksZero(tables, current, log, size, code);
      hide Tracks, TracksZero;
      counters[current].Inc(code);
      tables := tables[current := Stored(tables[current], code)];
      log := log + [Store(code)];
    }

    /** `od_err_logger_inc_interval`. */
    method IncInterval()
      requires Valid()
      modifies this, counters
      ensures Valid() && log == old(log) + [Advance]
    {
      AdvanceTracks(tables, current, log);
      AdvanceTracksZero(tables, current, log, size);
      hide Tracks, TracksZero;
      current := current + 1;
      current := current % |counters|;
      counters[current].ResetAll();
      tables := tables[current := Reset(tables[current])];
      log := log + [Advance];
    }

    /**
     `od_err_logger_get_aggr_errors_count`: for a code other than 0, the count of the log over the window; for
     code 0, that count exactly when no code of bucket 0 was stored before the window, and more otherwise.
     */
    method Aggregated(code: nat) returns (total: nat)
      requires Valid()
      ensures code != 0 ==> total == Recent(log, |counters|, code) == |Window(log, |counters|, code)|
      ensures total >= Recent(log, |counters|, code)
      ensures code == 0 ==> (total == Recent(log, |counters|, 0) <==> !Ever(log, |counters|, size))
    {
      RecentIs(log, |counters|, code);
      total := 0;
      ghost var counts: seq<nat> := [];
      for i := 0 to |counters|
        invariant |counts| == i && total == Sum(counts)
        invariant forall j :: 0 <= j < i ==> counts[j] == Counted(tables[j], code)
      {
        var c := counters[i].GetCount(code);
        SumSnoc(counts, c);
        counts := counts + [c];
        total := total + c;
      }
      if code != 0 {
        SumOfSlots(counts, current, log, code);
      } else {
        SumOfZero(tables, counts, current, log, size);
      }
    }
  }

  lemma SumSnoc(s: seq<nat>, x: nat)
    ensures Sum(s + [x]) == Sum(s) + x
  {
    SumSplit(s + [x], |s|);
    assert (s + [x])[..|s|] == s && (s + [x])[|s|..] == [x];
    assert Sum([x]) == x + Sum([]);
  }

  /**
   Code 0 is the exception: a reset leaves the count of whatever stood first in its bucket, so that it is
   forgotten exactly when that bucket was empty.
   */
  lemma ZeroForgottenIff(t: Table)
    requires t != [] && forall i :: 0 <= i < |t[0]| ==> t[0][i].cnt > 0
    ensures Counted(Reset(t), 0) == 0 <==> t[0] == []
  {
    ResetCounts(t, 0);
  }
}
