/**
 The t-digest histogram: an array whose front holds merged centroids in order and whose back buffers new ones.
 */
module TDigest {
  import opened Centroids

  /** What a merge makes of the nodes it sorts. */
  ghost function Merged(s: seq<Node>, norm: Normalizer): seq<Node>
    requires s != [] && Positive(s) && Count(s) > 0.0
  {
    Compact([], s[0], s[1..], 0.0, Count(s), norm)
  }

  /** A merge keeps both totals, leaves ascending means and positive counts, and never adds a node. */
  lemma MergedKeeps(s: seq<Node>, norm: Normalizer)
    requires s != [] && Positive(s) && Count(s) > 0.0 && Sorted(s)
    ensures
      var r := Merged(s, norm);
      && Count(r) == Count(s) && Sum(r) == Sum(s)
      && Sorted(r) && Positive(r) && 1 <= |r| <= |s|
  {
    hide Count, Sum, Compact;
    First(s);
    NoTotals();
    CompactTotals([], s[0], s[1..], 0.0, Count(s), norm);
    CompactSorts([], s[0], s[1..], 0.0, Count(s), norm);
  }

  /** A merge cuts the sorted nodes into groups of neighbours, each of them as large as the size limit allows. */
  lemma MergedGroups(s: seq<Node>, norm: Normalizer) returns (cuts: seq<nat>)
    requires s != [] && Positive(s) && Count(s) > 0.0
    ensures
      var r := Merged(s, norm);
      Groups(s, r, cuts, Count(s), norm) && cuts[|r|] == |s|
  {
    Start(s);
    Step(s, 0);
    hide Prefix, Weight, Count, Small, Compact;
    cuts := CompactGroups(s, [], [0], s[0], 1, 0.0, Count(s), norm);
  }

  /** Sorting and merging these nodes leaves fewer of them. */
  ghost predicate MergeFrees(s: seq<Node>, normalizer: real -> Normalizer)
    requires s != [] && Positive(s)
  {
    SortFacts(s);
    |Merged(Sort(s), normalizer(Count(s)))| < |s|
  }

  /** Adds `next` to `cur`, the count first and then the mean. */
  method Absorb(cur: Node, next: Node) returns (r: Node)
    requires cur.count > 0.0 && next.count > 0.0
    ensures r == Combine(cur, next) && r.count > 0.0
  {
    var count := cur.count + next.count;
    var delta := next.mean - cur.mean;
    var weightedDelta := (delta * next.count) / count;
    r := Node(cur.mean + weightedDelta, count);
  }

  class Histogram {
    const nodes: array<Node>
    const normalizer: real -> Normalizer
    var merged: nat
    var unmerged: nat
    var mergedCount: real
    var unmergedCount: real

    ghost predicate Valid()
      reads this, nodes
    {
      && merged + unmerged <= nodes.Length
      && mergedCount == Count(nodes[..merged]) && unmergedCount == Count(nodes[merged..merged + unmerged])
      && Positive(nodes[..merged + unmerged]) && Sorted(nodes[..merged])
    }

    /** All centroids, merged and buffered. */
    ghost function All(): seq<Node>
      requires Valid()
      reads this, nodes
    {
      nodes[..merged + unmerged]
    }

    /** Merging a full array always frees a slot. */
    ghost predicate MergesFree() {
      forall s: seq<Node> :: |s| == nodes.Length > 0 && Positive(s) ==> MergeFrees(s, normalizer)
    }

    /** `td_new` with room for `cap` nodes. */
    constructor (cap: nat, normalizer: real -> Normalizer)
      ensures Valid() && All() == [] && fresh(nodes) && nodes.Length == cap && this.normalizer == normalizer
    {
      nodes := new Node[cap](_ => Node(0.0, 0.0));
      this.normalizer := normalizer;
      merged, unmerged, mergedCount, unmergedCount := 0, 0, 0.0, 0.0;
    }

    /** The library sort over the first `n` nodes. */
    method SortNodes(n: nat)
      requires n <= nodes.Length
      modifies nodes
      ensures nodes[..n] == Sort(old(nodes[..n])) && nodes[n..] == old(nodes[n..])
    {
      var s := Sort(nodes[..n]);
      SortSorts(nodes[..n]);
      assert |s| == n by {
        assert |multiset(s)| == |multiset(nodes[..n])|;
      }
      forall i | 0 <= i < n {
        nodes[i] := s[i];
      }
      assert nodes[..n] == s;
    }

    /** One round of the compaction loop at node `i`. */
    method CompactStep(cur: nat, i: nat, n: nat, soFar: real, total: real, norm: Normalizer)
      returns (cur': nat, soFar': real)
      requires cur < i < n <= nodes.Length && total > 0.0 && nodes[cur].count > 0.0 && Positive(nodes[i..n])
      modifies nodes
      ensures cur <= cur' <= i && nodes[cur'].count > 0.0 && nodes[n..] == old(nodes[n..])
      ensures nodes[i + 1..n] == old(nodes[i + 1..n])
      ensures old(Compact(nodes[..cur], nodes[cur], nodes[i..n], soFar, total, norm)) ==
              Compact(nodes[..cur'], nodes[cur'], nodes[i + 1..n], soFar', total, norm)
    {
      hide Combine, ShouldAdd;
      ghost var done, c, rest := nodes[..cur], nodes[cur], nodes[i..n];
      assert rest[0] == nodes[i] && rest[1..] == nodes[i + 1..n];
      var add := ShouldAdd(nodes[cur], nodes[i], soFar, total, norm);
      if add {
        nodes[cur] := Absorb(nodes[cur], nodes[i]);
        cur', soFar' := cur, soFar;
      } else {
        soFar' := soFar + nodes[cur].count;
        cur' := cur + 1;
        nodes[cur'] := nodes[i];
      }
      if cur' != i {
        nodes[i] := Node(0.0, 0.0);
      }
      assert nodes[i + 1..n] == rest[1..];
      assert nodes[..cur'] == if add then done else done + [c];
      assert nodes[cur'] == if add then Combine(c, rest[0]) else rest[0];
    }

    /** The compaction loop over `n` sorted nodes. */
    method CompactNodes(n: nat, total: real, norm: Normalizer) returns (left: nat)
      requires 0 < n <= nodes.Length && Positive(nodes[..n]) && Count(nodes[..n]) == total > 0.0
      modifies nodes
      ensures 1 <= left <= n && nodes[..left] == old(Merged(nodes[..n], norm))
    {
      hide Count, Compact;
      ghost var sorted := nodes[..n];
      var cur, soFar := 0, 0.0;
      assert nodes[..0] == [] && nodes[0] == sorted[0] && nodes[1..n] == sorted[1..];
      for i := 1 to n
        invariant 0 <= cur < i && nodes[cur].count > 0.0 && Positive(nodes[i..n])
        invariant Merged(sorted, norm) == Compact(nodes[..cur], nodes[cur], nodes[i..n], soFar, total, norm)
      {
        assert nodes[i + 1..n] == nodes[i..n][1..];
        cur, soFar := CompactStep(cur, i, n, soFar, total, norm);
      }
      left := cur + 1;
      CompactDone(nodes[..cur], nodes[cur], nodes[n..n], soFar, total, norm);
      assert nodes[..cur + 1] == nodes[..cur] + [nodes[cur]];
    }

    /** `merge`. */
    method Merge()
      requires Valid()
      modifies this, nodes
      ensures Valid() && unmerged == 0 && merged <= old(merged + unmerged)
      ensures Count(All()) == old(Count(All())) && Sum(All()) == old(Sum(All()))
      ensures old(unmerged) == 0 ==> merged == old(merged) && nodes[..] == old(nodes[..])
      ensures old(unmerged) > 0 ==>
                && Count(Sort(old(All()))) > 0.0 && Positive(Sort(old(All()))) && Sort(old(All())) != []
                && All() == Merged(Sort(old(All())), normalizer(old(mergedCount + unmergedCount)))
    {
      hide Count, Sum, Sort, Positive, Sorted, Merged;
      if unmerged == 0 {
        return;
      }
      var n := merged + unmerged;
      ghost var all := All();
      SortFacts(all);
      SplitTotals();
      SortNodes(n);
      ghost var sorted := nodes[..n];
      var total := mergedCount + unmergedCount;
      var left := CompactNodes(n, total, normalizer(total));
      MergedKeeps(sorted, normalizer(total));
      merged, mergedCount, unmerged, unmergedCount := left, total, 0, 0.0;
      assert nodes[merged..merged + unmerged] == [];
      NoTotals();
    }

    /** The merge of a full array. */
    method MergeFull()
      requires Valid() && merged + unmerged == nodes.Length
      modifies this, nodes
      ensures Valid() && unmerged == 0 && merged <= old(merged + unmerged)
      ensures Count(All()) == old(Count(All())) && Sum(All()) == old(Sum(All()))
      ensures MergesFree() && old(merged) < nodes.Length ==> merged < nodes.Length
    {
      hide Count, Sum, Sort, Merged, Sorted;
      ghost var all := All();
      SplitTotals();
      assert |all| == nodes.Length && Positive(all);
      Merge();
      if MergesFree() && old(merged) < nodes.Length {
        assert MergeFrees(all, normalizer);
      }
    }

    /** `td_add`; `ok` is false when a merge left no room, where the source writes past its array. */
    method Add(mean: real, count: real) returns (ok: bool)
      requires Valid() && count > 0.0
      modifies this, nodes
      ensures Valid()
      ensures ok ==> Count(All()) == old(Count(All())) + count && Sum(All()) == old(Sum(All())) + mean * count
      ensures !ok ==> merged == nodes.Length && Count(All()) == old(Count(All())) && Sum(All()) == old(Sum(All()))
      ensures old(merged + unmerged) < nodes.Length ==> ok && All() == old(All()) + [Node(mean, count)]
      ensures old(merged + unmerged) < nodes.Length ==> merged == old(merged) && unmerged == old(unmerged) + 1
      ensures MergesFree() && old(merged) < nodes.Length ==> ok && merged < nodes.Length
    {
      hide Count, Sum, Valid, All, Merged, Sort, Positive, MergesFree;
      AllCounted();
      if merged + unmerged == nodes.Length {
        MergeFull();
        AllCounted();
      }
      if merged + unmerged == nodes.Length {
        return false;
      }
      Append(All(), Node(mean, count));
      Push(Node(mean, count));
      return true;
    }

    /** Buffers one more node. */
    method Push(n: Node)
      requires Valid() && n.count > 0.0 && merged + unmerged < nodes.Length
      modifies this, nodes
      ensures Valid() && All() == old(All()) + [n] && merged == old(merged) && unmerged == old(unmerged) + 1
    {
      hide Count, Sorted;
      ghost var front, back := nodes[..merged], nodes[merged..merged + unmerged];
      nodes[merged + unmerged] := n;
      unmerged := unmerged + 1;
      unmergedCount := unmergedCount + n.count;
      assert nodes[..merged + unmerged] == old(All()) + [n];
      assert nodes[..merged] == front && nodes[merged..merged + unmerged] == back + [n];
      Append(back, n);
    }

    /** A merge, which leaves room if there was some or if merges free slots. */
    method MergeKeepsRoom()
      requires Valid()
      modifies this, nodes
      ensures Valid() && unmerged == 0 && merged <= old(merged + unmerged)
      ensures Count(All()) == old(Count(All())) && Sum(All()) == old(Sum(All()))
      ensures MergesFree() && old(merged) < nodes.Length ==> merged < nodes.Length
    {
      hide Count, Sum, Sort, Merged, Sorted;
      if merged + unmerged == nodes.Length {
        MergeFull();
      } else {
        Merge();
      }
    }

    /** `td_merge` of two distinct histograms. */
    method MergeFrom(from: Histogram) returns (ok: bool)
      requires Valid() && from.Valid() && from != this && from.nodes != nodes
      modifies this, nodes, from, from.nodes
      ensures Valid() && from.Valid()
      ensures Count(from.All()) == old(Count(from.All())) && Sum(from.All()) == old(Sum(from.All()))
      ensures ok ==> && Count(All()) == old(Count(All()) + Count(from.All()))
                     && Sum(All()) == old(Sum(All()) + Sum(from.All()))
      ensures !ok ==> merged == nodes.Length
      ensures old(merged + unmerged + from.merged + from.unmerged) <= nodes.Length ==> ok
      ensures MergesFree() && old(merged) < nodes.Length ==> ok && merged < nodes.Length
    {
      hide Count, Sum, Sorted, Positive, Valid, Prefix, Weight, All, MergesFree, Sort, Merged;
      AllCounted();
      from.AllCounted();
      MergeKeepsRoom();
      from.Merge();
      ghost var theirs := from.All();
      from.AllCounted();
      Start(theirs);
      for i := 0 to from.merged
        invariant Valid() && from.Valid() && from.All() == theirs && from.merged == |theirs| && from.unmerged == 0
        invariant old(merged + unmerged + from.merged + from.unmerged) <= nodes.Length ==>
                    merged + unmerged <= old(merged + unmerged) + i
        invariant MergesFree() && old(merged) < nodes.Length ==> merged < nodes.Length
        invariant Count(All()) == old(Count(All())) + Prefix(theirs, i)
        invariant Sum(All()) == old(Sum(All())) + Weight(theirs, i)
      {
        from.AllCounted();
        Step(theirs, i);
        ok := Add(from.nodes[i].mean, from.nodes[i].count);
        if !ok {
          return;
        }
      }
      Whole(theirs);
      return true;
    }

    /** `td_total_count`. */
    method TotalCount() returns (count: real)
      requires Valid()
      ensures count == Count(All())
    {
      SplitTotals();
      count := mergedCount + unmergedCount;
    }

    /** `td_total_sum`. */
    method TotalSum() returns (sum: real)
      requires Valid()
      ensures sum == Sum(All())
    {
      sum := 0.0;
      ghost var all := All();
      for i := 0 to merged + unmerged
        invariant sum == Weight(all, i)
      {
        assert all[i] == nodes[i];
        sum := sum + nodes[i].mean * nodes[i].count;
      }
    }

    lemma AllCounted()
      requires Valid()
      ensures merged + unmerged <= nodes.Length && |All()| == merged + unmerged
      ensures forall i :: 0 <= i < |All()| ==> All()[i] == nodes[i] && nodes[i].count > 0.0
    {
      assert forall i :: 0 <= i < |All()| ==> All()[i].count > 0.0;
    }

    lemma SplitTotals()
      requires Valid()
      ensures Count(All()) == Count(nodes[..merged]) + Count(nodes[merged..merged + unmerged])
      ensures Sum(All()) == Sum(nodes[..merged]) + Sum(nodes[merged..merged + unmerged])
    {
      Concat(nodes[..merged], nodes[merged..merged + unmerged]);
      assert All() == nodes[..merged] + nodes[merged..merged + unmerged];
    }
  }

  lemma Start(s: seq<Node>)
    ensures Prefix(s, 0) == 0.0 && Weight(s, 0) == 0.0
  {
  }

  lemma Step(s: seq<Node>, i: nat)
    requires i < |s|
    ensures Prefix(s, i + 1) == Prefix(s, i) + s[i].count
    ensures Weight(s, i + 1) == Weight(s, i) + s[i].mean * s[i].count
  {
  }

  lemma Whole(s: seq<Node>)
    ensures Count(s) == Prefix(s, |s|) && Sum(s) == Weight(s, |s|)
  {
  }

  lemma CompactDone(done: seq<Node>, cur: Node, rest: seq<Node>, soFar: real, total: real, norm: Normalizer)
    requires total > 0.0 && cur.count > 0.0 && rest == []
    ensures Positive(rest) && Compact(done, cur, rest, soFar, total, norm) == done + [cur]
  {
  }

  /** Sorted nodes with positive counts have a positive total. */
  lemma SortFacts(s: seq<Node>)
    requires s != [] && Positive(s)
    ensures Sorted(Sort(s)) && Positive(Sort(s)) && |Sort(s)| == |s|
    ensures Count(Sort(s)) == Count(s) > 0.0 && Sum(Sort(s)) == Sum(s)
  {
    SortSorts(s);
    SortTotals(s);
    PermutedPositive(s, Sort(s));
    PositiveTotal(s);
  }

  lemma {:induction false} PositiveTotal(s: seq<Node>)
    requires s != [] && Positive(s)
    ensures Count(s) > 0.0
  {
    var k := |s| - 1;
    Append(s[..k], s[k]);
    assert s == s[..k] + [s[k]];
    if k > 0 {
      PositiveTotal(s[..k]);
    }
  }
}
