/**
 The weighted points of a t-digest over exact reals: their totals, their order, and the compaction that merges
 neighbours.
 */
module Centroids {

  datatype Node = Node(mean: real, count: real)

  /** The scale of the merge criterion; it is infinite when the logarithm of the total count vanishes. */
  datatype Normalizer = Finite(r: real) | Infinite

  /** The counts of the first `i` nodes. */
  function Prefix(s: seq<Node>, i: nat): real
    requires i <= |s|
  {
    if i == 0 then 0.0 else Prefix(s, i - 1) + s[i - 1].count
  }

  function Count(s: seq<Node>): real {
    Prefix(s, |s|)
  }

  /** The means of the first `i` nodes, weighted. */
  function Weight(s: seq<Node>, i: nat): real
    requires i <= |s|
  {
    if i == 0 then 0.0 else Weight(s, i - 1) + s[i - 1].mean * s[i - 1].count
  }

  function Sum(s: seq<Node>): real {
    Weight(s, |s|)
  }

  ghost predicate Positive(s: seq<Node>) {
    forall i :: 0 <= i < |s| ==> s[i].count > 0.0
  }

  ghost predicate Sorted(s: seq<Node>) {
    forall i, j :: 0 <= i < j < |s| ==> s[i].mean <= s[j].mean
  }

  lemma {:induction false} PrefixAgrees(s: seq<Node>, t: seq<Node>, i: nat)
    requires i <= |s| && i <= |t| && s[..i] == t[..i]
    ensures Prefix(s, i) == Prefix(t, i) && Weight(s, i) == Weight(t, i)
  {
    if i > 0 {
      assert s[..i][..i - 1] == s[..i - 1] && t[..i][..i - 1] == t[..i - 1];
      assert s[i - 1] == s[..i][i - 1] == t[..i][i - 1] == t[i - 1];
      PrefixAgrees(s, t, i - 1);
    }
  }

  lemma Append(s: seq<Node>, n: Node)
    ensures Count(s + [n]) == Count(s) + n.count && Sum(s + [n]) == Sum(s) + n.mean * n.count
  {
    assert (s + [n])[..|s|] == s[..|s|];
    PrefixAgrees(s + [n], s, |s|);
  }

  lemma {:induction false} Concat(s: seq<Node>, t: seq<Node>)
    ensures Count(s + t) == Count(s) + Count(t) && Sum(s + t) == Sum(s) + Sum(t)
  {
    if t == [] {
      assert s + t == s;
    } else {
      var n := |t| - 1;
      Concat(s, t[..n]);
      Append(s + t[..n], t[n]);
      Append(t[..n], t[n]);
      assert s + t == s + t[..n] + [t[n]] && t == t[..n] + [t[n]];
    }
  }

  function Insert(s: seq<Node>, n: Node): seq<Node> {
    if s == [] || s[|s| - 1].mean <= n.mean then s + [n]
    else Insert(s[..|s| - 1], n) + [s[|s| - 1]]
  }

  /** The nodes by ascending mean. */
  function Sort(s: seq<Node>): seq<Node> {
    if s == [] then [] else Insert(Sort(s[..|s| - 1]), s[|s| - 1])
  }

  lemma {:induction false} InsertPermutes(s: seq<Node>, n: Node)
    ensures multiset(Insert(s, n)) == multiset(s) + multiset{n}
  {
    if s == [] || s[|s| - 1].mean <= n.mean {
    } else {
      var k := |s| - 1;
      InsertPermutes(s[..k], n);
      assert s == s[..k] + [s[k]];
    }
  }

  lemma SortedSnoc(s: seq<Node>, n: Node)
    requires Sorted(s) && (s == [] || s[|s| - 1].mean <= n.mean)
    ensures Sorted(s + [n])
  {
  }

  lemma {:induction false} InsertSorts(s: seq<Node>, n: Node)
    requires Sorted(s)
    ensures Sorted(Insert(s, n))
  {
    if s == [] || s[|s| - 1].mean <= n.mean {
      SortedSnoc(s, n);
    } else {
      var k := |s| - 1;
      InsertSorts(s[..k], n);
      assert k > 0 ==> s[..k][k - 1].mean <= s[k].mean;
      SortedSnoc(Insert(s[..k], n), s[k]);
    }
  }

  lemma {:induction false} InsertTotals(s: seq<Node>, n: Node)
    ensures Count(Insert(s, n)) == Count(s) + n.count && Sum(Insert(s, n)) == Sum(s) + n.mean * n.count
  {
    hide Count, Sum;
    if s == [] || s[|s| - 1].mean <= n.mean {
      Append(s, n);
    } else {
      var k := |s| - 1;
      InsertTotals(s[..k], n);
      Append(Insert(s[..k], n), s[k]);
      Append(s[..k], s[k]);
      assert s == s[..k] + [s[k]];
    }
  }

  /** Sorting permutes the nodes into ascending order. */
  lemma {:induction false} SortSorts(s: seq<Node>)
    ensures Sorted(Sort(s)) && multiset(Sort(s)) == multiset(s)
  {
    hide Sorted, Insert;
    if s == [] {
      NothingSorted();
    } else {
      var k := |s| - 1;
      SortSorts(s[..k]);
      InsertSorts(Sort(s[..k]), s[k]);
      InsertPermutes(Sort(s[..k]), s[k]);
      assert s == s[..k] + [s[k]];
    }
  }

  lemma NothingSorted()
    ensures Sorted([])
  {
  }

  /** Sorting keeps both totals. */
  lemma {:induction false} SortTotals(s: seq<Node>)
    ensures Count(Sort(s)) == Count(s) && Sum(Sort(s)) == Sum(s)
  {
    hide Count, Sum, Insert;
    if s != [] {
      var k := |s| - 1;
      SortTotals(s[..k]);
      InsertTotals(Sort(s[..k]), s[k]);
      Append(s[..k], s[k]);
      assert s == s[..k] + [s[k]];
    }
  }

  lemma PermutedPositive(s: seq<Node>, t: seq<Node>)
    requires Positive(s) && multiset(s) == multiset(t)
    ensures Positive(t) && |s| == |t|
  {
    forall i | 0 <= i < |t|
      ensures t[i].count > 0.0
    {
      assert t[i] in multiset(s);
    }
    assert |multiset(s)| == |multiset(t)|;
  }

  /** One node for two neighbours: the counts add up and the mean is weighted. */
  function Combine(a: Node, b: Node): Node
    requires a.count + b.count != 0.0
  {
    var count := a.count + b.count;
    Node(a.mean + (b.mean - a.mean) * b.count / count, count)
  }

  lemma CombineTotals(a: Node, b: Node)
    requires a.count > 0.0 && b.count > 0.0
    ensures
      var c := Combine(a, b);
      c.count == a.count + b.count && c.mean * c.count == a.mean * a.count + b.mean * b.count
  {
    var count, x := a.count + b.count, (b.mean - a.mean) * b.count;
    assert x / count * count == x;
  }

  lemma CombineKeeps(a: Node, b: Node)
    requires a.count > 0.0 && b.count > 0.0 && a.mean <= b.mean
    ensures a.mean <= Combine(a, b).mean <= b.mean && Combine(a, b).count > 0.0
  {
    var count, d := a.count + b.count, b.mean - a.mean;
    var w := d * b.count / count;
    assert w * count == d * b.count;
    assert 0.0 <= d * b.count <= d * count;
    assert 0.0 <= w <= d by { Quotient(d * b.count, count, d); }
  }

  lemma Quotient(x: real, y: real, d: real)
    requires y > 0.0 && 0.0 <= x <= d * y
    ensures 0.0 <= x / y <= d
  {
  }

  /** `z <= x` for `z` the proposed count times the normalizer. */
  predicate Within(count: real, norm: Normalizer, x: real) {
    norm.Finite? && count * norm.r <= x
  }

  /** The merge criterion for two neighbours with `soFar` counted before them. */
  predicate ShouldAdd(cur: Node, next: Node, soFar: real, total: real, norm: Normalizer)
    requires total > 0.0
  {
    var count := cur.count + next.count;
    var q0 := soFar / total;
    var q2 := (soFar + count) / total;
    Within(count, norm, q0 * (1.0 - q0)) && Within(count, norm, q2 * (1.0 - q2))
  }

  /** What compaction makes of the finished nodes `done`, the current node and the nodes to come. */
  ghost function Compact(done: seq<Node>, cur: Node, rest: seq<Node>, soFar: real, total: real, norm: Normalizer)
    : seq<Node>
    requires total > 0.0 && cur.count > 0.0 && Positive(rest)
    decreases |rest|
  {
    if rest == [] then done + [cur]
    else if ShouldAdd(cur, rest[0], soFar, total, norm) then
      Compact(done, Combine(cur, rest[0]), rest[1..], soFar, total, norm)
    else Compact(done + [cur], rest[0], rest[1..], soFar + cur.count, total, norm)
  }

  lemma First(s: seq<Node>)
    requires s != []
    ensures Count(s) == s[0].count + Count(s[1..]) && Sum(s) == s[0].mean * s[0].count + Sum(s[1..])
  {
    Concat([s[0]], s[1..]);
    assert s == [s[0]] + s[1..];
    assert Prefix([s[0]], 1) == s[0].count && Weight([s[0]], 1) == s[0].mean * s[0].count;
  }

  /** Whatever is merged, the total count and the weighted sum stay the same. */
  lemma {:induction false} CompactTotals(
    done: seq<Node>, cur: Node, rest: seq<Node>, soFar: real, total: real, norm: Normalizer)
    requires total > 0.0 && cur.count > 0.0 && Positive(rest)
    ensures
      var r := Compact(done, cur, rest, soFar, total, norm);
      && Count(r) == Count(done) + cur.count + Count(rest)
      && Sum(r) == Sum(done) + cur.mean * cur.count + Sum(rest)
    decreases |rest|
  {
    hide Count, Sum, ShouldAdd, Combine;
    if rest == [] {
      Append(done, cur);
      NoTotals();
    } else {
      First(rest);
      CombineTotals(cur, rest[0]);
      if ShouldAdd(cur, rest[0], soFar, total, norm) {
        CompactTotals(done, Combine(cur, rest[0]), rest[1..], soFar, total, norm);
      } else {
        Append(done, cur);
        CompactTotals(done + [cur], rest[0], rest[1..], soFar + cur.count, total, norm);
      }
    }
  }

  lemma NoTotals()
    ensures Count([]) == 0.0 && Sum([]) == 0.0
  {
  }

  /**
   The size limit: a centroid from `before` counts to `after` of them is small where the distribution has its tails.
   With `q` the share of the counts at either end, its count times the scale is at most `q * (1 - q)`.
   */
  predicate Small(before: real, after: real, total: real, norm: Normalizer)
    requires total > 0.0
  {
    && norm.Finite?
    && (after - before) * norm.r <= before / total * (1.0 - before / total)
    && (after - before) * norm.r <= after / total * (1.0 - after / total)
  }

  /**
   `n` is what the nodes from `a` up to `b` are together. It is small, or one node alone, and it would not be small
   with the next node.
   */
  ghost predicate Group(s: seq<Node>, n: Node, a: nat, b: nat, total: real, norm: Normalizer)
    requires total > 0.0
  {
    && a < b <= |s|
    && n.count == Prefix(s, b) - Prefix(s, a) && n.mean * n.count == Weight(s, b) - Weight(s, a)
    && (b - a > 1 ==> Small(Prefix(s, a), Prefix(s, b), total, norm))
    && (b < |s| ==> !Small(Prefix(s, a), Prefix(s, b + 1), total, norm))
  }

  /** The nodes of `r` are groups of neighbours of `s`, from the front up to the last of the `cuts`. */
  ghost predicate Groups(s: seq<Node>, r: seq<Node>, cuts: seq<nat>, total: real, norm: Normalizer)
    requires total > 0.0
  {
    && |cuts| == |r| + 1 && cuts[0] == 0
    && forall j :: 0 <= j < |r| ==> Group(s, r[j], cuts[j], cuts[j + 1], total, norm)
  }

  lemma GroupsSnoc(s: seq<Node>, r: seq<Node>, cuts: seq<nat>, n: Node, b: nat, total: real, norm: Normalizer)
    requires total > 0.0 && Groups(s, r, cuts, total, norm) && Group(s, n, cuts[|r|], b, total, norm)
    ensures Groups(s, r + [n], cuts + [b], total, norm)
    ensures (cuts + [b])[|r + [n]|] == b
  {
    hide Group;
  }

  lemma AddIsSmall(cur: Node, next: Node, soFar: real, after: real, total: real, norm: Normalizer)
    requires total > 0.0 && cur.count + next.count == after - soFar
    ensures ShouldAdd(cur, next, soFar, total, norm) <==> Small(soFar, after, total, norm)
  {
    assert soFar + (cur.count + next.count) == after;
  }

  /** `cur` is what the nodes from `a` up to `i` are together, with `soFar` counted before them. */
  ghost predicate Open(s: seq<Node>, cur: Node, a: nat, i: nat, soFar: real, total: real, norm: Normalizer)
    requires total > 0.0
  {
    && a < i <= |s| && cur.count > 0.0 && soFar == Prefix(s, a)
    && cur.count == Prefix(s, i) - soFar && cur.mean * cur.count == Weight(s, i) - Weight(s, a)
    && (i - a > 1 ==> Small(soFar, Prefix(s, i), total, norm))
  }

  lemma OpenAdd(s: seq<Node>, cur: Node, a: nat, i: nat, soFar: real, total: real, norm: Normalizer)
    requires total > 0.0 && Open(s, cur, a, i, soFar, total, norm) && i < |s| && s[i].count > 0.0
    requires ShouldAdd(cur, s[i], soFar, total, norm)
    ensures cur.count + s[i].count != 0.0 && Open(s, Combine(cur, s[i]), a, i + 1, soFar, total, norm)
  {
    AddIsSmall(cur, s[i], soFar, Prefix(s, i + 1), total, norm);
    CombineTotals(cur, s[i]);
    hide Combine, Small, ShouldAdd;
  }

  lemma OpenCut(s: seq<Node>, cur: Node, a: nat, i: nat, soFar: real, total: real, norm: Normalizer)
    requires total > 0.0 && Open(s, cur, a, i, soFar, total, norm)
    requires i < |s| ==> s[i].count > 0.0 && !ShouldAdd(cur, s[i], soFar, total, norm)
    ensures Group(s, cur, a, i, total, norm)
    ensures i < |s| ==> Open(s, s[i], i, i + 1, soFar + cur.count, total, norm)
  {
    if i < |s| {
      AddIsSmall(cur, s[i], soFar, Prefix(s, i + 1), total, norm);
    }
    hide Combine, Small, ShouldAdd;
  }

  /** What compaction makes of the nodes: groups of neighbours, all of them, each as large as the size limit allows. */
  lemma {:induction false} CompactGroups(
    s: seq<Node>, done: seq<Node>, cuts: seq<nat>, cur: Node, i: nat, soFar: real, total: real, norm: Normalizer)
    returns (all: seq<nat>)
    requires total > 0.0 && cur.count > 0.0 && Positive(s) && Groups(s, done, cuts, total, norm) && i <= |s|
    requires Open(s, cur, cuts[|done|], i, soFar, total, norm)
    ensures
      var r := Compact(done, cur, s[i..], soFar, total, norm);
      Groups(s, r, all, total, norm) && all[|r|] == |s|
    decreases |s| - i
  {
    var rest, a := s[i..], cuts[|done|];
    hide Groups, Open, Group, ShouldAdd, Combine;
    if i == |s| {
      OpenCut(s, cur, a, i, soFar, total, norm);
      GroupsSnoc(s, done, cuts, cur, i, total, norm);
      all := cuts + [i];
    } else {
      assert rest[0] == s[i] && rest[1..] == s[i + 1..];
      if ShouldAdd(cur, s[i], soFar, total, norm) {
        OpenAdd(s, cur, a, i, soFar, total, norm);
        assert Combine(cur, s[i]).count > 0.0 by { CombineTotals(cur, s[i]); }
        all := CompactGroups(s, done, cuts, Combine(cur, s[i]), i + 1, soFar, total, norm);
      } else {
        OpenCut(s, cur, a, i, soFar, total, norm);
        GroupsSnoc(s, done, cuts, cur, i, total, norm);
        all := CompactGroups(s, done + [cur], cuts + [i], s[i], i + 1, soFar + cur.count, total, norm);
      }
    }
  }

  /** The nodes stay in ascending order with positive counts, and there is at least one. */
  lemma {:induction false} CompactSorts(
    done: seq<Node>, cur: Node, rest: seq<Node>, soFar: real, total: real, norm: Normalizer)
    requires total > 0.0 && cur.count > 0.0 && Positive(rest) && Positive(done)
    requires Sorted(done) && Sorted(rest)
    requires (forall x :: x in done ==> x.mean <= cur.mean) && (forall x :: x in rest ==> cur.mean <= x.mean)
    ensures
      var r := Compact(done, cur, rest, soFar, total, norm);
      Sorted(r) && Positive(r) && 1 <= |r| <= |done| + 1 + |rest|
    decreases |rest|
  {
    hide Combine, ShouldAdd;
    if rest == [] {
    } else if ShouldAdd(cur, rest[0], soFar, total, norm) {
      CombineKeeps(cur, rest[0]);
      CompactSorts(done, Combine(cur, rest[0]), rest[1..], soFar, total, norm);
    } else {
      CompactSorts(done + [cur], rest[0], rest[1..], soFar + cur.count, total, norm);
    }
  }
}
