/**
 The two interpolators of the t-digest: the value at a quantile, and the quantile of a value.
 */
module Quantiles {
  import opened Centroids
  import opened TDigest
  import opened Wrappers

  const SMALL: real := 0.000000001

  /** `is_very_small`. */
  predicate VerySmall(x: real) {
    !(x > SMALL || x < -SMALL)
  }

  /** The line through the centres of two neighbours, `x` behind the first. */
  function Interpolate(nl: Node, nr: Node, x: real): real
    requires nl.count > 0.0 && nr.count > 0.0
  {
    (nr.mean - nl.mean) / (nl.count / 2.0 + nr.count / 2.0) * x + nl.mean
  }

  lemma InterpolateMonotone(nl: Node, nr: Node, x: real, y: real)
    requires nl.count > 0.0 && nr.count > 0.0 && nl.mean <= nr.mean && x <= y
    ensures Interpolate(nl, nr, x) <= Interpolate(nl, nr, y)
  {
    var d, h := nr.mean - nl.mean, nl.count / 2.0 + nr.count / 2.0;
  }

  /** The first node from `i` on whose counts exceed `goal`. */
  function Find(s: seq<Node>, goal: real, i: nat): (r: nat)
    requires i <= |s|
    ensures i <= r <= |s| && (r < |s| ==> Prefix(s, r + 1) > goal)
    ensures forall j :: i < j <= r ==> Prefix(s, j) <= goal
    decreases |s| - i
  {
    if i == |s| || Prefix(s, i + 1) > goal then i else Find(s, goal, i + 1)
  }

  /** The value in node `i`, `delta` behind its centre. */
  function ValueIn(s: seq<Node>, i: nat, delta: real): real
    requires i < |s| && Positive(s)
  {
    if VerySmall(delta) then s[i].mean
    else if delta > 0.0 then
      if i + 1 == |s| then s[i].mean else Interpolate(s[i], s[i + 1], delta)
    else
      if i == 0 then s[i].mean
      else Interpolate(s[i - 1], s[i], s[i - 1].count / 2.0 + s[i].count / 2.0 + delta)
  }

  /** The value where `goal` counts lie to the left. */
  function Value(s: seq<Node>, goal: real): real
    requires s != [] && Positive(s)
  {
    var i := Find(s, goal, 0);
    if i == |s| then s[|s| - 1].mean
    else ValueIn(s, i, goal - Prefix(s, i) - s[i].count / 2.0)
  }

  /** The value on the border between node `i - 1` and node `i`. */
  function Border(s: seq<Node>, i: nat): real
    requires i <= |s| && s != [] && Positive(s)
  {
    if i == 0 then s[0].mean
    else if i == |s| then s[|s| - 1].mean
    else Interpolate(s[i - 1], s[i], s[i - 1].count / 2.0)
  }

  lemma BorderBounds(s: seq<Node>, i: nat)
    requires i < |s| && Positive(s) && Sorted(s)
    ensures Border(s, i) <= s[i].mean <= Border(s, i + 1)
  {
    if i > 0 {
      InterpolateMonotone(s[i - 1], s[i], s[i - 1].count / 2.0, s[i - 1].count / 2.0 + s[i].count / 2.0);
    }
    if i + 1 < |s| {
      InterpolateMonotone(s[i], s[i + 1], 0.0, s[i].count / 2.0);
    }
  }

  lemma {:induction false} BorderMonotone(s: seq<Node>, i: nat, j: nat)
    requires i <= j <= |s| && s != [] && Positive(s) && Sorted(s)
    ensures Border(s, i) <= Border(s, j)
    decreases j - i
  {
    hide Border;
    if i < j {
      BorderMonotone(s, i, j - 1);
      BorderBounds(s, j - 1);
    }
  }

  lemma ValueInBounds(s: seq<Node>, i: nat, delta: real)
    requires i < |s| && Positive(s) && Sorted(s) && -s[i].count / 2.0 <= delta <= s[i].count / 2.0
    ensures Border(s, i) <= ValueIn(s, i, delta) <= Border(s, i + 1)
    ensures delta <= 0.0 ==> ValueIn(s, i, delta) <= s[i].mean
    ensures delta >= 0.0 ==> ValueIn(s, i, delta) >= s[i].mean
  {
    BorderBounds(s, i);
    hide Interpolate;
    if VerySmall(delta) {
    } else if delta > 0.0 {
      if i + 1 < |s| {
        InterpolateMonotone(s[i], s[i + 1], 0.0, delta);
        InterpolateMonotone(s[i], s[i + 1], delta, s[i].count / 2.0);
      }
    } else if i > 0 {
      var h := s[i - 1].count / 2.0 + s[i].count / 2.0;
      InterpolateMonotone(s[i - 1], s[i], s[i - 1].count / 2.0, h + delta);
      InterpolateMonotone(s[i - 1], s[i], h + delta, h);
    }
  }

  lemma ValueInMonotone(s: seq<Node>, i: nat, d: real, e: real)
    requires i < |s| && Positive(s) && Sorted(s) && -s[i].count / 2.0 <= d <= e <= s[i].count / 2.0
    ensures ValueIn(s, i, d) <= ValueIn(s, i, e)
  {
    ValueInBounds(s, i, d);
    ValueInBounds(s, i, e);
    hide Interpolate, Border;
    if d > 0.0 && !VerySmall(d) && i + 1 < |s| {
      InterpolateMonotone(s[i], s[i + 1], d, e);
    } else if e <= 0.0 && !VerySmall(e) && i > 0 {
      var h := s[i - 1].count / 2.0 + s[i].count / 2.0;
      InterpolateMonotone(s[i - 1], s[i], h + d, h + e);
    }
  }

  /** A larger quantile never has a smaller value. */
  lemma ValueMonotone(s: seq<Node>, g: real, g': real)
    requires s != [] && Positive(s) && Sorted(s) && 0.0 <= g <= g' <= Count(s)
    ensures Value(s, g) <= Value(s, g')
  {
    hide ValueIn, Border;
    var i, j := Find(s, g, 0), Find(s, g', 0);
    assert i <= j;
    if i == |s| {
    } else {
      var d := g - Prefix(s, i) - s[i].count / 2.0;
      if i == j {
        ValueInMonotone(s, i, d, g' - Prefix(s, i) - s[i].count / 2.0);
      } else {
        ValueInBounds(s, i, d);
        BorderMonotone(s, i + 1, j);
        if j < |s| {
          ValueInBounds(s, j, g' - Prefix(s, j) - s[j].count / 2.0);
        } else {
          LastBorder(s);
        }
      }
    }
  }

  lemma LastBorder(s: seq<Node>)
    requires s != [] && Positive(s)
    ensures Border(s, |s|) == s[|s| - 1].mean
  {
  }

  lemma FindEnds(s: seq<Node>)
    requires s != [] && Positive(s)
    ensures Find(s, 0.0, 0) == 0 && Find(s, Count(s), 0) == |s|
  {
    assert Prefix(s, 1) == s[0].count;
    var i := Find(s, Count(s), 0);
    if i < |s| {
      PrefixGrows(s, i + 1, |s|);
    }
  }

  lemma {:induction false} PrefixGrows(s: seq<Node>, i: nat, j: nat)
    requires i <= j <= |s| && Positive(s)
    ensures Prefix(s, i) <= Prefix(s, j) && (i < j ==> Prefix(s, i) < Prefix(s, j))
    decreases j - i
  {
    if i < j {
      PrefixGrows(s, i, j - 1);
    }
  }

  /** The value starts at the least mean, ends at the greatest, and stays between them. */
  lemma ValueRange(s: seq<Node>, goal: real)
    requires s != [] && Positive(s) && Sorted(s) && 0.0 <= goal <= Count(s)
    ensures Value(s, 0.0) == s[0].mean && Value(s, Count(s)) == s[|s| - 1].mean
    ensures s[0].mean <= Value(s, goal) <= s[|s| - 1].mean
  {
    FindEnds(s);
    ValueMonotone(s, 0.0, goal);
    ValueMonotone(s, goal, Count(s));
  }

  lemma FindIs(s: seq<Node>, goal: real, i: nat)
    requires i < |s| && Positive(s) && Prefix(s, i) <= goal < Prefix(s, i + 1)
    ensures Find(s, goal, 0) == i
  {
    var r := Find(s, goal, 0);
    if r < i {
      PrefixGrows(s, r + 1, i);
    }
  }

  /** Half way through a node the value is its mean. */
  lemma ValueAtCentre(s: seq<Node>, i: nat)
    requires i < |s| && Positive(s)
    ensures Value(s, Prefix(s, i) + s[i].count / 2.0) == s[i].mean
  {
    FindIs(s, Prefix(s, i) + s[i].count / 2.0, i);
  }

  /** Between half way through one node and half way through the next the value lies on the line between the means. */
  lemma ValueOnLine(s: seq<Node>, i: nat, x: real)
    requires i + 1 < |s| && Positive(s) && SMALL < x < s[i].count / 2.0 + s[i + 1].count / 2.0 - SMALL
    ensures
      var v := Value(s, Prefix(s, i) + s[i].count / 2.0 + x);
      (v - s[i].mean) * (s[i].count / 2.0 + s[i + 1].count / 2.0) == (s[i + 1].mean - s[i].mean) * x
  {
    ValueBetween(s, i, x);
    LineIs(s[i], s[i + 1], x);
    hide Interpolate, Value, Prefix;
  }

  lemma ValueBetween(s: seq<Node>, i: nat, x: real)
    requires i + 1 < |s| && Positive(s) && SMALL < x < s[i].count / 2.0 + s[i + 1].count / 2.0 - SMALL
    ensures Value(s, Prefix(s, i) + s[i].count / 2.0 + x) == Interpolate(s[i], s[i + 1], x)
  {
    var goal := Prefix(s, i) + s[i].count / 2.0 + x;
    var k := if x < s[i].count / 2.0 then i else i + 1;
    FindIs(s, goal, k);
    assert Prefix(s, i + 1) == Prefix(s, i) + s[i].count;
    hide Interpolate, Find, Prefix;
    assert k == i + 1 ==>
           goal - Prefix(s, k) - s[k].count / 2.0 == x - (s[i].count / 2.0 + s[i + 1].count / 2.0);
  }

  lemma LineIs(nl: Node, nr: Node, x: real)
    requires nl.count > 0.0 && nr.count > 0.0
    ensures (Interpolate(nl, nr, x) - nl.mean) * (nl.count / 2.0 + nr.count / 2.0) == (nr.mean - nl.mean) * x
  {
    var d, h := nr.mean - nl.mean, nl.count / 2.0 + nr.count / 2.0;
    assert d / h * h == d;
    assert d / h * x * h == (d / h * h) * x;
  }

  /** The first node from `i` on whose mean reaches `val`. */
  function Rank(s: seq<Node>, val: real, i: nat): (r: nat)
    requires i <= |s|
    ensures i <= r <= |s| && (r < |s| ==> s[r].mean >= val)
    ensures forall j :: i <= j < r ==> s[j].mean < val
    decreases |s| - i
  {
    if i == |s| || s[i].mean >= val then i else Rank(s, val, i + 1)
  }

  /** The last of the nodes from `i` on with the same mean. */
  function GroupEnd(s: seq<Node>, i: nat): (r: nat)
    requires i < |s|
    ensures i <= r < |s| && (r + 1 < |s| ==> s[r + 1].mean != s[i].mean)
    ensures forall j :: i <= j <= r ==> s[j].mean == s[i].mean
    decreases |s| - i
  {
    if i + 1 < |s| && s[i + 1].mean == s[i].mean then GroupEnd(s, i + 1) else i
  }

  /** The counts up to the middle of node `i`. */
  function Centre(s: seq<Node>, i: nat): real
    requires i < |s|
  {
    Prefix(s, i) + s[i].count / 2.0
  }

  /** How far behind the centre of `nl` the line to the centre of `nr` reaches `val`. */
  function Along(nl: Node, nr: Node, val: real): real
    requires nl.count > 0.0 && nr.count > 0.0 && nl.mean < nr.mean
  {
    var m := (nr.mean - nl.mean) / (nl.count / 2.0 + nr.count / 2.0);
    (val - nl.mean) / m
  }

  /** How many counts lie to the left of `val`. */
  function Position(s: seq<Node>, val: real): real
    requires s != [] && Positive(s)
  {
    var i := Rank(s, val, 0);
    if i == |s| then Count(s)
    else if val == s[i].mean then Prefix(s, i) + (Prefix(s, GroupEnd(s, i) + 1) - Prefix(s, i)) / 2.0
    else if i == 0 then 0.0
    else Centre(s, i - 1) + Along(s[i - 1], s[i], val)
  }

  /** The nodes with a mean have half of their counts to its left, besides all the counts before them. */
  lemma PositionOfMean(s: seq<Node>, i: nat, j: nat)
    requires i <= j < |s| && Positive(s) && Sorted(s) && s[i].mean == s[j].mean
    requires i == 0 || s[i - 1].mean < s[i].mean
    requires j + 1 == |s| || s[j].mean < s[j + 1].mean
    ensures Position(s, s[i].mean) == (Prefix(s, i) + Prefix(s, j + 1)) / 2.0
  {
    assert Rank(s, s[i].mean, 0) == i;
    assert GroupEnd(s, i) == j;
    hide Rank, GroupEnd, Prefix;
  }

  /** A value below all means has no counts to its left, and one above all of them has all counts. */
  lemma PositionOutside(s: seq<Node>, val: real)
    requires s != [] && Positive(s) && Sorted(s)
    ensures val < s[0].mean ==> Position(s, val) == 0.0
    ensures val > s[|s| - 1].mean ==> Position(s, val) == Count(s)
  {
    hide Along, GroupEnd, Prefix;
  }

  /** Between two means the position lies on the line between their centres. */
  lemma PositionOnLine(s: seq<Node>, val: real, i: nat)
    requires i + 1 < |s| && Positive(s) && Sorted(s) && s[i].mean < val < s[i + 1].mean
    ensures (Position(s, val) - (Prefix(s, i) + s[i].count / 2.0)) * (s[i + 1].mean - s[i].mean) ==
            (val - s[i].mean) * (s[i].count / 2.0 + s[i + 1].count / 2.0)
  {
    PositionBetween(s, val, i);
    AlongIs(s[i], s[i + 1], val);
    hide Along, Position, Prefix;
  }

  lemma PositionBetween(s: seq<Node>, val: real, i: nat)
    requires i + 1 < |s| && Positive(s) && Sorted(s) && s[i].mean < val < s[i + 1].mean
    ensures Position(s, val) - (Prefix(s, i) + s[i].count / 2.0) == Along(s[i], s[i + 1], val)
  {
    assert Rank(s, val, 0) == i + 1;
    hide Along, Rank, GroupEnd, Prefix;
  }

  lemma AlongIs(nl: Node, nr: Node, val: real)
    requires nl.count > 0.0 && nr.count > 0.0 && nl.mean < nr.mean
    ensures Along(nl, nr, val) * (nr.mean - nl.mean) == (val - nl.mean) * (nl.count / 2.0 + nr.count / 2.0)
  {
    var d, h, y := nr.mean - nl.mean, nl.count / 2.0 + nr.count / 2.0, val - nl.mean;
    var m := d / h;
    assert m * h == d && y / m * m == y;
    assert y / m * (m * h) == (y / m * m) * h;
  }

  lemma AlongMonotone(nl: Node, nr: Node, v: real, w: real)
    requires nl.count > 0.0 && nr.count > 0.0 && nl.mean < nr.mean && v <= w
    ensures Along(nl, nr, v) <= Along(nl, nr, w)
  {
    var d, h := nr.mean - nl.mean, nl.count / 2.0 + nr.count / 2.0;
    Divide(d / h, v - nl.mean, w - nl.mean);
  }

  lemma Divide(m: real, x: real, y: real)
    requires m > 0.0 && x <= y
    ensures x / m <= y / m
  {
  }

  lemma AlongEnds(nl: Node, nr: Node)
    requires nl.count > 0.0 && nr.count > 0.0 && nl.mean < nr.mean
    ensures Along(nl, nr, nl.mean) == 0.0
    ensures Along(nl, nr, nr.mean) == nl.count / 2.0 + nr.count / 2.0
  {
    var d, h := nr.mean - nl.mean, nl.count / 2.0 + nr.count / 2.0;
    var m := d / h;
    assert m * h == d;
  }

  lemma {:induction false} CentreMonotone(s: seq<Node>, i: nat, j: nat)
    requires i <= j < |s| && Positive(s)
    ensures 0.0 < Centre(s, i) <= Centre(s, j) < Count(s)
  {
    PrefixGrows(s, 0, i);
    PrefixGrows(s, j + 1, |s|);
    if i < j {
      PrefixGrows(s, i + 1, j);
    }
  }

  /** A position lies between the centres of the nodes around it. */
  lemma PositionBounds(s: seq<Node>, val: real)
    requires s != [] && Positive(s) && Sorted(s)
    ensures
      var i := Rank(s, val, 0);
      && (i < |s| && val == s[i].mean ==> Centre(s, i) <= Position(s, val) <= Centre(s, GroupEnd(s, i)))
      && (0 < i < |s| && val < s[i].mean ==> Centre(s, i - 1) <= Position(s, val) <= Centre(s, i))
  {
    var i := Rank(s, val, 0);
    if i < |s| && val == s[i].mean {
      var j := GroupEnd(s, i);
      PrefixGrows(s, i, j);
      PrefixGrows(s, i + 1, j + 1);
    } else if 0 < i < |s| {
      assert s[i - 1].mean < val;
      AlongMonotone(s[i - 1], s[i], s[i - 1].mean, val);
      AlongMonotone(s[i - 1], s[i], val, s[i].mean);
      AlongEnds(s[i - 1], s[i]);
    }
  }

  /** A larger value never has a smaller quantile, even among equal means. */
  lemma PositionMonotone(s: seq<Node>, v: real, w: real)
    requires s != [] && Positive(s) && Sorted(s) && v <= w
    ensures Position(s, v) <= Position(s, w)
  {
    var i, j := Rank(s, v, 0), Rank(s, w, 0);
    assert i <= j;
    PositionBounds(s, v);
    PositionBounds(s, w);
    PositionRange(s, v);
    PositionRange(s, w);
    if i == j {
      if 0 < i < |s| && w < s[i].mean {
        AlongMonotone(s[i - 1], s[i], v, w);
      }
    } else if j < |s| {
      var e := if v == s[i].mean then GroupEnd(s, i) else i;
      assert e < j;
      CentreMonotone(s, e, j - 1);
      CentreMonotone(s, j - 1, j);
    }
  }

  /** A position is at least 0 and at most the total count, so that the quantile lies in [0, 1]. */
  lemma PositionRange(s: seq<Node>, val: real)
    requires s != [] && Positive(s) && Sorted(s)
    ensures 0.0 <= Position(s, val) <= Count(s)
  {
    hide Along;
    PositionBounds(s, val);
    PrefixGrows(s, 0, |s|);
    var i := Rank(s, val, 0);
    if i < |s| {
      CentreMonotone(s, i, GroupEnd(s, i));
      if i > 0 {
        CentreMonotone(s, i - 1, i);
      }
    }
  }

  ghost predicate StrictlySorted(s: seq<Node>) {
    forall i, j :: 0 <= i < j < |s| ==> s[i].mean < s[j].mean
  }

  lemma InterpolateStrict(nl: Node, nr: Node, x: real)
    requires nl.count > 0.0 && nr.count > 0.0 && nl.mean < nr.mean && 0.0 < x < nl.count / 2.0 + nr.count / 2.0
    ensures nl.mean < Interpolate(nl, nr, x) < nr.mean
  {
    var d, h := nr.mean - nl.mean, nl.count / 2.0 + nr.count / 2.0;
    var m := d / h;
    assert m * h == d;
  }

  /** Between the centres of two nodes the interpolators are inverse to each other. */
  lemma BetweenCentres(s: seq<Node>, i: nat, x: real)
    requires Positive(s) && StrictlySorted(s) && i + 1 < |s| && 0.0 < x < s[i].count / 2.0 + s[i + 1].count / 2.0
    ensures Position(s, Interpolate(s[i], s[i + 1], x)) == Centre(s, i) + x
  {
    InterpolateStrict(s[i], s[i + 1], x);
  }

  lemma AtCentre(s: seq<Node>, i: nat)
    requires Positive(s) && StrictlySorted(s) && i < |s|
    ensures Position(s, s[i].mean) == Centre(s, i)
  {
  }

  /**
   For strictly ascending means, and a goal between the first and the last centre, the quantile of the value at
   the goal is the goal again, up to the width of the flat piece around a centre.
   */
  lemma RoundTrip(s: seq<Node>, goal: real)
    requires s != [] && Positive(s) && StrictlySorted(s) && Centre(s, 0) <= goal <= Centre(s, |s| - 1)
    ensures -SMALL <= Position(s, Value(s, goal)) - goal <= SMALL
  {
    hide Position, Interpolate;
    CentreMonotone(s, 0, |s| - 1);
    var i := Find(s, goal, 0);
    var delta := goal - Centre(s, i);
    if VerySmall(delta) {
      AtCentre(s, i);
    } else if delta > 0.0 {
      if i + 1 < |s| {
        BetweenCentres(s, i, delta);
      }
    } else if i > 0 {
      BetweenCentres(s, i - 1, s[i - 1].count / 2.0 + s[i].count / 2.0 + delta);
    }
  }

  /** `td_value_at`. */
  method ValueAt(h: Histogram, q: real) returns (v: Option<real>)
    requires h.Valid()
    modifies h, h.nodes
    ensures h.Valid() && h.unmerged == 0 && Count(h.All()) == old(Count(h.All()))
    ensures
      var s := h.All();
      && v.Some? == (0.0 <= q <= 1.0 && s != [])
      && (v.Some? ==> Positive(s) && Sorted(s) && v.value == Value(s, Goal(q, Count(s))))
  {
    hide Value, Positive, Sorted, Count, Sum, Goal;
    h.Merge();
    h.AllCounted();
    if q < 0.0 || q > 1.0 || h.merged == 0 {
      return None;
    }
    var s, goal := h.nodes[..h.merged], Goal(q, h.mergedCount);
    InRange(q, h.mergedCount, s);
    var x := Walk(s, goal);
    return Some(x);
  }

  /** How many counts lie below the quantile `q`. */
  function Goal(q: real, total: real): real {
    q * total
  }

  lemma InRange(q: real, total: real, s: seq<Node>)
    requires 0.0 <= q <= 1.0 && Positive(s) && s != [] && total == Count(s)
    ensures 0.0 <= Goal(q, total) <= Count(s)
  {
    hide Goal, Count;
    PositiveTotal(s);
    GoalRange(q, total);
  }

  lemma GoalRange(q: real, total: real)
    requires 0.0 <= q <= 1.0 && total > 0.0
    ensures 0.0 <= Goal(q, total) <= total
  {
  }

  /** A number of counts as a share of all of them. */
  function Share(position: real, total: real): real
    requires total > 0.0
  {
    position / total
  }

  lemma ShareEnds(total: real)
    requires total > 0.0
    ensures Share(0.0, total) == 0.0 && Share(total, total) == 1.0
  {
  }

  /** The walk of `td_value_at` over the merged nodes. */
  method Walk(s: seq<Node>, goal: real) returns (v: real)
    requires s != [] && Positive(s) && 0.0 <= goal <= Count(s)
    ensures v == Value(s, goal)
  {
    var k, i := 0.0, 0;
    while i < |s| && !(k + s[i].count > goal)
      invariant 0 <= i <= |s| && k == Prefix(s, i) && Find(s, goal, i) == Find(s, goal, 0)
    {
      k := k + s[i].count;
      i := i + 1;
    }
    var n := if i < |s| then s[i] else s[|s| - 1];
    var delta := goal - k - n.count / 2.0;
    if VerySmall(delta) {
      return n.mean;
    }
    var right := delta > 0.0;
    if (right && i + 1 == |s|) || (!right && i == 0) {
      return n.mean;
    }
    if right {
      v := Interpolate(n, s[i + 1], goal - (k + n.count / 2.0));
    } else {
      var nl := s[i - 1];
      v := Interpolate(nl, n, goal - (k - nl.count / 2.0));
    }
  }

  /** `td_quantile_of`. */
  method QuantileOf(h: Histogram, val: real) returns (q: Option<real>)
    requires h.Valid()
    modifies h, h.nodes
    ensures h.Valid() && h.unmerged == 0 && Count(h.All()) == old(Count(h.All()))
    ensures
      var s := h.All();
      && q.Some? == (s != [])
      && (q.Some? ==> Positive(s) && Sorted(s) && Count(s) > 0.0 && q.value == Share(Position(s, val), Count(s)))
  {
    hide Position, Positive, Sorted, Count, Sum, Share;
    h.Merge();
    h.AllCounted();
    if h.merged == 0 {
      return None;
    }
    PositiveTotal(h.All());
    var x := Scan(h.nodes[..h.merged], val, h.mergedCount);
    return Some(x);
  }

  /** The scan of `td_quantile_of` over the merged nodes. */
  method Scan(s: seq<Node>, val: real, total: real) returns (q: real)
    requires s != [] && Positive(s) && total == Count(s) > 0.0
    ensures q == Share(Position(s, val), total)
  {
    hide Along;
    var k, i := 0.0, 0;
    while i < |s| && !(s[i].mean >= val)
      invariant 0 <= i <= |s| && k == Prefix(s, i) && Rank(s, val, i) == Rank(s, val, 0)
    {
      k := k + s[i].count;
      i := i + 1;
    }
    hide Rank, Prefix, GroupEnd, Share;
    ShareEnds(total);
    var n := if i < |s| then s[i] else s[|s| - 1];
    if val == n.mean {
      var at := SameMean(s, i);
      return Share(k + at / 2.0, total);
    } else if val > n.mean {
      return 1.0;
    } else if i == 0 {
      return 0.0;
    }
    var nl := s[i - 1];
    k := k - nl.count / 2.0;
    var x := Solve(nl, n, val);
    return Share(k + x, total);
  }

  /** Where the line between two neighbours reaches `val`. */
  method Solve(nl: Node, nr: Node, val: real) returns (x: real)
    requires nl.count > 0.0 && nr.count > 0.0 && nl.mean < nr.mean
    ensures x == Along(nl, nr, val)
  {
    var m := (nr.mean - nl.mean) / (nl.count / 2.0 + nr.count / 2.0);
    x := (val - nl.mean) / m;
  }

  /** The counts of the nodes from `i` on with the same mean. */
  method SameMean(s: seq<Node>, i: nat) returns (count: real)
    requires i < |s|
    ensures count == Prefix(s, GroupEnd(s, i) + 1) - Prefix(s, i)
  {
    count := s[i].count;
    var j := i + 1;
    while j < |s| && s[j].mean == s[i].mean
      invariant i < j <= |s| && s[j - 1].mean == s[i].mean && count == Prefix(s, j) - Prefix(s, i)
      invariant GroupEnd(s, j - 1) == GroupEnd(s, i)
    {
      count := count + s[j].count;
      j := j + 1;
    }
  }

  lemma GoalMonotone(q: real, q': real, total: real)
    requires q <= q' && total > 0.0
    ensures Goal(q, total) <= Goal(q', total) && Goal(0.0, total) == 0.0 && Goal(1.0, total) == total
  {
  }

  /** `td_value_at` is monotone over [0, 1], from the least mean at 0 to the greatest at 1. */
  lemma ValueAtMonotone(s: seq<Node>, q: real, q': real)
    requires s != [] && Positive(s) && Sorted(s) && 0.0 <= q <= q' <= 1.0
    ensures Value(s, Goal(q, Count(s))) <= Value(s, Goal(q', Count(s)))
    ensures s[0].mean <= Value(s, Goal(q, Count(s))) <= s[|s| - 1].mean
    ensures Value(s, Goal(0.0, Count(s))) == s[0].mean && Value(s, Goal(1.0, Count(s))) == s[|s| - 1].mean
  {
    hide Value, Count, Goal;
    var total := Count(s);
    InRange(q, total, s);
    InRange(q', total, s);
    PositiveTotal(s);
    GoalMonotone(q, q', total);
    ValueMonotone(s, Goal(q, total), Goal(q', total));
    ValueRange(s, Goal(q, total));
  }

  /** `td_quantile_of` is monotone and stays in [0, 1]. */
  lemma QuantileMonotone(s: seq<Node>, v: real, w: real)
    requires s != [] && Positive(s) && Sorted(s) && v <= w && Count(s) > 0.0
    ensures 0.0 <= Share(Position(s, v), Count(s)) <= Share(Position(s, w), Count(s)) <= 1.0
  {
    hide Position, Count;
    PositionRange(s, v);
    PositionRange(s, w);
    PositionMonotone(s, v, w);
    Divide(Count(s), 0.0, Position(s, v));
    Divide(Count(s), Position(s, v), Position(s, w));
    Divide(Count(s), Position(s, w), Count(s));
  }

  /** The quantile of the value at `q` is within `SMALL` counts of `q`. */
  lemma QuantileOfValueAt(s: seq<Node>, q: real)
    requires s != [] && Positive(s) && StrictlySorted(s) && Count(s) > 0.0
    requires Centre(s, 0) <= Goal(q, Count(s)) <= Centre(s, |s| - 1)
    ensures
      var back := Share(Position(s, Value(s, Goal(q, Count(s)))), Count(s));
      q - SMALL / Count(s) <= back <= q + SMALL / Count(s)
  {
    hide Position, Value, Centre;
    var total := Count(s);
    RoundTrip(s, Goal(q, total));
  }
}
