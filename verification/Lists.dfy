/**
 The intrusive doubly linked list: a circular chain of links through a head, proved at the level of the
 pointers. A ghost sequence names the links of a ring in order, head first.
 */
module Lists {

  /** A link together with the fields of the server or client it is embedded in; for a head they are unused. */
  class Link {
    var next: Link?
    var prev: Link?
    var state: nat
    var idleTime: nat
    const initTime: nat

    constructor ()
      ensures Ring([this]) && state == 0
    {
      state := 0;
      idleTime, initTime := 0, 0;
      new;
      next, prev := this, this;
    }

    /** `od_list_init`: a ring of its own. */
    method Init()
      modifies this`next, this`prev
      ensures Ring([this])
    {
      next, prev := this, this;
    }

    /** `od_list_append`: `this` becomes the last link of the ring with head `ring[0]`. */
    method AppendTo(list: Link, ghost ring: seq<Link>)
      requires Ring(ring) && list == ring[0] && this !in ring
      modifies ring`next, ring`prev, this`next, this`prev
      ensures Ring(ring + [this])
    {
      next := list;
      prev := list.prev;
      prev.next := this;
      next.prev := this;
    }

    /** `od_list_push`: `this` becomes the first link after the head. */
    method PushTo(list: Link, ghost ring: seq<Link>)
      requires Ring(ring) && list == ring[0] && this !in ring
      modifies ring`next, ring`prev, this`next, this`prev
      ensures Ring([list, this] + ring[1..])
    {
      next := list.next;
      prev := list;
      prev.next := this;
      next.prev := this;
      ghost var r := [list, this] + ring[1..];
      assert forall i :: 2 <= i < |r| ==> r[i] == ring[i - 1];
    }

    /** `od_list_unlink`: the ring closes over `this`, which sits at `ring[k]` or is alone. */
    method Unlink(ghost ring: seq<Link>, ghost k: nat)
      requires Ring(ring) && k < |ring| && ring[k] == this && (k > 0 || |ring| == 1)
      modifies ring`next, ring`prev
      ensures k > 0 ==> Ring(Without(ring, k))
      ensures k == 0 ==> Ring([this])
    {
      assert k > 0 ==> prev == ring[k - 1] && next == if k + 1 == |ring| then ring[0] else ring[k + 1];
      prev.next := next;
      next.prev := prev;
      if k > 0 {
        ghost var rest := Without(ring, k);
        assert forall i :: 0 <= i < k ==> rest[i] == ring[i];
        assert forall i :: k <= i < |rest| ==> rest[i] == ring[i + 1];
      }
    }

    /** Unlinks and initializes: `this` is alone and the others close up. */
    method Detach(ghost ring: seq<Link>, ghost k: nat)
      requires Ring(ring) && k < |ring| && ring[k] == this && (k > 0 || |ring| == 1)
      modifies ring`next, ring`prev
      ensures k > 0 ==> Ring(Without(ring, k))
      ensures Ring([this])
    {
      Unlink(ring, k);
      Init();
    }
  }

  function Without(s: seq<Link>, k: nat): (r: seq<Link>)
    requires k < |s|
    ensures |r| == |s| - 1
    ensures Distinct(s) ==> Distinct(r)
  {
    s[..k] + s[k + 1..]
  }

  ghost predicate Distinct(links: seq<Link>) {
    forall i, j :: 0 <= i < j < |links| ==> links[i] != links[j]
  }

  /** Going forward from any link of `ring` visits the next one, going backward the previous one. */
  ghost predicate Ring(ring: seq<Link>)
    reads ring`next, ring`prev
  {
    && ring != []
    && Distinct(ring)
    && (forall i {:trigger ring[i].next} :: 0 <= i < |ring| - 1 ==> ring[i].next == ring[i + 1])
    && (forall i {:trigger ring[i].prev} :: 0 < i < |ring| ==> ring[i].prev == ring[i - 1])
    && ring[|ring| - 1].next == ring[0]
    && ring[0].prev == ring[|ring| - 1]
  }
}
