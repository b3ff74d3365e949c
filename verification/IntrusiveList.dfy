/**
 * Singly linked lists threaded through nodes that live in their owners' frames. A list is
 * named by the stretch q[lo..hi] of a sequence of node addresses that it runs through.
 */
module IntrusiveList {
  import opened Prelude

  type Id = nat  // a coroutine; also the address of the node in its frame
  type Links = map<Id, Option<Id>>

  /** Node i points to its successor within q[..hi]. */
  ghost predicate Ahead(next: Links, q: seq<Id>, i: nat, hi: nat)
    requires i < hi <= |q|
  {
    q[i] in next && next[q[i]] == if i + 1 < hi then Some(q[i + 1]) else None
  }

  /** Node i points to its predecessor within q[lo..]. */
  ghost predicate Back(next: Links, q: seq<Id>, i: nat, lo: nat)
    requires lo <= i < |q|
  {
    q[i] in next && next[q[i]] == if i > lo then Some(q[i - 1]) else None
  }

  /** `p` leads through q[lo..hi] in order. */
  ghost predicate Fifo(next: Links, p: Option<Id>, q: seq<Id>, lo: nat, hi: nat) {
    && lo <= hi <= |q| && p == (if lo == hi then None else Some(q[lo]))
    && forall i :: lo <= i < hi ==> Ahead(next, q, i, hi)
  }

  /** `p` leads through q[lo..hi] backwards. */
  ghost predicate Lifo(next: Links, p: Option<Id>, q: seq<Id>, lo: nat, hi: nat) {
    && lo <= hi <= |q| && p == (if lo == hi then None else Some(q[hi - 1]))
    && forall i :: lo <= i < hi ==> Back(next, q, i, lo)
  }

  /** Links written or removed elsewhere, or nodes added at the end of q, leave a list alone. */
  lemma FifoFrame(next: Links, p: Option<Id>, q: seq<Id>, lo: nat, hi: nat, next': Links, q': seq<Id>)
    requires Fifo(next, p, q, lo, hi) && q <= q'
    requires forall i :: lo <= i < hi && q[i] in next ==> q[i] in next' && next'[q[i]] == next[q[i]]
    ensures Fifo(next', p, q', lo, hi)
  {
    forall i | lo <= i < hi ensures Ahead(next', q', i, hi) { assert Ahead(next, q, i, hi); }
  }

  lemma LifoFrame(next: Links, p: Option<Id>, q: seq<Id>, lo: nat, hi: nat, next': Links, q': seq<Id>)
    requires Lifo(next, p, q, lo, hi) && q <= q'
    requires forall i :: lo <= i < hi && q[i] in next ==> q[i] in next' && next'[q[i]] == next[q[i]]
    ensures Lifo(next', p, q', lo, hi)
  {
    forall i | lo <= i < hi ensures Back(next', q', i, lo) { assert Back(next, q, i, lo); }
  }

  lemma LifoTop(next: Links, p: Option<Id>, q: seq<Id>, lo: nat, hi: nat)
    requires Lifo(next, p, q, lo, hi) && p.Some?
    ensures lo < hi && p.value == q[hi - 1] && p.value in next
    ensures Lifo(next, next[p.value], q, lo, hi - 1)
  {
    assert Back(next, q, hi - 1, lo);
  }

  lemma LifoPush(next: Links, p: Option<Id>, q: seq<Id>, lo: nat, x: Id)
    requires Lifo(next, p, q, lo, |q|) && x in next && next[x] == p
    ensures Lifo(next, Some(x), q + [x], lo, |q| + 1)
  {
    LifoFrame(next, p, q, lo, |q|, next, q + [x]);
    assert Back(next, q + [x], |q|, lo);
  }

  /** Relinking the node just before a list puts it in front. */
  lemma FifoPush(next: Links, p: Option<Id>, q: seq<Id>, lo: nat, hi: nat)
    requires 0 < lo && Fifo(next, p, q, lo, hi)
    requires forall i :: lo <= i < hi ==> q[i] != q[lo - 1]
    ensures Fifo(next[q[lo - 1] := p], Some(q[lo - 1]), q, lo - 1, hi)
  {
    var next' := next[q[lo - 1] := p];
    forall i | lo - 1 <= i < hi ensures Ahead(next', q, i, hi) {
      if i >= lo { assert Ahead(next, q, i, hi); }
    }
  }

  lemma FifoTop(next: Links, p: Option<Id>, q: seq<Id>, lo: nat, hi: nat)
    requires Fifo(next, p, q, lo, hi) && p.Some?
    ensures lo < hi && p.value == q[lo] && p.value in next
    ensures Fifo(next, next[p.value], q, lo + 1, hi)
  {
    assert Ahead(next, q, lo, hi);
  }
}
