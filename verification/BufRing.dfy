/**
 * The circular doubly linked list of bio.c: buffers are numbered 0..h-1 and h is the list head.
 * `order` is the list read from head.next on, most recently used first.
 */
module BufRing {
  ghost function At(order: seq<nat>, p: int, h: nat): nat {
    if 0 <= p < |order| then order[p] else h
  }

  ghost predicate Distinct(order: seq<nat>) {
    forall p, q | 0 <= p < q < |order| :: order[p] != order[q]
  }

  /** Both links between positions p - 1 and p. */
  ghost predicate Joined(next: seq<nat>, prev: seq<nat>, order: seq<nat>, p: nat, h: nat)
    requires |next| == |prev| == h + 1
  {
    var a, b := At(order, p - 1, h), At(order, p, h);
    a <= h && b <= h && next[a] == b && prev[b] == a
  }

  ghost predicate Ring(next: seq<nat>, prev: seq<nat>, order: seq<nat>, h: nat) {
    && |next| == |prev| == h + 1
    && (forall p | 0 <= p < |order| :: order[p] < h)
    && Distinct(order)
    && forall p: nat | p <= |order| :: Joined(next, prev, order, p, h)
  }

  ghost function Without(order: seq<nat>, p: nat): seq<nat>
    requires p < |order|
  {
    order[..p] + order[p + 1..]
  }

  /** b->next->prev = b->prev; b->prev->next = b->next */
  lemma Unlink(next: seq<nat>, prev: seq<nat>, order: seq<nat>, h: nat, p: nat)
    requires Ring(next, prev, order, h) && p < |order|
    ensures var b := order[p];
            && next[b] <= h && prev[b] <= h
            && Ring(next[prev[b] := next[b]], prev[next[b] := prev[b]], Without(order, p), h)
            && b !in Without(order, p)
  {
    var b, r := order[p], Without(order, p);
    assert Joined(next, prev, order, p, h) && Joined(next, prev, order, p + 1, h);
    var next', prev' := next[prev[b] := next[b]], prev[next[b] := prev[b]];
    forall q: nat | q <= |r| ensures Joined(next', prev', r, q, h) {
      if q < p {
        assert Joined(next, prev, order, q, h);
      } else if q > p {
        assert Joined(next, prev, order, q + 1, h);
      }
    }
  }

  /** Insertion at the head. */
  lemma PushFront(next: seq<nat>, prev: seq<nat>, order: seq<nat>, h: nat, b: nat)
    requires Ring(next, prev, order, h) && b < h && b !in order
    ensures next[h] <= h
    ensures Ring(next[b := next[h]][h := b], prev[b := h][next[h] := b], [b] + order, h)
  {
    assert Joined(next, prev, order, 0, h);
    var r := [b] + order;
    var next', prev' := next[b := next[h]][h := b], prev[b := h][next[h] := b];
    forall q: nat | q <= |r| ensures Joined(next', prev', r, q, h) {
      if q >= 2 {
        assert Joined(next, prev, order, q - 1, h);
      }
    }
  }
}
