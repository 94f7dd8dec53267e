/** Circular doubly linked lists threaded through two index arrays, as bio.c threads
    its buffers through prev and next.  A ring lists the members from the head on. */
module Lru {
  ghost predicate Distinct(ring: seq<nat>) {
    forall i, j :: 0 <= i < j < |ring| ==> ring[i] != ring[j]
  }

  /** next and prev run through exactly the members of ring, in order and around. */
  ghost predicate Linked(next: seq<nat>, prev: seq<nat>, ring: seq<nat>) {
    && 0 < |ring|
    && Distinct(ring)
    && (forall i :: 0 <= i < |ring| ==> ring[i] < |next| && ring[i] < |prev|)
    && (forall i :: 0 <= i < |ring| - 1 ==> next[ring[i]] == ring[i + 1])
    && (forall i :: 0 < i < |ring| ==> prev[ring[i]] == ring[i - 1])
    && next[ring[|ring| - 1]] == ring[0]
    && prev[ring[0]] == ring[|ring| - 1]
  }

  lemma RingDistinct(next: seq<nat>, prev: seq<nat>, ring: seq<nat>)
    requires Linked(next, prev, ring)
    ensures 0 < |ring| && Distinct(ring)
  {
  }

  function Without(ring: seq<nat>, k: nat): seq<nat>
    requires k < |ring|
  {
    ring[..k] + ring[k + 1..]
  }

  function InsertFront(ring: seq<nat>, b: nat): seq<nat>
    requires 0 < |ring|
  {
    [ring[0], b] + ring[1..]
  }

  /** The ring after its member at k has become the most recently used. */
  function MoveToFront(ring: seq<nat>, k: nat): seq<nat>
    requires 0 < k < |ring|
  {
    InsertFront(Without(ring, k), ring[k])
  }

  lemma WithoutAt(ring: seq<nat>, k: nat)
    requires Distinct(ring) && k < |ring|
    ensures |Without(ring, k)| == |ring| - 1
    ensures forall i :: 0 <= i < |ring| - 1 ==> Without(ring, k)[i] == if i < k then ring[i] else ring[i + 1]
    ensures Distinct(Without(ring, k)) && ring[k] !in Without(ring, k)
  {
  }

  /** Taking a member other than the head out, by the two assignments of brelse. */
  lemma UnlinkKeeps(next: seq<nat>, prev: seq<nat>, ring: seq<nat>, k: nat)
    requires Linked(next, prev, ring) && 0 < k < |ring|
    ensures var b := ring[k];
      next[b] < |prev| && prev[b] < |next| &&
      Linked(next[prev[b] := next[b]], prev[next[b] := prev[b]], Without(ring, k))
  {
    WithoutAt(ring, k);
    var b, r := ring[k], Without(ring, k);
    var before := ring[k - 1];
    var after := if k + 1 < |ring| then ring[k + 1] else ring[0];
    assert prev[b] == before && next[b] == after;
    var next', prev' := next[before := after], prev[after := before];
    forall i | 0 <= i < |r| - 1 ensures next'[r[i]] == r[i + 1] {
    }
    forall i | 0 < i < |r| ensures prev'[r[i]] == r[i - 1] {
    }
  }

  lemma InsertFrontAt(ring: seq<nat>, b: nat)
    requires 0 < |ring| && Distinct(ring) && b !in ring
    ensures |InsertFront(ring, b)| == |ring| + 1
    ensures forall i :: 0 <= i <= |ring| ==>
      InsertFront(ring, b)[i] == if i == 0 then ring[0] else if i == 1 then b else ring[i - 1]
    ensures Distinct(InsertFront(ring, b))
  {
    var r := InsertFront(ring, b);
    forall i, j | 0 <= i < j < |r| ensures r[i] != r[j] {
      assert b != ring[0];
    }
  }

  /** Putting a new member right behind the head, by the four assignments of brelse and binit. */
  lemma InsertFrontKeeps(next: seq<nat>, prev: seq<nat>, ring: seq<nat>, b: nat)
    requires Linked(next, prev, ring) && b !in ring && b < |next| && b < |prev|
    ensures var head := ring[0];
      next[head] < |prev| && head < |next| &&
      Linked(next[b := next[head]][head := b], prev[b := head][next[head] := b], InsertFront(ring, b))
  {
    InsertFrontAt(ring, b);
    var r, head := InsertFront(ring, b), ring[0];
    var first := if |ring| > 1 then ring[1] else ring[0];
    assert next[head] == first;
    assert forall i :: 0 <= i < |ring| ==> ring[i] != b;
    var next', prev' := next[b := first][head := b], prev[b := head][first := b];
    forall i | 0 <= i < |r| - 1 ensures next'[r[i]] == r[i + 1] {
      assert i >= 2 ==> r[i] == ring[i - 1] != head;
    }
    forall i | 0 < i < |r| ensures prev'[r[i]] == r[i - 1] {
      assert i >= 3 ==> r[i] == ring[i - 1] != first;
    }
  }
}
