/** The growable dataset: two parallel buffers of x and y values with a
    size and a capacity (the `Dataset` struct and its four functions). */
module Datasets {

  /** expandDataset's growth rule: 100 slots for an empty buffer, twice as many otherwise. */
  function NextCapacity(c: nat): nat
  {
    if c == 0 then 100 else 2 * c
  }

  /** The capacities a dataset can have: 0 or 100·2^k. */
  predicate ReachableCapacity(c: nat)
  {
    c == 0 || c == 100 || (c > 100 && c % 2 == 0 && ReachableCapacity(c / 2))
  }

  lemma {:induction false} ReachableAtLeast100(c: nat)
    requires ReachableCapacity(c) && c != 0
    ensures c >= 100
  {
    if c > 100 {
      ReachableAtLeast100(c / 2);
    }
  }

  /** Growth always enlarges the buffer and stays within the reachable capacities. */
  lemma NextCapacityReachable(c: nat)
    requires ReachableCapacity(c)
    ensures ReachableCapacity(NextCapacity(c)) && NextCapacity(c) > c
  {
    if c != 0 {
      ReachableAtLeast100(c);
      assert (2 * c) / 2 == c;
    }
  }

  class Dataset {
    var x: array<real>
    var y: array<real>
    var capacity: nat
    var size: nat
    /** The objects the dataset owns: itself and its two buffers. */
    ghost var Repr: set<object>

    /** The buffers hold `capacity` slots each, the first `size` are in use, and
        past the first block of 100 at least half of the slots are in use. */
    ghost predicate Valid()
      reads this
    {
      Repr == {this, x, y} &&
      x.Length == capacity && y.Length == capacity && x != y &&
      size <= capacity && ReachableCapacity(capacity) &&
      (capacity <= 100 || capacity <= 2 * size)
    }

    /** The x values of the points, in insertion order. */
    ghost function Xs(): seq<real>
      reads this, x
      requires Valid()
    {
      x[..size]
    }

    /** The y values of the points, in insertion order. */
    ghost function Ys(): seq<real>
      reads this, y
      requires Valid()
    {
      y[..size]
    }

    /** initDataset: no points and no storage (the NULL buffers are empty arrays here). */
    constructor ()
      ensures Valid() && fresh(Repr) && size == 0 && capacity == 0
      ensures Xs() == [] && Ys() == []
    {
      x := new real[0];
      y := new real[0];
      capacity := 0;
      size := 0;
      Repr := {this, x, y};
    }

    /** freeDataset: releases the storage and forgets every point. */
    method Free()
      modifies this
      ensures Valid() && fresh(Repr - {this}) && size == 0 && capacity == 0
      ensures Xs() == [] && Ys() == []
    {
      x := new real[0];
      y := new real[0];
      capacity := 0;
      size := 0;
      Repr := {this, x, y};
    }

    /** expandDataset, called only on a full buffer: reallocates both buffers at
        the next capacity, keeping every stored value. */
    method Expand()
      requires Valid() && size == capacity
      modifies this
      ensures Valid()
      ensures capacity == NextCapacity(old(capacity)) && size == old(size)
      ensures fresh(x) && fresh(y)
      ensures x[..old(capacity)] == old(x[..]) && y[..old(capacity)] == old(y[..])
    {
      NextCapacityReachable(capacity);
      var newCapacity := NextCapacity(capacity);
      var newX := new real[newCapacity];
      var newY := new real[newCapacity];
      forall i | 0 <= i < capacity {
        newX[i] := x[i];
      }
      forall i | 0 <= i < capacity {
        newY[i] := y[i];
      }
      x, y, capacity := newX, newY, newCapacity;
      Repr := {this, x, y};
    }

    /** addDataPoint: grows the buffers when full, stores the point at index
        `size` and increments `size`. */
    method AddDataPoint(px: real, py: real)
      requires Valid()
      modifies Repr
      ensures Valid() && fresh(Repr - old(Repr))
      ensures size == old(size) + 1
      ensures Xs() == old(Xs()) + [px] && Ys() == old(Ys()) + [py]
      ensures capacity == if old(size) >= old(capacity) then NextCapacity(old(capacity)) else old(capacity)
    {
      if size >= capacity {
        Expand();
      }
      x[size] := px;
      y[size] := py;
      size := size + 1;
    }
  }
}
