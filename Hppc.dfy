/** The two hppc collections the frequency determiner works with, reduced to
    what it observes of them: a `BitSet` is the set of its set positions, and
    an `IntOpenHashSet` is its slot arrays `keys` and `allocated`. */
module Hppc {
  import opened Subsets

  /** A growable bit set, updated in place. */
  class BitSet {
    var bits: set<nat>

    /** `new BitSet(numBits)`: the width is only an allocation hint. */
    constructor (numBits: nat)
      ensures bits == {}
    {
      bits := {};
    }

    method Set(index: nat)
      modifies this
      ensures bits == old(bits) + {index}
    {
      bits := bits + {index};
    }

    /** A new bit set with the same bits; later changes to either leave the other alone. */
    method Clone() returns (c: BitSet)
      ensures fresh(c) && c.bits == bits
    {
      c := new BitSet(0);
      c.bits := bits;
    }

    /** Keeps only the bits also set in `other`. */
    method Intersect(other: BitSet)
      modifies this
      ensures bits == old(bits) * old(other.bits)
    {
      bits := bits * other.bits;
    }

    /** The number of set bits. */
    method Cardinality() returns (n: nat)
      ensures n == |bits|
    {
      n := |bits|;
    }
  }

  /** The contents of a sequence of bit sets. */
  ghost function Values(bitSets: seq<BitSet>): (B: seq<set<nat>>)
    reads set b | b in bitSets
    ensures |B| == |bitSets|
  {
    seq(|bitSets|, k requires 0 <= k < |bitSets| reads set b | b in bitSets => bitSets[k].bits)
  }

  /** The keys held in the allocated slots, in slot order. */
  function AllocatedKeys(keys: seq<int>, isAllocated: seq<bool>): seq<int>
    requires |keys| == |isAllocated|
  {
    if |keys| == 0 then []
    else AllocatedKeys(keys[..|keys| - 1], isAllocated[..|keys| - 1])
         + (if isAllocated[|keys| - 1] then [keys[|keys| - 1]] else [])
  }

  lemma AllocatedKeysStep(keys: seq<int>, isAllocated: seq<bool>, i: nat)
    requires |keys| == |isAllocated| && i < |keys|
    ensures AllocatedKeys(keys[..i + 1], isAllocated[..i + 1])
            == AllocatedKeys(keys[..i], isAllocated[..i]) + (if isAllocated[i] then [keys[i]] else [])
  {
    assert keys[..i + 1][..i] == keys[..i];
    assert isAllocated[..i + 1][..i] == isAllocated[..i];
  }

  /** An open-addressing int hash set: slot i holds keys[i] when isAllocated[i] (hppc: `allocated`). */
  datatype IntOpenHashSet = IntOpenHashSet(keys: seq<int>, isAllocated: seq<bool>)
  {
    ghost predicate Valid()
    {
      |keys| == |isAllocated| && NoDup(AllocatedKeys(keys, isAllocated))
    }

    /** The order in which a scan over the slots meets the elements. */
    function Enumeration(): seq<int>
      requires |keys| == |isAllocated|
    {
      AllocatedKeys(keys, isAllocated)
    }
  }

  lemma NonEmptyHasElement(s: set<int>)
    requires s != {}
    ensures exists x :: x in s
  {
    if forall y :: y !in s {
      assert false;
    }
  }

  /** `addAll`: afterwards the set holds its old elements and those of s.
      Where a new key lands is hppc's hashing, which is not modelled: here
      each new key goes into a fresh slot, in no particular order. */
  method AddAll(h: IntOpenHashSet, s: set<int>) returns (r: IntOpenHashSet)
    requires h.Valid()
    ensures r.Valid()
    ensures Elements(r.Enumeration()) == Elements(h.Enumeration()) + s
  {
    r := h;
    var rest := s - set x | x in h.Enumeration();
    while rest != {}
      invariant r.Valid()
      invariant rest !! Elements(r.Enumeration())
      invariant Elements(r.Enumeration()) + rest == Elements(h.Enumeration()) + s
      decreases rest
    {
      NonEmptyHasElement(rest);
      var x :| x in rest;
      var keys, isAllocated := r.keys + [x], r.isAllocated + [true];
      assert keys[..|keys| - 1] == r.keys;
      assert isAllocated[..|keys| - 1] == r.isAllocated;
      assert AllocatedKeys(keys, isAllocated) == r.Enumeration() + [x];
      r := IntOpenHashSet(keys, isAllocated);
      rest := rest - {x};
    }
  }
}
