/** Subset masks over the word positions of one word set (bit k of a mask
    selects word k), and the brute-force reference for the number of
    documents that contain every selected word. */
module Subsets {

  /** 2^k, the value of `1 << k` for the small shifts a word set needs. */
  function Pow2(k: nat): (r: nat)
    ensures r >= 1
  {
    if k == 0 then 1 else 2 * Pow2(k - 1)
  }

  /** Whether bit k of mask m is set. */
  predicate Bit(m: nat, k: nat)
  {
    if k == 0 then m % 2 == 1 else Bit(m / 2, k - 1)
  }

  lemma {:induction false} Pow2Monotone(i: nat, n: nat)
    requires i < n
    ensures 2 * Pow2(i) <= Pow2(n)
  {
    if i + 1 < n {
      Pow2Monotone(i, n - 1);
    }
  }

  /** A mask below 2^i has no bit at position i or above. */
  lemma {:induction false} HighBitsClear(j: nat, i: nat, k: nat)
    requires j < Pow2(i) && i <= k
    ensures !Bit(j, k)
  {
    if k == 0 {
      assert j == 0;
    } else if i == 0 {
      HighBitsClear(j / 2, 0, k - 1);
    } else {
      HighBitsClear(j / 2, i - 1, k - 1);
    }
  }

  /** Adding 2^i to a mask below 2^i sets exactly bit i and keeps the lower bits. */
  lemma {:induction false} BitOfSum(i: nat, j: nat, k: nat)
    requires j < Pow2(i)
    ensures Bit(Pow2(i) + j, k) <==> k == i || (k < i && Bit(j, k))
  {
    if i == 0 {
      if k > 0 {
        HighBitsClear(0, 0, k - 1);
      }
    } else if k > 0 {
      assert (Pow2(i) + j) / 2 == Pow2(i - 1) + j / 2;
      BitOfSum(i - 1, j / 2, k - 1);
    }
  }

  /** Every non-zero mask below 2^n selects some word below n. */
  lemma {:induction false} SomeBit(m: nat, n: nat) returns (k: nat)
    requires 1 <= m < Pow2(n)
    ensures k < n && Bit(m, k)
  {
    if m % 2 == 1 {
      k := 0;
    } else {
      var k' := SomeBit(m / 2, n - 1);
      k := k' + 1;
    }
  }

  /** The union of a family of sets. */
  function Union<T>(D: seq<set<T>>): (u: set<T>)
    ensures forall k :: 0 <= k < |D| ==> D[k] <= u
    ensures forall x :: x in u ==> exists k :: 0 <= k < |D| && x in D[k]
  {
    if |D| == 0 then {} else Union(D[..|D| - 1]) + D[|D| - 1]
  }

  /** The elements common to every set D[k] whose bit k is set in m
      (for m = 0 this is the whole union; only m >= 1 is ever asked for). */
  ghost function Common<T>(D: seq<set<T>>, m: nat): set<T>
  {
    set x | x in Union(D) && forall k :: 0 <= k < |D| && Bit(m, k) ==> x in D[k]
  }

  /** The brute-force count array: entry m is the size of the intersection of
      the sets selected by m, entry 0 is 0. */
  ghost function BruteForceCounts<T>(D: seq<set<T>>): seq<int>
  {
    seq(Pow2(|D|), m requires 0 <= m < Pow2(|D|) => if m == 0 then 0 else |Common(D, m)|)
  }

  /** A single-bit mask selects exactly one set. */
  lemma CommonSingleton<T>(D: seq<set<T>>, i: nat)
    requires i < |D|
    ensures Common(D, Pow2(i)) == D[i]
  {
    forall k | 0 <= k < |D|
      ensures Bit(Pow2(i), k) <==> k == i
    {
      BitOfSum(i, 0, k);
      if k < i {
        HighBitsClear(0, 0, k);
      }
    }
  }

  /** The recurrence of the incremental enumeration: the intersection for
      2^i + j is set i intersected with the intersection for j (the highest
      set bit is split off). */
  lemma CommonSplitsHighestBit<T>(D: seq<set<T>>, i: nat, j: nat)
    requires i < |D| && 1 <= j < Pow2(i)
    ensures Common(D, Pow2(i) + j) == D[i] * Common(D, j)
  {
    forall k | 0 <= k < |D|
      ensures Bit(Pow2(i) + j, k) <==> k == i || Bit(j, k)
    {
      BitOfSum(i, j, k);
      if k >= i {
        HighBitsClear(j, i, k);
      }
    }
    forall x | x in D[i] * Common(D, j)
      ensures x in Common(D, Pow2(i) + j)
    {
    }
    forall x | x in Common(D, Pow2(i) + j)
      ensures x in D[i] * Common(D, j)
    {
      BitOfSum(i, j, i);
    }
  }

  /** The single-word entries of the count array are the sizes of the sets. */
  lemma SingletonCounts<T>(D: seq<set<T>>, i: nat)
    requires i < |D|
    ensures Pow2(i) < |BruteForceCounts(D)| && BruteForceCounts(D)[Pow2(i)] == |D[i]|
  {
    Pow2Monotone(i, |D|);
    CommonSingleton(D, i);
  }

  /** A set that is empty makes every count it takes part in zero. */
  lemma EmptySetZeroCounts<T>(D: seq<set<T>>, k: nat, m: nat)
    requires k < |D| && D[k] == {} && m < Pow2(|D|) && Bit(m, k)
    ensures BruteForceCounts(D)[m] == 0
  {
    assert Common(D, m) <= D[k];
  }

  /** The count array of three sets, written out. */
  lemma ThreeSetCounts<T>(D: seq<set<T>>)
    requires |D| == 3
    ensures BruteForceCounts(D) == [0, |D[0]|, |D[1]|, |D[1] * D[0]|,
                                    |D[2]|, |D[2] * D[0]|, |D[2] * D[1]|, |D[2] * (D[1] * D[0])|]
  {
    assert Pow2(1) == 2 && Pow2(2) == 4 && Pow2(3) == 8;
    CommonSingleton(D, 0);
    CommonSingleton(D, 1);
    CommonSingleton(D, 2);
    assert Common(D, 3) == D[1] * D[0] by { CommonSplitsHighestBit(D, 1, 1); }
    assert Common(D, 5) == D[2] * D[0] by { CommonSplitsHighestBit(D, 2, 1); }
    assert Common(D, 6) == D[2] * D[1] by { CommonSplitsHighestBit(D, 2, 2); }
    assert Common(D, 7) == D[2] * Common(D, 3) by { CommonSplitsHighestBit(D, 2, 3); }
    var C := BruteForceCounts(D);
    var E := [0, |D[0]|, |D[1]|, |D[1] * D[0]|, |D[2]|, |D[2] * D[0]|, |D[2] * D[1]|, |D[2] * (D[1] * D[0])|];
    forall m | 0 <= m < 8
      ensures C[m] == E[m]
    {
      if m == 0 {
      } else if m == 1 {
      } else if m == 2 {
      } else if m == 3 {
      } else if m == 4 {
      } else if m == 5 {
      } else if m == 6 {
      } else {
      }
    }
  }

  ghost predicate NoDup<T>(E: seq<T>)
  {
    forall a, b :: 0 <= a < b < |E| ==> E[a] != E[b]
  }

  ghost function Elements<T>(E: seq<T>): set<T>
  {
    set x | x in E
  }

  /** The positions of an enumeration E whose element lies in S: the bits an
      encoding of S over E sets. */
  ghost function Positions<T>(E: seq<T>, S: set<T>): set<nat>
  {
    set p: nat | p < |E| && E[p] in S
  }

  /** Encodes every set of a family over the enumeration E. */
  ghost function PositionFamily<T>(E: seq<T>, D: seq<set<T>>): (F: seq<set<nat>>)
    ensures |F| == |D|
  {
    seq(|D|, j requires 0 <= j < |D| => Positions(E, D[j]))
  }

  lemma PositionsSnoc<T>(E: seq<T>, x: T, S: set<T>)
    ensures Positions(E + [x], S) == Positions(E, S) + (if x in S then {|E|} else {})
  {
  }

  /** An enumeration without duplicates encodes S with exactly as many bits as
      S has elements among the enumerated ones. */
  lemma {:induction false} PositionsCount<T>(E: seq<T>, S: set<T>)
    requires NoDup(E)
    ensures |Positions(E, S)| == |S * Elements(E)|
  {
    if |E| == 0 {
      assert Positions(E, S) == {};
      assert S * Elements(E) == {};
    } else {
      var E', x := E[..|E| - 1], E[|E| - 1];
      assert E == E' + [x];
      assert NoDup(E') && x !in E';
      PositionsCount(E', S);
      PositionsSnocCount(E', x, S);
      ElementsSnocCount(E', x, S);
    }
  }

  lemma PositionsSnocCount<T>(E: seq<T>, x: T, S: set<T>)
    ensures |Positions(E + [x], S)| == |Positions(E, S)| + (if x in S then 1 else 0)
  {
    PositionsSnoc(E, x, S);
    assert |E| !in Positions(E, S);
  }

  lemma ElementsSnocCount<T>(E: seq<T>, x: T, S: set<T>)
    requires x !in E
    ensures |S * Elements(E + [x])| == |S * Elements(E)| + (if x in S then 1 else 0)
  {
    assert Elements(E + [x]) == Elements(E) + {x};
    if x in S {
      assert S * Elements(E + [x]) == S * Elements(E) + {x};
    } else {
      assert S * Elements(E + [x]) == S * Elements(E);
    }
  }

  /** Encoding commutes with intersection: the positions common to the encoded
      sets are the positions of the elements common to the sets. */
  lemma CommonOfPositions<T>(E: seq<T>, D: seq<set<T>>, m: nat)
    requires 1 <= m < Pow2(|D|)
    ensures Common(PositionFamily(E, D), m) == Positions(E, Common(D, m))
  {
    var k0 := SomeBit(m, |D|);
    var F := PositionFamily(E, D);
    forall p | p in Common(F, m)
      ensures p in Positions(E, Common(D, m))
    {
      assert p in F[k0];
      assert E[p] in D[k0];
    }
    forall p | p in Positions(E, Common(D, m))
      ensures p in Common(F, m)
    {
      assert p in F[k0];
    }
  }

  /** Counting over the positions of any duplicate-free enumeration of the
      union gives the brute-force counts of the raw sets: the result does not
      depend on the order in which the union is enumerated. */
  lemma EnumerationPreservesCounts<T>(E: seq<T>, D: seq<set<T>>, m: nat)
    requires NoDup(E) && Elements(E) == Union(D)
    requires 1 <= m < Pow2(|D|)
    ensures |Common(PositionFamily(E, D), m)| == |Common(D, m)|
  {
    CommonOfPositions(E, D, m);
    PositionsCount(E, Common(D, m));
    assert Common(D, m) * Elements(E) == Common(D, m);
  }

  /** Each encoded set has as many bits as the set has elements. */
  lemma EnumerationPreservesSizes<T>(E: seq<T>, D: seq<set<T>>, j: nat)
    requires NoDup(E) && Elements(E) == Union(D)
    requires j < |D|
    ensures |PositionFamily(E, D)[j]| == |D[j]|
  {
    PositionsCount(E, D[j]);
    assert D[j] * Elements(E) == D[j];
  }
}
