/** Jaccard one-one coherence over a probability array indexed by subset
    mask (bit k stands for word k + 1; entry 0 is unused), and the three
    fixtures of the Jaccard coherence test: presence tables of three words,
    the probability arrays they give and the expected coherences. */
module JaccardCoherence {
  import opened Subsets
  import opened DocumentFrequency

  /** The Jaccard confirmation of a pair: the joint probability over the
      probability that either word occurs; 0 when neither ever does. */
  function Jaccard(joint: real, p1: real, p2: real): real
  {
    var either := p1 + p2 - joint;
    if either == 0.0 then 0.0 else joint / either
  }

  /** The masks of a pair of distinct words stay below 2^n. */
  lemma PairMaskInRange(i: nat, j: nat, n: nat)
    requires i < n && j < n && i != j
    ensures Pow2(i) + Pow2(j) < Pow2(n)
  {
    if i < j {
      Pow2Monotone(i, j);
      Pow2Monotone(j, n);
    } else {
      Pow2Monotone(j, i);
      Pow2Monotone(i, n);
    }
  }

  /** The Jaccard confirmation of words i and j read off a mask-indexed array. */
  function PairScore(P: seq<real>, n: nat, i: nat, j: nat): real
    requires |P| == Pow2(n) && i < n && j < n && i != j
  {
    PairMaskInRange(i, j, n);
    Jaccard(P[Pow2(i) + Pow2(j)], P[Pow2(i)], P[Pow2(j)])
  }

  ghost predicate ValidPairs(pairs: seq<(nat, nat)>, n: nat)
  {
    forall k :: 0 <= k < |pairs| ==> pairs[k].0 < n && pairs[k].1 < n && pairs[k].0 != pairs[k].1
  }

  /** The one-one segmentation as the test states it: every pair of words,
      each listed once with the lower word first. */
  function OneOnePairs(n: nat): (pairs: seq<(nat, nat)>)
    ensures forall k :: 0 <= k < |pairs| ==> pairs[k].0 < pairs[k].1 < n
    ensures forall i: nat, j: nat :: i < j < n ==> (i, j) in pairs
    ensures forall a, b :: 0 <= a < b < |pairs| ==> pairs[a] != pairs[b]
  {
    if n == 0 then []
    else
      var earlier := OneOnePairs(n - 1);
      var last := seq(n - 1, i requires 0 <= i < n - 1 => (i, n - 1));
      var pairs := earlier + last;
      assert forall i: nat, j: nat :: i < j < n ==> (i, j) in pairs by {
        forall i: nat, j: nat | i < j < n
          ensures (i, j) in pairs
        {
          if j < n - 1 {
            assert (i, j) in earlier;
          } else {
            assert pairs[|earlier| + i] == (i, j);
          }
        }
      }
      pairs
  }

  /** The Jaccard confirmation of every listed pair, in order. */
  function PairScores(P: seq<real>, n: nat, pairs: seq<(nat, nat)>): (s: seq<real>)
    requires |P| == Pow2(n) && ValidPairs(pairs, n)
    ensures |s| == |pairs|
  {
    seq(|pairs|, k requires 0 <= k < |pairs| => PairScore(P, n, pairs[k].0, pairs[k].1))
  }

  function Sum(s: seq<real>): real
  {
    if |s| == 0 then 0.0 else s[0] + Sum(s[1..])
  }

  /** The arithmetic mean; 0 for no values. */
  function Mean(s: seq<real>): real
  {
    if |s| == 0 then 0.0 else Sum(s) / |s| as real
  }

  /** The Jaccard one-one coherence: the mean Jaccard confirmation over all pairs of words. */
  function OneOneCoherence(P: seq<real>, n: nat): real
    requires |P| == Pow2(n)
  {
    Mean(PairScores(P, n, OneOnePairs(n)))
  }

  /** The pairs with their two words exchanged. */
  function Swapped(pairs: seq<(nat, nat)>): (r: seq<(nat, nat)>)
    ensures |r| == |pairs|
    ensures forall k :: 0 <= k < |pairs| ==> r[k] == (pairs[k].1, pairs[k].0)
  {
    if |pairs| == 0 then [] else [(pairs[0].1, pairs[0].0)] + Swapped(pairs[1..])
  }

  lemma {:induction false} SumConcat(a: seq<real>, b: seq<real>)
    ensures Sum(a + b) == Sum(a) + Sum(b)
  {
    if |a| == 0 {
      assert a + b == b;
    } else {
      assert (a + b)[1..] == a[1..] + b;
      SumConcat(a[1..], b);
    }
  }

  lemma PairScoresConcat(P: seq<real>, n: nat, a: seq<(nat, nat)>, b: seq<(nat, nat)>)
    requires |P| == Pow2(n) && ValidPairs(a, n) && ValidPairs(b, n)
    ensures ValidPairs(a + b, n)
    ensures PairScores(P, n, a + b) == PairScores(P, n, a) + PairScores(P, n, b)
  {
    forall k | 0 <= k < |a + b|
      ensures (a + b)[k] == if k < |a| then a[k] else b[k - |a|]
    {
    }
  }

  /** Listing every pair a second time with its words exchanged gives the same
      scores again, because the Jaccard confirmation is symmetric. */
  lemma PairScoresSwapped(P: seq<real>, n: nat, pairs: seq<(nat, nat)>)
    requires |P| == Pow2(n) && ValidPairs(pairs, n)
    ensures ValidPairs(Swapped(pairs), n)
    ensures PairScores(P, n, Swapped(pairs)) == PairScores(P, n, pairs)
  {
    forall k | 0 <= k < |pairs|
      ensures PairScore(P, n, pairs[k].1, pairs[k].0) == PairScore(P, n, pairs[k].0, pairs[k].1)
    {
      assert Pow2(pairs[k].1) + Pow2(pairs[k].0) == Pow2(pairs[k].0) + Pow2(pairs[k].1);
    }
  }

  /** The mean does not depend on whether each pair is listed once or in both orders. */
  lemma MeanBothOrders(P: seq<real>, n: nat, pairs: seq<(nat, nat)>)
    requires |P| == Pow2(n) && ValidPairs(pairs, n)
    ensures ValidPairs(pairs + Swapped(pairs), n)
    ensures Mean(PairScores(P, n, pairs + Swapped(pairs))) == Mean(PairScores(P, n, pairs))
  {
    PairScoresSwapped(P, n, pairs);
    PairScoresConcat(P, n, pairs, Swapped(pairs));
    MeanOfDoubled(PairScores(P, n, pairs));
  }

  /** Listing every value twice leaves the mean unchanged. */
  lemma MeanOfDoubled(s: seq<real>)
    ensures Mean(s + s) == Mean(s)
  {
    SumConcat(s, s);
    if |s| != 0 {
      assert |s + s| as real == |s| as real + |s| as real;
      DoubleOverDouble(Sum(s), |s| as real);
    }
  }

  lemma DoubleOverDouble(x: real, y: real)
    requires y != 0.0
    ensures (x + x) / (y + y) == x / y
  {
    var q := x / y;
    assert q * y == x;
    assert q * (y + y) == x + x;
  }

  /** The Jaccard index of two document sets. */
  function DocumentJaccard(A: set<DocId>, B: set<DocId>): real
  {
    if |A + B| == 0 then 0.0 else |A * B| as real / |A + B| as real
  }

  /** The probability array of a family of document sets: the count of every
      subset divided by the number of documents. */
  ghost function CountProbabilities(D: seq<set<DocId>>, numberOfDocuments: nat): (P: seq<real>)
    requires numberOfDocuments > 0
    ensures |P| == Pow2(|D|)
  {
    var C := BruteForceCounts(D);
    seq(|C|, m requires 0 <= m < |C| => C[m] as real / numberOfDocuments as real)
  }

  /** Scaling numerator and denominator by the same factor keeps a ratio. */
  lemma RatioOfScaled(x: real, y: real, N: real)
    requires y != 0.0 && N != 0.0
    ensures (x / N) / (y / N) == x / y
  {
    var q := x / y;
    assert q * y == x;
    assert x / N == q * (y / N);
  }

  lemma DifferenceOfScaled(a: real, b: real, c: real, N: real)
    requires N != 0.0
    ensures a / N + b / N - c / N == (a + b - c) / N
  {
  }

  /** Dividing all three counts by the corpus size does not change the Jaccard ratio. */
  lemma JaccardOfFrequencies(joint: nat, c1: nat, c2: nat, numberOfDocuments: nat)
    requires numberOfDocuments > 0 && joint <= c1
    ensures Jaccard(joint as real / numberOfDocuments as real, c1 as real / numberOfDocuments as real,
                    c2 as real / numberOfDocuments as real)
            == if c1 + c2 - joint == 0 then 0.0 else joint as real / (c1 + c2 - joint) as real
  {
    var N := numberOfDocuments as real;
    DifferenceOfScaled(c1 as real, c2 as real, joint as real, N);
    assert (c1 + c2 - joint) as real == c1 as real + c2 as real - joint as real;
    if c1 + c2 - joint != 0 {
      RatioOfScaled(joint as real, (c1 + c2 - joint) as real, N);
    }
  }

  /** The mask of two words selects exactly their two sets. */
  lemma PairCommon<T>(D: seq<set<T>>, i: nat, j: nat)
    requires i < j < |D|
    ensures Common(D, Pow2(i) + Pow2(j)) == D[i] * D[j]
  {
    Pow2Monotone(i, j);
    CommonSplitsHighestBit(D, j, Pow2(i));
    CommonSingleton(D, i);
    assert Pow2(i) + Pow2(j) == Pow2(j) + Pow2(i);
  }

  /** The count of the mask of two words is the size of their common documents. */
  lemma PairCount<T>(D: seq<set<T>>, i: nat, j: nat)
    requires i < j < |D|
    ensures Pow2(i) + Pow2(j) < Pow2(|D|) && BruteForceCounts(D)[Pow2(i) + Pow2(j)] == |D[i] * D[j]|
  {
    var m := Pow2(i) + Pow2(j);
    PairMaskInRange(i, j, |D|);
    PairCommon(D, i, j);
    assert BruteForceCounts(D)[m] == |Common(D, m)|;
  }

  /** On the probabilities of a corpus, the Jaccard confirmation of a pair is
      the Jaccard index of the two words' document sets: joint over union. */
  lemma PairScoreIsDocumentJaccard(D: seq<set<DocId>>, numberOfDocuments: nat, i: nat, j: nat)
    requires numberOfDocuments > 0 && i < |D| && j < |D| && i != j
    ensures PairScore(CountProbabilities(D, numberOfDocuments), |D|, i, j) == DocumentJaccard(D[i], D[j])
  {
    var P := CountProbabilities(D, numberOfDocuments);
    var N := numberOfDocuments as real;
    var joint := |D[i] * D[j]|;
    if i < j {
      PairCount(D, i, j);
    } else {
      PairCount(D, j, i);
      assert Pow2(j) + Pow2(i) == Pow2(i) + Pow2(j);
      assert D[j] * D[i] == D[i] * D[j];
    }
    SingletonCounts(D, i);
    SingletonCounts(D, j);
    assert P[Pow2(i) + Pow2(j)] == joint as real / N;
    assert P[Pow2(i)] == |D[i]| as real / N;
    assert P[Pow2(j)] == |D[j]| as real / N;
    assert |D[i] + D[j]| == |D[i]| + |D[j]| - joint;
    assert |D[i] - D[j]| == |D[i]| - joint;
    JaccardOfFrequencies(joint, |D[i]|, |D[j]|, numberOfDocuments);
  }

  /** A presence table has one row per word and one column per document; a 1
      says the document contains the word. */
  function RowDocuments(row: seq<int>): set<DocId>
  {
    set d | 0 <= d < |row| && row[d] == 1
  }

  function TableDocuments(table: seq<seq<int>>): (D: seq<set<DocId>>)
    ensures |D| == |table|
  {
    seq(|table|, k requires 0 <= k < |table| => RowDocuments(table[k]))
  }

  // Fixture 1: word1 in every document, word2 and word3 in the last two.
  const Table1: seq<seq<int>> := [[1, 1, 1], [0, 1, 1], [0, 1, 1]]
  const Probabilities1: seq<real> := [0.0, 1.0, 2.0 / 3.0, 2.0 / 3.0, 2.0 / 3.0, 2.0 / 3.0, 2.0 / 3.0, 2.0 / 3.0]
  const Coherence1: real := 7.0 / 9.0

  // Fixture 2: every word misses exactly one of the three documents.
  const Table2: seq<seq<int>> := [[0, 1, 1], [1, 0, 1], [1, 1, 0]]
  const Probabilities2: seq<real> := [0.0, 2.0 / 3.0, 2.0 / 3.0, 1.0 / 3.0, 2.0 / 3.0, 1.0 / 3.0, 1.0 / 3.0, 0.0]
  const Coherence2: real := 1.0 / 3.0

  // Fixture 3: four documents, the last one holding every word.
  const Table3: seq<seq<int>> := [[0, 0, 0, 1], [0, 1, 0, 1], [0, 0, 1, 1]]
  const Probabilities3: seq<real> := [0.0, 0.25, 0.5, 0.25, 0.5, 0.25, 0.25, 0.25]
  const Coherence3: real := 4.0 / 9.0

  /** The probability array of three document sets, written out. */
  lemma ThreeSetProbabilities(D: seq<set<DocId>>, numberOfDocuments: nat)
    requires |D| == 3 && numberOfDocuments > 0
    ensures var N := numberOfDocuments as real;
            CountProbabilities(D, numberOfDocuments)
            == [0.0, |D[0]| as real / N, |D[1]| as real / N, |D[1] * D[0]| as real / N,
                |D[2]| as real / N, |D[2] * D[0]| as real / N, |D[2] * D[1]| as real / N,
                |D[2] * (D[1] * D[0])| as real / N]
  {
    ThreeSetCounts(D);
  }

  lemma Table1Documents()
    ensures TableDocuments(Table1) == [{0, 1, 2}, {1, 2}, {1, 2}]
  {
    var D := TableDocuments(Table1);
    assert D[0] == {0, 1, 2};
    assert D[1] == {1, 2};
    assert D[2] == {1, 2};
  }

  lemma Documents1Sizes()
    ensures var D: seq<set<DocId>> := [{0, 1, 2}, {1, 2}, {1, 2}];
            |D[0]| == 3 && |D[1]| == 2 && |D[2]| == 2
            && |D[1] * D[0]| == 2 && |D[2] * D[0]| == 2 && |D[2] * D[1]| == 2
            && |D[2] * (D[1] * D[0])| == 2
  {
    var D: seq<set<DocId>> := [{0, 1, 2}, {1, 2}, {1, 2}];
    assert D[1] * D[0] == {1, 2} && D[2] * D[0] == {1, 2} && D[2] * D[1] == {1, 2};
  }

  lemma Documents1Probabilities()
    ensures CountProbabilities([{0, 1, 2}, {1, 2}, {1, 2}], 3) == Probabilities1
  {
    var D: seq<set<DocId>> := [{0, 1, 2}, {1, 2}, {1, 2}];
    ThreeSetProbabilities(D, 3);
    Documents1Sizes();
    assert 3 as real / 3 as real == 1.0;
  }

  lemma Table1Probabilities()
    ensures CountProbabilities(TableDocuments(Table1), 3) == Probabilities1
  {
    Table1Documents();
    Documents1Probabilities();
  }

  lemma Table2Documents()
    ensures TableDocuments(Table2) == [{1, 2}, {0, 2}, {0, 1}]
  {
    var D := TableDocuments(Table2);
    assert D[0] == {1, 2};
    assert D[1] == {0, 2};
    assert D[2] == {0, 1};
  }

  lemma Documents2Sizes()
    ensures var D: seq<set<DocId>> := [{1, 2}, {0, 2}, {0, 1}];
            |D[0]| == 2 && |D[1]| == 2 && |D[2]| == 2
            && |D[1] * D[0]| == 1 && |D[2] * D[0]| == 1 && |D[2] * D[1]| == 1
            && |D[2] * (D[1] * D[0])| == 0
  {
    var D: seq<set<DocId>> := [{1, 2}, {0, 2}, {0, 1}];
    assert D[1] * D[0] == {2} && D[2] * D[0] == {1} && D[2] * D[1] == {0};
    assert D[2] * (D[1] * D[0]) == {};
  }

  lemma Documents2Probabilities()
    ensures CountProbabilities([{1, 2}, {0, 2}, {0, 1}], 3) == Probabilities2
  {
    var D: seq<set<DocId>> := [{1, 2}, {0, 2}, {0, 1}];
    ThreeSetProbabilities(D, 3);
    Documents2Sizes();
  }

  lemma Table2Probabilities()
    ensures CountProbabilities(TableDocuments(Table2), 3) == Probabilities2
  {
    Table2Documents();
    Documents2Probabilities();
  }

  lemma Table3Documents()
    ensures TableDocuments(Table3) == [{3}, {1, 3}, {2, 3}]
  {
    var D := TableDocuments(Table3);
    assert D[0] == {3};
    assert D[1] == {1, 3};
    assert D[2] == {2, 3};
  }

  lemma Documents3Sizes()
    ensures var D: seq<set<DocId>> := [{3}, {1, 3}, {2, 3}];
            |D[0]| == 1 && |D[1]| == 2 && |D[2]| == 2
            && |D[1] * D[0]| == 1 && |D[2] * D[0]| == 1 && |D[2] * D[1]| == 1
            && |D[2] * (D[1] * D[0])| == 1
  {
    var D: seq<set<DocId>> := [{3}, {1, 3}, {2, 3}];
    assert D[1] * D[0] == {3} && D[2] * D[0] == {3} && D[2] * D[1] == {3};
    assert D[2] * (D[1] * D[0]) == {3};
  }

  lemma Documents3Probabilities()
    ensures CountProbabilities([{3}, {1, 3}, {2, 3}], 4) == Probabilities3
  {
    var D: seq<set<DocId>> := [{3}, {1, 3}, {2, 3}];
    ThreeSetProbabilities(D, 4);
    Documents3Sizes();
  }

  lemma Table3Probabilities()
    ensures CountProbabilities(TableDocuments(Table3), 4) == Probabilities3
  {
    Table3Documents();
    Documents3Probabilities();
  }

  lemma OneOnePairsOfThree()
    ensures OneOnePairs(3) == [(0, 1), (0, 2), (1, 2)]
  {
    assert OneOnePairs(1) == [];
    assert OneOnePairs(2) == [(0, 1)];
  }

  lemma PairScoresOfThree(P: seq<real>)
    requires |P| == 8
    ensures Pow2(3) == 8 && ValidPairs([(0, 1), (0, 2), (1, 2)], 3)
    ensures PairScores(P, 3, [(0, 1), (0, 2), (1, 2)])
            == [Jaccard(P[3], P[1], P[2]), Jaccard(P[5], P[1], P[4]), Jaccard(P[6], P[2], P[4])]
  {
    assert Pow2(0) == 1 && Pow2(1) == 2 && Pow2(2) == 4 && Pow2(3) == 8;
    var pairs: seq<(nat, nat)> := [(0, 1), (0, 2), (1, 2)];
    assert ValidPairs(pairs, 3);
    var s := PairScores(P, 3, pairs);
    assert s[0] == Jaccard(P[3], P[1], P[2]) by {
      assert s[0] == PairScore(P, 3, 0, 1);
    }
    assert s[1] == Jaccard(P[5], P[1], P[4]) by {
      assert s[1] == PairScore(P, 3, 0, 2);
    }
    assert s[2] == Jaccard(P[6], P[2], P[4]) by {
      assert s[2] == PairScore(P, 3, 1, 2);
    }
  }

  lemma MeanOfThree(a: real, b: real, c: real)
    ensures Mean([a, b, c]) == (a + b + c) / 3.0
  {
    var s := [a, b, c];
    assert s[1..] == [b, c] && s[1..][1..] == [c] && |s[1..][1..][1..]| == 0;
    assert Sum(s[1..][1..]) == c;
    assert Sum(s[1..]) == b + c;
    assert Sum(s) == a + b + c;
  }

  /** The coherence of three words, as the test writes it out: a third of the
      sum of the Jaccard confirmations of (w1, w2), (w1, w3) and (w2, w3). */
  lemma ThreeWordCoherence(P: seq<real>)
    requires |P| == 8
    ensures Pow2(3) == 8
    ensures OneOneCoherence(P, 3) == (Jaccard(P[3], P[1], P[2]) + Jaccard(P[5], P[1], P[4])
                                      + Jaccard(P[6], P[2], P[4])) / 3.0
  {
    OneOnePairsOfThree();
    PairScoresOfThree(P);
    MeanOfThree(Jaccard(P[3], P[1], P[2]), Jaccard(P[5], P[1], P[4]), Jaccard(P[6], P[2], P[4]));
  }

  /** The pair values of fixture 1 are 2/3, 2/3 and 1. */
  lemma Fixture1Coherence()
    ensures Jaccard(Probabilities1[3], Probabilities1[1], Probabilities1[2]) == 2.0 / 3.0
    ensures Jaccard(Probabilities1[5], Probabilities1[1], Probabilities1[4]) == 2.0 / 3.0
    ensures Jaccard(Probabilities1[6], Probabilities1[2], Probabilities1[4]) == 1.0
    ensures OneOneCoherence(Probabilities1, 3) == Coherence1
  {
    ThreeWordCoherence(Probabilities1);
  }

  /** The pair values of fixture 2 are all 1/3. */
  lemma Fixture2Coherence()
    ensures Jaccard(Probabilities2[3], Probabilities2[1], Probabilities2[2]) == 1.0 / 3.0
    ensures Jaccard(Probabilities2[5], Probabilities2[1], Probabilities2[4]) == 1.0 / 3.0
    ensures Jaccard(Probabilities2[6], Probabilities2[2], Probabilities2[4]) == 1.0 / 3.0
    ensures OneOneCoherence(Probabilities2, 3) == Coherence2
  {
    ThreeWordCoherence(Probabilities2);
  }

  /** The pair values of fixture 3 are 1/2, 1/2 and 1/3. */
  lemma Fixture3Coherence()
    ensures Jaccard(Probabilities3[3], Probabilities3[1], Probabilities3[2]) == 1.0 / 2.0
    ensures Jaccard(Probabilities3[5], Probabilities3[1], Probabilities3[4]) == 1.0 / 2.0
    ensures Jaccard(Probabilities3[6], Probabilities3[2], Probabilities3[4]) == 1.0 / 3.0
    ensures OneOneCoherence(Probabilities3, 3) == Coherence3
  {
    ThreeWordCoherence(Probabilities3);
  }

  /** Pushes a presence table through the frequency determiner, as one word
      set of the given words, and divides the counts by the number of documents. */
  method ProbabilitiesThroughDeterminer(words: seq<Word>, table: seq<seq<int>>, numberOfDocuments: nat)
    returns (probabilities: seq<real>)
    requires |words| == |table| <= MaxWordsetSize && numberOfDocuments > 0
    requires forall a, b :: 0 <= a < b < |words| ==> words[a] != words[b]
    ensures probabilities == CountProbabilities(TableDocuments(table), numberOfDocuments)
  {
    var documents := map k | 0 <= k < |words| :: words[k] := RowDocuments(table[k]);
    var adapter := new CorpusAdapter(w => if w in documents then documents[w] else {}, numberOfDocuments);
    var determiner := new BitSetBasedBooleanDocumentFrequencyDeterminer(adapter);
    var counted := determiner.DetermineCounts([words], [SegmentationDefinition([], [], {})]);
    var counts := counted[0].counts;
    var total := determiner.GetNumberOfDocuments();
    probabilities := seq(|counts|, m requires 0 <= m < |counts| => counts[m] as real / total as real);
    assert WordDocuments(adapter, words) == TableDocuments(table) by {
      forall k | 0 <= k < |words|
        ensures documents[words[k]] == RowDocuments(table[k])
      {
        assert words[k] in documents;
      }
    }
  }

  /** The three fixtures end to end: each table through the determiner,
      then the one-one Jaccard mean, gives the coherence the test expects. */
  method FixtureCoherences() returns (coherences: seq<real>)
    ensures coherences == [Coherence1, Coherence2, Coherence3]
  {
    var words := ["word1", "word2", "word3"];
    var p1 := ProbabilitiesThroughDeterminer(words, Table1, 3);
    var p2 := ProbabilitiesThroughDeterminer(words, Table2, 3);
    var p3 := ProbabilitiesThroughDeterminer(words, Table3, 4);
    Table1Probabilities();
    Table2Probabilities();
    Table3Probabilities();
    Fixture1Coherence();
    Fixture2Coherence();
    Fixture3Coherence();
    coherences := [OneOneCoherence(p1, 3), OneOneCoherence(p2, 3), OneOneCoherence(p3, 3)];
  }
}
