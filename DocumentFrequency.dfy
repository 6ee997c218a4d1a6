/** The bit-set based boolean-document frequency determiner: for every word
    set of a batch it counts, for every subset of the words, the documents
    that contain all of them. */
module DocumentFrequency {
  import opened Subsets
  import opened Hppc

  type Word = string
  type DocId = int

  /** `1 << n` on a Java int gives a valid array size only up to n = 30. */
  const MaxWordsetSize: nat := 30

  /** A segmentation of one word set: which subset masks are compared, and
      which counts would be needed (the determiner ignores the latter). */
  datatype SegmentationDefinition = SegmentationDefinition(
    segments: seq<int>, conditions: seq<int>, neededCounts: set<nat>)

  /** The counts of one word set, indexed by subset mask, beside its segmentation. */
  datatype CountedSubsets = CountedSubsets(
    segments: seq<int>, conditions: seq<int>, counts: seq<int>)

  /** The corpus: the documents each word occurs in, and the corpus size.
      `requests` records the key set of every map the adapter was asked to fill. */
  class CorpusAdapter {
    const documentsOf: Word -> set<DocId>
    const numberOfDocuments: nat
    ghost var requests: seq<set<Word>>

    constructor (documentsOf: Word -> set<DocId>, numberOfDocuments: nat)
      ensures this.documentsOf == documentsOf && this.numberOfDocuments == numberOfDocuments
      ensures requests == []
    {
      this.documentsOf := documentsOf;
      this.numberOfDocuments := numberOfDocuments;
      requests := [];
    }

    /** `getDocumentsWithWordsAsSet`: adds to the set of every key the
        documents containing it, and adds no keys. */
    method GetDocumentsWithWordsAsSet(wordDocMapping: map<Word, set<DocId>>)
      returns (filled: map<Word, set<DocId>>)
      modifies this
      ensures requests == old(requests) + [wordDocMapping.Keys]
      ensures filled.Keys == wordDocMapping.Keys
      ensures forall w :: w in filled ==> filled[w] == wordDocMapping[w] + documentsOf(w)
    {
      requests := requests + [wordDocMapping.Keys];
      filled := map w | w in wordDocMapping :: wordDocMapping[w] + documentsOf(w);
    }
  }

  /** One call of DetermineCounts, as its caller made it. */
  datatype CountRequest = CountRequest(wordsets: seq<seq<Word>>, definitions: seq<SegmentationDefinition>)

  /** The distinct words of a batch. */
  function AllWords(wordsets: seq<seq<Word>>): set<Word>
  {
    set ws, w | ws in wordsets && w in ws :: w
  }

  /** The document sets a mapping gives for the words of one word set, in word order. */
  function MappedDocuments(wordDocMapping: map<Word, set<DocId>>, wordset: seq<Word>): (D: seq<set<DocId>>)
    requires forall w :: w in wordset ==> w in wordDocMapping
    ensures |D| == |wordset|
  {
    seq(|wordset|, k requires 0 <= k < |wordset| => wordDocMapping[wordset[k]])
  }

  /** The raw document sets of the words of one word set, in word order. */
  function WordDocuments(adapter: CorpusAdapter, wordset: seq<Word>): (D: seq<set<DocId>>)
    ensures |D| == |wordset|
  {
    seq(|wordset|, k requires 0 <= k < |wordset| => adapter.documentsOf(wordset[k]))
  }

  /** What the determiner must produce for one word set: the definition's
      segments and conditions and the brute-force count of every subset. */
  ghost function ExpectedCounts(adapter: CorpusAdapter, wordset: seq<Word>, definition: SegmentationDefinition): CountedSubsets
  {
    CountedSubsets(definition.segments, definition.conditions, BruteForceCounts(WordDocuments(adapter, wordset)))
  }

  /** Two families of the same size whose intersections have the same sizes
      have the same count array. */
  lemma SameCountsSameArray<S, T>(B: seq<set<S>>, D: seq<set<T>>)
    requires |B| == |D|
    requires forall m :: 1 <= m < Pow2(|D|) ==> |Common(B, m)| == |Common(D, m)|
    ensures BruteForceCounts(B) == BruteForceCounts(D)
  {
  }

  class BitSetBasedBooleanDocumentFrequencyDeterminer {
    const corpusAdapter: CorpusAdapter
    /** The DetermineCounts calls made on this determiner. */
    ghost var countRequests: seq<CountRequest>

    constructor (corpusAdapter: CorpusAdapter)
      ensures this.corpusAdapter == corpusAdapter
      ensures countRequests == []
    {
      this.corpusAdapter := corpusAdapter;
      countRequests := [];
    }

    function GetNumberOfDocuments(): nat
    {
      corpusAdapter.numberOfDocuments
    }

    /** Counts, for word set i and definition i, the documents of every subset
        of the words. The adapter is asked once, for all distinct words. */
    method DetermineCounts(wordsets: seq<seq<Word>>, definitions: seq<SegmentationDefinition>)
      returns (countedSubsets: array<CountedSubsets>)
      requires |definitions| <= |wordsets|
      requires forall i :: 0 <= i < |definitions| ==> |wordsets[i]| <= MaxWordsetSize
      modifies this, corpusAdapter
      ensures fresh(countedSubsets)
      ensures corpusAdapter.requests == old(corpusAdapter.requests) + [AllWords(wordsets)]
      ensures countRequests == old(countRequests) + [CountRequest(wordsets, definitions)]
      ensures countedSubsets.Length == |definitions|
      ensures forall i :: 0 <= i < |definitions| ==>
                countedSubsets[i] == ExpectedCounts(corpusAdapter, wordsets[i], definitions[i])
    {
      countRequests := countRequests + [CountRequest(wordsets, definitions)];
      var wordDocMapping := CollectWords(wordsets);
      wordDocMapping := corpusAdapter.GetDocumentsWithWordsAsSet(wordDocMapping);
      assert forall w :: w in wordDocMapping ==> wordDocMapping[w] == corpusAdapter.documentsOf(w);

      ghost var expected := seq(|definitions|, k requires 0 <= k < |definitions| =>
                                  ExpectedCounts(corpusAdapter, wordsets[k], definitions[k]));
      countedSubsets := new CountedSubsets[|definitions|];
      var i := 0;
      while i < |definitions|
        invariant 0 <= i <= |definitions|
        invariant corpusAdapter.requests == old(corpusAdapter.requests) + [AllWords(wordsets)]
        invariant countRequests == old(countRequests) + [CountRequest(wordsets, definitions)]
        invariant forall k :: 0 <= k < i ==> countedSubsets[k] == expected[k]
      {
        assert wordsets[i] in wordsets;
        var counted := CountWordset(wordDocMapping, wordsets[i], definitions[i]);
        assert MappedDocuments(wordDocMapping, wordsets[i]) == WordDocuments(corpusAdapter, wordsets[i]);
        countedSubsets[i] := counted;
        i := i + 1;
      }
    }

    /** The entry of one word set: its definition's segments and conditions
        beside the counts computed from the bit sets of its words. */
    static method CountWordset(wordDocMapping: map<Word, set<DocId>>, wordset: seq<Word>,
                               definition: SegmentationDefinition)
      returns (counted: CountedSubsets)
      requires |wordset| <= MaxWordsetSize
      requires forall w :: w in wordset ==> w in wordDocMapping
      ensures counted == CountedSubsets(definition.segments, definition.conditions,
                                        BruteForceCounts(MappedDocuments(wordDocMapping, wordset)))
    {
      var bitSets := CreateBitSetsForWordset(wordDocMapping, wordset);
      var counts := CreateCounts(bitSets, definition.neededCounts);
      SameCountsSameArray(Values(bitSets), MappedDocuments(wordDocMapping, wordset));
      counted := CountedSubsets(definition.segments, definition.conditions, counts);
    }

    /** Maps every distinct word of the batch to an empty document set. */
    static method CollectWords(wordsets: seq<seq<Word>>) returns (wordDocMapping: map<Word, set<DocId>>)
      ensures wordDocMapping.Keys == AllWords(wordsets)
      ensures forall w :: w in wordDocMapping ==> wordDocMapping[w] == {}
    {
      wordDocMapping := map[];
      var i := 0;
      while i < |wordsets|
        invariant 0 <= i <= |wordsets|
        invariant wordDocMapping.Keys == AllWords(wordsets[..i])
        invariant forall w :: w in wordDocMapping ==> wordDocMapping[w] == {}
      {
        var j := 0;
        while j < |wordsets[i]|
          invariant 0 <= j <= |wordsets[i]|
          invariant wordDocMapping.Keys == AllWords(wordsets[..i]) + set w | w in wordsets[i][..j]
          invariant forall w :: w in wordDocMapping ==> wordDocMapping[w] == {}
        {
          if wordsets[i][j] !in wordDocMapping {
            wordDocMapping := wordDocMapping[wordsets[i][j] := {}];
          }
          assert wordsets[i][..j + 1] == wordsets[i][..j] + [wordsets[i][j]];
          j := j + 1;
        }
        assert wordsets[i][..j] == wordsets[i];
        assert wordsets[..i + 1] == wordsets[..i] + [wordsets[i]];
        assert AllWords(wordsets[..i + 1]) == AllWords(wordsets[..i]) + set w | w in wordsets[i];
        i := i + 1;
      }
      assert wordsets[..i] == wordsets;
    }

    /** Looks up the document sets of the words and encodes them as bit sets
        over an enumeration of their union. */
    static method CreateBitSetsForWordset(wordDocMapping: map<Word, set<DocId>>, wordset: seq<Word>)
      returns (bitSets: seq<BitSet>)
      requires forall w :: w in wordset ==> w in wordDocMapping
      ensures |bitSets| == |wordset|
      ensures var D := MappedDocuments(wordDocMapping, wordset);
              exists E :: NoDup(E) && Elements(E) == Union(D) && Values(bitSets) == PositionFamily(E, D)
      ensures var D := MappedDocuments(wordDocMapping, wordset);
              forall j :: 0 <= j < |wordset| ==> |bitSets[j].bits| == |D[j]|
      ensures var D := MappedDocuments(wordDocMapping, wordset);
              forall m :: 1 <= m < Pow2(|wordset|) ==> |Common(Values(bitSets), m)| == |Common(D, m)|
    {
      var hashSets: seq<set<DocId>> := [];
      var mergedHashSet := IntOpenHashSet([], []);
      var i := 0;
      while i < |wordset|
        invariant 0 <= i <= |wordset|
        invariant hashSets == MappedDocuments(wordDocMapping, wordset[..i])
        invariant mergedHashSet.Valid() && Elements(mergedHashSet.Enumeration()) == Union(hashSets)
      {
        var docs := wordDocMapping[wordset[i]];
        mergedHashSet := AddAll(mergedHashSet, docs);
        assert (hashSets + [docs])[..i] == hashSets;
        hashSets := hashSets + [docs];
        i := i + 1;
      }
      assert wordset[..i] == wordset;
      bitSets := CreateBitSets(hashSets, mergedHashSet);
      ghost var E := mergedHashSet.Enumeration();
      assert Values(bitSets) == PositionFamily(E, hashSets);
      forall j | 0 <= j < |wordset|
        ensures |bitSets[j].bits| == |hashSets[j]|
      {
        EnumerationPreservesSizes(E, hashSets, j);
      }
      forall m | 1 <= m < Pow2(|wordset|)
        ensures |Common(Values(bitSets), m)| == |Common(hashSets, m)|
      {
        EnumerationPreservesCounts(E, hashSets, m);
      }
    }

    /** Sets bit `pos` of bit set j exactly when the pos-th element met in a
        scan over the allocated slots of `mergedHashSet` lies in hashSets[j]. */
    static method CreateBitSets(hashSets: seq<set<DocId>>, mergedHashSet: IntOpenHashSet)
      returns (bitSets: seq<BitSet>)
      requires |mergedHashSet.keys| == |mergedHashSet.isAllocated|
      ensures |bitSets| == |hashSets|
      ensures forall j :: 0 <= j < |hashSets| ==>
                bitSets[j].bits == Positions(mergedHashSet.Enumeration(), hashSets[j])
      ensures forall j, p :: 0 <= j < |hashSets| && p in bitSets[j].bits ==> p < |mergedHashSet.Enumeration()|
      ensures forall j :: 0 <= j < |bitSets| ==> fresh(bitSets[j])
      ensures forall a, b :: 0 <= a < b < |bitSets| ==> bitSets[a] != bitSets[b]
    {
      var n := |hashSets|;
      bitSets := [];
      var i := 0;
      while i < n
        invariant 0 <= i <= n && |bitSets| == i
        invariant forall a :: 0 <= a < i ==> fresh(bitSets[a]) && bitSets[a].bits == {}
        invariant forall a, b :: 0 <= a < b < i ==> bitSets[a] != bitSets[b]
      {
        var b := new BitSet(|mergedHashSet.Enumeration()|);
        bitSets := bitSets + [b];
        i := i + 1;
      }

      var keys, isAllocated := mergedHashSet.keys, mergedHashSet.isAllocated;
      var pos := 0;
      i := 0;
      while i < |keys|
        invariant 0 <= i <= |keys|
        invariant pos == |AllocatedKeys(keys[..i], isAllocated[..i])|
        invariant forall a :: 0 <= a < n ==> fresh(bitSets[a])
        invariant forall a, b :: 0 <= a < b < n ==> bitSets[a] != bitSets[b]
        invariant forall a :: 0 <= a < n ==>
                    bitSets[a].bits == Positions(AllocatedKeys(keys[..i], isAllocated[..i]), hashSets[a])
      {
        ghost var before := AllocatedKeys(keys[..i], isAllocated[..i]);
        AllocatedKeysStep(keys, isAllocated, i);
        if isAllocated[i] {
          var j := 0;
          while j < n
            invariant 0 <= j <= n
            invariant forall a :: 0 <= a < j ==>
                        bitSets[a].bits == Positions(before + [keys[i]], hashSets[a])
            invariant forall a :: j <= a < n ==> bitSets[a].bits == Positions(before, hashSets[a])
          {
            PositionsSnoc(before, keys[i], hashSets[j]);
            if keys[i] in hashSets[j] {
              bitSets[j].Set(pos);
            }
            j := j + 1;
          }
          pos := pos + 1;
        }
        i := i + 1;
      }
      assert keys[..i] == keys && isAllocated[..i] == isAllocated;
    }

    /** Fills the intersection of every subset by splitting off its highest
        word, combinations[2^i + j] = bitsets[i] ∩ combinations[j], and returns
        the cardinalities. `neededCounts` is not consulted. */
    static method CreateCounts(bitsets: seq<BitSet>, neededCounts: set<nat>) returns (cardinalities: seq<int>)
      requires |bitsets| <= MaxWordsetSize
      ensures cardinalities == BruteForceCounts(Values(bitsets))
      ensures forall i :: 0 <= i < |bitsets| ==>
                Pow2(i) < |cardinalities| && cardinalities[Pow2(i)] == |bitsets[i].bits|
    {
      ghost var B := Values(bitsets);
      var combinations := CreateCombinations(bitsets);
      ghost var expected := BruteForceCounts(B);
      var counts := new int[combinations.Length](_ => 0);
      var k := 1;
      while k < combinations.Length
        invariant 1 <= k <= combinations.Length
        invariant forall m :: 1 <= m < combinations.Length ==>
                    combinations[m] != null && combinations[m].bits == Common(B, m)
        invariant forall m :: 0 <= m < k ==> counts[m] == expected[m]
      {
        counts[k] := combinations[k].Cardinality();
        k := k + 1;
      }
      cardinalities := counts[..];
      forall i | 0 <= i < |bitsets|
        ensures Pow2(i) < |cardinalities| && cardinalities[Pow2(i)] == |bitsets[i].bits|
      {
        Pow2Monotone(i, |bitsets|);
        CommonSingleton(B, i);
      }
    }

    /** The two nested loops of `createCounts`: entry 2^i is bitsets[i]
        itself, every later entry of row i a clone of it intersected in
        place. Entry 0 stays null. */
    static method CreateCombinations(bitsets: seq<BitSet>) returns (combinations: array<BitSet?>)
      requires |bitsets| <= MaxWordsetSize
      ensures fresh(combinations) && combinations.Length == Pow2(|bitsets|)
      ensures forall m :: 1 <= m < combinations.Length ==>
                combinations[m] != null && combinations[m].bits == Common(Values(bitsets), m)
      ensures forall k :: 0 <= k < |bitsets| ==>
                Pow2(k) < combinations.Length && combinations[Pow2(k)] == bitsets[k]
    {
      ghost var B := Values(bitsets);
      var n := |bitsets|;
      ghost var singles := seq(n, k requires 0 <= k < n => Pow2(k));
      combinations := new BitSet?[Pow2(n)];
      var i := 0;
      while i < n
        invariant 0 <= i <= n
        invariant Pow2(i) <= combinations.Length
        invariant forall m :: 1 <= m < Pow2(i) ==>
                    combinations[m] != null && combinations[m].bits == Common(B, m)
        invariant forall k :: 0 <= k < i ==> singles[k] < Pow2(i)
        invariant forall k :: 0 <= k < i ==> combinations[singles[k]] == bitsets[k]
      {
        assert 2 * Pow2(i) <= combinations.Length by {
          Pow2Monotone(i, n);
        }
        var pos := Pow2(i);
        combinations[pos] := bitsets[i];
        assert bitsets[i].bits == Common(B, pos) by {
          CommonSingleton(B, i);
        }
        FillRow(combinations, bitsets, i);
        i := i + 1;
      }
      assert forall k :: 0 <= k < n ==> singles[k] == Pow2(k);
    }

    /** The inner loop of `createCounts` for word i: entry 2^i + j, for
        1 <= j < 2^i, becomes a clone of bitsets[i] intersected in place
        with entry j. Entries up to 2^i keep their objects. */
    static method FillRow(combinations: array<BitSet?>, bitsets: seq<BitSet>, i: nat)
      requires i < |bitsets| && 2 * Pow2(i) <= combinations.Length
      requires forall m :: 1 <= m <= Pow2(i) ==>
                 combinations[m] != null && combinations[m].bits == Common(Values(bitsets), m)
      modifies combinations
      ensures forall m :: 1 <= m < 2 * Pow2(i) ==>
                combinations[m] != null && combinations[m].bits == Common(Values(bitsets), m)
      ensures forall m :: 0 <= m <= Pow2(i) ==> combinations[m] == old(combinations[m])
      ensures forall m :: 2 * Pow2(i) <= m < combinations.Length ==> combinations[m] == old(combinations[m])
    {
      ghost var B := Values(bitsets);
      var pos := Pow2(i);
      var pos2 := pos + 1;
      var j := 1;
      while j < pos
        invariant 1 <= j <= pos && pos2 == pos + j
        invariant B == Values(bitsets)
        invariant forall m :: 1 <= m < pos2 ==>
                    combinations[m] != null && combinations[m].bits == Common(B, m)
        invariant forall m :: 0 <= m <= pos ==> combinations[m] == old(combinations[m])
        invariant forall m :: 2 * pos <= m < combinations.Length ==> combinations[m] == old(combinations[m])
      {
        var c := bitsets[i].Clone();
        combinations[pos2] := c;
        c.Intersect(combinations[j]);
        CommonSplitsHighestBit(B, i, j);
        pos2 := pos2 + 1;
        j := j + 1;
      }
    }
  }
}
