# Palmetto: boolean-document counting and Jaccard one-one coherence

Palmetto computes topic-coherence scores for word sets. This project models the counting
core and the Jaccard scoring fixtures on top of it, and proves properties of that model.

- **Counting.** `BitSetBasedBooleanDocumentFrequencyDeterminer` takes a batch of word sets.
  It asks the corpus adapter once for the documents of every distinct word. It then counts,
  for every word set and every subset of its words (a mask, bit k for word k), the documents
  that contain all of those words.
  - Each word's documents are re-encoded as a bit set over an enumeration of the word set's
    universe, the union of its documents.
  - The `2^n` intersections are built incrementally, splitting off the highest bit:
    `combinations[2^i + j] = bitsets[i] ∩ combinations[j]`.
- **Supplying probabilities.** `AbstractProbabilitySupplier` calls the determiner once per
  batch and applies the concrete supplier's estimate to each counted word set, in order.
  It carries a mutable minimum frequency (default 10) and a replaceable determiner.
- **Jaccard fixtures.** The three `JaccardCoherenceCalculationTest` fixtures give
  presence tables, mask-indexed probability arrays and expected coherences 7/9, 1/3 and 4/9.

Modules:

- `Subsets`: masks (`Pow2`, `Bit`) and the brute-force reference. `Common(D, m)` is the
  intersection of the sets `m` selects, and `BruteForceCounts(D)` holds its size for every
  mask. It also holds the encoding of sets as positions in an enumeration.
- `Hppc`: the two hppc collections as the determiner sees them.
  - `BitSet` is a class over a `set<nat>`, so the aliasing and in-place `intersect` of
    `createCounts` are modelled.
  - `IntOpenHashSet` is its `keys`/`allocated` slot arrays.
- `DocumentFrequency`: the corpus adapter and the determiner, both classes. Each keeps a
  ghost log of the calls it received. The adapter logs the key sets of the maps it was asked
  to fill (`requests`), and the determiner logs its `DetermineCounts` calls (`countRequests`).
- `ProbabilitySupplier`: the abstract supplier class. The subclass's per-word-set estimate
  is a function-valued constant.
- `JaccardCoherence`: the Jaccard confirmation, the one-one mean, the fixture tables and
  arrays, and an end-to-end method that runs each table through the determiner.

## Model

| member | source | states |
|---|---|---|
| DocumentFrequency.BitSetBasedBooleanDocumentFrequencyDeterminer.constructor | palmetto/src/main/java/org/aksw/palmetto/prob/bd/BitSetBasedBooleanDocumentFrequencyDeterminer.java:32-34 | the determiner keeps the given corpus adapter; no calls have been made yet |
| DocumentFrequency.BitSetBasedBooleanDocumentFrequencyDeterminer.DetermineCounts | palmetto/src/main/java/org/aksw/palmetto/prob/bd/BitSetBasedBooleanDocumentFrequencyDeterminer.java:40-61 | a fresh array of exactly one entry per definition. Entry i carries definitions[i]'s segments and conditions, and for every mask m ≥ 1 the size of the intersection of the raw adapter document sets of the words of wordsets[i] that m selects (entry 0 is 0). The adapter's own request log grows by exactly one entry, the set of all distinct words of the batch, so the adapter is called exactly once |
| DocumentFrequency.CorpusAdapter.GetDocumentsWithWordsAsSet | palmetto/src/main/java/org/aksw/palmetto/prob/bd/BitSetBasedBooleanDocumentFrequencyDeterminer.java:51 | each call is logged with the map's key set; the filled map has the same keys, and each word's set gains exactly that word's documents |
| DocumentFrequency.BitSetBasedBooleanDocumentFrequencyDeterminer.CollectWords | palmetto/src/main/java/org/aksw/palmetto/prob/bd/BitSetBasedBooleanDocumentFrequencyDeterminer.java:42-49 | the map's keys are exactly the distinct words of all word sets, each mapped to the empty set |
| DocumentFrequency.BitSetBasedBooleanDocumentFrequencyDeterminer.CountWordset | palmetto/src/main/java/org/aksw/palmetto/prob/bd/BitSetBasedBooleanDocumentFrequencyDeterminer.java:55-58 | one entry of the result: the definition's segments and conditions and the brute-force counts of the word set's mapped document sets |
| DocumentFrequency.BitSetBasedBooleanDocumentFrequencyDeterminer.CreateBitSetsForWordset | palmetto/src/main/java/org/aksw/palmetto/prob/bd/BitSetBasedBooleanDocumentFrequencyDeterminer.java:63-73 | one bit set per word. They are the encoding of the words' document sets over some duplicate-free enumeration of their union. Bit set j has as many bits as word j has documents, and every intersection has as many bits as the intersection of the raw document sets |
| DocumentFrequency.BitSetBasedBooleanDocumentFrequencyDeterminer.CreateBitSets | palmetto/src/main/java/org/aksw/palmetto/prob/bd/BitSetBasedBooleanDocumentFrequencyDeterminer.java:75-95 | bit pos of bit set j is set exactly when the pos-th allocated element of the merged set lies in hashSets[j]; no bit reaches the number of elements; the bit sets are newly allocated and pairwise distinct |
| DocumentFrequency.BitSetBasedBooleanDocumentFrequencyDeterminer.CreateCounts | palmetto/src/main/java/org/aksw/palmetto/prob/bd/BitSetBasedBooleanDocumentFrequencyDeterminer.java:97-118 | the cardinalities have length 2^n with entry 0 zero, and entry m is the size of the intersection of the bit sets m selects, whatever neededCounts is. The input bit sets are not changed, so entry 2^i is the size of bitsets[i] |
| DocumentFrequency.BitSetBasedBooleanDocumentFrequencyDeterminer.CreateCombinations | palmetto/src/main/java/org/aksw/palmetto/prob/bd/BitSetBasedBooleanDocumentFrequencyDeterminer.java:101-112 | the array is newly allocated; every entry 1 ≤ m < 2^n holds the intersection of the bit sets m selects; entry 2^k is the caller's own bitsets[k] object |
| DocumentFrequency.BitSetBasedBooleanDocumentFrequencyDeterminer.FillRow | palmetto/src/main/java/org/aksw/palmetto/prob/bd/BitSetBasedBooleanDocumentFrequencyDeterminer.java:106-111 | after row i, every entry below 2^(i+1) holds its intersection; only entries strictly between 2^i and 2^(i+1) are written, all others keep their objects |
| DocumentFrequency.SameCountsSameArray | palmetto/src/main/java/org/aksw/palmetto/prob/bd/BitSetBasedBooleanDocumentFrequencyDeterminer.java:113-117 | two families whose intersections have equal sizes give the same cardinality array |
| Subsets.CommonSplitsHighestBit | palmetto/src/main/java/org/aksw/palmetto/prob/bd/BitSetBasedBooleanDocumentFrequencyDeterminer.java:107-109 | the recurrence the loop relies on: the intersection for 2^i + j (1 ≤ j < 2^i) is set i intersected with the intersection for j |
| Subsets.CommonSingleton | palmetto/src/main/java/org/aksw/palmetto/prob/bd/BitSetBasedBooleanDocumentFrequencyDeterminer.java:104-105 | the mask 2^i selects exactly set i |
| Subsets.SingletonCounts | palmetto/src/main/java/org/aksw/palmetto/prob/bd/BitSetBasedBooleanDocumentFrequencyDeterminer.java:104-105 | count 2^i is the number of documents of word i |
| Subsets.EmptySetZeroCounts | palmetto/src/main/java/org/aksw/palmetto/prob/bd/BitSetBasedBooleanDocumentFrequencyDeterminer.java:46 | a word with no documents makes every count it takes part in zero |
| Subsets.ThreeSetCounts | palmetto/src/main/java/org/aksw/palmetto/prob/bd/BitSetBasedBooleanDocumentFrequencyDeterminer.java:113-117 | the eight counts of three sets written out: 0, the three sizes, the three pairwise intersections and the triple intersection |
| Subsets.CommonOfPositions | palmetto/src/main/java/org/aksw/palmetto/prob/bd/BitSetBasedBooleanDocumentFrequencyDeterminer.java:82-92 | encoding over an enumeration commutes with intersection |
| Subsets.PositionsCount | palmetto/src/main/java/org/aksw/palmetto/prob/bd/BitSetBasedBooleanDocumentFrequencyDeterminer.java:82-92 | over a duplicate-free enumeration a set is encoded with as many bits as it has enumerated elements |
| Subsets.EnumerationPreservesCounts | palmetto/src/main/java/org/aksw/palmetto/prob/bd/BitSetBasedBooleanDocumentFrequencyDeterminer.java:113-117 | the counts over the encoded bit sets equal those of the raw document sets for any enumeration of the union: the result does not depend on the enumeration order |
| Subsets.EnumerationPreservesSizes | palmetto/src/main/java/org/aksw/palmetto/prob/bd/BitSetBasedBooleanDocumentFrequencyDeterminer.java:82-92 | the encoded bit set of a word has as many bits as the word has documents |
| Hppc.BitSet.Clone | palmetto/src/main/java/org/aksw/palmetto/prob/bd/BitSetBasedBooleanDocumentFrequencyDeterminer.java:108 | a fresh bit set with the same bits |
| Hppc.BitSet.Intersect | palmetto/src/main/java/org/aksw/palmetto/prob/bd/BitSetBasedBooleanDocumentFrequencyDeterminer.java:109 | keeps exactly the bits also set in the other bit set |
| Hppc.BitSet.Set | palmetto/src/main/java/org/aksw/palmetto/prob/bd/BitSetBasedBooleanDocumentFrequencyDeterminer.java:87 | adds exactly the given bit |
| Hppc.BitSet.Cardinality | palmetto/src/main/java/org/aksw/palmetto/prob/bd/BitSetBasedBooleanDocumentFrequencyDeterminer.java:115 | the number of set bits |
| Hppc.AddAll | palmetto/src/main/java/org/aksw/palmetto/prob/bd/BitSetBasedBooleanDocumentFrequencyDeterminer.java:70 | the hash set stays duplicate-free and afterwards holds its old elements and the added ones |
| ProbabilitySupplier.AbstractProbabilitySupplier.constructor | src/main/java/org/aksw/palmetto/prob/AbstractProbabilitySupplier.java:46-53 | a new supplier holds the given determiner and minFrequency = DEFAULT_MIN_FREQUENCY = 10 |
| ProbabilitySupplier.AbstractProbabilitySupplier.GetProbabilities | src/main/java/org/aksw/palmetto/prob/AbstractProbabilitySupplier.java:55-64 | the determiner receives exactly one call, with the caller's word sets and definitions. The fresh result has one entry per counted word set, and entry i is the estimate of counted word set i |
| ProbabilitySupplier.EstimateAll | src/main/java/org/aksw/palmetto/prob/AbstractProbabilitySupplier.java:59-62 | the pointwise, order-preserving map of the estimate over the counted word sets |
| ProbabilitySupplier.AbstractProbabilitySupplier.SetMinFrequency | src/main/java/org/aksw/palmetto/prob/AbstractProbabilitySupplier.java:69-75 | getMinFrequency afterwards returns the value set; the determiner is unchanged |
| ProbabilitySupplier.AbstractProbabilitySupplier.SetFrequencyDeterminer | src/main/java/org/aksw/palmetto/prob/AbstractProbabilitySupplier.java:77-83 | getFrequencyDeterminer afterwards returns the determiner set; minFrequency is unchanged |
| JaccardCoherence.OneOnePairs | palmetto/src/test/java/org/aksw/palmetto/calculations/direct/JaccardCoherenceCalculationTest.java:42-43 | the one-one pairs: every pair i < j of words appears, each once, and none other |
| JaccardCoherence.PairScoresSwapped | palmetto/src/test/java/org/aksw/palmetto/calculations/direct/JaccardCoherenceCalculationTest.java:42-43 | the Jaccard confirmation is symmetric in its two words |
| JaccardCoherence.MeanBothOrders | palmetto/src/test/java/org/aksw/palmetto/calculations/direct/JaccardCoherenceCalculationTest.java:42-43 | the mean does not change when each pair is listed in both orders instead of once |
| JaccardCoherence.PairScoreIsDocumentJaccard | palmetto/src/test/java/org/aksw/palmetto/calculations/direct/JaccardCoherenceCalculationTest.java:42-43 | on the probabilities of a corpus, P(wi,wj)/(P(wi)+P(wj)−P(wi,wj)) is the Jaccard index of the two words' document sets (common documents over documents of either) |
| JaccardCoherence.ThreeWordCoherence | palmetto/src/test/java/org/aksw/palmetto/calculations/direct/JaccardCoherenceCalculationTest.java:42-43 | for three words the coherence is a third of the Jaccard confirmations of (w1,w2), (w1,w3) and (w2,w3), read at masks 3, 5 and 6 |
| JaccardCoherence.Table1Probabilities | palmetto/src/test/java/org/aksw/palmetto/calculations/direct/JaccardCoherenceCalculationTest.java:36-48 | table 111/011/011 over 3 documents, as counts divided by 3, is the array [0, 1, 2/3, 2/3, 2/3, 2/3, 2/3, 2/3] |
| JaccardCoherence.Fixture1Coherence | palmetto/src/test/java/org/aksw/palmetto/calculations/direct/JaccardCoherenceCalculationTest.java:42-49 | the pair values are 2/3, 2/3 and 1, and the coherence is 7/9 |
| JaccardCoherence.Table2Probabilities | palmetto/src/test/java/org/aksw/palmetto/calculations/direct/JaccardCoherenceCalculationTest.java:51-62 | table 011/101/110 over 3 documents gives [0, 2/3, 2/3, 1/3, 2/3, 1/3, 1/3, 0] |
| JaccardCoherence.Fixture2Coherence | palmetto/src/test/java/org/aksw/palmetto/calculations/direct/JaccardCoherenceCalculationTest.java:58-63 | every pair value is 1/3, and the coherence is 1/3 |
| JaccardCoherence.Table3Probabilities | palmetto/src/test/java/org/aksw/palmetto/calculations/direct/JaccardCoherenceCalculationTest.java:64-76 | table 0001/0101/0011 over 4 documents gives [0, 0.25, 0.5, 0.25, 0.5, 0.25, 0.25, 0.25] |
| JaccardCoherence.Fixture3Coherence | palmetto/src/test/java/org/aksw/palmetto/calculations/direct/JaccardCoherenceCalculationTest.java:71-76 | the pair values are 1/2 for (w1,w2), 1/2 for (w1,w3) and 1/3 for (w2,w3), and the coherence is 4/9 |
| JaccardCoherence.ProbabilitiesThroughDeterminer | palmetto/src/test/java/org/aksw/palmetto/calculations/direct/JaccardCoherenceCalculationTest.java:36-76 | a presence table pushed through the determiner as one word set, with its counts divided by the number of documents, gives the table's count probabilities |
| JaccardCoherence.FixtureCoherences | palmetto/src/test/java/org/aksw/palmetto/calculations/direct/JaccardCoherenceCalculationTest.java:34-82 | each of the three tables run through the determiner and scored by the one-one Jaccard mean gives the expected coherence: 7/9, 1/3 and 4/9 |

## Left out

- hppc internals: hashing, slot layout and growth. `AddAll` puts each new element into a new
  slot in an unspecified order. All results are proved for every duplicate-free enumeration,
  so the slot order hppc would choose does not matter.
- `ObjectObjectOpenHashMap` is a Dafny `map`. The adapter fills it in place in the source;
  here its method returns the filled map.
- The corpus adapter (`BooleanDocumentSupportingAdapter`) is a class holding a
  word-to-documents function, a corpus size and a log of its requests. How a real corpus
  (a Lucene index) answers is not part of this model.
- `FrequencyDeterminer` is an interface. The supplier is modelled with the one
  implementation in this model, the bit-set determiner.
- `getProbabilities(CountedSubsets)` is abstract in the supplier. It is a function
  parameter of the class (`estimate`), which also receives the minimum frequency and the
  corpus size. No concrete estimate and no minimum-frequency clamp are modelled.
- `CountedSubsets`, `SegmentationDefinition` and `SubsetProbabilities` are kept to their
  fields. `neededCounts` is a set of masks rather than a `BitSet`, and is not consulted,
  as in the source.
- DocumentFrequency.BitSetBasedBooleanDocumentFrequencyDeterminer.CreateBitSets: that the running `pos`
  counter ends at the universe size is stated only as "no bit reaches the number of
  enumerated elements". The counter is a local and does not appear in the contract.
- DocumentFrequency.BitSetBasedBooleanDocumentFrequencyDeterminer.CreateCounts: the loops are split into
  `CreateCombinations` (outer loop) and `FillRow` (inner loop) to keep each proof small.
  The order of the statements is the source's.
- DocumentFrequency.BitSetBasedBooleanDocumentFrequencyDeterminer.DetermineCounts: word sets are limited to 30
  words (`MaxWordsetSize`). Beyond that the source throws. For 31 words `1 << 31` on a Java
  `int` is negative, so allocating the array fails. From 32 words on the shift distance
  wraps, so the array is too small and a store at line 105 is out of bounds. Those
  exceptions, and Java integer overflow of the counts, are not modelled.
- `getNumberOfDocuments` reads the adapter's corpus size directly.
- The Jaccard confirmation measure (`JaccardConfirmationMeasure`) is not part of this
  model. `Jaccard` states the formula of the test comments. When both probabilities are
  zero (no union) it returns 0, a choice that is not taken from the source.
- `Mean` returns 0 for an empty list of values. The test base class that aggregates the
  scores is not part of this model, and one-one pairs of three words are never empty.
- The `OneOne` segmentator and the abstract test base class
  (`AbstractProbabilityBasedCalculationTest`) are not part of this model. `OneOnePairs`
  lists the pairs the test comments sum over.
- Doubles and the test's precision delta: the arithmetic is exact over `real`.
- The Lucene index creator, `IndexableDocument` and the log-Jaccard test are outside the
  counting core. They involve file-system I/O, a plain data bean and a logarithm.
- The comment of the first fixture ends in "= 7/3", which is a typo: the expected value
  next to it, and the value proved here, is 7/9. The comment of the third fixture lists
  1/3 as the second pair value. The value of (w1,w3) is 1/2 and that of (w2,w3) is 1/3;
  the sum, and so 4/9, is the same.
