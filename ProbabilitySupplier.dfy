/** The batch driver of the probability suppliers: one call of the frequency
    determiner for the whole batch, then the subclass's estimate applied to
    every counted word set in turn. */
module ProbabilitySupplier {
  import opened DocumentFrequency

  const DefaultMinFrequency: int := 10

  /** The probabilities of one word set, indexed by subset mask, beside its segmentation. */
  datatype SubsetProbabilities = SubsetProbabilities(
    segments: seq<int>, conditions: seq<int>, probabilities: seq<real>)

  /** The estimate a probability supplier applies to each counted word set.
      Which one it is, and how it uses the minimum frequency and the corpus
      size, is up to the concrete supplier. */
  type Estimate = (CountedSubsets, int, nat) -> SubsetProbabilities

  /** The estimates of a batch of counted word sets, in order. */
  function EstimateAll(estimate: Estimate, counted: seq<CountedSubsets>, minFrequency: int,
                       numberOfDocuments: nat): (P: seq<SubsetProbabilities>)
    ensures |P| == |counted|
    ensures forall i :: 0 <= i < |counted| ==> P[i] == estimate(counted[i], minFrequency, numberOfDocuments)
  {
    if |counted| == 0 then []
    else EstimateAll(estimate, counted[..|counted| - 1], minFrequency, numberOfDocuments)
         + [estimate(counted[|counted| - 1], minFrequency, numberOfDocuments)]
  }

  class AbstractProbabilitySupplier {
    var freqDeterminer: BitSetBasedBooleanDocumentFrequencyDeterminer
    var minFrequency: int
    /** The concrete supplier's `getProbabilities(CountedSubsets)`. */
    const estimate: Estimate

    constructor (freqDeterminer: BitSetBasedBooleanDocumentFrequencyDeterminer, estimate: Estimate)
      ensures GetFrequencyDeterminer() == freqDeterminer && this.estimate == estimate
      ensures GetMinFrequency() == DefaultMinFrequency
    {
      this.freqDeterminer := freqDeterminer;
      this.estimate := estimate;
      minFrequency := DefaultMinFrequency;
    }

    /** Asks the determiner once for the counts of the whole batch and
        returns the estimate of counted word set i at index i. */
    method GetProbabilities(wordsets: seq<seq<Word>>, definitions: seq<SegmentationDefinition>)
      returns (probabilities: array<SubsetProbabilities>)
      requires |definitions| <= |wordsets|
      requires forall i :: 0 <= i < |definitions| ==> |wordsets[i]| <= MaxWordsetSize
      modifies freqDeterminer, freqDeterminer.corpusAdapter
      ensures fresh(probabilities)
      ensures freqDeterminer.countRequests
              == old(freqDeterminer.countRequests) + [CountRequest(wordsets, definitions)]
      ensures freqDeterminer.corpusAdapter.requests
              == old(freqDeterminer.corpusAdapter.requests) + [AllWords(wordsets)]
      ensures probabilities.Length == |definitions|
      ensures forall i :: 0 <= i < |definitions| ==>
                probabilities[i] == estimate(ExpectedCounts(freqDeterminer.corpusAdapter, wordsets[i], definitions[i]),
                                             minFrequency, freqDeterminer.GetNumberOfDocuments())
    {
      var subsets := freqDeterminer.DetermineCounts(wordsets, definitions);
      probabilities := new SubsetProbabilities[subsets.Length];
      var i := 0;
      while i < subsets.Length
        modifies probabilities
        invariant 0 <= i <= subsets.Length
        invariant probabilities[..i]
                  == EstimateAll(estimate, subsets[..i], minFrequency, freqDeterminer.GetNumberOfDocuments())
      {
        probabilities[i] := estimate(subsets[i], minFrequency, freqDeterminer.GetNumberOfDocuments());
        assert subsets[..i + 1] == subsets[..i] + [subsets[i]];
        assert probabilities[..i + 1] == probabilities[..i] + [probabilities[i]];
        i := i + 1;
      }
      assert subsets[..i] == subsets[..];
      assert probabilities[..i] == probabilities[..];
    }

    /** Afterwards the getter returns the new value; the determiner stays. */
    method SetMinFrequency(minFrequency: int)
      modifies this
      ensures GetMinFrequency() == minFrequency
      ensures GetFrequencyDeterminer() == old(GetFrequencyDeterminer())
    {
      this.minFrequency := minFrequency;
    }

    function GetMinFrequency(): int
      reads this
    {
      minFrequency
    }

    function GetFrequencyDeterminer(): BitSetBasedBooleanDocumentFrequencyDeterminer
      reads this
    {
      freqDeterminer
    }

    /** Afterwards the getter returns the new determiner; the minimum frequency stays. */
    method SetFrequencyDeterminer(freqDeterminer: BitSetBasedBooleanDocumentFrequencyDeterminer)
      modifies this
      ensures GetFrequencyDeterminer() == freqDeterminer
      ensures GetMinFrequency() == old(GetMinFrequency())
    {
      this.freqDeterminer := freqDeterminer;
    }
  }
}
