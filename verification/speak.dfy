/**
 * `speak(myMap, numSentences, markovLength)` (speak.hpp): the free-standing
 * generator. It sorts deep copies of the roots by weight, seeds a sentence at
 * each capitalised one in that order, and looks context words up in the
 * live root map rather than in the sorted copies.
 */
module Speaker {
  import opened Wrappers
  import opened Words
  import opened Generation

  /** The sentence limit of `++i; if (i == numSentences) break;`: a count
      below 1 is never reached, so every seed is used. */
  function SentenceLimit(numSentences: int): (limit: Option<nat>)
    ensures limit.Some? <==> numSentences >= 1
    ensures limit.Some? ==> limit.value == numSentences
  {
    if numSentences >= 1 then Some(numSentences) else None
  }

  /** `speak`: the sorted copies, then the sentence loop over them with the
      roots as context. */
  method Speak(m: map<string, Word>, numSentences: int, markovLength: int, draws: seq<seq<Draw>>)
      returns (said: seq<Outcome>, ghost sorted: seq<Word>, ghost picks: seq<seq<Word>>)
    ensures WeightSorted(sorted) && multiset(sorted) == multiset(RootList(m))
    ensures SpeaksFrom(sorted, Live(m), markovLength, SentenceLimit(numSentences), draws, said, picks)
  {
    var sortedByWeight := SortedSnapshot(m);
    sorted := sortedByWeight;
    said, picks := SpeakFrom(sortedByWeight, Live(m), markovLength, SentenceLimit(numSentences), draws);
  }

  /** With a count below 1, or one above the number of capitalised roots,
      a run in which every sentence finishes speaks one sentence per
      capitalised root. */
  lemma EverySeedWhenUnlimited(m: map<string, Word>, numSentences: int, n: int, draws: seq<seq<Draw>>,
                               sorted: seq<Word>, said: seq<Outcome>, picks: seq<seq<Word>>)
    requires SpeaksFrom(sorted, Live(m), n, SentenceLimit(numSentences), draws, said, picks)
    requires numSentences < 1 || numSentences >= |Starts(sorted, 0)|
    requires forall i :: 0 <= i < |said| ==> said[i].Said?
    ensures |said| == |Starts(sorted, 0)|
  {
    if said != [] {
      assert said[|said| - 1].Said?;
    }
  }
}
