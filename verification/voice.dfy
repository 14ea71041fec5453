/**
 * `struct Voice` (voice.hpp): a generator that keeps its own weight-sorted
 * snapshot of the roots and looks context words up in that snapshot, by a
 * linear search for the first node with the same text. `speak` walks the
 * snapshot's capitalised roots like `speak.hpp` does; `speakTwitch` starts at
 * a random position instead, and starts over while the sentence has more
 * than 20 words.
 */
module VoiceModel {
  import opened Wrappers
  import opened Words
  import opened Generation

  /** The position of the first capitalised word of `s` at or after `from`. */
  function FirstCapitalised(s: seq<Word>, from: nat): (r: Option<nat>)
    ensures r.Some? ==> from <= r.value < |s| && Capitalised(s[r.value])
    ensures r.Some? ==> forall j :: from <= j < r.value ==> !Capitalised(s[j])
    ensures r.None? ==> forall j :: from <= j < |s| ==> !Capitalised(s[j])
    decreases |s| - from
  {
    if from >= |s| then None
    else if Capitalised(s[from]) then Some(from)
    else FirstCapitalised(s, from + 1)
  }

  /** `rand() % range` for a `rand()` result `draw`: C++ truncates toward
      zero, and with a non-negative dividend that is the Euclidean remainder
      by |range|. */
  function RandomPos(draw: nat, range: int): (p: nat)
    requires range != 0
    ensures p < range || p < -range
  {
    if range > 0 then draw % range else draw % -range
  }

  /** The random numbers one `speakTwitch` attempt uses: the `rand()` of
      `findFirstWords`, then one draw per `topWord` call. */
  datatype Attempt = Attempt(draw: nat, draws: seq<Draw>)

  /** A sentence of more than 20 words makes `speakTwitch` start over. */
  predicate TooLong(out: Outcome)
  {
    out.Said? && |out.sentence| > 20
  }

  /** What one attempt of `speakTwitch` may end with on the snapshot `sorted`:
      `rand() % 0` is undefined when the snapshot has fewer than two roots,
      and so is `sentence.back()` when no capitalised root lies at or after
      the random position; otherwise the extension loop runs from the seed's
      `outputTopSentence` path. */
  ghost predicate TwitchTry(sorted: seq<Word>, n: int, a: Attempt, picks: seq<Word>, out: Outcome)
  {
    var range := |sorted| / 2;
    if range == 0 then out == Undefined
    else match FirstCapitalised(sorted, RandomPos(a.draw, range))
      case None => out == Undefined
      case Some(i) => IsRun(Snapshot(sorted), n, TopPath(sorted[i]), a.draws, picks, out)
  }

  ghost function TryRule(sorted: seq<Word>, n: int): (Attempt, seq<Word>, Outcome) -> bool
  {
    (a: Attempt, ps: seq<Word>, out: Outcome) => TwitchTry(sorted, n, a, ps, out)
  }

  /**
   * `tries` are the attempts `speakTwitch` made, attempt k by `rule` with
   * the random numbers of `attempts[k]`; each but the last was too long.
   * The result is the last attempt, unless that was too long as well, in
   * which case every attempt was used and the result is `OutOfDraws`.
   */
  ghost predicate IsTwitch(rule: (Attempt, seq<Word>, Outcome) -> bool, attempts: seq<Attempt>,
                           tries: seq<Outcome>, picks: seq<seq<Word>>, out: Outcome)
  {
    && Tried(rule, attempts, tries, picks)
    && (forall k :: 0 <= k < |tries| - 1 ==> TooLong(tries[k]))
    && (tries == [] || TooLong(tries[|tries| - 1]) ==>
          |tries| == |attempts| && out == OutOfDraws(if tries == [] then [] else tries[|tries| - 1].sentence))
    && (tries != [] && !TooLong(tries[|tries| - 1]) ==> out == tries[|tries| - 1])
  }

  /** Attempt k ended as `tries[k]` by `rule`, for every k. */
  ghost predicate Tried(rule: (Attempt, seq<Word>, Outcome) -> bool, attempts: seq<Attempt>,
                        tries: seq<Outcome>, picks: seq<seq<Word>>)
    decreases |tries|
  {
    && |tries| == |picks| <= |attempts|
    && (tries != [] ==>
          var k := |tries| - 1;
          && Tried(rule, attempts, tries[..k], picks[..k])
          && rule(attempts[k], picks[k], tries[k]))
  }

  lemma TriedSnoc(rule: (Attempt, seq<Word>, Outcome) -> bool, attempts: seq<Attempt>,
                  tries: seq<Outcome>, picks: seq<seq<Word>>, out: Outcome, ps: seq<Word>)
    requires Tried(rule, attempts, tries, picks) && |tries| < |attempts|
    requires rule(attempts[|tries|], ps, out)
    ensures Tried(rule, attempts, tries + [out], picks + [ps])
  {
    assert (tries + [out])[..|tries|] == tries && (picks + [ps])[..|tries|] == picks;
  }

  lemma {:induction false} TriedAt(rule: (Attempt, seq<Word>, Outcome) -> bool, attempts: seq<Attempt>,
                                   tries: seq<Outcome>, picks: seq<seq<Word>>, k: nat)
    requires Tried(rule, attempts, tries, picks) && k < |tries|
    ensures k < |attempts| && k < |picks| && rule(attempts[k], picks[k], tries[k])
    decreases |tries|
  {
    var last := |tries| - 1;
    if k < last {
      TriedAt(rule, attempts, tries[..last], picks[..last], k);
      assert tries[..last][k] == tries[k] && picks[..last][k] == picks[k];
    }
  }

  /** `findFirstWords(range)` on the snapshot `sorted`, with `rand()`
      giving `draw`: the `outputTopSentence` path of the first capitalised
      root at or after the random position, or nothing. */
  method FindFirstWords(sorted: seq<Word>, range: int, draw: nat) returns (sentence: seq<string>)
    requires range != 0
    ensures match FirstCapitalised(sorted, RandomPos(draw, range))
      case None => sentence == []
      case Some(i) => sentence == TopPath(sorted[i])
  {
    var randomPos := RandomPos(draw, range);
    sentence := [];
    var i := randomPos;
    while i < |sorted|
      invariant randomPos <= i
      invariant FirstCapitalised(sorted, randomPos) == FirstCapitalised(sorted, i)
      decreases |sorted| - i
    {
      if !Capitalised(sorted[i]) {
        i := i + 1;
        continue;
      }
      sentence := OutputTopSentence(sorted[i], sentence);
      return;
    }
  }

  /** One attempt of `speakTwitch`: the seed, then the extension loop on
      the snapshot. */
  method TwitchAttempt(sorted: seq<Word>, n: int, a: Attempt) returns (out: Outcome, ghost picks: seq<Word>)
    ensures TryRule(sorted, n)(a, picks, out)
  {
    var range := |sorted| / 2;
    if range == 0 {
      return Undefined, [];
    }
    var sentence := FindFirstWords(sorted, range, a.draw);
    if sentence == [] {
      return Undefined, [];
    }
    out, picks := ExtendSentence(Snapshot(sorted), n, sentence, a.draws);
  }

  /** The attempts of `speakTwitch` on the snapshot `sorted` with order n. */
  method Twitch(sorted: seq<Word>, n: int, attempts: seq<Attempt>)
      returns (out: Outcome, text: string, ghost tries: seq<Outcome>, ghost picks: seq<seq<Word>>)
    ensures IsTwitch(TryRule(sorted, n), attempts, tries, picks, out)
    ensures out.Said? ==> text == Spaced(out.sentence)
  {
    tries, picks := [], [];
    out, text := OutOfDraws([]), "";
    var k := 0;
    var done := false;
    while k < |attempts| && !done
      invariant k == |tries| == |picks| <= |attempts|
      invariant Tried(TryRule(sorted, n), attempts, tries, picks)
      invariant Retried(tries, out, done)
      invariant done && out.Said? ==> text == Spaced(out.sentence)
      decreases |attempts| - k
    {
      out, text, done, tries, picks := TwitchStep(sorted, n, attempts, k, out, tries, picks);
      k := k + 1;
    }
    TwitchEnd(TryRule(sorted, n), attempts, tries, picks, out, done);
  }

  /** The loop state of `speakTwitch`: every attempt but the last was too
      long, the loop is done once one is not, and the result so far. */
  predicate Retried(tries: seq<Outcome>, out: Outcome, done: bool)
  {
    && (forall j :: 0 <= j < |tries| - 1 ==> TooLong(tries[j]))
    && (done <==> tries != [] && !TooLong(tries[|tries| - 1]))
    && (done ==> out == tries[|tries| - 1])
    && (!done ==> out == OutOfDraws(if tries == [] then [] else tries[|tries| - 1].sentence))
  }

  /** Attempt k of `speakTwitch`, added to the list, with the text it
      gives. */
  method TwitchStep(sorted: seq<Word>, n: int, attempts: seq<Attempt>, k: nat, ghost out0: Outcome,
                    ghost tries: seq<Outcome>, ghost picks: seq<seq<Word>>)
      returns (out: Outcome, text: string, done: bool, ghost tries': seq<Outcome>, ghost picks': seq<seq<Word>>)
    requires Tried(TryRule(sorted, n), attempts, tries, picks) && k == |tries| < |attempts|
    requires Retried(tries, out0, false)
    ensures Tried(TryRule(sorted, n), attempts, tries', picks') && |tries'| == |picks'| == k + 1
    ensures Retried(tries', out, done)
    ensures done && out.Said? ==> text == Spaced(out.sentence)
  {
    var t;
    t, tries', picks' := TryNext(sorted, n, attempts, k, tries, picks);
    RetriedSnoc(tries, out0, t);
    text := "";
    done := !TooLong(t);
    out := if done then t else OutOfDraws(t.sentence);
    if done && t.Said? {
      text := SpaceWords(t.sentence);
    }
  }

  /** Attempt k, added to the list of attempts made. */
  method TryNext(sorted: seq<Word>, n: int, attempts: seq<Attempt>, k: nat,
                 ghost tries: seq<Outcome>, ghost picks: seq<seq<Word>>)
      returns (t: Outcome, ghost tries': seq<Outcome>, ghost picks': seq<seq<Word>>)
    requires Tried(TryRule(sorted, n), attempts, tries, picks) && k == |tries| < |attempts|
    ensures Tried(TryRule(sorted, n), attempts, tries', picks') && |picks'| == k + 1 && tries' == tries + [t]
  {
    ghost var ps;
    t, ps := TwitchAttempt(sorted, n, attempts[k]);
    TriedSnoc(TryRule(sorted, n), attempts, tries, picks, t, ps);
    tries', picks' := tries + [t], picks + [ps];
  }

  lemma RetriedSnoc(tries: seq<Outcome>, out0: Outcome, t: Outcome)
    requires Retried(tries, out0, false)
    ensures Retried(tries + [t], if TooLong(t) then OutOfDraws(t.sentence) else t, !TooLong(t))
  {
  }

  lemma TwitchEnd(rule: (Attempt, seq<Word>, Outcome) -> bool, attempts: seq<Attempt>,
                  tries: seq<Outcome>, picks: seq<seq<Word>>, out: Outcome, done: bool)
    requires |tries| <= |attempts| && (|tries| == |attempts| || done)
    requires Tried(rule, attempts, tries, picks)
    requires Retried(tries, out, done)
    ensures IsTwitch(rule, attempts, tries, picks, out)
  {
  }

  class Voice {
    var sortedVector: seq<Word>
    var markovLength: int

    /** `Voice()`: no snapshot yet, order 3. */
    constructor ()
      ensures sortedVector == [] && markovLength == 3
    {
      sortedVector := [];
      markovLength := 3;
    }

    /** `setMarkov(x)`. */
    method SetMarkov(x: int)
      modifies this
      ensures markovLength == x && sortedVector == old(sortedVector)
    {
      markovLength := x;
    }

    /** `generateSortedVector(myMap)`: the old snapshot is dropped and
        replaced by deep copies of the roots, sorted by descending weight. */
    method GenerateSortedVector(m: map<string, Word>)
      modifies this
      ensures WeightSorted(sortedVector) && multiset(sortedVector) == multiset(RootList(m))
      ensures markovLength == old(markovLength)
    {
      sortedVector := [];
      sortedVector := SortedSnapshot(m);
    }

    /**
     * `speakTwitch()`, one attempt per element of `attempts`: a sentence of
     * more than 20 words is dropped and the next attempt made. The text is
     * the sentence's words, each followed by a space.
     */
    method SpeakTwitch(attempts: seq<Attempt>) returns (out: Outcome, text: string,
                                                      ghost tries: seq<Outcome>, ghost picks: seq<seq<Word>>)
      ensures IsTwitch(TryRule(sortedVector, markovLength), attempts, tries, picks, out)
      ensures out.Said? ==> text == Spaced(out.sentence)
    {
      out, text, tries, picks := Twitch(sortedVector, markovLength, attempts);
    }

    /** `speak(numSentences)`: the sentence loop over the snapshot, looking
        context words up in the snapshot; it stops after the first sentence
        at which the count reaches `numSentences` or more. */
    method Speak(numSentences: int, draws: seq<seq<Draw>>) returns (said: seq<Outcome>, ghost picks: seq<seq<Word>>)
      ensures SpeaksFrom(sortedVector, Snapshot(sortedVector), markovLength,
                         Some(if numSentences >= 1 then numSentences else 1), draws, said, picks)
    {
      said, picks := SpeakFrom(sortedVector, Snapshot(sortedVector), markovLength,
                               Some(if numSentences >= 1 then numSentences else 1), draws);
    }
  }

  /** The sentence a twitch gives, when it gives one, has at most 20 words,
      and it is the run of the last attempt from the first capitalised root
      at or after that attempt's random position. */
  lemma TwitchSaid(sorted: seq<Word>, n: int, attempts: seq<Attempt>, tries: seq<Outcome>,
                   picks: seq<seq<Word>>, t: seq<string>)
    requires IsTwitch(TryRule(sorted, n), attempts, tries, picks, Said(t))
    ensures |t| <= 20 && tries != [] && tries[|tries| - 1] == Said(t)
    ensures var k := |tries| - 1; var pos := RandomPos(attempts[k].draw, |sorted| / 2);
      |sorted| >= 2 && FirstCapitalised(sorted, pos).Some? &&
      IsRun(Snapshot(sorted), n, TopPath(sorted[FirstCapitalised(sorted, pos).value]), attempts[k].draws, picks[k], Said(t))
  {
    var k := |tries| - 1;
    TriedAt(TryRule(sorted, n), attempts, tries, picks, k);
    assert TryRule(sorted, n)(attempts[k], picks[k], tries[k]);
  }

  /** With fewer than two roots `rand() % 0` is reached on the first attempt. */
  lemma TwitchNeedsTwoRoots(sorted: seq<Word>, n: int, attempts: seq<Attempt>, tries: seq<Outcome>,
                            picks: seq<seq<Word>>, out: Outcome)
    requires IsTwitch(TryRule(sorted, n), attempts, tries, picks, out)
    requires |sorted| < 2 && attempts != []
    ensures tries == [Undefined] && out == Undefined
  {
    TriedAt(TryRule(sorted, n), attempts, tries, picks, 0);
    assert TryRule(sorted, n)(attempts[0], picks[0], tries[0]);
  }
}
