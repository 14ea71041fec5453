/**
 * The sentence generator shared by voice.hpp and speak.hpp: a snapshot of the
 * roots sorted by weight, the capitalised roots that seed sentences, and the
 * extension loop. While the last word does not end a sentence, the loop takes
 * the word N - 1 places from the end as context, looks it up among the roots,
 * and appends `topWord` of that root's child named by the last word.
 *
 * Each `topWord` call takes its random numbers from a `Draw`, and a run is
 * handed a finite list of them. A run that still wants to go on when the
 * list is used up ends as `OutOfDraws`; the source's loop has no such bound.
 */
module Generation {
  import opened Wrappers
  import opened Text
  import opened Words
  import opened Store

  // ---------------------------------------------------------------------------
  // The snapshot
  // ---------------------------------------------------------------------------

  /** The roots' nodes in map order. */
  function RootList(m: map<string, Word>): (s: seq<Word>)
    ensures |s| == |m|
  {
    ChildList(Roots(m))
  }

  /** The vector of deep copies of the roots, sorted by `weight_ >`. */
  method SortedSnapshot(m: map<string, Word>) returns (s: seq<Word>)
    ensures WeightSorted(s) && multiset(s) == multiset(RootList(m))
  {
    var roots := RootList(m);
    var a := new Word[|roots|](i => if 0 <= i < |roots| then roots[i] else NoWord);
    assert a[..] == roots;
    SortByWeight(a);
    s := a[..];
  }

  /** A snapshot holds every root exactly once over: as many nodes as roots,
      each root's node among them. */
  lemma SnapshotCovers(m: map<string, Word>, s: seq<Word>, k: string)
    requires multiset(s) == multiset(RootList(m)) && k in m
    ensures |s| == |m| && m[k] in s
  {
    ChildListCovers(Roots(m), k);
    assert m[k] in multiset(RootList(m));
    assert |s| == |multiset(s)| == |multiset(RootList(m))|;
  }

  /** `isupper(word_[0])`: an empty text reads its terminating '\0', which is
      not upper-case. */
  predicate Capitalised(w: Word)
  {
    w.text != [] && IsUpper(w.text[0])
  }

  /** The capitalised words of `s` from position k on, in order: the roots
      that seed sentences. */
  function Starts(s: seq<Word>, k: nat): (r: seq<Word>)
    requires k <= |s|
    ensures |r| <= |s| - k
    decreases |s| - k
  {
    if k == |s| then []
    else (if Capitalised(s[k]) then [s[k]] else []) + Starts(s, k + 1)
  }

  /** Every seed is a capitalised word of the snapshot at or after k. */
  lemma {:induction false} StartsAreCapitalised(s: seq<Word>, k: nat, i: nat)
    requires k <= |s| && i < |Starts(s, k)|
    ensures Capitalised(Starts(s, k)[i]) && Starts(s, k)[i] in s[k..]
    decreases |s| - k
  {
    if !(Capitalised(s[k]) && i == 0) {
      var j := if Capitalised(s[k]) then i - 1 else i;
      StartsAreCapitalised(s, k + 1, j);
      assert Starts(s, k)[i] == Starts(s, k + 1)[j];
      assert s[k + 1..] == s[k..][1..];
    }
  }

  /** Every capitalised word of the snapshot at or after k is a seed. */
  lemma {:induction false} CapitalisedAreStarts(s: seq<Word>, k: nat, j: nat)
    requires k <= j < |s| && Capitalised(s[j])
    ensures s[j] in Starts(s, k)
    decreases j - k
  {
    if j > k {
      CapitalisedAreStarts(s, k + 1, j);
    }
  }

  // ---------------------------------------------------------------------------
  // One pass of the extension loop
  // ---------------------------------------------------------------------------

  /** Where the context word is looked up: voice.hpp searches the snapshot
      for the first word with that text, speak.hpp finds the key in the live
      root map. */
  datatype Context = Snapshot(sorted: seq<Word>) | Live(roots: map<string, Word>)

  /** `find_if` from position `from`: the first word whose text is `t`. */
  function FindText(s: seq<Word>, t: string, from: nat): (r: Option<nat>)
    ensures r.Some? ==> from <= r.value < |s| && s[r.value].text == t
    ensures r.Some? ==> forall j :: from <= j < r.value ==> s[j].text != t
    ensures r.None? ==> forall j :: from <= j < |s| ==> s[j].text != t
    decreases |s| - from
  {
    if from >= |s| then None
    else if s[from].text == t then Some(from)
    else FindText(s, t, from + 1)
  }

  function FindContext(ctx: Context, t: string): Option<Word>
  {
    match ctx
    case Live(m) => if t in m then Some(m[t]) else None
    case Snapshot(s) =>
      match FindText(s, t, 0)
      case None => None
      case Some(i) => Some(s[i])
  }

  /** What the loop does with the sentence so far. */
  datatype Pass =
    | Stopped          // the last word ends a sentence, or the context is no root
    | BadIndex         // the context index is outside the sentence
    | NoChild          // `getWord(last)` throws `std::out_of_range`
    | Extend(node: Word)  // `topWord` of this node is appended

  function NextPass(ctx: Context, n: int, s: seq<string>): Pass
    requires s != []
  {
    var last := s[|s| - 1];
    if IsEndOfSentence(last) then Stopped
    else
      var b := |s| - (n - 1);
      if b < 0 || b >= |s| then BadIndex
      else
        match FindContext(ctx, s[b])
        case None => Stopped
        case Some(root) => if last in root.children then Extend(root.children[last]) else NoChild
  }

  /** How an extension run ends. */
  datatype Outcome =
    | Said(sentence: seq<string>)
    | Undefined          // the behaviour of the source is undefined from here
    | Thrown             // an exception leaves the generator
    | OutOfDraws(sentence: seq<string>)

  /** A word `topWord` of `c` may return with draw `d`: the weight-0
      placeholder for a leaf, else a child at the drawn rank in some
      descending-weight order of the children. */
  predicate TopWordResult(c: Word, d: Draw, p: Word)
  {
    && (c.children == map[] ==> p == NoWord)
    && (c.children != map[] ==> p in c.children.Values && IsRankPick(ChildList(c), TopRank(d, |c.children|), p))
  }

  predicate StepPick(ctx: Context, n: int, s: seq<string>, d: Draw, p: Word)
  {
    s != [] && NextPass(ctx, n, s).Extend? && TopWordResult(NextPass(ctx, n, s).node, d, p)
  }

  function Ending(ctx: Context, n: int, s: seq<string>): Outcome
    requires s != []
  {
    match NextPass(ctx, n, s)
    case Stopped => Said(s)
    case BadIndex => Undefined
    case NoChild => Thrown
    case Extend(_) => OutOfDraws(s)
  }

  /** Which words a `topWord` call may return on a sentence with a draw. */
  ghost function PickRule(ctx: Context, n: int): (seq<string>, Draw, Word) -> bool
  {
    (s: seq<string>, d: Draw, p: Word) => StepPick(ctx, n, s, d, p)
  }

  /** Picks made one after another from the sentence `s`, each allowed by
      `rule`: pick j with draw j on `s` followed by the texts of the picks
      before it. */
  ghost predicate Steps(rule: (seq<string>, Draw, Word) -> bool, s: seq<string>, ds: seq<Draw>, ps: seq<Word>)
    decreases |ps|
  {
    ps == [] ||
    (ds != [] && rule(s, ds[0], ps[0]) && Steps(rule, s + [ps[0].text], ds[1..], ps[1..]))
  }

  /**
   * `out` is a possible end of the loop started on the sentence `s0` with
   * draws `ds`, the `topWord` calls having returned `ps`: the loop stops
   * where the sentence no longer extends or the draws run out.
   */
  ghost predicate IsRun(ctx: Context, n: int, s0: seq<string>, ds: seq<Draw>, ps: seq<Word>, out: Outcome)
  {
    var s := s0 + Texts(ps);
    && s0 != [] && |ps| <= |ds| && Steps(PickRule(ctx, n), s0, ds, ps)
    && (|ps| < |ds| ==> !NextPass(ctx, n, s).Extend?)
    && out == Ending(ctx, n, s)
  }

  /** One more pick, made on the sentence the earlier ones built. */
  lemma {:induction false} StepsSnoc(rule: (seq<string>, Draw, Word) -> bool, s: seq<string>, ds: seq<Draw>, ps: seq<Word>, w: Word)
    requires Steps(rule, s, ds, ps) && |ps| < |ds|
    requires rule(s + Texts(ps), ds[|ps|], w)
    ensures Steps(rule, s, ds, ps + [w])
    decreases |ps|
  {
    if ps == [] {
      assert s + Texts(ps) == s;
      assert (ps + [w])[1..] == [];
    } else {
      var s' := s + [ps[0].text];
      assert s' + Texts(ps[1..]) == s + Texts(ps);
      StepsSnoc(rule, s', ds[1..], ps[1..], w);
      assert (ps + [w])[1..] == ps[1..] + [w];
    }
  }

  /** Pick j was made with draw j on the seed followed by the earlier picks. */
  lemma {:induction false} StepsAt(rule: (seq<string>, Draw, Word) -> bool, s: seq<string>, ds: seq<Draw>, ps: seq<Word>, j: nat)
    requires Steps(rule, s, ds, ps) && j < |ps|
    ensures j < |ds| && rule(s + Texts(ps[..j]), ds[j], ps[j])
    decreases j
  {
    if j == 0 {
      assert s + Texts(ps[..0]) == s;
    } else {
      StepsAt(rule, s + [ps[0].text], ds[1..], ps[1..], j - 1);
      assert ps[1..][..j - 1] == ps[1..j];
      assert s + [ps[0].text] + Texts(ps[1..j]) == s + Texts(ps[..j]);
    }
  }

  /** The `while (!isEndOfSentence(sentence.back()))` loop. */
  method ExtendSentence(ctx: Context, n: int, s0: seq<string>, ds: seq<Draw>) returns (out: Outcome, ghost picks: seq<Word>)
    requires s0 != []
    ensures IsRun(ctx, n, s0, ds, picks, out)
  {
    var s := s0;
    picks := [];
    var i := 0;
    while true
      invariant 0 <= i <= |ds| && |picks| == i && s == s0 + Texts(picks)
      invariant Steps(PickRule(ctx, n), s0, ds, picks)
      decreases |ds| - i
    {
      var pass := NextPass(ctx, n, s);
      if !pass.Extend? || i == |ds| {
        out := Ending(ctx, n, s);
        return;
      }
      var w := TopWord(pass.node, ds[i]);
      assert PickRule(ctx, n)(s, ds[i], w);
      StepsSnoc(PickRule(ctx, n), s0, ds, picks, w);
      AppendText(s0, picks, w);
      s := s + [w.text];
      picks := picks + [w];
      i := i + 1;
    }
  }

  lemma AppendText(s0: seq<string>, ps: seq<Word>, w: Word)
    ensures s0 + Texts(ps + [w]) == s0 + Texts(ps) + [w.text]
  {
    assert Texts(ps + [w]) == Texts(ps) + [w.text];
  }

  // ---------------------------------------------------------------------------
  // What a run produces
  // ---------------------------------------------------------------------------

  /** A finished sentence stops either on a sentence end or on a context
      word that is no root. */
  lemma SaidStops(ctx: Context, n: int, s0: seq<string>, ds: seq<Draw>, ps: seq<Word>, t: seq<string>)
    requires IsRun(ctx, n, s0, ds, ps, Said(t))
    ensures t == s0 + Texts(ps) && t != []
    ensures IsEndOfSentence(t[|t| - 1]) ||
            (0 <= |t| - (n - 1) < |t| && FindContext(ctx, t[|t| - (n - 1)]).None?)
  {
    var s := s0 + Texts(ps);
    assert s != [] && Ending(ctx, n, s) == Said(t);
    EndingSaid(ctx, n, s, t);
  }

  lemma EndingSaid(ctx: Context, n: int, s: seq<string>, t: seq<string>)
    requires s != [] && Ending(ctx, n, s) == Said(t)
    ensures t == s
    ensures IsEndOfSentence(t[|t| - 1]) ||
            (0 <= |t| - (n - 1) < |t| && FindContext(ctx, t[|t| - (n - 1)]).None?)
  {
  }

  /** Each appended word is the weight-0 placeholder of a leaf, or a child of
      the node its pass chose with at most 9 heavier siblings (one of the ten
      heaviest, ties aside). */
  lemma PickRanked(ctx: Context, n: int, s0: seq<string>, ds: seq<Draw>, ps: seq<Word>, out: Outcome, j: nat)
    requires IsRun(ctx, n, s0, ds, ps, out) && j < |ps|
    ensures var s := s0 + Texts(ps[..j]);
      NextPass(ctx, n, s).Extend? &&
      var c := NextPass(ctx, n, s).node;
      (c.children == map[] ==> ps[j] == NoWord) &&
      (c.children != map[] ==> ps[j] in c.children.Values && CountHeavier(ChildList(c), ps[j].weight) < 10)
  {
    StepsAt(PickRule(ctx, n), s0, ds, ps, j);
  }

  /** With an order of at least 2 and a seed of at least N - 1 words the
      context index never leaves the sentence. */
  lemma NeverUndefined(ctx: Context, n: int, s0: seq<string>, ds: seq<Draw>, ps: seq<Word>, out: Outcome)
    requires IsRun(ctx, n, s0, ds, ps, out)
    requires n >= 2 && |s0| >= n - 1
    ensures out != Undefined
  {
  }

  /** With an order below 2 the context index is past the last word, so a
      seed that does not end a sentence goes straight to undefined behaviour. */
  lemma OrderBelowTwo(ctx: Context, n: int, s0: seq<string>, ds: seq<Draw>, ps: seq<Word>, out: Outcome)
    requires IsRun(ctx, n, s0, ds, ps, out)
    requires n < 2 && !IsEndOfSentence(s0[|s0| - 1])
    ensures out == Undefined && ps == []
  {
  }

  /**
   * Roots keyed by their own text, as the learners build them, make the two
   * look-ups agree: the first snapshot word with the context text is the
   * live root of that key, and neither finds anything when there is none.
   */
  lemma ContextsAgree(m: map<string, Word>, sorted: seq<Word>, t: string)
    requires KeyedByText(m) && multiset(sorted) == multiset(RootList(m))
    ensures FindContext(Snapshot(sorted), t) == FindContext(Live(m), t)
  {
    var found := FindText(sorted, t, 0);
    if found.Some? {
      var w := sorted[found.value];
      assert w in multiset(RootList(m));
      var i :| 0 <= i < |RootList(m)| && RootList(m)[i] == w;
      var k :| k in m && m[k] == w;
      assert k == t;
    } else if t in m {
      SnapshotCovers(m, sorted, t);
      assert false;
    }
  }

  // ---------------------------------------------------------------------------
  // Speaking several sentences
  // ---------------------------------------------------------------------------

  /** The draws for sentence i: none beyond the given list. */
  function DrawsFor(draws: seq<seq<Draw>>, i: nat): seq<Draw>
  {
    if i < |draws| then draws[i] else []
  }

  /** How many sentences a run over k seeds speaks when all go well. */
  function Bound(k: nat, limit: Option<nat>): nat
  {
    if limit.Some? && limit.value < k then limit.value else k
  }

  /** Which runs may follow from seed x with draws ds: the extension loop
      started on the root's `outputTopSentence` path. */
  ghost function SeedRule(ctx: Context, n: int): (Word, seq<Draw>, seq<Word>, Outcome) -> bool
  {
    (x: Word, ds: seq<Draw>, ps: seq<Word>, out: Outcome) => IsRun(ctx, n, TopPath(x), ds, ps, out)
  }

  /**
   * `said` is what the sentence loop may print from the snapshot `sorted`:
   * sentence i is an extension run seeded with the `outputTopSentence` path
   * of the i-th capitalised root, with draws i; a run that ends other than
   * `Said` stops the loop; otherwise the loop speaks for every seed up to
   * the limit.
   */
  ghost predicate SpeaksFrom(sorted: seq<Word>, ctx: Context, n: int, limit: Option<nat>, draws: seq<seq<Draw>>,
                             said: seq<Outcome>, picks: seq<seq<Word>>)
  {
    var starts := Starts(sorted, 0);
    && RunsFrom(SeedRule(ctx, n), starts, draws, said, picks)
    && |said| <= Bound(|starts|, limit)
    && (forall i :: 0 <= i < |said| - 1 ==> said[i].Said?)
    && ((said == [] || said[|said| - 1].Said?) ==> |said| == Bound(|starts|, limit))
  }

  /** Sentence i follows from seed i with draws i by `rule`. */
  ghost predicate RunsFrom(rule: (Word, seq<Draw>, seq<Word>, Outcome) -> bool, starts: seq<Word>,
                           draws: seq<seq<Draw>>, said: seq<Outcome>, picks: seq<seq<Word>>)
    decreases |said|
  {
    && |said| == |picks| <= |starts|
    && (said != [] ==>
          var i := |said| - 1;
          && RunsFrom(rule, starts, draws, said[..i], picks[..i])
          && rule(starts[i], DrawsFor(draws, i), picks[i], said[i]))
  }

  lemma RunsFromSnoc(rule: (Word, seq<Draw>, seq<Word>, Outcome) -> bool, starts: seq<Word>,
                     draws: seq<seq<Draw>>, said: seq<Outcome>, picks: seq<seq<Word>>, out: Outcome, ps: seq<Word>)
    requires RunsFrom(rule, starts, draws, said, picks) && |said| < |starts|
    requires rule(starts[|said|], DrawsFor(draws, |said|), ps, out)
    ensures RunsFrom(rule, starts, draws, said + [out], picks + [ps])
  {
    assert (said + [out])[..|said|] == said && (picks + [ps])[..|said|] == picks;
  }

  /** Sentence i of the list, for any i. */
  lemma {:induction false} RunsFromAt(rule: (Word, seq<Draw>, seq<Word>, Outcome) -> bool, starts: seq<Word>,
                                      draws: seq<seq<Draw>>, said: seq<Outcome>, picks: seq<seq<Word>>, i: nat)
    requires RunsFrom(rule, starts, draws, said, picks) && i < |said|
    ensures i < |picks| && i < |starts| && rule(starts[i], DrawsFor(draws, i), picks[i], said[i])
    decreases |said|
  {
    var last := |said| - 1;
    if i < last {
      RunsFromAt(rule, starts, draws, said[..last], picks[..last], i);
      assert said[..last][i] == said[i] && picks[..last][i] == picks[i];
    }
  }

  /** The loop over the snapshot: roots that are not capitalised are skipped;
      each other root seeds a sentence, and the count is checked against the
      limit after each one. */
  method SpeakFrom(sorted: seq<Word>, ctx: Context, n: int, limit: Option<nat>, draws: seq<seq<Draw>>)
      returns (said: seq<Outcome>, ghost picks: seq<seq<Word>>)
    requires limit.Some? ==> limit.value >= 1
    ensures SpeaksFrom(sorted, ctx, n, limit, draws, said, picks)
  {
    said, picks := [], [];
    ghost var starts := Starts(sorted, 0);
    var k := 0;
    var stop := false;
    while k < |sorted| && !stop
      invariant 0 <= k <= |sorted| && |said| == |picks| <= |starts|
      invariant Starts(sorted, k) == starts[|said|..]
      invariant Spoken(limit, said, stop)
      invariant RunsFrom(SeedRule(ctx, n), starts, draws, said, picks)
      decreases |sorted| - k
    {
      said, picks, stop := SpeakAt(sorted, k, starts, ctx, n, limit, draws, said, picks);
      k := k + 1;
    }
    SpeaksFromEnd(sorted, ctx, n, limit, draws, said, picks, k, stop);
  }

  /** One pass of the sentence loop, at position k of the snapshot: a
      capitalised root seeds the next sentence. */
  method SpeakAt(sorted: seq<Word>, k: nat, ghost starts: seq<Word>, ctx: Context, n: int, limit: Option<nat>,
                 draws: seq<seq<Draw>>, said: seq<Outcome>, ghost picks: seq<seq<Word>>)
      returns (said': seq<Outcome>, ghost picks': seq<seq<Word>>, stop: bool)
    requires k < |sorted| && |said| <= |starts| && Starts(sorted, k) == starts[|said|..]
    requires Spoken(limit, said, false) && (limit.Some? ==> limit.value >= 1)
    requires RunsFrom(SeedRule(ctx, n), starts, draws, said, picks)
    ensures |said'| <= |starts| && Starts(sorted, k + 1) == starts[|said'|..]
    ensures Spoken(limit, said', stop)
    ensures RunsFrom(SeedRule(ctx, n), starts, draws, said', picks')
    ensures Capitalised(sorted[k]) <==> |said'| == |said| + 1
    ensures !Capitalised(sorted[k]) ==> said' == said && !stop
  {
    NextSeed(sorted, k, starts, |said|);
    if Capitalised(sorted[k]) {
      var out;
      out, picks' := SpeakSeed(starts, ctx, n, draws, said, picks, sorted[k]);
      SpokenSnoc(limit, said, out);
      said' := said + [out];
      stop := !out.Said? || (limit.Some? && |said'| == limit.value);
    } else {
      said', picks', stop := said, picks, false;
    }
  }

  /** The state of the sentence loop: all sentences but the last were said,
      and the loop stops at a failure or at the limit. */
  predicate Spoken(limit: Option<nat>, said: seq<Outcome>, stop: bool)
  {
    && (forall j :: 0 <= j < |said| - 1 ==> said[j].Said?)
    && (stop <==> said != [] && (!said[|said| - 1].Said? || (limit.Some? && |said| == limit.value)))
    && (limit.Some? ==> |said| <= limit.value)
  }

  lemma SpokenSnoc(limit: Option<nat>, said: seq<Outcome>, out: Outcome)
    requires Spoken(limit, said, false) && (limit.Some? ==> limit.value >= 1)
    ensures Spoken(limit, said + [out], !out.Said? || (limit.Some? && |said| + 1 == limit.value))
  {
  }

  lemma SpeaksFromEnd(sorted: seq<Word>, ctx: Context, n: int, limit: Option<nat>, draws: seq<seq<Draw>>,
                      said: seq<Outcome>, picks: seq<seq<Word>>, k: nat, stop: bool)
    requires k <= |sorted| && (k == |sorted| || stop) && (limit.Some? ==> limit.value >= 1)
    requires |said| <= |Starts(sorted, 0)| && Starts(sorted, k) == Starts(sorted, 0)[|said|..]
    requires Spoken(limit, said, stop)
    requires RunsFrom(SeedRule(ctx, n), Starts(sorted, 0), draws, said, picks)
    ensures SpeaksFrom(sorted, ctx, n, limit, draws, said, picks)
  {
  }

  /** Sentence |said| from seed x, added to the list. */
  method SpeakSeed(ghost starts: seq<Word>, ctx: Context, n: int, draws: seq<seq<Draw>>,
                   said: seq<Outcome>, ghost picks: seq<seq<Word>>, x: Word)
      returns (out: Outcome, ghost picks': seq<seq<Word>>)
    requires RunsFrom(SeedRule(ctx, n), starts, draws, said, picks) && |said| < |starts| && starts[|said|] == x
    ensures RunsFrom(SeedRule(ctx, n), starts, draws, said + [out], picks') && |picks'| == |said| + 1
  {
    ghost var ps;
    out, ps := SpeakOne(x, ctx, n, DrawsFor(draws, |said|));
    assert SeedRule(ctx, n)(x, DrawsFor(draws, |said|), ps, out);
    RunsFromSnoc(SeedRule(ctx, n), starts, draws, said, picks, out, ps);
    picks' := picks + [ps];
  }

  /** Position k of the snapshot is the next seed exactly when it is
      capitalised. */
  lemma NextSeed(sorted: seq<Word>, k: nat, starts: seq<Word>, i: nat)
    requires k < |sorted| && i <= |starts| && Starts(sorted, k) == starts[i..]
    ensures Capitalised(sorted[k]) ==> i < |starts| && starts[i] == sorted[k] && Starts(sorted, k + 1) == starts[i + 1..]
    ensures !Capitalised(sorted[k]) ==> Starts(sorted, k + 1) == starts[i..]
  {
    if Capitalised(sorted[k]) {
      assert starts[i..] == [sorted[k]] + Starts(sorted, k + 1);
      assert starts[i..][1..] == starts[i + 1..];
    }
  }

  /** One sentence: the root's `outputTopSentence` path, then the extension
      loop. */
  method SpeakOne(x: Word, ctx: Context, n: int, ds: seq<Draw>) returns (out: Outcome, ghost picks: seq<Word>)
    ensures IsRun(ctx, n, TopPath(x), ds, picks, out)
  {
    var seed := OutputTopSentence(x, []);
    assert seed == TopPath(x);
    out, picks := ExtendSentence(ctx, n, seed, ds);
  }

  /** Every sentence spoken is seeded by a capitalised root of the snapshot,
      visited in snapshot order, and no more are spoken than the limit
      allows. */
  lemma SpokenSeeds(sorted: seq<Word>, ctx: Context, n: int, limit: Option<nat>, draws: seq<seq<Draw>>,
                    said: seq<Outcome>, picks: seq<seq<Word>>, i: nat)
    requires SpeaksFrom(sorted, ctx, n, limit, draws, said, picks) && i < |said|
    ensures i < |Starts(sorted, 0)| && Capitalised(Starts(sorted, 0)[i]) && Starts(sorted, 0)[i] in sorted
    ensures IsRun(ctx, n, TopPath(Starts(sorted, 0)[i]), DrawsFor(draws, i), picks[i], said[i])
    ensures limit.Some? ==> |said| <= limit.value
  {
    RunsFromAt(SeedRule(ctx, n), Starts(sorted, 0), draws, said, picks, i);
    StartsAreCapitalised(sorted, 0, i);
    assert sorted[0..] == sorted;
  }

  // ---------------------------------------------------------------------------
  // Output text
  // ---------------------------------------------------------------------------

  /** Every word followed by one space. */
  function Spaced(ws: seq<string>): string
  {
    if ws == [] then "" else Spaced(ws[..|ws| - 1]) + ws[|ws| - 1] + " "
  }

  /** `for (auto x : sentence) outputSentence += x + " ";` */
  method SpaceWords(ws: seq<string>) returns (out: string)
    ensures out == Spaced(ws)
  {
    out := "";
    var i := 0;
    while i < |ws|
      invariant 0 <= i <= |ws| && out == Spaced(ws[..i])
    {
      assert ws[..i + 1][..i] == ws[..i];
      out := out + ws[i] + " ";
      i := i + 1;
    }
    assert ws[..i] == ws;
  }

  lemma {:induction false} SpacedCons(ws: seq<string>)
    requires ws != []
    ensures Spaced(ws) == ws[0] + " " + Spaced(ws[1..])
    decreases |ws|
  {
    if |ws| > 1 {
      var init := ws[..|ws| - 1];
      SpacedCons(init);
      assert init[1..] == ws[1..][..|ws[1..]| - 1];
      assert Spaced(ws[1..]) == Spaced(init[1..]) + ws[|ws| - 1] + " ";
    } else {
      assert ws[..0] == [] && ws[1..] == [];
    }
  }

  /** Reading the text back splits it into the words again, when every word
      is non-empty and free of whitespace. */
  lemma {:induction false} SpacedRoundTrip(ws: seq<string>)
    requires AllFields(ws)
    ensures Tokenize(Spaced(ws)) == ws
    decreases |ws|
  {
    if ws != [] {
      SpacedCons(ws);
      assert AllFields(ws[1..]);
      SpacedRoundTrip(ws[1..]);
      assert ws[0] + " " + Spaced(ws[1..]) == ws[0] + [' '] + Spaced(ws[1..]);
      TokenizeField(ws[0], ' ', Spaced(ws[1..]));
      assert ws == [ws[0]] + ws[1..];
    }
  }
}
