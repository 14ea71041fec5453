/**
 * main.cpp: the comparators declared next to its own copy of `struct Word`
 * (the same node as word.hpp, so `Words` models it), the header-less store
 * "data.txt", and `readSTDIN`, which cuts the input into sentences and
 * merges every sentence into the root map.
 */
module MainProgram {
  import opened Wrappers
  import opened Text
  import opened Words
  import opened WordFormat
  import opened Store
  import opened Files
  import opened Chain
  import opened Learner

  // ---------------------------------------------------------------------------
  // Comparators
  // ---------------------------------------------------------------------------

  /** `orderByWeight`: the heavier word first. */
  predicate OrderByWeight(a: Word, b: Word)
  {
    a.weight > b.weight
  }

  /** A strict weak order, as `std::sort` requires of its comparator:
      irreflexive, transitive, and words of equal weight are interchangeable. */
  lemma OrderByWeightStrictWeak(a: Word, b: Word, c: Word)
    ensures !OrderByWeight(a, a)
    ensures OrderByWeight(a, b) && OrderByWeight(b, c) ==> OrderByWeight(a, c)
    ensures !OrderByWeight(a, b) && !OrderByWeight(b, a) <==> a.weight == b.weight
  {
  }

  /** Sorting by it yields exactly the non-increasing weight order. */
  lemma OrderByWeightSorted(s: seq<Word>)
    ensures WeightSorted(s) <==> forall i, j :: 0 <= i < j < |s| ==> !OrderByWeight(s[j], s[i])
  {
  }

  /**
   * `markovWeightOrdering(w1, w2)`, written as the merge predicate of
   * `list::unique` (w2 is dropped when it returns true): words with equal
   * texts fold w2 into w1 by adding 1 to w1's weight. The node w1 points to
   * comes back as `w`; nothing of it but the weight can change.
   */
  method MarkovWeightOrdering(w1: Word, w2: Word) returns (removed: bool, w: Word)
    ensures removed <==> w1.text == w2.text
    ensures w.weight == if removed then w1.weight + 1 else w1.weight
    ensures w.text == w1.text && w.tags == w1.tags && w.children == w1.children
  {
    w := w1;
    if w1.text == w2.text {
      w := w.(weight := w.weight + 1);
      return true, w;
    }
    return false, w;
  }

  /** Case-insensitive order: the map key order of the lower-cased texts. */
  predicate CaseLess(a: string, b: string)
  {
    KeyLess(Lower(a), Lower(b))
  }

  /** `alphabetOrder(w1, w2)` on the two words' texts: compares the
      lower-cased characters up to the shorter length, then the lengths. */
  method AlphabetOrder(a: string, b: string) returns (r: bool)
    ensures r == CaseLess(a, b)
  {
    var i := 0;
    while i < |a| && i < |b|
      invariant 0 <= i <= |a| && i <= |b|
      invariant CaseLess(a, b) == KeyLess(Lower(a)[i..], Lower(b)[i..])
    {
      if ToLower(a[i]) < ToLower(b[i]) {
        return true;
      } else if ToLower(a[i]) > ToLower(b[i]) {
        return false;
      }
      assert Lower(a)[i..][1..] == Lower(a)[i + 1..] && Lower(b)[i..][1..] == Lower(b)[i + 1..];
      i := i + 1;
    }
    return |a| < |b|;
  }

  /** A proper prefix, up to case, sorts first. */
  lemma CaseLessPrefix(a: string, b: string)
    requires |a| < |b| && Lower(a) == Lower(b)[..|a|]
    ensures CaseLess(a, b)
  {
    KeyLessPrefix(Lower(a), Lower(b));
  }

  lemma {:induction false} KeyLessPrefix(x: string, y: string)
    requires |x| < |y| && x == y[..|x|]
    ensures KeyLess(x, y)
  {
    if x != [] {
      assert x[1..] == y[1..][..|x| - 1];
      KeyLessPrefix(x[1..], y[1..]);
    }
  }

  /** A strict order on texts: irreflexive, asymmetric and transitive; two
      texts are unordered exactly when they agree up to case. */
  lemma CaseLessStrict(a: string, b: string, c: string)
    ensures !CaseLess(a, a)
    ensures CaseLess(a, b) ==> !CaseLess(b, a)
    ensures CaseLess(a, b) && CaseLess(b, c) ==> CaseLess(a, c)
    ensures !CaseLess(a, b) && !CaseLess(b, a) <==> Lower(a) == Lower(b)
  {
    KeyLessIrreflexive(Lower(a));
    KeyLessAsymmetric(Lower(a), Lower(b));
    KeyLessTotal(Lower(a), Lower(b));
    if CaseLess(a, b) && CaseLess(b, c) {
      KeyLessTransitive(Lower(a), Lower(b), Lower(c));
    }
  }

  // ---------------------------------------------------------------------------
  // The header-less store
  // ---------------------------------------------------------------------------

  /** `loadFile(f)`: the root count into a `size_t` that starts at 0, then
      the root loop; an unopenable file gives no roots. */
  method LoadFile(fs: FileSystem, f: string := "data.txt") returns (roots: map<string, Word>)
    ensures f !in fs.files ==> roots == map[]
    ensures f in fs.files ==> roots == LoadUnordered(fs.files[f])
  {
    var content := fs.Read(f);
    if content.None? {
      return map[];
    }
    var st := OpenStream(content.value);
    var mapSize := ReadCount(st, 0);
    var rest;
    roots, rest := ReadRoots(mapSize.1, mapSize.0);
  }

  /** `save(l)`: the root count, then the roots, into "data.txt"; nothing is
      written when that file cannot be opened. */
  method Save(fs: FileSystem, roots: map<string, Word>)
    modifies fs
    ensures "data.txt" in fs.unwritable ==> fs.files == old(fs.files)
    ensures "data.txt" !in fs.unwritable ==>
              fs.files == old(fs.files)["data.txt" := StoreText([IntToDec(|roots|)], roots)]
  {
    var ok := fs.Create("data.txt");
    if !ok {
      return;
    }
    var text := WriteUnorderedFile(roots);
    fs.Write("data.txt", text);
    assert "" + text == text;
  }

  /** The text `save` writes: the root count, then the roots. */
  method WriteUnorderedFile(roots: map<string, Word>) returns (text: string)
    ensures text == StoreText([IntToDec(|roots|)], roots)
  {
    var body := WriteRoots(roots);
    text := IntToDec(|roots|) + "\n" + body;
    assert [IntToDec(|roots|)][1..] == [];
    assert Lines([IntToDec(|roots|)]) == IntToDec(|roots|) + "\n";
  }

  /** What `save` wrote, `loadFile` reads back, for roots the format can
      carry. */
  lemma SaveThenLoad(files: map<string, string>, roots: map<string, Word>)
    requires RootsWellFormed(roots)
    ensures var saved := files["data.txt" := StoreText([IntToDec(|roots|)], roots)];
      LoadUnordered(saved["data.txt"]) == roots
  {
    LoadUnorderedOfStore(roots);
  }

  // ---------------------------------------------------------------------------
  // Sentences
  // ---------------------------------------------------------------------------

  /** Length of the sentence at the head of `ws`: up to and including the
      first sentence-ending word, or all of `ws` when no word ends one. */
  function SentenceLen(ws: seq<Word>): (n: nat)
    ensures ws != [] ==> 1 <= n <= |ws|
    ensures ws == [] ==> n == 0
    decreases |ws|
  {
    if ws == [] then 0
    else if IsEndOfSentence(ws[0].text) then 1
    else 1 + SentenceLen(ws[1..])
  }

  /** The chunks `readSTDIN` learns, in input order. */
  function Sentences(ws: seq<Word>): seq<seq<Word>>
    decreases |ws|
  {
    if ws == [] then [] else [ws[..SentenceLen(ws)]] + Sentences(ws[SentenceLen(ws)..])
  }

  function Concat(cs: seq<seq<Word>>): seq<Word>
  {
    if cs == [] then [] else cs[0] + Concat(cs[1..])
  }

  /** A chunk: non-empty, no sentence end before its last word, and, unless
      it is the input's last chunk, a sentence end as its last word. */
  predicate IsSentence(c: seq<Word>, last: bool)
  {
    && c != []
    && (forall j :: 0 <= j < |c| - 1 ==> !IsEndOfSentence(c[j].text))
    && (last || IsEndOfSentence(c[|c| - 1].text))
  }

  predicate IsSentenceSplit(ws: seq<Word>, cs: seq<seq<Word>>)
  {
    Concat(cs) == ws && forall i :: 0 <= i < |cs| ==> IsSentence(cs[i], i == |cs| - 1)
  }

  /** `SentenceLen` is the only length a head chunk can have. */
  lemma {:induction false} SentenceLenIs(ws: seq<Word>, n: nat)
    requires 1 <= n <= |ws|
    requires forall j :: 0 <= j < n - 1 ==> !IsEndOfSentence(ws[j].text)
    requires n == |ws| || IsEndOfSentence(ws[n - 1].text)
    ensures SentenceLen(ws) == n
    decreases n
  {
    if n > 1 {
      assert !IsEndOfSentence(ws[0].text);
      SentenceLenIs(ws[1..], n - 1);
    }
  }

  /** The head chunk ends at the first sentence end or at the end of input. */
  lemma {:induction false} SentenceLenSpec(ws: seq<Word>)
    requires ws != []
    ensures IsSentence(ws[..SentenceLen(ws)], SentenceLen(ws) == |ws|)
    decreases |ws|
  {
    if !IsEndOfSentence(ws[0].text) && |ws| > 1 {
      SentenceLenSpec(ws[1..]);
      assert ws[..SentenceLen(ws)] == [ws[0]] + ws[1..][..SentenceLen(ws[1..])];
    }
  }

  /** The chunks are non-empty, concatenate back to the input, and each ends
      at its first sentence end (or at the end of input). */
  lemma {:induction false} SentencesSplit(ws: seq<Word>)
    ensures IsSentenceSplit(ws, Sentences(ws))
    decreases |ws|
  {
    if ws != [] {
      var n := SentenceLen(ws);
      var cs := Sentences(ws);
      SentenceLenSpec(ws);
      SentencesSplit(ws[n..]);
      assert cs[1..] == Sentences(ws[n..]);
      assert Concat(cs) == ws[..n] + ws[n..];
      assert ws[..n] + ws[n..] == ws;
      if n < |ws| {
        assert Sentences(ws[n..]) != [];
      }
    }
  }

  /** ... and they are the only split with those properties. */
  lemma {:induction false} SentenceSplitUnique(ws: seq<Word>, cs: seq<seq<Word>>)
    requires IsSentenceSplit(ws, cs)
    ensures cs == Sentences(ws)
    decreases |cs|
  {
    if cs != [] {
      var c := cs[0];
      var n := |c|;
      assert ws == c + Concat(cs[1..]);
      assert ws[..n] == c && ws[n..] == Concat(cs[1..]);
      if |cs| == 1 {
        assert Concat(cs[1..]) == [];
      }
      SentenceLenIs(ws, n);
      assert IsSentenceSplit(ws[n..], cs[1..]) by {
        forall i | 0 <= i < |cs| - 1
          ensures IsSentence(cs[1..][i], i == |cs[1..]| - 1)
        {
          assert cs[1..][i] == cs[i + 1];
        }
      }
      SentenceSplitUnique(ws[n..], cs[1..]);
    }
  }

  /** One pass of the outer loop: the chunk from `start` to `x`. */
  lemma SentenceStep(ws: seq<Word>, start: nat, x: nat)
    requires start < x <= |ws|
    requires forall j :: start <= j < x - 1 ==> !IsEndOfSentence(ws[j].text)
    requires x == |ws| || IsEndOfSentence(ws[x - 1].text)
    ensures Sentences(ws[start..]) == [ws[start..x]] + Sentences(ws[x..])
  {
    var v := ws[start..];
    SentenceLenIs(v, x - start);
    assert v[..x - start] == ws[start..x];
    assert v[x - start..] == ws[x..];
  }

  /**
   * The chunking loop of `readSTDIN`: each pass takes the next sentence out
   * of the list; its first word becomes (or adds 1 to) a root and the rest
   * go through `addWordInChain`.
   */
  method LearnSentences(words: seq<Option<Word>>, roots: map<string, Word>) returns (r: map<string, Word>)
    requires AllOwned(words)
    ensures r == Learn(roots, Sentences(Held(words)))
  {
    var list := words;
    ghost var ws := Held(list);
    ghost var cs := Sentences(ws);
    ghost var k := 0;
    r := roots;
    var x := 0;
    assert ws[0..] == ws;
    while x < |list|
      invariant |list| == |ws| && 0 <= x <= |ws| && 0 <= k <= |cs|
      invariant forall j :: x <= j < |list| ==> list[j] == Some(ws[j])
      invariant cs == cs[..k] + Sentences(ws[x..])
      invariant r == Learn(roots, cs[..k])
      decreases |list| - x
    {
      var temp;
      temp, list, x := TakeSentence(list, x, ws);
      SplitStep(cs, k, temp, Sentences(ws[x..]));
      r := LearnWindow(r, temp);
      LearnSnoc(roots, cs[..k], temp);
      k := k + 1;
    }
    assert cs[..k] == cs;
  }

  lemma SplitStep<T>(cs: seq<T>, k: nat, c: T, rest: seq<T>)
    requires k <= |cs| && cs == cs[..k] + ([c] + rest)
    ensures k < |cs| && cs[k] == c && cs == cs[..k + 1] + rest && cs[..k + 1] == cs[..k] + [c]
  {
    assert cs[..k + 1] == cs[..k] + [c];
  }

  /**
   * One sentence, from position x: the run of words that do not end a
   * sentence is moved into the chunk, and then the sentence end, if the
   * input has one left. The slots moved from are exactly the chunk's; none
   * of them is read again.
   */
  method TakeSentence(list: seq<Option<Word>>, x: nat, ghost ws: seq<Word>)
      returns (temp: seq<Word>, list': seq<Option<Word>>, x': nat)
    requires |list| == |ws| && x < |list|
    requires forall j :: x <= j < |list| ==> list[j] == Some(ws[j])
    ensures x < x' <= |ws| && temp == ws[x..x']
    ensures |list'| == |list|
    ensures forall j :: 0 <= j < |list| && !(x <= j < x') ==> list'[j] == list[j]
    ensures forall j :: x <= j < x' ==> list'[j] == None
    ensures Sentences(ws[x..]) == [temp] + Sentences(ws[x'..])
  {
    temp, list', x' := MoveRun(list, x, ws);
    if x' != |list'| {
      assert ws[x..x' + 1] == ws[x..x'] + [ws[x']];
      temp := temp + [list'[x'].value];
      list' := list'[x' := None];
      x' := x' + 1;
    }
    SentenceStep(ws, x, x');
  }

  /** The inner loop: words are moved into the chunk up to the first one
      that ends a sentence or the end of the list. Its `if (x == end)
      break;` is the guard's first conjunct here, which holds on entry since
      the outer loop runs only while words remain. */
  method MoveRun(list: seq<Option<Word>>, x: nat, ghost ws: seq<Word>)
      returns (temp: seq<Word>, list': seq<Option<Word>>, x': nat)
    requires |list| == |ws| && x < |list|
    requires forall j :: x <= j < |list| ==> list[j] == Some(ws[j])
    ensures x <= x' <= |ws| && temp == ws[x..x'] && |list'| == |list|
    ensures forall j :: 0 <= j < |list| && !(x <= j < x') ==> list'[j] == list[j]
    ensures forall j :: x <= j < x' ==> list'[j] == None
    ensures forall j :: x <= j < x' ==> !IsEndOfSentence(ws[j].text)
    ensures x' == |ws| || IsEndOfSentence(ws[x'].text)
  {
    temp, list', x' := [], list, x;
    while x' < |list'| && !IsEndOfSentence(list'[x'].value.text)
      invariant x <= x' <= |list'| && |list'| == |list|
      invariant temp == ws[x..x']
      invariant forall j :: 0 <= j < |list| && !(x <= j < x') ==> list'[j] == list[j]
      invariant forall j :: x <= j < x' ==> list'[j] == None
      invariant forall j :: x <= j < x' ==> !IsEndOfSentence(ws[j].text)
    {
      assert ws[x..x' + 1] == ws[x..x'] + [ws[x']];
      temp := temp + [list'[x'].value];
      list' := list'[x' := None];
      x' := x' + 1;
    }
  }

  /** `readSTDIN(myMap)`: every token of the input as a fresh word, the
      sentences learned into the roots, then `save`. */
  method ReadStdin(fs: FileSystem, input: string, roots: map<string, Word>) returns (r: map<string, Word>)
    modifies fs
    ensures r == Learn(roots, Sentences(FreshWords(OpenStream(input).tokens)))
    ensures "data.txt" in fs.unwritable ==> fs.files == old(fs.files)
    ensures "data.txt" !in fs.unwritable ==> fs.files == old(fs.files)["data.txt" := StoreText([IntToDec(|r|)], r)]
  {
    var list := ReadWords(input);
    r := LearnSentences(list, roots);
    Save(fs, r);
  }

  /** Sentences of fresh words are fresh. */
  lemma SentencesFresh(ws: seq<Word>)
    requires AllFresh(ws)
    ensures AllWindowsFresh(Sentences(ws))
  {
    var cs := Sentences(ws);
    SentencesSplit(ws);
    forall i | 0 <= i < |cs| ensures AllFresh(cs[i]) {
      ConcatMember(cs, i);
    }
  }

  /** Every word of a chunk is a word of the input. */
  lemma {:induction false} ConcatMember(cs: seq<seq<Word>>, i: nat)
    requires i < |cs|
    ensures forall j :: 0 <= j < |cs[i]| ==> cs[i][j] in Concat(cs)
  {
    if i > 0 {
      ConcatMember(cs[1..], i - 1);
    }
  }

  /**
   * After `readSTDIN`, the node at path p has gained one weight per sentence
   * that starts with p; a root gains one per sentence it opens. A node exists
   * exactly when it existed before or some sentence starts with its path.
   */
  lemma LearnSentencesPaths(roots: map<string, Word>, ts: seq<string>, p: seq<string>)
    requires p != []
    ensures var cs := Sentences(FreshWords(ts));
      && WeightAt(Learn(roots, cs), p) == WeightAt(roots, p) + CountPrefixed(p, cs)
      && (Lookup(Learn(roots, cs), p).Some? <==> Lookup(roots, p).Some? || CountPrefixed(p, cs) > 0)
  {
    SentencesFresh(FreshWords(ts));
    LearnPaths(roots, Sentences(FreshWords(ts)), p);
  }
}
