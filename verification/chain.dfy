/**
 * What the learners build from a token list: the sliding windows of n
 * consecutive words, and the root map obtained by merging the windows one
 * after the other (root find-or-insert, then `addWordInChain` with the rest).
 */
module Chain {
  import opened Wrappers
  import opened Words

  /** One fresh node per token, in order (`new Word(userText)` per token). */
  function FreshWords(ts: seq<string>): (ws: seq<Word>)
    ensures |ws| == |ts| && AllFresh(ws)
    ensures forall i :: 0 <= i < |ts| ==> ws[i] == Fresh(ts[i])
  {
    if ts == [] then [] else [Fresh(ts[0])] + FreshWords(ts[1..])
  }

  lemma FreshWordsTexts(ts: seq<string>)
    ensures Texts(FreshWords(ts)) == ts
  {
    var r := Texts(FreshWords(ts));
    assert |r| == |ts|;
    forall i | 0 <= i < |ts| ensures r[i] == ts[i] {
    }
  }

  // ---------------------------------------------------------------------------
  // Windows
  // ---------------------------------------------------------------------------

  /** The windows of `n` consecutive words; an order below 1 yields none. */
  function Windows(ws: seq<Word>, n: int): seq<seq<Word>>
    decreases |ws|
  {
    if n < 1 || |ws| < n then [] else [ws[..n]] + Windows(ws[1..], n)
  }

  /** L words give max(0, L - n + 1) windows: a tail shorter than n starts
      none. */
  lemma {:induction false} WindowCount(ws: seq<Word>, n: int)
    ensures |Windows(ws, n)| == if n < 1 || |ws| < n then 0 else |ws| - n + 1
    decreases |ws|
  {
    if n >= 1 && |ws| >= n {
      WindowCount(ws[1..], n);
    }
  }

  /** Window k is words k .. k + n - 1. */
  lemma {:induction false} WindowAt(ws: seq<Word>, n: int, k: nat)
    requires k < |Windows(ws, n)|
    ensures n >= 1 && k + n <= |ws| && Windows(ws, n)[k] == ws[k..k + n]
    decreases |ws|
  {
    if k > 0 {
      WindowAt(ws[1..], n, k - 1);
      assert ws[1..][k - 1..k - 1 + n] == ws[k..k + n];
    }
  }

  /** Learning one more window of the list: window k is words k .. k + n - 1. */
  lemma LearnNextWindow(m: map<string, Word>, ws: seq<Word>, n: int, k: nat)
    requires k < |Windows(ws, n)|
    ensures n >= 1 && k + n <= |ws|
    ensures Learn(m, Windows(ws, n)[..k + 1]) == MergeInto(Learn(m, Windows(ws, n)[..k]), ws[k..k + n])
  {
    var wins := Windows(ws, n);
    WindowAt(ws, n, k);
    LearnSnoc(m, wins[..k], wins[k]);
    assert wins[..k + 1] == wins[..k] + [wins[k]];
  }

  predicate AllWindowsFresh(wins: seq<seq<Word>>)
  {
    forall i :: 0 <= i < |wins| ==> AllFresh(wins[i])
  }

  lemma WindowsFresh(ws: seq<Word>, n: int)
    requires AllFresh(ws)
    ensures AllWindowsFresh(Windows(ws, n))
  {
    var wins := Windows(ws, n);
    forall i | 0 <= i < |wins| ensures AllFresh(wins[i]) {
      WindowAt(ws, n, i);
      assert forall j :: 0 <= j < n ==> wins[i][j] == ws[i + j];
    }
  }

  // ---------------------------------------------------------------------------
  // Learning a list of windows
  // ---------------------------------------------------------------------------

  /** The root map after merging the windows in order. */
  function Learn(m: map<string, Word>, wins: seq<seq<Word>>): map<string, Word>
    decreases |wins|
  {
    if wins == [] then m else MergeInto(Learn(m, wins[..|wins| - 1]), wins[|wins| - 1])
  }

  /** How many of the windows start with the keys of `p`. */
  function CountPrefixed(p: seq<string>, wins: seq<seq<Word>>): nat
    decreases |wins|
  {
    if wins == [] then 0
    else CountPrefixed(p, wins[..|wins| - 1]) + (if IsPrefix(p, Texts(wins[|wins| - 1])) then 1 else 0)
  }

  lemma LearnSnoc(m: map<string, Word>, wins: seq<seq<Word>>, w: seq<Word>)
    ensures Learn(m, wins + [w]) == MergeInto(Learn(m, wins), w)
    ensures forall p :: CountPrefixed(p, wins + [w]) == CountPrefixed(p, wins) + (if IsPrefix(p, Texts(w)) then 1 else 0)
  {
    assert (wins + [w])[..|wins|] == wins;
  }

  /**
   * The weight of every node after learning: the old weight plus one per
   * window that starts with the node's path. A path no window starts with
   * is left exactly as it was, and a node exists afterwards exactly when it
   * existed before or some window starts with its path.
   */
  lemma {:induction false} LearnPaths(m: map<string, Word>, wins: seq<seq<Word>>, p: seq<string>)
    requires AllWindowsFresh(wins) && p != []
    ensures WeightAt(Learn(m, wins), p) == WeightAt(m, p) + CountPrefixed(p, wins)
    ensures Lookup(Learn(m, wins), p).Some? <==> Lookup(m, p).Some? || CountPrefixed(p, wins) > 0
    ensures CountPrefixed(p, wins) == 0 ==> Lookup(Learn(m, wins), p) == Lookup(m, p)
    decreases |wins|
  {
    if wins != [] {
      var init := wins[..|wins| - 1];
      var last := wins[|wins| - 1];
      assert AllWindowsFresh(init);
      LearnPaths(m, init, p);
      MergeIntoPath(Learn(m, init), last, p);
    }
  }

  /** Learning keeps every root stored under its own text. */
  lemma {:induction false} LearnKeyedByText(m: map<string, Word>, wins: seq<seq<Word>>)
    requires KeyedByText(m)
    ensures KeyedByText(Learn(m, wins))
    decreases |wins|
  {
    if wins != [] {
      LearnKeyedByText(m, wins[..|wins| - 1]);
      MergeIntoKeyedByText(Learn(m, wins[..|wins| - 1]), wins[|wins| - 1]);
    }
  }

  /** No window starts with a path longer than the order. */
  lemma {:induction false} TooLongPath(ws: seq<Word>, n: int, p: seq<string>)
    requires |p| > n
    ensures CountPrefixed(p, Windows(ws, n)) == 0
  {
    var wins := Windows(ws, n);
    forall i | 0 <= i < |wins| ensures |wins[i]| < |p| {
      WindowAt(ws, n, i);
    }
    CountNone(p, wins);
  }

  lemma {:induction false} CountNone(p: seq<string>, wins: seq<seq<Word>>)
    requires forall i :: 0 <= i < |wins| ==> |wins[i]| < |p|
    ensures CountPrefixed(p, wins) == 0
    decreases |wins|
  {
    if wins != [] {
      CountNone(p, wins[..|wins| - 1]);
    }
  }

  /**
   * Starting from an empty map, the node at path p exists exactly when some
   * window starts with p, and its weight is the number of such windows.
   */
  lemma LearnFromEmpty(ws: seq<Word>, n: int, p: seq<string>)
    requires AllFresh(ws) && p != []
    ensures WeightAt(Learn(map[], Windows(ws, n)), p) == CountPrefixed(p, Windows(ws, n))
    ensures Lookup(Learn(map[], Windows(ws, n)), p).Some? <==> CountPrefixed(p, Windows(ws, n)) > 0
  {
    WindowsFresh(ws, n);
    LookupEmpty(p);
    LearnPaths(map[], Windows(ws, n), p);
  }

  /**
   * The learners' root step: find-or-insert the window's first word (a new
   * root is that word itself, with weight 1; an existing root gains 1), then
   * `addWordInChain` on the root with the rest of the window. This is one
   * merge of the whole window into the root map.
   */
  method LearnWindow(m: map<string, Word>, window: seq<Word>) returns (r: map<string, Word>)
    requires window != []
    ensures r == MergeInto(m, window)
  {
    var wt := window[0];
    var rest := window[1..];
    r := m;
    if wt.text in r {
      r := r[wt.text := r[wt.text].(weight := r[wt.text].weight + 1)];
    } else {
      r := r[wt.text := wt];
    }
    r := r[wt.text := AddWordInChain(r[wt.text], rest)];
  }
}
