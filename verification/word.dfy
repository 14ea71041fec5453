/**
 * The trie node of the Markov chain (`struct Word`): a token text, a weight,
 * a list of tags (`characteristics_`) and an owned map from the next token's
 * text to the child node. Ownership is exclusive (`unique_ptr`), so a node is
 * modelled as a value and a deep copy is the value itself.
 */
module Words {
  import opened Wrappers
  import opened Text

  datatype Word = Word(text: string, weight: int, tags: seq<string>, children: map<string, Word>)

  /** `new Word(txt)`: how the learners create a token. */
  function Fresh(text: string): (w: Word)
    ensures w.text == text && w.weight == 1 && w.tags == [] && w.children == map[]
  {
    Word(text, 1, [], map[])
  }

  /** The placeholder `topWord` and `outputTopSentence` start from:
      empty text and weight 0. */
  const NoWord := Word("", 0, [], map[])

  predicate IsEndOfSentence(w: string)
  {
    Contains(w, ".") || Contains(w, "!") || Contains(w, "?")
  }

  lemma IsEndOfSentenceIff(w: string)
    ensures IsEndOfSentence(w) <==> exists i :: 0 <= i < |w| && (w[i] == '.' || w[i] == '!' || w[i] == '?')
  {
    ContainsChar(w, '.');
    ContainsChar(w, '!');
    ContainsChar(w, '?');
  }

  // ---------------------------------------------------------------------------
  // addWordInChain
  // ---------------------------------------------------------------------------

  function Texts(ws: seq<Word>): (r: seq<string>)
    ensures |r| == |ws| && forall i :: 0 <= i < |ws| ==> r[i] == ws[i].text
  {
    if ws == [] then [] else [ws[0].text] + Texts(ws[1..])
  }

  /** The learners only ever pass tokens that are weight 1 and childless. */
  predicate AllFresh(ws: seq<Word>)
  {
    forall i :: 0 <= i < |ws| ==> ws[i].weight == 1 && ws[i].children == map[]
  }

  /** The find-or-insert walk of `addWordInChain`, applied to a child map:
      the first word's text is looked up; an existing node gets weight + 1,
      a missing one is inserted as the incoming word itself; the rest of the
      list goes one level further down. */
  function MergeInto(chain: map<string, Word>, ws: seq<Word>): (r: map<string, Word>)
    ensures r.Keys == if ws == [] then chain.Keys else chain.Keys + {ws[0].text}
    decreases |ws|
  {
    if ws == [] then chain
    else
      var k := ws[0].text;
      if k in chain then
        var node := chain[k];
        chain[k := node.(weight := node.weight + 1, children := MergeInto(node.children, ws[1..]))]
      else
        chain[k := ws[0].(children := MergeInto(ws[0].children, ws[1..]))]
  }

  /** Every node of the map is stored under its own text. */
  predicate KeyedByText(m: map<string, Word>)
  {
    forall k :: k in m ==> m[k].text == k
  }

  /** A merge stores a new node under its text and keeps existing texts. */
  lemma MergeIntoKeyedByText(m: map<string, Word>, ws: seq<Word>)
    requires KeyedByText(m)
    ensures KeyedByText(MergeInto(m, ws))
  {
  }

  /** `w.addWordInChain(wl)`. */
  function AddWordInChain(w: Word, ws: seq<Word>): (r: Word)
    ensures r.text == w.text && r.weight == w.weight && r.tags == w.tags
    ensures ws == [] ==> r == w
    ensures r.children.Keys == w.children.Keys + (if ws == [] then {} else {ws[0].text})
  {
    w.(children := MergeInto(w.children, ws))
  }

  /** The node reached from `chain` by following the keys of `p`. */
  function Lookup(chain: map<string, Word>, p: seq<string>): Option<Word>
    requires p != []
    decreases |p|
  {
    if p[0] !in chain then None
    else if |p| == 1 then Some(chain[p[0]])
    else Lookup(chain[p[0]].children, p[1..])
  }

  /** Weight of the node at `p`, 0 when there is none. */
  function WeightAt(chain: map<string, Word>, p: seq<string>): int
    requires p != []
  {
    match Lookup(chain, p)
    case None => 0
    case Some(w) => w.weight
  }

  predicate IsPrefix(p: seq<string>, q: seq<string>)
  {
    |p| <= |q| && q[..|p|] == p
  }

  /**
   * What one merge does to every path: the nodes on the word list's path
   * exist afterwards and gain exactly 1 weight (a new one starts at 1); an
   * existing node keeps its text and tags (the incoming word's tags are not
   * merged in); every path off the word list is untouched.
   */
  lemma {:induction false} MergeIntoPath(chain: map<string, Word>, ws: seq<Word>, p: seq<string>)
    requires AllFresh(ws) && p != []
    ensures Lookup(MergeInto(chain, ws), p).Some? <==> Lookup(chain, p).Some? || IsPrefix(p, Texts(ws))
    ensures WeightAt(MergeInto(chain, ws), p) == WeightAt(chain, p) + (if IsPrefix(p, Texts(ws)) then 1 else 0)
    ensures !IsPrefix(p, Texts(ws)) ==> Lookup(MergeInto(chain, ws), p) == Lookup(chain, p)
    ensures Lookup(chain, p).Some? ==>
              Lookup(MergeInto(chain, ws), p).value.text == Lookup(chain, p).value.text &&
              Lookup(MergeInto(chain, ws), p).value.tags == Lookup(chain, p).value.tags
    ensures Lookup(chain, p).None? && IsPrefix(p, Texts(ws)) ==>
              Lookup(MergeInto(chain, ws), p).value.tags == ws[|p| - 1].tags &&
              Lookup(MergeInto(chain, ws), p).value.text == ws[|p| - 1].text
    decreases |ws|
  {
    if ws == [] {
      return;
    }
    var k := ws[0].text;
    var r := MergeInto(chain, ws);
    MergeIntoHead(chain, ws);
    if p[0] != k {
      PrefixHead(p, ws);
      LookupOff(chain, r, p);
      return;
    }
    var below := if k in chain then chain[k].children else map[];
    if |p| == 1 {
      LookupOne(chain, p);
      LookupOne(r, p);
      PrefixHead(p, ws);
      return;
    }
    LookupStep(chain, p);
    LookupStep(r, p);
    PrefixStep(p, ws);
    assert AllFresh(ws[1..]);
    MergeIntoPath(below, ws[1..], p[1..]);
    if k !in chain {
      LookupEmpty(p[1..]);
    }
    if IsPrefix(p, Texts(ws)) && Lookup(chain, p).None? {
      assert ws[1..][|p[1..]| - 1] == ws[|p| - 1];
    }
  }

  /** What one merge does at the top level: the first word's node, and every
      other key untouched. */
  lemma MergeIntoHead(chain: map<string, Word>, ws: seq<Word>)
    requires ws != []
    ensures var k, r := ws[0].text, MergeInto(chain, ws);
      && k in r
      && r[k].children == MergeInto(if k in chain then chain[k].children else ws[0].children, ws[1..])
      && r[k].weight == (if k in chain then chain[k].weight + 1 else ws[0].weight)
      && r[k].text == (if k in chain then chain[k].text else ws[0].text)
      && r[k].tags == (if k in chain then chain[k].tags else ws[0].tags)
      && forall j :: j != k ==> (j in r <==> j in chain) && (j in chain ==> r[j] == chain[j])
  {}

  /** Paths that leave the merged word list at the first key are untouched. */
  lemma LookupOff(chain: map<string, Word>, r: map<string, Word>, p: seq<string>)
    requires p != [] && (p[0] in r <==> p[0] in chain) && (p[0] in chain ==> r[p[0]] == chain[p[0]])
    ensures Lookup(r, p) == Lookup(chain, p)
  {}

  lemma LookupOne(chain: map<string, Word>, p: seq<string>)
    requires |p| == 1
    ensures Lookup(chain, p) == if p[0] in chain then Some(chain[p[0]]) else None
  {}

  lemma LookupStep(chain: map<string, Word>, p: seq<string>)
    requires |p| > 1
    ensures Lookup(chain, p) == if p[0] in chain then Lookup(chain[p[0]].children, p[1..]) else None
  {}

  lemma LookupEmpty(p: seq<string>)
    requires p != []
    ensures Lookup(map[], p) == None
  {}

  lemma PrefixHead(p: seq<string>, ws: seq<Word>)
    requires p != [] && ws != []
    ensures p[0] != ws[0].text ==> !IsPrefix(p, Texts(ws))
    ensures |p| == 1 ==> (IsPrefix(p, Texts(ws)) <==> p[0] == ws[0].text)
  {
    assert Texts(ws)[0] == ws[0].text;
  }

  lemma PrefixStep(p: seq<string>, ws: seq<Word>)
    requires |p| > 1 && ws != [] && p[0] == ws[0].text
    ensures IsPrefix(p, Texts(ws)) <==> IsPrefix(p[1..], Texts(ws[1..]))
  {
    TextsUnfold(ws);
    PrefixCons(p, ws[0].text, Texts(ws[1..]));
  }

  lemma TextsUnfold(ws: seq<Word>)
    requires ws != []
    ensures Texts(ws) == [ws[0].text] + Texts(ws[1..])
  {}

  lemma PrefixCons(p: seq<string>, x: string, q: seq<string>)
    requires p != [] && p[0] == x
    ensures IsPrefix(p, [x] + q) <==> IsPrefix(p[1..], q)
  {
    if IsPrefix(p[1..], q) {
      assert ([x] + q)[..|p|] == [x] + q[..|p| - 1];
      assert p == [x] + p[1..];
    }
    if IsPrefix(p, [x] + q) {
      assert ([x] + q)[..|p|][1..] == q[..|p| - 1];
    }
  }

  /** An empty word list changes nothing. */
  lemma MergeIntoEmpty(chain: map<string, Word>)
    ensures MergeInto(chain, []) == chain
  {}

  /** `getWord(key)`: the child keyed `key`; None stands for the
      `std::out_of_range` that `map::at` throws when there is none. */
  function GetWord(w: Word, key: string): (r: Option<Word>)
    ensures r.Some? <==> key in w.children
    ensures r.Some? ==> r.value == w.children[key]
  {
    if key in w.children then Some(w.children[key]) else None
  }

  // ---------------------------------------------------------------------------
  // Sorting by weight and topWord
  // ---------------------------------------------------------------------------

  /** The children in the order a range-for over `chain_` visits them. */
  function ChildList(w: Word): (s: seq<Word>)
    ensures |s| == |w.children|
    ensures forall i :: 0 <= i < |s| ==> s[i] in w.children.Values
  {
    var ks := SortedKeys(w.children.Keys);
    seq(|ks|, i requires 0 <= i < |ks| => w.children[ks[i]])
  }

  lemma ChildListCovers(w: Word, k: string)
    requires k in w.children
    ensures w.children[k] in ChildList(w)
  {
    var ks := SortedKeys(w.children.Keys);
    var i :| 0 <= i < |ks| && ks[i] == k;
    assert ChildList(w)[i] == w.children[k];
  }

  /** Non-increasing weights: the order of `sort(..., w1->weight_ > w2->weight_)`. */
  predicate WeightSorted(s: seq<Word>)
  {
    forall i, j :: 0 <= i < j < |s| ==> s[i].weight >= s[j].weight
  }

  /** Exchanges two cells; the multiset of words is unchanged. */
  method Swap(a: array<Word>, i: nat, j: nat)
    requires i < a.Length && j < a.Length
    modifies a
    ensures a[..] == old(a[..])[i := old(a[j])][j := old(a[i])]
    ensures multiset(a[..]) == old(multiset(a[..]))
  {
    a[i], a[j] := a[j], a[i];
  }

  /** Sorts by non-increasing weight in place; the order among equal weights
      is left open, as `std::sort` leaves it. */
  method SortByWeight(a: array<Word>)
    modifies a
    ensures WeightSorted(a[..])
    ensures multiset(a[..]) == old(multiset(a[..]))
  {
    var i := 0;
    while i < a.Length
      invariant 0 <= i <= a.Length
      invariant forall p, q :: 0 <= p < q < i ==> a[p].weight >= a[q].weight
      invariant multiset(a[..]) == old(multiset(a[..]))
    {
      var j := i;
      while j > 0 && a[j - 1].weight < a[j].weight
        invariant 0 <= j <= i
        invariant forall p, q :: 0 <= p < q <= i && q != j ==> a[p].weight >= a[q].weight
        invariant multiset(a[..]) == old(multiset(a[..]))
      {
        Swap(a, j - 1, j);
        j := j - 1;
      }
      i := i + 1;
    }
  }

  function CountHeavier(s: seq<Word>, wt: int): (n: nat)
    ensures n <= |s|
  {
    if s == [] then 0 else (if s[0].weight > wt then 1 else 0) + CountHeavier(s[1..], wt)
  }

  function CountAtLeast(s: seq<Word>, wt: int): (n: nat)
    ensures n <= |s|
  {
    if s == [] then 0 else (if s[0].weight >= wt then 1 else 0) + CountAtLeast(s[1..], wt)
  }

  lemma {:induction false} CountsAppend(a: seq<Word>, b: seq<Word>, wt: int)
    ensures CountHeavier(a + b, wt) == CountHeavier(a, wt) + CountHeavier(b, wt)
    ensures CountAtLeast(a + b, wt) == CountAtLeast(a, wt) + CountAtLeast(b, wt)
  {
    if a == [] {
      assert a + b == b;
    } else {
      assert (a + b)[1..] == a[1..] + b;
      CountsAppend(a[1..], b, wt);
    }
  }

  /** The counts depend only on the multiset of words. */
  lemma {:induction false} CountsPermutation(a: seq<Word>, b: seq<Word>, wt: int)
    requires multiset(a) == multiset(b)
    ensures CountHeavier(a, wt) == CountHeavier(b, wt)
    ensures CountAtLeast(a, wt) == CountAtLeast(b, wt)
    decreases |a|
  {
    if a == [] {
      assert |multiset(b)| == 0;
    } else {
      assert a[0] in multiset(b);
      var j :| 0 <= j < |b| && b[j] == a[0];
      MultisetRemove(a, b, j);
      CountsPermutation(a[1..], b[..j] + b[j + 1..], wt);
      CountsRemove(b, j, wt);
      CountsRemove(a, 0, wt);
    }
  }

  /** Taking one occurrence of the same element out of two equal multisets. */
  lemma MultisetRemove<T>(a: seq<T>, b: seq<T>, j: nat)
    requires a != [] && j < |b| && b[j] == a[0] && multiset(a) == multiset(b)
    ensures multiset(a[1..]) == multiset(b[..j] + b[j + 1..])
  {
    var x := a[0];
    assert a == [x] + a[1..];
    assert b == b[..j] + [x] + b[j + 1..];
    assert multiset(b) == multiset(b[..j]) + multiset([x]) + multiset(b[j + 1..]);
    assert multiset(a) == multiset([x]) + multiset(a[1..]);
    assert multiset(b[..j] + b[j + 1..]) == multiset(b[..j]) + multiset(b[j + 1..]);
    assert multiset(a[1..]) == multiset(a) - multiset([x]);
    assert multiset(b[..j] + b[j + 1..]) == multiset(b) - multiset([x]);
  }

  /** The counts split off the word at position j. */
  lemma CountsRemove(b: seq<Word>, j: nat, wt: int)
    requires j < |b|
    ensures CountHeavier(b, wt) == CountHeavier([b[j]], wt) + CountHeavier(b[..j] + b[j + 1..], wt)
    ensures CountAtLeast(b, wt) == CountAtLeast([b[j]], wt) + CountAtLeast(b[..j] + b[j + 1..], wt)
  {
    assert b == b[..j] + ([b[j]] + b[j + 1..]);
    CountsAppend(b[..j], [b[j]] + b[j + 1..], wt);
    CountsAppend([b[j]], b[j + 1..], wt);
    CountsAppend(b[..j], b[j + 1..], wt);
  }

  /** In a weight-sorted sequence, fewer than i+1 words are heavier than the
      word at position i, and at least i+1 weigh as much or more. */
  lemma SortedRank(s: seq<Word>, i: nat)
    requires WeightSorted(s) && i < |s|
    ensures CountHeavier(s, s[i].weight) <= i < CountAtLeast(s, s[i].weight)
  {
    var wt := s[i].weight;
    forall j | i <= j < |s| ensures s[j].weight <= wt {}
    forall j | 0 <= j < i + 1 ensures s[j].weight >= wt {}
    HeavierBound(s, i, wt);
    AtLeastBound(s, i + 1, wt);
  }

  /** Only words before position k can be heavier than wt. */
  lemma HeavierBound(s: seq<Word>, k: nat, wt: int)
    requires k <= |s| && forall j :: k <= j < |s| ==> s[j].weight <= wt
    ensures CountHeavier(s, wt) <= k
  {
    var a, b := s[..k], s[k..];
    forall j | 0 <= j < |b| ensures b[j].weight <= wt {
      assert b[j] == s[k + j];
    }
    assert s == a + b;
    CountsAppend(a, b, wt);
    NoneHeavier(b, wt);
  }

  /** All k words before position k weigh at least wt. */
  lemma AtLeastBound(s: seq<Word>, k: nat, wt: int)
    requires k <= |s| && forall j :: 0 <= j < k ==> s[j].weight >= wt
    ensures CountAtLeast(s, wt) >= k
  {
    var a, b := s[..k], s[k..];
    forall j | 0 <= j < |a| ensures a[j].weight >= wt {
      assert a[j] == s[j];
    }
    assert s == a + b;
    CountsAppend(a, b, wt);
    AllAtLeast(a, wt);
  }

  lemma NoneHeavier(s: seq<Word>, wt: int)
    requires forall j :: 0 <= j < |s| ==> s[j].weight <= wt
    ensures CountHeavier(s, wt) == 0
  {}

  lemma AllAtLeast(s: seq<Word>, wt: int)
    requires forall j :: 0 <= j < |s| ==> s[j].weight >= wt
    ensures CountAtLeast(s, wt) == |s|
  {}

  /** `r` can sit at position `rank` of some weight-sorted arrangement of `s`. */
  predicate IsRankPick(s: seq<Word>, rank: nat, r: Word)
  {
    r in s && CountHeavier(s, r.weight) <= rank < CountAtLeast(s, r.weight)
  }

  /** The two `rand()` values one `topWord` call may use. */
  datatype Draw = Draw(first: nat, second: nat)

  /** The rank `topWord` picks among `n > 0` children: `rand() % 10`, drawn
      again as `rand() % n` when that is past the last child. */
  function TopRank(d: Draw, n: nat): (r: nat)
    requires n > 0
    ensures r < n && r < 10
  {
    var top := d.first % 10;
    if n - 1 < top then d.second % n else top
  }

  /** Every rank below min(10, n) can come out of `TopRank`. */
  lemma TopRankReachable(n: nat, i: nat)
    requires 0 < n && i < n && i < 10
    ensures exists d :: TopRank(d, n) == i
  {
    assert TopRank(Draw(i, i), n) == i;
  }

  /** `topWord`: with no children the weight-0 placeholder; otherwise a copy
      of the child at a random rank below min(10, child count) in
      descending-weight order. */
  method TopWord(w: Word, d: Draw) returns (r: Word)
    ensures w.children == map[] ==> r == NoWord
    ensures w.children != map[] ==> r in w.children.Values && IsRankPick(ChildList(w), TopRank(d, |w.children|), r)
  {
    var cl := ChildList(w);
    var sorted := new Word[|cl|](i => if 0 <= i < |cl| then cl[i] else NoWord);
    assert sorted[..] == cl;
    SortByWeight(sorted);
    if w.children == map[] {
      return NoWord;
    }
    var top := TopRank(d, |w.children|);
    r := sorted[top];
    SortedPick(cl, sorted[..], top);
  }

  /** Position `rank` of a weight-sorted arrangement of `s` is a rank pick
      of `s`. */
  lemma SortedPick(s: seq<Word>, sorted: seq<Word>, rank: nat)
    requires multiset(sorted) == multiset(s) && WeightSorted(sorted) && rank < |sorted|
    ensures IsRankPick(s, rank, sorted[rank])
  {
    var r := sorted[rank];
    assert r in multiset(sorted);
    SortedRank(sorted, rank);
    CountsPermutation(sorted, s, r.weight);
  }

  // ---------------------------------------------------------------------------
  // outputTopSentence
  // ---------------------------------------------------------------------------

  /** The choice made by the loop over `chain_` in `outputTopSentence`: the
      best starts at weight 0 and is replaced only by a strictly heavier child,
      so the first key (in map order) of maximal positive weight wins. */
  function HeaviestFrom(m: map<string, Word>, ks: seq<string>, best: Option<string>, bestWeight: int): (r: Option<string>)
    requires forall i :: 0 <= i < |ks| ==> ks[i] in m
    ensures r.Some? ==> r == best || r.value in ks
  {
    if ks == [] then best
    else if m[ks[0]].weight > bestWeight then HeaviestFrom(m, ks[1..], Some(ks[0]), m[ks[0]].weight)
    else HeaviestFrom(m, ks[1..], best, bestWeight)
  }

  function Heaviest(w: Word): (r: Option<string>)
    ensures r.Some? ==> r.value in w.children
  {
    HeaviestFrom(w.children, SortedKeys(w.children.Keys), None, 0)
  }

  predicate IsHeaviestKey(m: map<string, Word>, k: string)
  {
    && k in m
    && m[k].weight > 0
    && (forall j :: j in m ==> m[j].weight <= m[k].weight)
    && (forall j :: j in m && KeyLess(j, k) ==> m[j].weight < m[k].weight)
  }

  /** The fold keeps `best` when nothing in `ks` beats `bestWeight`, and
      otherwise returns the first position of maximal weight. */
  lemma {:induction false} HeaviestFromSpec(m: map<string, Word>, ks: seq<string>, best: Option<string>, bestWeight: int)
    requires forall i :: 0 <= i < |ks| ==> ks[i] in m
    ensures var r := HeaviestFrom(m, ks, best, bestWeight);
      (r == best && forall i :: 0 <= i < |ks| ==> m[ks[i]].weight <= bestWeight) ||
      (exists i :: 0 <= i < |ks| && r == Some(ks[i]) && IsFirstMax(m, ks, i) && m[ks[i]].weight > bestWeight)
  {
    if ks != [] {
      var k0 := ks[0];
      if m[k0].weight > bestWeight {
        HeaviestFromSpec(m, ks[1..], Some(k0), m[k0].weight);
        var r := HeaviestFrom(m, ks, best, bestWeight);
        if r == Some(k0) && forall i :: 0 <= i < |ks[1..]| ==> m[ks[1..][i]].weight <= m[k0].weight {
          assert IsFirstMax(m, ks, 0);
        } else {
          var i :| 0 <= i < |ks[1..]| && r == Some(ks[1..][i]) && IsFirstMax(m, ks[1..], i) && m[ks[1..][i]].weight > m[k0].weight;
          FirstMaxCons(m, ks, i);
        }
      } else {
        HeaviestFromSpec(m, ks[1..], best, bestWeight);
        var r := HeaviestFrom(m, ks, best, bestWeight);
        if r == best && forall i :: 0 <= i < |ks[1..]| ==> m[ks[1..][i]].weight <= bestWeight {
          assert forall i :: 0 <= i < |ks| ==> m[ks[i]].weight <= bestWeight by {
            forall i | 0 <= i < |ks| ensures m[ks[i]].weight <= bestWeight {
              if i > 0 { assert ks[i] == ks[1..][i - 1]; }
            }
          }
        } else {
          var i :| 0 <= i < |ks[1..]| && r == Some(ks[1..][i]) && IsFirstMax(m, ks[1..], i) && m[ks[1..][i]].weight > bestWeight;
          FirstMaxCons(m, ks, i);
        }
      }
    }
  }

  /** Position `i` holds the maximal weight of `ks`, and no earlier position does. */
  predicate IsFirstMax(m: map<string, Word>, ks: seq<string>, i: nat)
    requires forall j :: 0 <= j < |ks| ==> ks[j] in m
  {
    i < |ks| &&
    (forall j :: 0 <= j < |ks| ==> m[ks[j]].weight <= m[ks[i]].weight) &&
    (forall j :: 0 <= j < i ==> m[ks[j]].weight < m[ks[i]].weight)
  }

  lemma FirstMaxCons(m: map<string, Word>, ks: seq<string>, i: nat)
    requires forall j :: 0 <= j < |ks| ==> ks[j] in m
    requires ks != [] && IsFirstMax(m, ks[1..], i) && m[ks[1..][i]].weight > m[ks[0]].weight
    ensures IsFirstMax(m, ks, i + 1)
  {
    forall j | 0 <= j < |ks|
      ensures m[ks[j]].weight <= m[ks[i + 1]].weight
    {
      if j > 0 { assert ks[j] == ks[1..][j - 1]; }
    }
    forall j | 0 <= j < i + 1
      ensures m[ks[j]].weight < m[ks[i + 1]].weight
    {
      if j > 0 { assert ks[j] == ks[1..][j - 1]; }
    }
  }

  /** `Heaviest` picks the first key (in map order) of maximal positive
      weight, and gives None exactly when no child has a positive weight. */
  lemma HeaviestIsFirstMaximum(w: Word)
    ensures Heaviest(w).Some? ==> IsHeaviestKey(w.children, Heaviest(w).value)
    ensures Heaviest(w).None? <==> forall j :: j in w.children ==> w.children[j].weight <= 0
  {
    var ks := SortedKeys(w.children.Keys);
    HeaviestFromSpec(w.children, ks, None, 0);
    if Heaviest(w).Some? {
      var i :| 0 <= i < |ks| && Heaviest(w) == Some(ks[i]) && IsFirstMax(w.children, ks, i) && w.children[ks[i]].weight > 0;
      SortedKeysSorted(w.children.Keys);
      FirstMaxIsHeaviest(w.children, ks, i);
    } else {
      NoPositiveWeight(w.children, ks);
    }
  }

  lemma FirstMaxIsHeaviest(m: map<string, Word>, ks: seq<string>, i: nat)
    requires forall a :: 0 <= a < |ks| ==> ks[a] in m
    requires forall k :: k in m ==> k in ks
    requires forall a, b :: 0 <= a < b < |ks| ==> KeyLess(ks[a], ks[b])
    requires IsFirstMax(m, ks, i) && m[ks[i]].weight > 0
    ensures IsHeaviestKey(m, ks[i])
  {
    var k := ks[i];
    forall j | j in m && KeyLess(j, k)
      ensures m[j].weight < m[k].weight
    {
      var a :| 0 <= a < |ks| && ks[a] == j;
      if a == i {
        KeyLessIrreflexive(j);
      } else if a > i {
        KeyLessAsymmetric(j, k);
      }
    }
    forall j | j in m
      ensures m[j].weight <= m[k].weight
    {
      var a :| 0 <= a < |ks| && ks[a] == j;
    }
  }

  lemma NoPositiveWeight(m: map<string, Word>, ks: seq<string>)
    requires forall a :: 0 <= a < |ks| ==> ks[a] in m
    requires forall k :: k in m ==> k in ks
    requires forall a :: 0 <= a < |ks| ==> m[ks[a]].weight <= 0
    ensures forall j :: j in m ==> m[j].weight <= 0
  {
    forall j | j in m
      ensures m[j].weight <= 0
    {
      var a :| 0 <= a < |ks| && ks[a] == j;
    }
  }

  /** The words `outputTopSentence` appends: its own text, then the heaviest
      child's, and so on; it stops after a sentence-ending word or at a leaf.
      When no child has a positive weight the placeholder (empty text, no
      children) is followed. */
  function TopPath(w: Word): (p: seq<string>)
    ensures p != [] && p[0] == w.text
    decreases w
  {
    [w.text] +
    if w.children == map[] then []
    else match Heaviest(w)
      case None => [NoWord.text]
      case Some(k) =>
        var next := w.children[k];
        if IsEndOfSentence(next.text) then [next.text] else TopPath(next)
  }

  // Unfolding lemmas: each of the next four states one branch of `TopPath`
  // (a leaf, a node with no positive child, a sentence-ending heaviest
  // child, and the recursive step), for the loop proof of
  // `OutputTopSentence`.

  /** A node without children ends the path with its own text. */
  lemma TopPathLeaf(w: Word)
    requires w.children == map[]
    ensures TopPath(w) == [w.text]
  {}

  /** When no child has a positive weight the placeholder's empty text is
      appended and the walk stops. */
  lemma TopPathStuck(w: Word)
    requires w.children != map[] && Heaviest(w).None?
    ensures TopPath(w) == [w.text, NoWord.text]
  {}

  /** A heaviest child that ends a sentence is appended and ends the path. */
  lemma TopPathEnd(w: Word)
    requires w.children != map[] && Heaviest(w).Some?
    requires IsEndOfSentence(w.children[Heaviest(w).value].text)
    ensures TopPath(w) == [w.text, w.children[Heaviest(w).value].text]
  {}

  /** Otherwise the path continues through the heaviest child. */
  lemma TopPathStep(w: Word)
    requires w.children != map[] && Heaviest(w).Some?
    requires !IsEndOfSentence(w.children[Heaviest(w).value].text)
    ensures TopPath(w) == [w.text] + TopPath(w.children[Heaviest(w).value])
  {}

  /** Only the last appended word may end a sentence (the root's own text is
      not checked). */
  lemma {:induction false} TopPathInner(w: Word)
    ensures var p := TopPath(w); forall i :: 1 <= i < |p| - 1 ==> !IsEndOfSentence(p[i])
    decreases w
  {
    if w.children != map[] && Heaviest(w).Some? {
      var next := w.children[Heaviest(w).value];
      if !IsEndOfSentence(next.text) {
        TopPathStep(w);
        TopPathInner(next);
        InnerCons(w.text, TopPath(next));
      }
    }
  }

  lemma InnerCons(a: string, q: seq<string>)
    requires q != [] && !IsEndOfSentence(q[0])
    requires forall j :: 1 <= j < |q| - 1 ==> !IsEndOfSentence(q[j])
    ensures forall i :: 1 <= i < |[a] + q| - 1 ==> !IsEndOfSentence(([a] + q)[i])
  {
    forall i | 1 <= i < |q| ensures !IsEndOfSentence(([a] + q)[i]) {
      assert ([a] + q)[i] == q[i - 1];
    }
  }

  /** `outputTopSentence(vec)`: appends `TopPath(w)` to `vec`. */
  method OutputTopSentence(w: Word, vec: seq<string>) returns (r: seq<string>)
    ensures r == vec + TopPath(w)
  {
    r := vec;
    var cur := w;
    while true
      invariant vec + TopPath(w) == r + TopPath(cur)
      decreases cur
    {
      if cur.children == map[] {
        TopPathLeaf(cur);
        return r + [cur.text];
      }
      var best := HeaviestChild(cur);
      if best.None? {
        TopPathStuck(cur);
        return r + [cur.text, NoWord.text];
      }
      var next := cur.children[best.value];
      if IsEndOfSentence(next.text) {
        TopPathEnd(cur);
        return r + [cur.text, next.text];
      }
      TopPathStep(cur);
      AppendAssoc(r, [cur.text], TopPath(next));
      r := r + [cur.text];
      cur := next;
    }
  }

  /** The loop over `chain_` in `outputTopSentence`. */
  method HeaviestChild(w: Word) returns (best: Option<string>)
    ensures best == Heaviest(w)
  {
    var ks := SortedKeys(w.children.Keys);
    var bestWeight := 0;
    best := None;
    var i := 0;
    while i < |ks|
      invariant 0 <= i <= |ks|
      invariant HeaviestFrom(w.children, ks[i..], best, bestWeight) == Heaviest(w)
    {
      assert ks[i..][1..] == ks[i + 1..];
      if w.children[ks[i]].weight > bestWeight {
        best, bestWeight := Some(ks[i]), w.children[ks[i]].weight;
      }
      i := i + 1;
    }
  }
}
