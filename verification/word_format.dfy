/**
 * The text format `operator<<` writes for a node and `operator>>` reads back
 * (word.hpp). A node is written as its text, its weight, its tag count, the
 * tags, its child count and then, for each child in key order, the key and
 * the child node; every field is followed by a newline. Reading goes through
 * whitespace-separated extraction, so a stream is modelled as the sequence of
 * whitespace-free tokens still to come plus the stream's fail flag, which is
 * sticky: once an extraction fails, every later one fails too.
 */
module WordFormat {
  import opened Wrappers
  import opened Text
  import opened Words

  datatype Stream = Stream(tokens: seq<string>, failed: bool)

  /** The stream an input file yields when opened. */
  function OpenStream(content: string): (st: Stream)
    ensures !st.failed && forall i :: 0 <= i < |st.tokens| ==> IsField(st.tokens[i])
  {
    Stream(Tokenize(content), false)
  }

  function TotalLen(ts: seq<string>): nat
  {
    if ts == [] then 0 else |ts[0]| + TotalLen(ts[1..])
  }

  /** Decreases with every extraction, and is 0 on a failed stream. */
  function Remaining(st: Stream): nat
  {
    if st.failed then 0 else 1 + |st.tokens| + TotalLen(st.tokens)
  }

  /** `is >> s` for a string: the next token; at the end of input the stream
      fails and the target string keeps its previous value `prev`. */
  function ReadText(st: Stream, prev: string): (r: (string, Stream))
    ensures Remaining(r.1) < Remaining(st) || (st.failed && r.1 == st)
    ensures !st.failed && st.tokens != [] ==> r == (st.tokens[0], Stream(st.tokens[1..], false))
    ensures st.failed || st.tokens == [] ==> r == (prev, Stream(st.tokens, true))
  {
    if st.failed || st.tokens == [] then (prev, Stream(st.tokens, true))
    else (st.tokens[0], Stream(st.tokens[1..], false))
  }

  lemma TotalLenSuffix(t: string, k: nat, ts: seq<string>)
    requires 0 < k < |t|
    ensures TotalLen([t[k..]] + ts) < TotalLen([t] + ts)
  {
    assert ([t[k..]] + ts)[1..] == ts;
    assert ([t] + ts)[1..] == ts;
  }

  /** Largest and smallest `int`, and the largest `size_t`. */
  const IntMax: int := 0x7fff_ffff
  const IntMin: int := -0x8000_0000
  const SizeMax: int := 0xffff_ffff_ffff_ffff

  /** What the number parser takes from the front of the next token: the
      value of an optional sign and at least one digit (None when the token
      does not start that way) and the tokens left after those characters;
      the rest of a partly used token stays in the stream. */
  function ScanNumber(ts: seq<string>): (r: (Option<int>, seq<string>))
    requires ts != []
    ensures r.0.Some? ==> TotalLen(r.1) + |r.1| < TotalLen(ts) + |ts|
  {
    var t := ts[0];
    match NumberPrefix(t)
    case None => (None, ts)
    case Some((v, len)) =>
      if len == |t| then (Some(v), ts[1..])
      else
        assert ts == [t] + ts[1..];
        TotalLenSuffix(t, len, ts[1..]);
        (Some(v), [t[len..]] + ts[1..])
  }

  /** `is >> n` into an `int` holding `prev`. On a failed stream, or with
      only whitespace left, the sentry fails and `prev` stays; a token that
      does not start with a number stores 0; a value out of range stores the
      nearest bound; each of these sets the fail flag. */
  function ReadInt(st: Stream, prev: int): (r: (int, Stream))
    ensures Remaining(r.1) < Remaining(st) || (st.failed && r.1 == st)
    ensures st.failed || st.tokens == [] ==> r == (prev, Stream(st.tokens, true))
    ensures IntMin <= prev <= IntMax ==> IntMin <= r.0 <= IntMax
  {
    if st.failed || st.tokens == [] then (prev, Stream(st.tokens, true))
    else
      var n := ScanNumber(st.tokens);
      match n.0
      case None => (0, Stream(st.tokens, true))
      case Some(v) =>
        if v > IntMax then (IntMax, Stream(n.1, true))
        else if v < IntMin then (IntMin, Stream(n.1, true))
        else (v, Stream(n.1, false))
  }

  /** `is >> size` into a `size_t` holding `prev`: as `ReadInt`, except that
      a negative number wraps around modulo 2^64 without failing, and a
      magnitude past the largest `size_t` stores that largest value and
      fails. */
  function ReadCount(st: Stream, prev: nat): (r: (nat, Stream))
    ensures Remaining(r.1) < Remaining(st) || (st.failed && r.1 == st)
    ensures st.failed || st.tokens == [] ==> r == (prev, Stream(st.tokens, true))
    ensures prev <= SizeMax ==> r.0 <= SizeMax
  {
    if st.failed || st.tokens == [] then (prev, Stream(st.tokens, true))
    else
      var n := ScanNumber(st.tokens);
      match n.0
      case None => (0, Stream(st.tokens, true))
      case Some(v) =>
        var magnitude := if v < 0 then -v else v;
        if magnitude > SizeMax then (SizeMax, Stream(n.1, true))
        else if v < 0 then (SizeMax + 1 + v, Stream(n.1, false))
        else (v, Stream(n.1, false))
  }

  /** The tag loop of `operator>>`: `n` extractions into a fresh string each,
      every result appended (an empty string for each failed one). */
  function ReadTags(st: Stream, n: nat): (r: (seq<string>, Stream))
    ensures |r.0| == n
    ensures Remaining(r.1) <= Remaining(st)
    ensures st.failed ==> r.1 == st && forall i :: 0 <= i < n ==> r.0[i] == ""
    decreases n
  {
    if n == 0 then ([], st)
    else
      var c := ReadText(st, "");
      var cs := ReadTags(c.1, n - 1);
      ([c.0] + cs.0, cs.1)
  }

  /** `is >> *w` into a fresh `Word()` (text "", weight 1). The tag count
      goes into an uninitialised `size_t`, taken here to hold 0; the child
      count is read into the same variable, so it keeps the tag count when
      that read fails. */
  function ParseWord(st: Stream): (r: (Word, Stream))
    ensures Remaining(r.1) <= Remaining(st)
    ensures st.failed ==> r.1 == st
    decreases Remaining(st), 1
  {
    var text := ReadText(st, "");
    var weight := ReadInt(text.1, 1);
    var tagCount := ReadCount(weight.1, 0);
    var tags := ReadTags(tagCount.1, tagCount.0);
    var childCount := ReadCount(tags.1, tagCount.0);
    var children := ParseChildren(childCount.1, childCount.0);
    (Word(text.0, weight.0, tags.0, children.0), children.1)
  }

  /** The child loop of `operator>>`: `n` times a key and a node into fresh
      objects, each inserted unless the key is already present (so the first
      of two equal keys wins). On a failed stream every remaining round reads
      the empty key and a fresh `Word()` (see `ParseWordFailed`), so only the
      first of them inserts anything. */
  function ParseChildren(st: Stream, n: nat): (r: (map<string, Word>, Stream))
    ensures Remaining(r.1) <= Remaining(st)
    ensures st.failed ==> r.1 == st
    decreases Remaining(st), 0, n
  {
    if n == 0 then (map[], st)
    else if st.failed then (map["" := Fresh("")], st)
    else
      var key := ReadText(st, "");
      var child := ParseWord(key.1);
      var rest := ParseChildren(child.1, n - 1);
      (rest.0[key.0 := child.0], rest.1)
  }

  /** Every read on a failed stream leaves the fresh node as it was. */
  lemma ParseWordFailed(tokens: seq<string>)
    ensures ParseWord(Stream(tokens, true)) == (Fresh(""), Stream(tokens, true))
  {}

  /** The failed-stream shortcut of `ParseChildren` agrees with running the
      remaining rounds one by one. */
  lemma ParseChildrenFailedStep(tokens: seq<string>, n: nat)
    requires n > 0
    ensures var st := Stream(tokens, true);
      ParseChildren(st, n).0 == ParseChildren(st, n - 1).0["" := ParseWord(ReadText(st, "").1).0]
  {}

  // ---------------------------------------------------------------------------
  // Writing
  // ---------------------------------------------------------------------------

  /** The fields `os << w` writes, one per line. */
  function Fields(w: Word): seq<string>
    decreases w, 1
  {
    [w.text, IntToDec(w.weight), IntToDec(|w.tags|)] + w.tags +
    [IntToDec(|w.children|)] + EntryFields(w, SortedKeys(w.children.Keys))
  }

  /** Key and node of each child of `w` listed in `ks`. */
  function EntryFields(w: Word, ks: seq<string>): seq<string>
    requires forall i :: 0 <= i < |ks| ==> ks[i] in w.children
    decreases w, 0, |ks|
  {
    if ks == [] then []
    else [ks[0]] + Fields(w.children[ks[0]]) + EntryFields(w, ks[1..])
  }

  /** The text `os << w` produces. */
  function Render(w: Word): (s: string)
  {
    Lines(Fields(w))
  }

  /** Nodes the format can carry: the text, the tags and the keys, at every
      level, are non-empty and free of whitespace, the weight fits an `int`
      and the counts fit a `size_t`. */
  predicate WellFormed(w: Word)
    decreases w
  {
    && IsField(w.text)
    && IntMin <= w.weight <= IntMax
    && |w.tags| <= SizeMax && |w.children| <= SizeMax
    && (forall i :: 0 <= i < |w.tags| ==> IsField(w.tags[i]))
    && (forall k :: k in w.children ==> IsField(k) && WellFormed(w.children[k]))
  }

  /** Keys that are fields and well-formed nodes: the children of a
      well-formed node, and the roots a loader can read back. */
  predicate ChildrenWellFormed(m: map<string, Word>)
  {
    forall k :: k in m ==> IsField(k) && WellFormed(m[k])
  }

  lemma {:induction false} FieldsAreFields(w: Word)
    requires WellFormed(w)
    ensures AllFields(Fields(w))
    decreases w, 1
  {
    IntToDecIsField(w.weight);
    IntToDecIsField(|w.tags|);
    IntToDecIsField(|w.children|);
    var head := [w.text, IntToDec(w.weight), IntToDec(|w.tags|)];
    var count := [IntToDec(|w.children|)];
    var entries := EntryFields(w, SortedKeys(w.children.Keys));
    AllFieldsThree(w.text, IntToDec(w.weight), IntToDec(|w.tags|));
    AllFieldsOne(IntToDec(|w.children|));
    EntryFieldsAreFields(w, SortedKeys(w.children.Keys));
    AllFieldsAppend(head, w.tags);
    AllFieldsAppend(head + w.tags, count);
    AllFieldsAppend(head + w.tags + count, entries);
  }

  lemma {:induction false} EntryFieldsAreFields(w: Word, ks: seq<string>)
    requires ChildrenWellFormed(w.children)
    requires forall i :: 0 <= i < |ks| ==> ks[i] in w.children
    ensures AllFields(EntryFields(w, ks))
    decreases w, 0, |ks|
  {
    if ks != [] {
      var child := w.children[ks[0]];
      FieldsAreFields(child);
      EntryFieldsAreFields(w, ks[1..]);
      AllFieldsOne(ks[0]);
      AllFieldsAppend([ks[0]], Fields(child));
      AllFieldsAppend([ks[0]] + Fields(child), EntryFields(w, ks[1..]));
    }
  }

  lemma ReadIntOfDec(v: int, prev: int, more: seq<string>)
    requires IntMin <= v <= IntMax
    ensures ReadInt(Stream([IntToDec(v)] + more, false), prev) == (v, Stream(more, false))
  {
    NumberPrefixOfIntToDec(v);
    assert ([IntToDec(v)] + more)[1..] == more;
  }

  lemma ReadCountOfDec(v: nat, prev: nat, more: seq<string>)
    requires v <= SizeMax
    ensures ReadCount(Stream([IntToDec(v)] + more, false), prev) == (v, Stream(more, false))
  {
    NumberPrefixOfIntToDec(v);
    assert ([IntToDec(v)] + more)[1..] == more;
  }

  lemma {:induction false} ReadTagsOfFields(tags: seq<string>, more: seq<string>)
    ensures ReadTags(Stream(tags + more, false), |tags|) == (tags, Stream(more, false))
  {
    if tags == [] {
      assert tags + more == more;
    } else {
      var st := Stream(tags + more, false);
      assert (tags + more)[1..] == tags[1..] + more;
      assert ReadText(st, "") == (tags[0], Stream(tags[1..] + more, false));
      ReadTagsOfFields(tags[1..], more);
      assert [tags[0]] + tags[1..] == tags;
    }
  }

  /** Reading `f` from the front of any stream yields `w` and leaves the
      stream just after `f`. */
  ghost predicate ParsesBack(f: seq<string>, w: Word)
  {
    forall more :: ParseWord(Stream(f + more, false)) == (w, Stream(more, false))
  }

  ghost predicate AllParseBack(es: seq<Entry>)
  {
    forall i :: 0 <= i < |es| ==> ParsesBack(es[i].fields, es[i].node)
  }

  /** Reading back what `os << w` wrote gives `w`. */
  lemma {:induction false} ParseWordOfFields(w: Word)
    requires WellFormed(w)
    ensures ParsesBack(Fields(w), w)
    decreases w, 2
  {
    ChildrenParse(w);
    forall more ensures ParseWord(Stream(Fields(w) + more, false)) == (w, Stream(more, false)) {
      NodeParses(w, more);
    }
  }

  lemma {:induction false} ChildrenParse(w: Word)
    requires WellFormed(w)
    ensures AllParseBack(Entries(w, SortedKeys(w.children.Keys)))
    decreases w, 1
  {
    var ks := SortedKeys(w.children.Keys);
    forall i | 0 <= i < |ks| ensures ParsesBack(Entries(w, ks)[i].fields, Entries(w, ks)[i].node) {
      ChildParsesBack(w, ks, i);
    }
  }

  lemma {:induction false} ChildParsesBack(w: Word, ks: seq<string>, i: nat)
    requires WellFormed(w)
    requires forall a :: 0 <= a < |ks| ==> ks[a] in w.children
    requires i < |ks|
    ensures ParsesBack(Entries(w, ks)[i].fields, Entries(w, ks)[i].node)
    decreases w, 0
  {
    var child := w.children[ks[i]];
    ParseWordOfFields(child);
  }

  /** One node, given that each of its children reads back. */
  lemma NodeParses(w: Word, more: seq<string>)
    requires IntMin <= w.weight <= IntMax && |w.tags| <= SizeMax && |w.children| <= SizeMax
    requires AllParseBack(Entries(w, SortedKeys(w.children.Keys)))
    ensures ParseWord(Stream(Fields(w) + more, false)) == (w, Stream(more, false))
  {
    var ks := SortedKeys(w.children.Keys);
    ParseEntries(Entries(w, ks), more);
    EntryFieldsFlatten(w, ks);
    EntryMapOfEntries(w, ks);
    SortedKeysOfChildren(w);
    FieldsCons(w, more);
    ParseHeader(w.text, w.weight, w.tags, |w.children|, EntryFields(w, ks) + more, w.children, Stream(more, false));
  }

  lemma SortedKeysOfChildren(w: Word)
    ensures ChildrenIn(w, SortedKeys(w.children.Keys)) == w.children
  {}

  /** A node whose header fields are followed by the entries `r` of its
      `m` children. */
  lemma ParseHeader(text: string, weight: int, tags: seq<string>, m: nat, r: seq<string>,
                    children: map<string, Word>, after: Stream)
    requires IntMin <= weight <= IntMax && |tags| <= SizeMax && m <= SizeMax
    requires ParseChildren(Stream(r, false), m) == (children, after)
    ensures ParseWord(Stream([text] + ([IntToDec(weight)] + ([IntToDec(|tags|)] + (tags + ([IntToDec(m)] + r)))), false))
            == (Word(text, weight, tags, children), after)
  {
    var rest3 := [IntToDec(m)] + r;
    var rest2 := tags + rest3;
    var rest1 := [IntToDec(|tags|)] + rest2;
    var rest0 := [IntToDec(weight)] + rest1;
    var st := Stream([text] + rest0, false);
    assert ([text] + rest0)[1..] == rest0;
    assert ReadText(st, "") == (text, Stream(rest0, false));
    ReadIntOfDec(weight, 1, rest1);
    ReadCountOfDec(|tags|, 0, rest2);
    ReadTagsOfFields(tags, rest3);
    ReadCountOfDec(m, |tags|, r);
    ParseWordSteps(st, text, Stream(rest0, false), weight, Stream(rest1, false), |tags|, Stream(rest2, false),
      tags, Stream(rest3, false), m, Stream(r, false), children, after);
  }

  /** `ParseWord` as the chain of its six reads. */
  lemma ParseWordSteps(st: Stream, text: string, s1: Stream, weight: int, s2: Stream, n: nat, s3: Stream,
                       tags: seq<string>, s4: Stream, m: nat, s5: Stream, children: map<string, Word>, s6: Stream)
    requires ReadText(st, "") == (text, s1) && ReadInt(s1, 1) == (weight, s2) && ReadCount(s2, 0) == (n, s3)
    requires ReadTags(s3, n) == (tags, s4) && ReadCount(s4, n) == (m, s5) && ParseChildren(s5, m) == (children, s6)
    ensures ParseWord(st) == (Word(text, weight, tags, children), s6)
  {}

  /** A child entry as written: its key, its node, and the fields the node
      occupies. */
  datatype Entry = Entry(key: string, node: Word, fields: seq<string>)

  function Entries(w: Word, ks: seq<string>): (es: seq<Entry>)
    requires forall i :: 0 <= i < |ks| ==> ks[i] in w.children
    ensures |es| == |ks|
    ensures forall i :: 0 <= i < |ks| ==> es[i] == Entry(ks[i], w.children[ks[i]], Fields(w.children[ks[i]]))
  {
    seq(|ks|, i requires 0 <= i < |ks| => Entry(ks[i], w.children[ks[i]], Fields(w.children[ks[i]])))
  }

  function Flatten(es: seq<Entry>): seq<string>
  {
    if es == [] then [] else [es[0].key] + es[0].fields + Flatten(es[1..])
  }

  /** The map the child loop builds: the first entry of a key wins. */
  function EntryMap(es: seq<Entry>): map<string, Word>
  {
    if es == [] then map[] else EntryMap(es[1..])[es[0].key := es[0].node]
  }

  lemma {:induction false} EntryFieldsFlatten(w: Word, ks: seq<string>)
    requires forall i :: 0 <= i < |ks| ==> ks[i] in w.children
    ensures EntryFields(w, ks) == Flatten(Entries(w, ks))
  {
    if ks != [] {
      EntryFieldsFlatten(w, ks[1..]);
      assert Entries(w, ks)[1..] == Entries(w, ks[1..]);
    }
  }

  lemma {:induction false} EntryMapOfEntries(w: Word, ks: seq<string>)
    requires forall i :: 0 <= i < |ks| ==> ks[i] in w.children
    ensures EntryMap(Entries(w, ks)) == ChildrenIn(w, ks)
  {
    if ks != [] {
      EntryMapOfEntries(w, ks[1..]);
      assert Entries(w, ks)[1..] == Entries(w, ks[1..]);
      ChildrenInCons(w, ks);
    }
  }

  /** The child loop reads back a run of written entries. */
  lemma {:induction false} ParseEntries(es: seq<Entry>, more: seq<string>)
    requires AllParseBack(es)
    ensures ParseChildren(Stream(Flatten(es) + more, false), |es|) == (EntryMap(es), Stream(more, false))
  {
    if es == [] {
      assert Flatten(es) + more == more;
    } else {
      var e := es[0];
      var rest := Flatten(es[1..]) + more;
      ConcatAssoc([e.key], e.fields, Flatten(es[1..]), more);
      assert AllParseBack(es[1..]) by {
        forall i | 0 <= i < |es[1..]| ensures ParsesBack(es[1..][i].fields, es[1..][i].node) {
          assert es[1..][i] == es[i + 1];
        }
      }
      ParseEntries(es[1..], more);
      assert ParsesBack(e.fields, e.node);
      var st := Stream(Flatten(es) + more, false);
      assert st.tokens == [e.key] + (e.fields + rest) && st.tokens[1..] == e.fields + rest;
      assert EntryMap(es) == EntryMap(es[1..])[e.key := e.node];
      ParseChildrenStep(st, |es|, e.key, Stream(e.fields + rest, false), e.node, Stream(rest, false),
        |es[1..]|, EntryMap(es[1..]), Stream(more, false), EntryMap(es));
    }
  }

  /** One round of the child loop: a key, then a node, then the remaining
      `n` rounds, inserting the node under the key. */
  lemma ParseChildrenStep(st: Stream, total: nat, k: string, s1: Stream, child: Word, s2: Stream,
                          n: nat, m: map<string, Word>, after: Stream, result: map<string, Word>)
    requires !st.failed && total == n + 1 && result == m[k := child]
    requires ReadText(st, "") == (k, s1)
    requires ParseWord(s1) == (child, s2)
    requires ParseChildren(s2, n) == (m, after)
    ensures ParseChildren(st, total) == (result, after)
  {
    ParseChildrenUnfold(st, n);
  }

  lemma ParseChildrenUnfold(st: Stream, n: nat)
    requires !st.failed
    ensures var key := ReadText(st, ""); var node := ParseWord(key.1); var rest := ParseChildren(node.1, n);
      ParseChildren(st, n + 1) == (rest.0[key.0 := node.0], rest.1)
  {}

  /** The children of `w` whose keys are listed in `ks`. */
  function ChildrenIn(w: Word, ks: seq<string>): (m: map<string, Word>)
    ensures m.Keys == (set k | k in ks) * w.children.Keys
    ensures forall k :: k in m ==> m[k] == w.children[k]
  {
    map k | k in ks && k in w.children :: w.children[k]
  }

  lemma ChildrenInCons(w: Word, ks: seq<string>)
    requires ks != [] && ks[0] in w.children
    ensures ChildrenIn(w, ks[1..])[ks[0] := w.children[ks[0]]] == ChildrenIn(w, ks)
  {
    assert forall k :: k in ks <==> k == ks[0] || k in ks[1..];
  }

  lemma FieldsCons(w: Word, more: seq<string>)
    ensures Fields(w) + more ==
      [w.text] + ([IntToDec(w.weight)] + ([IntToDec(|w.tags|)] + (w.tags +
      ([IntToDec(|w.children|)] + (EntryFields(w, SortedKeys(w.children.Keys)) + more)))))
  {
    var a, b, c, d, e, f := [w.text], [IntToDec(w.weight)], [IntToDec(|w.tags|)], w.tags,
      [IntToDec(|w.children|)], EntryFields(w, SortedKeys(w.children.Keys));
    assert Fields(w) == a + b + c + d + e + f;
    ConcatAssoc6(a, b, c, d, e, f, more);
  }

  lemma ConcatAssoc6<T>(a: seq<T>, b: seq<T>, c: seq<T>, d: seq<T>, e: seq<T>, f: seq<T>, g: seq<T>)
    ensures a + b + c + d + e + f + g == a + (b + (c + (d + (e + (f + g)))))
  {}

  lemma ConcatAssoc<T>(a: seq<T>, b: seq<T>, c: seq<T>, d: seq<T>)
    ensures a + b + c + d == a + (b + (c + d))
  {}

  /** Reading a rendered node back yields the node: `>>` inverts `<<`. */
  lemma RenderRoundTrip(w: Word, more: string)
    requires WellFormed(w)
    ensures ParseWord(OpenStream(Render(w) + more)) == (w, OpenStream(more))
  {
    FieldsAreFields(w);
    TokenizeLines(Fields(w), more);
    ParseWordOfFields(w);
    assert ParseWord(Stream(Fields(w) + Tokenize(more), false)) == (w, Stream(Tokenize(more), false));
  }
}
