/**
 * The on-disk format of a root map, shared by the three savers and loaders:
 * a header of counts, one per line, then for each root in key order its key
 * on a line and its node as `os << *node` writes it. Loading reads the
 * header and then runs the same first-wins loop as a node's children.
 */
module Store {
  import opened Wrappers
  import opened Text
  import opened Words
  import opened WordFormat

  /** The root map seen as the children of a node, so the child format
      applies to it unchanged. */
  function Roots(m: map<string, Word>): Word
  {
    Word("", 0, [], m)
  }

  /** Key and node of each root, in map order. */
  function RootFields(m: map<string, Word>): seq<string>
  {
    EntryFields(Roots(m), SortedKeys(m.Keys))
  }

  /** Root maps the format can carry. */
  predicate RootsWellFormed(m: map<string, Word>)
  {
    |m| <= SizeMax && ChildrenWellFormed(m)
  }

  // ---------------------------------------------------------------------------
  // Writing
  // ---------------------------------------------------------------------------

  /** The loop `for (auto& x : *l) ofs << x.first << endl << *x.second;`,
      into the output stream's buffer. */
  method WriteRoots(m: map<string, Word>) returns (out: string)
    ensures out == Lines(RootFields(m))
  {
    var ks := SortedKeys(m.Keys);
    out := "";
    var i := 0;
    while i < |ks|
      invariant 0 <= i <= |ks|
      invariant out == Lines(EntryFields(Roots(m), ks[..i]))
    {
      WriteRootStep(m, ks, i);
      out := out + (ks[i] + "\n") + Render(m[ks[i]]);
      i := i + 1;
    }
    assert ks[..i] == ks;
  }

  lemma WriteRootStep(m: map<string, Word>, ks: seq<string>, i: nat)
    requires i < |ks| && forall j :: 0 <= j < |ks| ==> ks[j] in m
    ensures Lines(EntryFields(Roots(m), ks[..i + 1])) ==
            Lines(EntryFields(Roots(m), ks[..i])) + (ks[i] + "\n") + Render(m[ks[i]])
  {
    var w := Roots(m);
    var done := EntryFields(w, ks[..i]);
    EntryFieldsSnoc(w, ks[..i], ks[i]);
    assert ks[..i + 1] == ks[..i] + [ks[i]];
    LinesAppend(done + [ks[i]], Fields(m[ks[i]]));
    LinesAppend(done, [ks[i]]);
    assert Lines([ks[i]]) == ks[i] + "\n";
  }

  lemma {:induction false} EntryFieldsSnoc(w: Word, ks: seq<string>, k: string)
    requires forall i :: 0 <= i < |ks| ==> ks[i] in w.children
    requires k in w.children
    ensures EntryFields(w, ks + [k]) == EntryFields(w, ks) + [k] + Fields(w.children[k])
  {
    if ks == [] {
      assert ks + [k] == [k];
      assert [k][1..] == [];
    } else {
      assert (ks + [k])[1..] == ks[1..] + [k];
      EntryFieldsSnoc(w, ks[1..], k);
    }
  }

  /** The file text of a header followed by the roots. */
  function StoreText(header: seq<string>, m: map<string, Word>): string
  {
    Lines(header) + Lines(RootFields(m))
  }

  /** The two-line header of `loadandsave.hpp` and `database.hpp`: the chain
      order, then the root count. */
  function OrderHeader(order: int, m: map<string, Word>): seq<string>
  {
    [IntToDec(order), IntToDec(|m|)]
  }

  // ---------------------------------------------------------------------------
  // Reading
  // ---------------------------------------------------------------------------

  /** The roots `loaded` already holds win over those in `rest`. */
  function FirstWins(loaded: map<string, Word>, rest: map<string, Word>): (r: map<string, Word>)
    ensures r.Keys == loaded.Keys + rest.Keys
    ensures forall k :: k in loaded ==> r[k] == loaded[k]
    ensures forall k :: k in rest && k !in loaded ==> r[k] == rest[k]
  {
    map k | k in loaded.Keys + rest.Keys :: if k in loaded then loaded[k] else rest[k]
  }

  /** One round of the root loop on any stream, failed or not. */
  lemma ParseChildrenRound(st: Stream, n: nat)
    ensures var key := ReadText(st, ""); var node := ParseWord(key.1); var rest := ParseChildren(node.1, n);
      ParseChildren(st, n + 1) == (rest.0[key.0 := node.0], rest.1)
  {
    if st.failed {
      ParseWordFailed(st.tokens);
      assert ReadText(st, "") == ("", st);
      var rest := ParseChildren(st, n);
      assert rest.1 == st;
      assert rest.0["" := Fresh("")] == map["" := Fresh("")];
    } else {
      ParseChildrenUnfold(st, n);
    }
  }

  /**
   * The root loop: `mapSize` times a key and a node into fresh objects,
   * inserted unless the key is already present. It reads exactly what the
   * child loop of a node reads, so the first of two equal keys wins.
   */
  method ReadRoots(st0: Stream, mapSize: nat) returns (m: map<string, Word>, st: Stream)
    ensures (m, st) == ParseChildren(st0, mapSize)
  {
    m, st := map[], st0;
    var i := 0;
    assert FirstWins(m, ParseChildren(st, mapSize).0) == ParseChildren(st, mapSize).0;
    while i < mapSize
      invariant 0 <= i <= mapSize
      invariant ParseChildren(st0, mapSize) == (FirstWins(m, ParseChildren(st, mapSize - i).0), ParseChildren(st, mapSize - i).1)
    {
      var tempKey := ReadText(st, "");
      var tempWord := ParseWord(tempKey.1);
      ParseChildrenRound(st, mapSize - i - 1);
      FirstWinsInsert(m, ParseChildren(tempWord.1, mapSize - i - 1).0, tempKey.0, tempWord.0);
      if tempKey.0 !in m {
        m := m[tempKey.0 := tempWord.0];
      }
      st := tempWord.1;
      i := i + 1;
    }
    assert FirstWins(m, map[]) == m;
  }

  lemma FirstWinsInsert(m: map<string, Word>, rest: map<string, Word>, k: string, w: Word)
    ensures FirstWins(m, rest[k := w]) == FirstWins(if k in m then m else m[k := w], rest)
  {
  }

  /** `ifs >> markovLength; size_t mapSize = 0; ifs >> mapSize;` and the
      root loop, on an opened file: the roots and the new order. A failed
      order read leaves `markovLength` as it was. */
  function LoadOrdered(content: string, markovLength: int): (r: (map<string, Word>, int))
  {
    var order := ReadInt(OpenStream(content), markovLength);
    var mapSize := ReadCount(order.1, 0);
    (ParseChildren(mapSize.1, mapSize.0).0, order.0)
  }

  /** The loading part of `main.cpp`'s `loadFile`: no order line. */
  function LoadUnordered(content: string): map<string, Word>
  {
    var mapSize := ReadCount(OpenStream(content), 0);
    ParseChildren(mapSize.1, mapSize.0).0
  }

  /** Reading the roots back from what the root loop wrote. */
  lemma RootsParse(m: map<string, Word>, more: seq<string>)
    requires ChildrenWellFormed(m)
    ensures ParseChildren(Stream(RootFields(m) + more, false), |m|) == (m, Stream(more, false))
  {
    var w := Roots(m);
    var ks := SortedKeys(m.Keys);
    RootEntriesParseBack(m);
    ParseEntries(Entries(w, ks), more);
    EntryFieldsFlatten(w, ks);
    EntryMapOfEntries(w, ks);
    SortedKeysOfChildren(w);
  }

  lemma RootEntriesParseBack(m: map<string, Word>)
    requires ChildrenWellFormed(m)
    ensures AllParseBack(Entries(Roots(m), SortedKeys(m.Keys)))
  {
    var ks := SortedKeys(m.Keys);
    forall i | 0 <= i < |ks| ensures ParsesBack(Entries(Roots(m), ks)[i].fields, Entries(Roots(m), ks)[i].node) {
      RootParsesBack(m, ks, i);
    }
  }

  lemma RootParsesBack(m: map<string, Word>, ks: seq<string>, i: nat)
    requires ChildrenWellFormed(m)
    requires forall a :: 0 <= a < |ks| ==> ks[a] in m
    requires i < |ks|
    ensures ParsesBack(Entries(Roots(m), ks)[i].fields, Entries(Roots(m), ks)[i].node)
  {
    ParseWordOfFields(m[ks[i]]);
  }

  lemma RootTokens(header: seq<string>, m: map<string, Word>)
    requires AllFields(header) && ChildrenWellFormed(m)
    ensures OpenStream(StoreText(header, m)).tokens == header + RootFields(m)
  {
    EntryFieldsAreFields(Roots(m), SortedKeys(m.Keys));
    AllFieldsAppend(header, RootFields(m));
    LinesAppend(header, RootFields(m));
    TokenizeLines(header + RootFields(m), "");
    assert Lines(header + RootFields(m)) + "" == Lines(header + RootFields(m));
    assert header + RootFields(m) + [] == header + RootFields(m);
  }

  /** Load after save restores the roots and the order, whatever the
      loader's `markovLength` held before. */
  lemma LoadOrderedOfStore(order: int, m: map<string, Word>, markovLength: int)
    requires IntMin <= order <= IntMax && RootsWellFormed(m)
    ensures LoadOrdered(StoreText(OrderHeader(order, m), m), markovLength) == (m, order)
  {
    var header := OrderHeader(order, m);
    OrderHeaderFields(order, m);
    RootTokens(header, m);
    ReadOrderedTokens(order, m, markovLength);
  }

  lemma OrderHeaderFields(order: int, m: map<string, Word>)
    ensures AllFields(OrderHeader(order, m))
  {
    IntToDecIsField(order);
    IntToDecIsField(|m|);
    AllFieldsOne(IntToDec(order));
    AllFieldsOne(IntToDec(|m|));
    AllFieldsAppend([IntToDec(order)], [IntToDec(|m|)]);
  }

  lemma ReadOrderedTokens(order: int, m: map<string, Word>, markovLength: int)
    requires IntMin <= order <= IntMax && RootsWellFormed(m)
    ensures var o := ReadInt(Stream(OrderHeader(order, m) + RootFields(m), false), markovLength);
      var c := ReadCount(o.1, 0);
      o.0 == order && ParseChildren(c.1, c.0).0 == m
  {
    var fs := RootFields(m);
    assert OrderHeader(order, m) + fs == [IntToDec(order)] + ([IntToDec(|m|)] + (fs + []));
    ReadIntOfDec(order, markovLength, [IntToDec(|m|)] + (fs + []));
    ReadCountOfDec(|m|, 0, fs + []);
    RootsParse(m, []);
  }

  lemma LoadUnorderedOfStore(m: map<string, Word>)
    requires RootsWellFormed(m)
    ensures LoadUnordered(StoreText([IntToDec(|m|)], m)) == m
  {
    IntToDecIsField(|m|);
    AllFieldsOne(IntToDec(|m|));
    RootTokens([IntToDec(|m|)], m);
    ReadUnorderedTokens(m);
  }

  lemma ReadUnorderedTokens(m: map<string, Word>)
    requires RootsWellFormed(m)
    ensures var c := ReadCount(Stream([IntToDec(|m|)] + RootFields(m), false), 0);
      ParseChildren(c.1, c.0).0 == m
  {
    var fs := RootFields(m);
    assert [IntToDec(|m|)] + fs == [IntToDec(|m|)] + (fs + []);
    ReadCountOfDec(|m|, 0, fs + []);
    RootsParse(m, []);
  }

  /** An empty file yields no roots and keeps the order: the order read
      fails before touching `markovLength`, the count keeps its initial 0. */
  lemma LoadOrderedEmpty(markovLength: int)
    ensures LoadOrdered("", markovLength) == (map[], markovLength)
  {
  }

  /** Of two entries with the same key, the first is the one loaded. */
  lemma {:induction false} EntryMapFirstWins(es: seq<Entry>, i: nat)
    requires i < |es| && forall j :: 0 <= j < i ==> es[j].key != es[i].key
    ensures es[i].key in EntryMap(es) && EntryMap(es)[es[i].key] == es[i].node
  {
    if i > 0 {
      EntryMapFirstWins(es[1..], i - 1);
    }
  }

  /** So a file listing a root key twice loads the first node given for it. */
  lemma DuplicateRootFirstWins(es: seq<Entry>, i: nat, more: seq<string>)
    requires AllParseBack(es)
    requires i < |es| && forall j :: 0 <= j < i ==> es[j].key != es[i].key
    ensures var r := ParseChildren(Stream(Flatten(es) + more, false), |es|).0;
      es[i].key in r && r[es[i].key] == es[i].node
  {
    ParseEntries(es, more);
    EntryMapFirstWins(es, i);
  }
}
