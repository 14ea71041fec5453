/**
 * `struct Reader` (reader.hpp): a list of owned words filled from an input
 * stream, and `generateMainTree`, which slides an n-word window over the list,
 * merges every window into the root map and then clears the list.
 *
 * A list slot holds `Some(w)` while it owns its word and `None` once the word
 * has been moved out (a moved-from `unique_ptr`).
 */
module Learner {
  import opened Wrappers
  import opened Words
  import opened WordFormat
  import opened Chain

  /** The words of a list whose every slot still owns its word. */
  predicate AllOwned(list: seq<Option<Word>>)
  {
    forall i :: 0 <= i < |list| ==> list[i].Some?
  }

  function Held(list: seq<Option<Word>>): (ws: seq<Word>)
    requires AllOwned(list)
    ensures |ws| == |list| && forall i :: 0 <= i < |list| ==> list[i] == Some(ws[i])
  {
    if list == [] then [] else [list[0].value] + Held(list[1..])
  }

  function Owned(ws: seq<Word>): (list: seq<Option<Word>>)
    ensures AllOwned(list) && Held(list) == ws
  {
    if ws == [] then [] else [Some(ws[0])] + Owned(ws[1..])
  }

  class Reader {
    /** `hugeAssWordList_`. */
    var list: seq<Option<Word>>

    /** Every slot owns a word that is still as `new Word(text)` made it;
        the windows merged by `GenerateMainTree` rely on this. */
    predicate Valid()
      reads this
    {
      AllOwned(list) && AllFresh(Held(list))
    }

    constructor ()
      ensures Valid() && list == []
    {
      list := [];
    }

    /** `is >> reader`: one fresh weight-1, childless word per
        whitespace-separated token, appended in input order. */
    method ReadFrom(input: string)
      requires Valid()
      modifies this
      ensures Valid()
      ensures list == old(list) + Owned(FreshWords(OpenStream(input).tokens))
    {
      var read := ReadWords(input);
      ghost var before := list;
      list := list + read;
      HeldAppend(before, read);
    }

    /**
     * `generateMainTree(myMap, markovLength)`: window k (words k .. k + n - 1)
     * is merged while k + n does not exceed the list length; the window's
     * first word is moved out of the list and the others are copied. The list
     * is empty afterwards, whether or not anything was learned.
     */
    method GenerateMainTree(roots: map<string, Word>, n: int) returns (r: map<string, Word>)
      requires Valid()
      requires n != 0 || list == []
      modifies this
      ensures r == Learn(roots, Windows(Held(old(list)), n))
      ensures Valid() && list == []
    {
      ghost var ws := Held(list);
      ghost var wins := Windows(ws, n);
      WindowCount(ws, n);
      var currentRead := 0;
      r := roots;
      while currentRead < |list|
        invariant |list| == |ws| && 0 <= currentRead <= |wins|
        invariant forall j :: currentRead <= j < |list| ==> list[j] == Some(ws[j])
        invariant r == Learn(roots, wins[..currentRead])
      {
        // A negative sum converts to a huge size_t, so it also ends the loop.
        if currentRead + n < 0 || currentRead + n > |list| {
          break;
        }
        var temp := MoveWindow(currentRead, n, ws);
        r := LearnWindow(r, temp);
        LearnNextWindow(roots, ws, n, currentRead);
        currentRead := currentRead + 1;
      }
      assert wins[..currentRead] == wins;
      list := [];
    }

    /** The window starting at `k`: its first word is moved out of the list
        and the following n - 1 are copied. */
    method MoveWindow(k: nat, n: int, ghost ws: seq<Word>) returns (temp: seq<Word>)
      requires |list| == |ws| && 1 <= n && k + n <= |list|
      requires forall j :: k <= j < |list| ==> list[j] == Some(ws[j])
      modifies this
      ensures temp == ws[k..k + n]
      ensures list == old(list)[k := None]
    {
      temp := [];
      var i := 0;
      while i < n
        invariant |list| == |ws| && 0 <= i <= n && temp == ws[k..k + i]
        invariant list == if i == 0 then old(list) else old(list)[k := None]
      {
        if i == 0 {
          temp := temp + [list[k].value];
          list := list[k := None];
        } else {
          temp := temp + [list[k + i].value];
        }
        i := i + 1;
      }
    }
  }

  lemma HeldAppend(a: seq<Option<Word>>, b: seq<Option<Word>>)
    requires AllOwned(a) && AllOwned(b)
    ensures AllOwned(a + b) && Held(a + b) == Held(a) + Held(b)
  {
    assert AllOwned(a + b);
    var h := Held(a + b);
    assert |h| == |Held(a) + Held(b)|;
    forall i | 0 <= i < |h| ensures h[i] == (Held(a) + Held(b))[i] {
      assert (a + b)[i] == Some(h[i]);
    }
  }

  /** `while (is >> userText) list.push_back(new Word(userText))`: the
      string extraction fails only at the end of the input. */
  method ReadWords(input: string) returns (list: seq<Option<Word>>)
    ensures list == Owned(FreshWords(OpenStream(input).tokens))
  {
    var st := OpenStream(input);
    ghost var tokens := st.tokens;
    var userText := "";
    ghost var i := 0;
    list := [];
    while true
      invariant !st.failed && 0 <= i <= |tokens| && st.tokens == tokens[i..]
      invariant list == Owned(FreshWords(tokens[..i]))
      decreases |st.tokens|
    {
      var next := ReadText(st, userText);
      if next.1.failed {
        break;
      }
      userText, st := next.0, next.1;
      OwnedFreshSnoc(tokens[..i], userText);
      assert tokens[..i + 1] == tokens[..i] + [userText];
      list := list + [Some(Fresh(userText))];
      i := i + 1;
    }
    assert tokens[..i] == tokens;
  }

  lemma OwnedFreshSnoc(ts: seq<string>, t: string)
    ensures Owned(FreshWords(ts + [t])) == Owned(FreshWords(ts)) + [Some(Fresh(t))]
  {
    var a := Owned(FreshWords(ts + [t]));
    var b := Owned(FreshWords(ts)) + [Some(Fresh(t))];
    assert |Held(a)| == |a| && |Held(b)| == |b|;
    forall i | 0 <= i < |a| ensures a[i] == b[i] {
      assert a[i] == Some(Held(a)[i]);
    }
  }
}
