/**
 * `readSTDIN` (readstdin.hpp): the same n-word window loop as the reader, on
 * a local list filled from standard input, with the order defaulting to 3.
 * Here the list position `x` advances inside the step that moves a window's
 * first word out, and the later words of the window are copied.
 */
module StdinLearner {
  import opened Wrappers
  import opened Words
  import opened Chain
  import opened WordFormat
  import opened Learner

  method ReadStdin(input: string, roots: map<string, Word>, n: int := 3) returns (r: map<string, Word>)
    requires n != 0 || OpenStream(input).tokens == []
    ensures r == Learn(roots, Windows(FreshWords(OpenStream(input).tokens), n))
  {
    var list := ReadWords(input);
    r := LearnWindows(list, roots, n);
  }

  /** The window loop over the filled list: a window starts at every
      position whose n words all lie inside the list. */
  method LearnWindows(words: seq<Option<Word>>, roots: map<string, Word>, n: int) returns (r: map<string, Word>)
    requires AllOwned(words)
    requires n != 0 || words == []
    ensures r == Learn(roots, Windows(Held(words), n))
  {
    var list := words;
    ghost var ws := Held(list);
    ghost var wins := Windows(ws, n);
    WindowCount(ws, n);
    var currentRead := 0;
    var x := 0;
    r := roots;
    while x < |list|
      invariant |list| == |ws| && 0 <= currentRead <= |wins| && x == currentRead
      invariant forall j :: x <= j < |list| ==> list[j] == Some(ws[j])
      invariant r == Learn(roots, wins[..currentRead])
    {
      if currentRead + n < 0 || currentRead + n > |list| {
        break;
      }
      assert 1 <= n && currentRead < |wins|;
      var temp;
      temp, list, x := TakeWindow(list, x, n, ws);
      r := LearnWindow(r, temp);
      LearnNextWindow(roots, ws, n, currentRead);
      currentRead := currentRead + 1;
    }
    assert wins[..currentRead] == wins;
  }

  /** One window: the word at `x` is moved out and `x` steps past it, while
      `y` walks on over the n - 1 words that are copied. */
  method TakeWindow(list: seq<Option<Word>>, x: nat, n: int, ghost ws: seq<Word>)
      returns (temp: seq<Word>, list': seq<Option<Word>>, x': nat)
    requires |list| == |ws| && 1 <= n && x + n <= |list|
    requires forall j :: x <= j < |list| ==> list[j] == Some(ws[j])
    ensures temp == ws[x..x + n] && list' == list[x := None] && x' == x + 1
  {
    temp, list', x' := [], list, x;
    var y := x;
    var i := 0;
    while i < n
      invariant 0 <= i <= n && y == x + i && temp == ws[x..y]
      invariant list' == if i == 0 then list else list[x := None]
      invariant x' == if i == 0 then x else x + 1
    {
      if i == 0 {
        temp := temp + [list'[x'].value];
        list' := list'[x' := None];
        y := y + 1;
        x' := x' + 1;
      } else {
        temp := temp + [list'[y].value];
        y := y + 1;
      }
      i := i + 1;
    }
  }
}
