/**
 * `struct GutenbergParser` (gutenbergparser.hpp): reads a Project Gutenberg
 * e-book line by line, drops the licence notice, credits, page markers,
 * headings and blank lines, stops at the end of the book, and keeps every
 * other line, without '|' and '_', followed by one space.
 */
module Gutenberg {
  import opened Wrappers
  import opened Text

  // The values of `currentState_`: the three `States` and the default.
  const FIRSTNOTICE: int := 0
  const BADLINE: int := 1
  const END: int := 2
  const DEFAULT: int := 4200

  const NoticeMark: string := "The Project Gutenberg EBook of"
  const StartMark: string := "*** START OF THIS PROJECT GUTENBERG EBOOK"
  const EndMark: string := "*** END OF THIS PROJECT GUTENBERG"

  // ---------------------------------------------------------------------------
  // The line tests
  // ---------------------------------------------------------------------------

  /** The upper-case letters of `s`. */
  function CountUpper(s: string): (n: nat)
    ensures n <= |s|
    decreases |s|
  {
    if s == [] then 0
    else CountUpper(s[..|s| - 1]) + (if IsAlpha(s[|s| - 1]) && IsUpper(s[|s| - 1]) then 1 else 0)
  }

  /** `(float(up) / s.size()) > 0.5f`, as the integer test `2 * up > size`;
      on the empty line the quotient is NaN and the test false. */
  predicate AllUpper(s: string)
  {
    2 * CountUpper(s) > |s|
  }

  /** The first six characters are spaces. */
  predicate SixSpaces(s: string)
  {
    |s| >= 6 && forall i :: 0 <= i < 6 ==> s[i] == ' '
  }

  predicate FiveSpacesAt(s: string, i: nat)
  {
    i + 5 <= |s| && forall j :: i <= j < i + 5 ==> s[j] == ' '
  }

  /** Five spaces followed by a digit occur somewhere in `s`. */
  predicate SpacesThenDigit(s: string)
  {
    exists i: nat :: i + 5 < |s| && FiveSpacesAt(s, i) && IsDigit(s[i + 5])
  }

  /** `s[j]` for `j <= s.size()`: position `size()` holds the terminating
      '\0'. */
  function CharAt(s: string, j: nat): (c: char)
    requires j <= |s|
    ensures j < |s| ==> c == s[j]
    ensures j == |s| ==> c == '\0'
  {
    if j < |s| then s[j] else '\0'
  }

  /** `s.substr(0, n)`. */
  function Substr0(s: string, n: nat): (r: string)
    ensures |r| <= n && StartsWith(s, r)
    ensures |s| >= n ==> |r| == n
  {
    if |s| <= n then s else s[..n]
  }

  /** The state a line sets: the first test that matches, in the source's
      order. */
  function LineState(line: string): (s: int)
    ensures s == FIRSTNOTICE || s == BADLINE || s == END || s == DEFAULT
  {
    if Contains(line, NoticeMark) then FIRSTNOTICE
    else if Contains(line, "Produced by") then BADLINE
    else if Contains(line, "Proofreading Team") then BADLINE
    else if Contains(line, "produced from images generously made available by") then BADLINE
    else if Contains(line, "Internet Archive") then BADLINE
    else if Contains(line, "THE END") then END
    else if Contains(line, EndMark) then END
    else if Substr0(line, 5) == "Page " then BADLINE
    else if Substr0(line, 3) == "***" then BADLINE
    else if AllUpper(line) then BADLINE
    else if SixSpaces(line) then BADLINE
    else if SpacesThenDigit(line) then BADLINE
    else if line == "" || line == "\t" || line == "\r\n" || line == "\r" || line == "\n" then BADLINE
    else DEFAULT
  }

  /** `s.erase(remove(s.begin(), s.end(), c), s.end())`: `s` without `c`,
      the other characters in order. */
  function Without(s: string, c: char): (r: string)
    ensures |r| <= |s|
    ensures forall k :: 0 <= k < |r| ==> r[k] != c
    ensures forall x :: x in r <==> x in s && x != c
    ensures (forall k :: 0 <= k < |s| ==> s[k] != c) ==> r == s
    decreases |s|
  {
    if s == [] then ""
    else
      assert forall k :: 0 <= k < |s| - 1 ==> s[1..][k] == s[k + 1];
      (if s[0] == c then "" else [s[0]]) + Without(s[1..], c)
  }

  /** A kept line, cleaned of '|' and '_'. */
  function Clean(line: string): (r: string)
    ensures forall k :: 0 <= k < |r| ==> r[k] != '|' && r[k] != '_'
  {
    var r := Without(Without(line, '|'), '_');
    assert forall k :: 0 <= k < |r| ==> r[k] in r;
    r
  }

  // ---------------------------------------------------------------------------
  // The whole input
  // ---------------------------------------------------------------------------

  /** The first line at or after i that holds the start marker. */
  function NextStart(lines: seq<string>, i: nat): (r: Option<nat>)
    requires i <= |lines|
    ensures r.Some? ==> i <= r.value < |lines| && Contains(lines[r.value], StartMark)
    ensures r.Some? ==> forall j :: i <= j < r.value ==> !Contains(lines[j], StartMark)
    ensures r.None? ==> forall j :: i <= j < |lines| ==> !Contains(lines[j], StartMark)
    decreases |lines| - i
  {
    if i == |lines| then None
    else if Contains(lines[i], StartMark) then Some(i)
    else NextStart(lines, i + 1)
  }

  /**
   * What reading `lines[i..]` appends to `ss`, and the state it leaves, from
   * state `st`. After a notice line the lines up to and including the
   * start marker are skipped (all the rest when there is none); after an
   * end line nothing more is read. `classify` is the line test, `LineState`
   * in the parser; the lemmas about the shape of the reading hold for any.
   */
  function Parse(classify: string -> int, lines: seq<string>, i: nat, st: int): (r: (string, int))
    requires i <= |lines|
    decreases |lines| - i, 1
  {
    if i == |lines| then ("", st) else ParseLine(classify, lines, i, classify(lines[i]))
  }

  /** What the line at `i` does once its test has given state `s`, and the
      reading after it. */
  function ParseLine(classify: string -> int, lines: seq<string>, i: nat, s: int): (r: (string, int))
    requires i < |lines|
    decreases |lines| - i, 0
  {
    if s == FIRSTNOTICE then
      match NextStart(lines, i + 1)
      case None => ("", FIRSTNOTICE)
      case Some(j) => Parse(classify, lines, j + 1, DEFAULT)
    else if s == BADLINE then Parse(classify, lines, i + 1, BADLINE)
    else if s == END then ("", END)
    else
      var rest := Parse(classify, lines, i + 1, DEFAULT);
      (Clean(lines[i]) + " " + rest.0, rest.1)
  }

  class GutenbergParser {
    var currentState: int
    var ss: string

    /** `GutenbergParser()`: the default state, nothing kept. */
    constructor ()
      ensures currentState == DEFAULT && ss == ""
    {
      currentState := DEFAULT;
      ss := "";
    }

    /** `isAllUpper(s)`: more than half of the characters are upper-case
        letters. */
    method IsAllUpper(s: string) returns (r: bool)
      ensures r <==> AllUpper(s)
    {
      var up := 0;
      for i := 0 to |s|
        invariant up == CountUpper(s[..i])
      {
        assert s[..i + 1][..i] == s[..i];
        if !IsAlpha(s[i]) {
        } else if IsUpper(s[i]) {
          up := up + 1;
        }
      }
      assert s[..|s|] == s;
      r := 2 * up > |s|;
    }

    /** `fiveSpaces(s)`: the line has at least six characters and the first
        six are spaces. */
    method FiveSpaces(s: string) returns (spaces: bool)
      ensures spaces <==> SixSpaces(s)
    {
      if |s| < 6 {
        return false;
      }
      spaces := true;
      for i := 0 to 6
        invariant spaces <==> forall j :: 0 <= j < i ==> s[j] == ' '
      {
        if s[i] != ' ' {
          spaces := false;
        }
      }
    }

    /** `fiveSpacesAndNum(s)`: five spaces and then a digit somewhere. Each
        read past a space is at most one past it, so no read goes beyond
        the terminating '\0'. */
    method FiveSpacesAndNum(s: string) returns (spaces: bool)
      ensures spaces <==> SpacesThenDigit(s)
    {
      spaces := false;
      var i := 0;
      while i < |s|
        invariant 0 <= i <= |s|
        invariant forall j: nat :: j < i ==> !(j + 5 < |s| && FiveSpacesAt(s, j) && IsDigit(s[j + 5]))
      {
        if CharAt(s, i) == ' ' && CharAt(s, i + 1) == ' ' && CharAt(s, i + 2) == ' ' &&
           CharAt(s, i + 3) == ' ' && CharAt(s, i + 4) == ' ' {
          if IsDigit(CharAt(s, i + 5)) {
            assert FiveSpacesAt(s, i);
            spaces := true;
            break;
          }
        }
        FiveSpacesAtChars(s, i);
        i := i + 1;
      }
    }

    /** The classification at the top of the read loop. */
    method Classify(userText: string)
      modifies this
      ensures currentState == LineState(userText) && ss == old(ss)
    {
      var upper := IsAllUpper(userText);
      var six := FiveSpaces(userText);
      var num := FiveSpacesAndNum(userText);
      if Contains(userText, NoticeMark) {
        currentState := FIRSTNOTICE;
      } else if Contains(userText, "Produced by") {
        currentState := BADLINE;
      } else if Contains(userText, "Proofreading Team") {
        currentState := BADLINE;
      } else if Contains(userText, "produced from images generously made available by") {
        currentState := BADLINE;
      } else if Contains(userText, "Internet Archive") {
        currentState := BADLINE;
      } else if Contains(userText, "THE END") {
        currentState := END;
      } else if Contains(userText, EndMark) {
        currentState := END;
      } else if Substr0(userText, 5) == "Page " {
        currentState := BADLINE;
      } else if Substr0(userText, 3) == "***" {
        currentState := BADLINE;
      } else if upper {
        currentState := BADLINE;
      } else if six {
        currentState := BADLINE;
      } else if num {
        currentState := BADLINE;
      } else if userText == "" || userText == "\t" || userText == "\r\n" || userText == "\r" || userText == "\n" {
        currentState := BADLINE;
      } else {
        currentState := DEFAULT;
      }
    }

    /**
     * `is >> gp`: the lines `getline` returns, in order. The kept text goes
     * to the end of `ss` and `currentState` ends as `Parse` says.
     */
    method Read(lines: seq<string>)
      modifies this
      ensures ss == old(ss) + Parse(LineState, lines, 0, old(currentState)).0
      ensures currentState == Parse(LineState, lines, 0, old(currentState)).1
    {
      var i := 0;
      while i < |lines|
        invariant 0 <= i <= |lines|
        invariant old(ss) + Parse(LineState, lines, 0, old(currentState)).0 == ss + Parse(LineState, lines, i, currentState).0
        invariant Parse(LineState, lines, 0, old(currentState)).1 == Parse(LineState, lines, i, currentState).1
        decreases |lines| - i
      {
        i := ReadLine(lines, i);
      }
    }

    /** One turn of the read loop: the line at `i` is classified and acted
        on; the turn ends at the next line the outer loop reads. */
    method ReadLine(lines: seq<string>, i0: nat) returns (i: nat)
      requires i0 < |lines|
      modifies this
      ensures i0 < i <= |lines|
      ensures old(ss) + Parse(LineState, lines, i0, old(currentState)).0 == ss + Parse(LineState, lines, i, currentState).0
      ensures Parse(LineState, lines, i0, old(currentState)).1 == Parse(LineState, lines, i, currentState).1
    {
      var userText := lines[i0];
      Classify(userText);
      i := Act(lines, i0);
    }

    /** The switch on the state of the line at `i0`: the rest of the turn. */
    method Act(lines: seq<string>, i0: nat) returns (i: nat)
      requires i0 < |lines|
      requires currentState == FIRSTNOTICE || currentState == BADLINE || currentState == END || currentState == DEFAULT
      modifies this
      ensures i0 < i <= |lines|
      ensures old(ss) + ParseLine(LineState, lines, i0, old(currentState)).0 == ss + Parse(LineState, lines, i, currentState).0
      ensures ParseLine(LineState, lines, i0, old(currentState)).1 == Parse(LineState, lines, i, currentState).1
    {
      i := i0 + 1;
      if currentState == FIRSTNOTICE {
        i := SkipToStart(lines, i);
      } else if currentState == BADLINE {
      } else if currentState == END {
        i := SkipAll(lines, i);
      } else {
        var cleaned := Clean(lines[i0]);
        ss := ss + cleaned + " ";
        AppendAssoc(old(ss), cleaned + " ", Parse(LineState, lines, i, DEFAULT).0);
      }
    }

    /** The inner loop after a notice line: lines are read until one holds
        the start marker, which sets the default state. */
    method SkipToStart(lines: seq<string>, i0: nat) returns (i: nat)
      requires i0 <= |lines| && currentState == FIRSTNOTICE
      modifies this
      ensures i <= |lines| && ss == old(ss)
      ensures match NextStart(lines, i0)
        case None => i == |lines| && currentState == FIRSTNOTICE
        case Some(j) => i == j + 1 && currentState == DEFAULT
    {
      i := i0;
      while i < |lines|
        invariant i0 <= i <= |lines| && currentState == FIRSTNOTICE
        invariant NextStart(lines, i0) == NextStart(lines, i)
        decreases |lines| - i
      {
        var userText := lines[i];
        i := i + 1;
        if Contains(userText, StartMark) {
          currentState := DEFAULT;
          break;
        }
      }
    }

    /** `while(getline(is, userText)) {}`: the rest of the input is read and
        dropped. */
    method SkipAll(lines: seq<string>, i0: nat) returns (i: nat)
      requires i0 <= |lines|
      ensures i == |lines|
    {
      i := i0;
      while i < |lines|
        invariant i0 <= i <= |lines|
        decreases |lines| - i
      {
        i := i + 1;
      }
    }
  }

  /** The character test of the loop, read up to the first non-space, is
      `FiveSpacesAt` followed by a digit. */
  lemma FiveSpacesAtChars(s: string, i: nat)
    requires i < |s|
    ensures (i + 5 < |s| && FiveSpacesAt(s, i) && IsDigit(s[i + 5])) <==>
            (CharAt(s, i) == ' ' && CharAt(s, i + 1) == ' ' && CharAt(s, i + 2) == ' ' &&
             CharAt(s, i + 3) == ' ' && CharAt(s, i + 4) == ' ' && IsDigit(CharAt(s, i + 5)))
  {
  }

  // ---------------------------------------------------------------------------
  // What the filter keeps
  // ---------------------------------------------------------------------------

  /** The kept text holds no '|' and no '_'. */
  lemma {:induction false} KeptHasNoMarks(classify: string -> int, lines: seq<string>, i: nat, st: int)
    requires i <= |lines|
    ensures forall x :: x in Parse(classify, lines, i, st).0 ==> x != '|' && x != '_'
    decreases |lines| - i
  {
    if i < |lines| {
      var s := classify(lines[i]);
      assert Parse(classify, lines, i, st) == ParseLine(classify, lines, i, s);
      if s == FIRSTNOTICE {
        match NextStart(lines, i + 1)
        case None =>
        case Some(j) => KeptHasNoMarks(classify, lines, j + 1, DEFAULT);
      } else if s == BADLINE {
        KeptHasNoMarks(classify, lines, i + 1, BADLINE);
      } else if s == END {
      } else {
        KeptHasNoMarks(classify, lines, i + 1, DEFAULT);
        var c := Clean(lines[i]);
        assert forall k :: 0 <= k < |c| ==> c[k] in c;
      }
    }
  }

  /** An end line stops the reading: nothing at or after it is kept. */
  lemma EndKeepsNothing(lines: seq<string>, i: nat, st: int)
    requires i < |lines| && LineState(lines[i]) == END
    ensures Parse(LineState, lines, i, st) == ("", END)
  {
  }

  /** The start marker is searched for in the lines that follow, whatever
      comes before them. */
  lemma {:induction false} NextStartShift(a: seq<string>, b: seq<string>, i: nat)
    requires i <= |b|
    ensures NextStart(a + b, |a| + i) == (match NextStart(b, i) case None => None case Some(j) => Some(|a| + j))
    decreases |b| - i
  {
    if i < |b| {
      assert (a + b)[|a| + i] == b[i];
      NextStartShift(a, b, i + 1);
    }
  }

  /** Reading resumes the same way whatever lines were read before. */
  lemma {:induction false} ParseShift(classify: string -> int, a: seq<string>, b: seq<string>, i: nat, st: int)
    requires i <= |b|
    ensures Parse(classify, a + b, |a| + i, st) == Parse(classify, b, i, st)
    decreases |b| - i
  {
    if i < |b| {
      assert (a + b)[|a| + i] == b[i];
      var s := classify(b[i]);
      if s == FIRSTNOTICE {
        NextStartShift(a, b, i + 1);
        if NextStart(b, i + 1).Some? {
          ParseShift(classify, a, b, NextStart(b, i + 1).value + 1, DEFAULT);
        }
      } else if s == BADLINE {
        ParseShift(classify, a, b, i + 1, BADLINE);
      } else if s != END {
        ParseShift(classify, a, b, i + 1, DEFAULT);
      }
    }
  }

  /** A notice line drops everything up to and including the first start
      marker after it: what is kept is what reading the book that follows
      keeps. */
  lemma NoticeSkipsHeader(header: seq<string>, book: seq<string>, st: int)
    requires |header| >= 2 && LineState(header[0]) == FIRSTNOTICE
    requires Contains(header[|header| - 1], StartMark)
    requires forall j :: 1 <= j < |header| - 1 ==> !Contains(header[j], StartMark)
    ensures Parse(LineState, header + book, 0, st) == Parse(LineState, book, 0, DEFAULT)
  {
    var lines := header + book;
    assert lines[0] == header[0];
    assert forall j :: 1 <= j < |header| ==> lines[j] == header[j];
    assert NextStart(lines, 1) == Some(|header| - 1);
    ParseShift(LineState, header, book, 0, DEFAULT);
  }

  /** A notice line with no start marker after it drops the rest of the
      input. */
  lemma NoticeWithoutStartKeepsNothing(lines: seq<string>, i: nat, st: int)
    requires i < |lines| && LineState(lines[i]) == FIRSTNOTICE
    requires forall j :: i < j < |lines| ==> !Contains(lines[j], StartMark)
    ensures Parse(LineState, lines, i, st) == ("", FIRSTNOTICE)
  {
    assert NextStart(lines, i + 1).None?;
  }

  /** Without notice and end lines, reading two pieces one after the other
      keeps the text of each, in order: each line is kept or dropped on its
      own. */
  lemma {:induction false} ParseAppend(classify: string -> int, a: seq<string>, b: seq<string>, i: nat, st: int)
    requires i <= |a|
    requires forall j :: i <= j < |a| ==> classify(a[j]) != FIRSTNOTICE && classify(a[j]) != END
    ensures Parse(classify, a + b, i, st).0 == Parse(classify, a, i, st).0 + Parse(classify, b, 0, Parse(classify, a, i, st).1).0
    decreases |a| - i
  {
    if i == |a| {
      ParseShift(classify, a, b, 0, st);
    } else {
      assert (a + b)[i] == a[i];
      if classify(a[i]) == BADLINE {
        ParseAppend(classify, a, b, i + 1, BADLINE);
      } else {
        ParseAppend(classify, a, b, i + 1, DEFAULT);
        AppendAssoc(Clean(a[i]), " ", Parse(classify, a + b, i + 1, DEFAULT).0);
      }
    }
  }

  /** What a run of lines without notice and end lines keeps, line by line:
      nothing for a bad line, and for any other line the line cleaned of
      '|' and '_' and followed by one space. */
  function Kept(classify: string -> int, lines: seq<string>): string
  {
    if lines == [] then ""
    else (if classify(lines[0]) == BADLINE then "" else Clean(lines[0]) + " ") + Kept(classify, lines[1..])
  }

  /** Reading such a run keeps exactly that text. */
  lemma {:induction false} ParseKeepsLines(classify: string -> int, lines: seq<string>, i: nat, st: int)
    requires i <= |lines|
    requires forall j :: i <= j < |lines| ==> classify(lines[j]) != FIRSTNOTICE && classify(lines[j]) != END
    ensures Parse(classify, lines, i, st).0 == Kept(classify, lines[i..])
    decreases |lines| - i
  {
    if i < |lines| {
      assert lines[i..][1..] == lines[i + 1..];
      assert Parse(classify, lines, i, st) == ParseLine(classify, lines, i, classify(lines[i]));
      if classify(lines[i]) == BADLINE {
        ParseKeepsLines(classify, lines, i + 1, BADLINE);
      } else {
        ParseKeepsLines(classify, lines, i + 1, DEFAULT);
        AppendAssoc(Clean(lines[i]), " ", Kept(classify, lines[i + 1..]));
      }
    }
  }
}
