/**
 * Character and string helpers shared by the model: the C locale's character
 * classes, the whitespace tokenizer behind `istream >> string`, decimal
 * numbers as written by `ostream <<` and read by `istream >>`, the byte-wise
 * key order of `std::map<std::string, ...>`, and substring search.
 */
module Text {
  import opened Wrappers

  // ---------------------------------------------------------------------------
  // Character classes (C locale)
  // ---------------------------------------------------------------------------

  /** `isspace` in the C locale: space, \t, \n, \v, \f, \r. */
  predicate IsSpace(c: char)
  {
    c == ' ' || c == '\t' || c == '\n' || c == '\r' || c as int == 11 || c as int == 12
  }

  predicate IsUpper(c: char) { 'A' <= c <= 'Z' }

  predicate IsDigit(c: char) { '0' <= c <= '9' }

  predicate IsAlpha(c: char) { IsUpper(c) || 'a' <= c <= 'z' }

  /** `tolower` in the C locale: only 'A'..'Z' change. */
  function ToLower(c: char): (r: char)
    ensures IsUpper(c) ==> r as int == c as int + 32
    ensures !IsUpper(c) ==> r == c
  {
    if IsUpper(c) then (c as int + 32) as char else c
  }

  function Lower(s: string): (r: string)
    ensures |r| == |s|
    ensures forall i :: 0 <= i < |s| ==> r[i] == ToLower(s[i])
  {
    if s == [] then [] else [ToLower(s[0])] + Lower(s[1..])
  }

  /** A text that survives a write-then-read through a stream unchanged:
      non-empty and free of whitespace. */
  predicate IsField(s: string)
  {
    s != [] && forall i :: 0 <= i < |s| ==> !IsSpace(s[i])
  }

  predicate AllFields(fs: seq<string>)
  {
    forall i :: 0 <= i < |fs| ==> IsField(fs[i])
  }

  lemma AllFieldsOne(a: string)
    requires IsField(a)
    ensures AllFields([a])
  {}

  lemma AllFieldsThree(a: string, b: string, c: string)
    requires IsField(a) && IsField(b) && IsField(c)
    ensures AllFields([a, b, c])
  {}

  lemma AllFieldsAppend(a: seq<string>, b: seq<string>)
    requires AllFields(a) && AllFields(b)
    ensures AllFields(a + b)
  {
    forall i | 0 <= i < |a + b| ensures IsField((a + b)[i]) {
      if i >= |a| {
        assert (a + b)[i] == b[i - |a|];
      }
    }
  }

  // ---------------------------------------------------------------------------
  // Whitespace tokenizer (`while (is >> word)`)
  // ---------------------------------------------------------------------------

  /** Length of the leading run of non-whitespace characters. */
  function TokenLen(s: string): (n: nat)
    ensures n <= |s|
    ensures forall i :: 0 <= i < n ==> !IsSpace(s[i])
    ensures n < |s| ==> IsSpace(s[n])
  {
    if s == [] || IsSpace(s[0]) then 0 else 1 + TokenLen(s[1..])
  }

  /** The whitespace-separated tokens of `s`, in order. */
  function Tokenize(s: string): (ts: seq<string>)
    ensures forall i :: 0 <= i < |ts| ==> IsField(ts[i])
    decreases |s|
  {
    if s == [] then []
    else if IsSpace(s[0]) then Tokenize(s[1..])
    else
      var n := TokenLen(s);
      [s[..n]] + Tokenize(s[n..])
  }

  /** Every field followed by a line break, as `os << field << endl` writes it. */
  function Lines(fs: seq<string>): string
  {
    if fs == [] then [] else fs[0] + "\n" + Lines(fs[1..])
  }

  lemma LinesTwo(a: string, b: string)
    ensures Lines([a, b]) == a + "\n" + b + "\n"
  {
    assert [a, b][1..] == [b];
    assert [b][1..] == [];
    assert Lines([b]) == b + "\n" + [];
    assert Lines([a, b]) == a + "\n" + (b + "\n" + []);
  }

  lemma {:induction false} LinesAppend(a: seq<string>, b: seq<string>)
    ensures Lines(a + b) == Lines(a) + Lines(b)
  {
    if a != [] {
      LinesAppend(a[1..], b);
      assert (a + b)[1..] == a[1..] + b;
      calc {
        Lines(a + b);
        a[0] + "\n" + Lines(a[1..] + b);
        a[0] + "\n" + (Lines(a[1..]) + Lines(b));
        (a[0] + "\n" + Lines(a[1..])) + Lines(b);
      }
    } else {
      assert a + b == b;
    }
  }

  lemma TokenizeSkipsSpace(s: string, t: string)
    requires forall i :: 0 <= i < |s| ==> IsSpace(s[i])
    ensures Tokenize(s + t) == Tokenize(t)
    decreases |s|
  {
    if s != [] {
      assert (s + t)[0] == s[0] && IsSpace(s[0]);
      assert (s + t)[1..] == s[1..] + t;
      TokenizeSkipsSpace(s[1..], t);
    } else {
      assert s + t == t;
    }
  }

  lemma TokenLenOfField(f: string, sep: char, rest: string)
    requires IsField(f) && IsSpace(sep)
    ensures TokenLen(f + [sep] + rest) == |f|
    decreases |f|
  {
    if |f| > 1 {
      assert (f + [sep] + rest)[1..] == f[1..] + [sep] + rest;
      TokenLenOfField(f[1..], sep, rest);
    } else {
      assert (f + [sep] + rest)[1..] == [sep] + rest;
    }
  }

  /** A field followed by one whitespace character reads back as that field. */
  lemma TokenizeField(f: string, sep: char, rest: string)
    requires IsField(f) && IsSpace(sep)
    ensures Tokenize(f + [sep] + rest) == [f] + Tokenize(rest)
  {
    var s := f + [sep] + rest;
    TokenLenOfField(f, sep, rest);
    assert s[0] == f[0] && !IsSpace(s[0]);
    assert s[..|f|] == f;
    assert s[|f|..] == [sep] + rest;
    TokenizeSkipsSpace([sep], rest);
  }

  lemma {:induction false} TokenLenBeforeSpace(a: string, c: char, b: string)
    requires IsSpace(c)
    ensures TokenLen(a + [c] + b) == TokenLen(a)
    decreases |a|
  {
    if a == [] {
      assert (a + [c] + b)[0] == c;
    } else {
      assert (a + [c] + b)[0] == a[0];
      if !IsSpace(a[0]) {
        assert (a + [c] + b)[1..] == a[1..] + [c] + b;
        TokenLenBeforeSpace(a[1..], c, b);
      }
    }
  }

  /** A whitespace character separates: the tokens of `a`, then those of
      `b`. */
  lemma {:induction false} TokenizeSpaceSplit(a: string, c: char, b: string)
    requires IsSpace(c)
    ensures Tokenize(a + [c] + b) == Tokenize(a) + Tokenize(b)
    decreases |a|
  {
    var s := a + [c] + b;
    if a == [] {
      assert s == [c] + b;
      TokenizeSkipsSpace([c], b);
    } else if IsSpace(a[0]) {
      assert s[0] == a[0];
      assert s[1..] == a[1..] + [c] + b;
      TokenizeSpaceSplit(a[1..], c, b);
    } else {
      assert s[0] == a[0];
      var n := TokenLen(a);
      TokenLenBeforeSpace(a, c, b);
      assert s[..n] == a[..n];
      assert s[n..] == a[n..] + [c] + b;
      TokenizeSpaceSplit(a[n..], c, b);
      AppendAssoc([a[..n]], Tokenize(a[n..]), Tokenize(b));
    }
  }

  /** Reading back what was written one field per line gives the fields,
      followed by whatever comes after them. */
  lemma {:induction false} TokenizeLines(fs: seq<string>, more: string)
    requires forall i :: 0 <= i < |fs| ==> IsField(fs[i])
    ensures Tokenize(Lines(fs) + more) == fs + Tokenize(more)
  {
    if fs == [] {
      assert Lines(fs) + more == more;
    } else {
      var f, tail := fs[0], fs[1..];
      var rest := Lines(tail) + more;
      LinesCons(fs, more);
      TokenizeField(f, '\n', rest);
      TokenizeLines(tail, more);
      ConsAppend(fs, Tokenize(more));
    }
  }

  lemma LinesCons(fs: seq<string>, more: string)
    requires fs != []
    ensures Lines(fs) + more == fs[0] + "\n" + (Lines(fs[1..]) + more)
  {
    assert Lines(fs) == fs[0] + "\n" + Lines(fs[1..]);
  }

  lemma AppendAssoc<T>(a: seq<T>, b: seq<T>, c: seq<T>)
    ensures a + (b + c) == (a + b) + c
  {}

  lemma ConsAppend<T>(a: seq<T>, b: seq<T>)
    requires a != []
    ensures [a[0]] + (a[1..] + b) == a + b
  {
    assert a == [a[0]] + a[1..];
  }

  // ---------------------------------------------------------------------------
  // Substring search (`std::string::find`)
  // ---------------------------------------------------------------------------

  predicate OccursAt(s: string, pat: string, i: nat)
  {
    i + |pat| <= |s| && s[i..i + |pat|] == pat
  }

  /** First position at or after `from` where `pat` occurs. */
  function FindFrom(s: string, pat: string, from: nat): (r: Option<nat>)
    ensures r.Some? ==> from <= r.value && OccursAt(s, pat, r.value)
    ensures r.Some? ==> forall j :: from <= j < r.value ==> !OccursAt(s, pat, j)
    ensures r.None? ==> forall j :: from <= j ==> !OccursAt(s, pat, j)
    decreases |s| - from
  {
    if from + |pat| > |s| then None
    else if s[from..from + |pat|] == pat then Some(from)
    else FindFrom(s, pat, from + 1)
  }

  function Find(s: string, pat: string): Option<nat>
  {
    FindFrom(s, pat, 0)
  }

  /** `s.find(pat) != npos`, stated as an occurrence (see `FindIff`). */
  predicate Contains(s: string, pat: string)
  {
    exists i :: 0 <= i && i + |pat| <= |s| && OccursAt(s, pat, i)
  }

  /** The search succeeds exactly when the pattern occurs somewhere. */
  lemma FindIff(s: string, pat: string)
    ensures Find(s, pat).Some? <==> Contains(s, pat)
  {
    if Find(s, pat).Some? {
      assert OccursAt(s, pat, Find(s, pat).value);
    }
  }

  lemma ContainsChar(s: string, c: char)
    ensures Contains(s, [c]) <==> exists i :: 0 <= i < |s| && s[i] == c
  {
    if Contains(s, [c]) {
      var i :| 0 <= i && i + 1 <= |s| && OccursAt(s, [c], i);
      assert s[i..i + 1][0] == s[i];
    }
    if exists i :: 0 <= i < |s| && s[i] == c {
      var i :| 0 <= i < |s| && s[i] == c;
      assert OccursAt(s, [c], i);
    }
  }

  predicate StartsWith(s: string, pre: string)
  {
    |pre| <= |s| && s[..|pre|] == pre
  }

  // ---------------------------------------------------------------------------
  // Key order of std::map<std::string, ...>: byte-wise lexicographic
  // ---------------------------------------------------------------------------

  predicate KeyLess(a: string, b: string)
  {
    if a == [] then b != []
    else if b == [] then false
    else a[0] < b[0] || (a[0] == b[0] && KeyLess(a[1..], b[1..]))
  }

  lemma KeyLessIrreflexive(a: string)
    ensures !KeyLess(a, a)
  {}

  lemma KeyLessAsymmetric(a: string, b: string)
    ensures !(KeyLess(a, b) && KeyLess(b, a))
  {}

  lemma KeyLessTotal(a: string, b: string)
    ensures a == b || KeyLess(a, b) || KeyLess(b, a)
  {}

  lemma {:induction false} KeyLessTransitive(a: string, b: string, c: string)
    requires KeyLess(a, b) && KeyLess(b, c)
    ensures KeyLess(a, c)
  {
    if a != [] && b != [] && c != [] && a[0] == b[0] == c[0] {
      KeyLessTransitive(a[1..], b[1..], c[1..]);
    }
  }

  predicate IsLeast(k: string, ks: set<string>)
  {
    k in ks && forall j :: j in ks && j != k ==> KeyLess(k, j)
  }

  lemma {:induction false} LeastExists(ks: set<string>)
    requires ks != {}
    ensures exists k :: IsLeast(k, ks)
    decreases |ks|
  {
    var x :| x in ks;
    if ks == {x} {
      assert IsLeast(x, ks);
    } else {
      LeastExists(ks - {x});
      var m :| IsLeast(m, ks - {x});
      KeyLessTotal(x, m);
      if KeyLess(x, m) {
        forall j | j in ks && j != x
          ensures KeyLess(x, j)
        {
          if j != m { KeyLessTransitive(x, m, j); }
        }
        assert IsLeast(x, ks);
      } else {
        assert IsLeast(m, ks);
      }
    }
  }

  /** The first key of a non-empty key set in map order. */
  function LeastKey(ks: set<string>): (k: string)
    requires ks != {}
    ensures IsLeast(k, ks)
  {
    LeastExists(ks);
    assert forall a, b :: !(KeyLess(a, b) && KeyLess(b, a)) by {
      forall a, b ensures !(KeyLess(a, b) && KeyLess(b, a)) { KeyLessAsymmetric(a, b); }
    }
    var k :| IsLeast(k, ks); k
  }

  /** The keys in the order a range-for over a std::map visits them. */
  function SortedKeys(ks: set<string>): (r: seq<string>)
    ensures |r| == |ks|
    ensures forall i :: 0 <= i < |r| ==> r[i] in ks
    ensures forall k :: k in ks ==> k in r
    decreases |ks|
  {
    if ks == {} then []
    else
      var k := LeastKey(ks);
      [k] + SortedKeys(ks - {k})
  }

  /** The visiting order is strictly increasing. */
  lemma {:induction false} SortedKeysSorted(ks: set<string>)
    ensures KeysSorted(SortedKeys(ks))
    decreases |ks|
  {
    if ks != {} {
      var k := LeastKey(ks);
      SortedKeysSorted(ks - {k});
      LeastFirst(k, ks, SortedKeys(ks - {k}));
    }
  }

  /** Strictly increasing in map order. */
  predicate KeysSorted(r: seq<string>)
  {
    forall i, j :: 0 <= i < j < |r| ==> KeyLess(r[i], r[j])
  }

  /** The least key followed by a sorted run of the other keys is sorted. */
  lemma LeastFirst(k: string, ks: set<string>, rest: seq<string>)
    requires IsLeast(k, ks) && KeysSorted(rest)
    requires forall j :: 0 <= j < |rest| ==> rest[j] in ks - {k}
    ensures KeysSorted([k] + rest)
  {
    var r := [k] + rest;
    forall i, j | 0 <= i < j < |r| ensures KeyLess(r[i], r[j]) {
      assert r[j] == rest[j - 1];
      if i > 0 {
        assert r[i] == rest[i - 1];
      }
    }
  }

  lemma SortedKeysDistinct(ks: set<string>, i: nat, j: nat)
    requires i < j < |SortedKeys(ks)|
    ensures SortedKeys(ks)[i] != SortedKeys(ks)[j]
  {
    SortedKeysSorted(ks);
    KeyLessIrreflexive(SortedKeys(ks)[i]);
  }

  // ---------------------------------------------------------------------------
  // Decimal numbers
  // ---------------------------------------------------------------------------

  function DigitChar(d: nat): (c: char)
    requires d < 10
    ensures IsDigit(c)
  {
    ('0' as int + d) as char
  }

  function DigitValue(c: char): int
  {
    c as int - '0' as int
  }

  /** `os << n` for a non-negative number. */
  function NatToDec(n: nat): (s: string)
    ensures s != [] && forall i :: 0 <= i < |s| ==> IsDigit(s[i])
  {
    if n < 10 then [DigitChar(n)] else NatToDec(n / 10) + [DigitChar(n % 10)]
  }

  /** `os << n` for an `int`. */
  function IntToDec(n: int): (s: string)
  {
    if n < 0 then "-" + NatToDec(-n) else NatToDec(n)
  }

  /** A written number is one token. */
  lemma IntToDecIsField(n: int)
    ensures IsField(IntToDec(n))
  {}

  /** Value of a run of decimal digits. */
  function DigitsValue(s: string): int
  {
    if s == [] then 0 else 10 * DigitsValue(s[..|s| - 1]) + DigitValue(s[|s| - 1])
  }

  lemma {:induction false} DigitsValueOfNatToDec(n: nat)
    ensures DigitsValue(NatToDec(n)) == n
  {
    if n >= 10 {
      var s := NatToDec(n);
      assert s[..|s| - 1] == NatToDec(n / 10);
      DigitsValueOfNatToDec(n / 10);
    }
  }

  /** Length of the leading run of decimal digits. */
  function DigitRun(s: string): (n: nat)
    ensures n <= |s|
  {
    if s == [] || !IsDigit(s[0]) then 0 else 1 + DigitRun(s[1..])
  }

  lemma DigitRunAll(s: string)
    requires forall i :: 0 <= i < |s| ==> IsDigit(s[i])
    ensures DigitRun(s) == |s|
  {
    if s != [] { DigitRunAll(s[1..]); }
  }

  /** What `is >> n` takes from the front of token `t` for an integer `n`:
      an optional sign and at least one digit. Gives the value and the number
      of characters used, or None when no number starts there. */
  function NumberPrefix(t: string): (r: Option<(int, nat)>)
    ensures r.Some? ==> 0 < r.value.1 <= |t|
  {
    var signLen := if t != [] && (t[0] == '-' || t[0] == '+') then 1 else 0;
    var digits := DigitRun(t[signLen..]);
    if digits == 0 then None
    else
      var v := DigitsValue(t[signLen..signLen + digits]);
      Some((if signLen == 1 && t[0] == '-' then -v else v, signLen + digits))
  }

  /** A number written with `os <<` is read back whole by `is >>`. */
  lemma NumberPrefixOfIntToDec(n: int)
    ensures NumberPrefix(IntToDec(n)) == Some((n, |IntToDec(n)|))
  {
    var d := NatToDec(if n < 0 then -n else n);
    DigitsValueOfNatToDec(if n < 0 then -n else n);
    if n < 0 {
      assert IntToDec(n) == "-" + d;
      NumberPrefixNegative(d);
    } else {
      assert IntToDec(n) == d;
      NumberPrefixUnsigned(d);
    }
  }

  lemma NumberPrefixUnsigned(d: string)
    requires d != [] && forall i :: 0 <= i < |d| ==> IsDigit(d[i])
    ensures NumberPrefix(d) == Some((DigitsValue(d), |d|))
  {
    DigitRunAll(d);
    assert d[0..|d|] == d;
  }

  lemma NumberPrefixNegative(d: string)
    requires d != [] && forall i :: 0 <= i < |d| ==> IsDigit(d[i])
    ensures NumberPrefix("-" + d) == Some((-DigitsValue(d), |d| + 1))
  {
    var s := "-" + d;
    assert s[1..] == d;
    DigitRunAll(d);
    assert s[1..1 + |d|] == d;
  }
}
