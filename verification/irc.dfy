/**
 * `class Irc` (irc.hpp): the chat client's handling of server lines. Each
 * line is answered as a ping, ends the session, records a user joining or
 * leaving, or queues a channel message; the queue is later handed to the
 * learner as tagged words. What the client sends is recorded in `sent`
 * rather than written to a socket.
 */
module IrcClient {
  import opened Wrappers
  import opened Text
  import opened Words

  /** The tags `characteristics_.insert(CHARACTER_*)` adds. */
  const TagBegin: string := "BEGIN"
  const TagEndl: string := "ENDL"
  const TagName: string := "NAME"

  // ---------------------------------------------------------------------------
  // Server lines
  // ---------------------------------------------------------------------------

  datatype LineKind = Ping | Disconnect | UserLine | Sentence | Other

  /** The branch of `parseOutput` a line takes: the first test that
      matches. */
  function KindOf(msg: string): LineKind
  {
    if Contains(msg, "PING") then Ping
    else if msg == "DISCONNECT" then Disconnect
    else if Contains(msg, "JOIN") || Contains(msg, "PART") then UserLine
    else if Contains(msg, "PRIVMSG") && Contains(msg, "#") then Sentence
    else Other
  }

  /** The user entry can be cut: `erase(find("!"))` throws when the line,
      without its first character, has no '!'. */
  predicate HasNick(msg: string)
  {
    msg != [] && Find(msg[1..], "!").Some?
  }

  /** The user entry of a JOIN or PART line: the line without its first
      character, up to the first '!', then " JOIN" when the line mentions
      JOIN and " PART" otherwise. */
  function UserEntry(msg: string): (r: string)
    requires HasNick(msg)
    ensures |r| >= 5 && r[|r| - 5..] == (if Contains(msg, "JOIN") then " JOIN" else " PART")
    ensures StartsWith(msg[1..], r[..|r| - 5] + "!")
    ensures forall i :: 0 <= i < |r| - 5 ==> r[i] != '!'
  {
    var rest := msg[1..];
    var k := Find(rest, "!").value;
    assert rest[k..k + 1] == "!";
    assert forall j :: 0 <= j < k ==> rest[j] != '!' by {
      forall j | 0 <= j < k
        ensures rest[j] != '!'
      {
        assert !OccursAt(rest, "!", j);
      }
    }
    var r := rest[..k] + (if Contains(msg, "JOIN") then " JOIN" else " PART");
    assert r[..|r| - 5] == rest[..k];
    assert rest[..k + 1] == rest[..k] + "!";
    r
  }

  /** The message text can be cut: `substr(find(":"))` throws when no ':'
      follows "PRIVMSG". */
  predicate HasText(msg: string)
  {
    Find(msg, "PRIVMSG").Some? && Find(msg[Find(msg, "PRIVMSG").value..], ":").Some?
  }

  /** `formatNiceOutput`: the text after the first ':' that follows
      "PRIVMSG". */
  function FormatNiceOutput(msg: string): (r: string)
    requires HasText(msg)
    ensures |r| < |msg| && r == msg[|msg| - |r|..]
    ensures msg[|msg| - |r| - 1] == ':'
    ensures Find(msg, "PRIVMSG").value + 7 <= |msg| - |r| - 1
    ensures forall j :: Find(msg, "PRIVMSG").value <= j < |msg| - |r| - 1 ==> msg[j] != ':'
  {
    var p := Find(msg, "PRIVMSG").value;
    var sentence := msg[p..];
    var q := Find(sentence, ":").value;
    assert sentence[q..q + 1] == ":";
    assert sentence[..7] == "PRIVMSG";
    assert forall j :: 0 <= j < q ==> sentence[j] != ':' by {
      forall j | 0 <= j < q
        ensures sentence[j] != ':'
      {
        assert !OccursAt(sentence, ":", j);
      }
    }
    assert sentence[q] == ':';
    assert forall j :: 0 <= j < 7 ==> sentence[j] == "PRIVMSG"[j];
    assert forall j :: 0 <= j < 7 ==> sentence[j] != ':';
    assert q >= 7;
    sentence[q + 1..]
  }

  /** `sendPong`: "PONG " and the line from index 5 on. */
  function PongReply(msg: string): string
    requires |msg| >= 5
  {
    "PONG " + msg[5..]
  }

  /** What `parseOutput` can take without throwing: a ping long enough for
      `substr(5)`, a nick on a user line, a text on a channel message. */
  predicate Parsable(msg: string)
  {
    match KindOf(msg)
    case Ping => |msg| >= 5
    case UserLine => HasNick(msg)
    case Sentence => HasText(msg)
    case _ => true
  }

  /** A server ping "PING <server>" is answered "PONG <server>": the same
      parameter, as section 4.6.3 of RFC 1459 asks. */
  lemma PongEchoesPing(msg: string)
    requires StartsWith(msg, "PING ")
    ensures PongReply(msg) == msg[..1] + "O" + msg[2..]
    ensures KindOf(msg) == Ping
  {
    assert msg[..5] == "PING ";
    assert OccursAt(msg, "PING", 0);
    assert msg[2..] == msg[2..5] + msg[5..];
  }

  /** A channel message is queued only when it mentions none of PING, JOIN
      and PART, so the queued text never holds them. */
  lemma QueuedTextAvoidsKeywords(msg: string)
    requires KindOf(msg) == Sentence && HasText(msg)
    ensures !Contains(FormatNiceOutput(msg), "PING")
    ensures !Contains(FormatNiceOutput(msg), "JOIN")
    ensures !Contains(FormatNiceOutput(msg), "PART")
  {
    var r := FormatNiceOutput(msg);
    ContainsSuffix(msg, r, "PING");
    ContainsSuffix(msg, r, "JOIN");
    ContainsSuffix(msg, r, "PART");
  }

  lemma ContainsSuffix(s: string, r: string, pat: string)
    requires |r| <= |s| && r == s[|s| - |r|..]
    ensures Contains(r, pat) ==> Contains(s, pat)
  {
    if Contains(r, pat) {
      var i :| 0 <= i && i + |pat| <= |r| && OccursAt(r, pat, i);
      var d := |s| - |r|;
      assert s[d + i..d + i + |pat|] == r[i..i + |pat|];
      assert OccursAt(s, pat, d + i);
    }
  }

  // ---------------------------------------------------------------------------
  // Outgoing commands
  // ---------------------------------------------------------------------------

  /** The command followed by exactly one space. */
  function Head(command: string): (h: string)
    requires command != ""
    ensures StartsWith(h, command) && h[|h| - 1] == ' ' && |h| <= |command| + 1
  {
    if command[|command| - 1] != ' ' then command + " " else command
  }

  /** `str + " "`, n times. */
  function Repeat(s: string, n: nat): string
  {
    if n == 0 then "" else Repeat(s, n - 1) + s
  }

  /**
   * `formatString`: the command and one space; for USER the parameter three
   * times and a trailing ':' before it (section 4.1.3 of RFC 1459); for
   * JOIN and PRIVMSG a '#' when the channel lacks one; then the parameter
   * and CR-LF (section 2.3.1).
   */
  method FormatString(command: string, str: string) returns (ret: string)
    requires command != ""
    ensures Head(command) == "USER " ==>
              ret == "USER " + str + " " + str + " " + str + " :" + str + "\r\n"
    ensures Head(command) == "JOIN " || Head(command) == "PRIVMSG " ==>
              ret == Head(command) + (if Contains(str, "#") then "" else "#") + str + "\r\n"
    ensures Head(command) != "USER " && Head(command) != "JOIN " && Head(command) != "PRIVMSG " ==>
              ret == Head(command) + str + "\r\n"
    ensures |ret| >= 2 && ret[|ret| - 2..] == "\r\n"
  {
    ret := command;
    if ret[|ret| - 1] != ' ' {
      ret := ret + " ";
    }
    assert ret == Head(command);
    if ret == "USER " {
      ret := UserParams(str);
    }
    if (ret == "JOIN " || ret == "PRIVMSG ") && !Contains(str, "#") {
      ret := ret + "#";
    }
    ret := ret + str + "\r\n";
  }

  /** The USER loop: the parameter and a space three times, then ':' on the
      fourth turn. */
  method UserParams(str: string) returns (ret: string)
    ensures ret == "USER " + str + " " + str + " " + str + " :"
  {
    ret := "USER ";
    var i := 0;
    while i < 4
      invariant 0 <= i <= 3 && ret == "USER " + Repeat(str + " ", i)
    {
      if i == 3 {
        ret := ret + ":";
        break;
      } else {
        ret := ret + str + " ";
      }
      i := i + 1;
    }
    assert Repeat(str + " ", 1) == str + " ";
    assert Repeat(str + " ", 2) == str + " " + str + " ";
  }

  // ---------------------------------------------------------------------------
  // Queued sentences as words
  // ---------------------------------------------------------------------------

  /** The words of one queued sentence: fresh words in order, the first one
      tagged BEGIN and the last one ENDL. */
  function SentenceWords(ts: seq<string>): (ws: seq<Word>)
    requires ts != []
    ensures |ws| == |ts| && Texts(ws) == ts && AllFresh(ws)
    ensures forall i :: 0 <= i < |ws| ==>
              ws[i].tags == (if i == 0 then [TagBegin] else []) + (if i == |ts| - 1 then [TagEndl] else [])
  {
    var plain := seq(|ts|, i requires 0 <= i < |ts| => Fresh(ts[i]));
    var first := plain[0 := plain[0].(tags := plain[0].tags + [TagBegin])];
    first[|ts| - 1 := first[|ts| - 1].(tags := first[|ts| - 1].tags + [TagEndl])]
  }

  /** The whitespace-separated words of every queued sentence, in queue
      order. */
  function Tokens(qs: seq<string>): seq<string>
  {
    if qs == [] then [] else Tokenize(qs[0]) + Tokens(qs[1..])
  }

  /** Every queued sentence has a word: `front()` on an empty sentence is
      undefined. */
  predicate AllSpoken(qs: seq<string>)
  {
    forall k :: 0 <= k < |qs| ==> Tokenize(qs[k]) != []
  }

  /** The words `getCachedSentences` collects, before names are tagged. */
  function Cached(qs: seq<string>): (ws: seq<Word>)
    requires AllSpoken(qs)
  {
    if qs == [] then [] else SentenceWords(Tokenize(qs[0])) + Cached(qs[1..])
  }

  /** The collected words are the queue's words, in order. */
  lemma {:induction false} CachedTexts(qs: seq<string>)
    requires AllSpoken(qs)
    ensures Texts(Cached(qs)) == Tokens(qs)
  {
    if qs != [] {
      CachedTexts(qs[1..]);
      var a, b := SentenceWords(Tokenize(qs[0])), Cached(qs[1..]);
      assert Cached(qs) == a + b;
      TextsAppend(a, b);
    }
  }

  lemma TextsAppend(a: seq<Word>, b: seq<Word>)
    ensures Texts(a + b) == Texts(a) + Texts(b)
  {
    assert forall i :: 0 <= i < |a + b| ==> Texts(a + b)[i] == (Texts(a) + Texts(b))[i];
  }

  /** Each queued sentence adds one BEGIN-tagged first word. */
  lemma {:induction false} CachedBegins(qs: seq<string>)
    requires AllSpoken(qs)
    ensures |Cached(qs)| == |Tokens(qs)|
    ensures CountBegins(Cached(qs)) == |qs|
  {
    CachedTexts(qs);
    if qs != [] {
      CachedBegins(qs[1..]);
      var a := SentenceWords(Tokenize(qs[0]));
      CountBeginsAppend(a, Cached(qs[1..]));
      SentenceBegins(Tokenize(qs[0]));
    }
  }

  function CountBegins(ws: seq<Word>): nat
  {
    if ws == [] then 0 else (if |ws[0].tags| > 0 && ws[0].tags[0] == TagBegin then 1 else 0) + CountBegins(ws[1..])
  }

  lemma {:induction false} CountBeginsAppend(a: seq<Word>, b: seq<Word>)
    ensures CountBegins(a + b) == CountBegins(a) + CountBegins(b)
  {
    if a != [] {
      assert (a + b)[0] == a[0];
      assert (a + b)[1..] == a[1..] + b;
      CountBeginsAppend(a[1..], b);
    } else {
      assert a + b == b;
    }
  }

  lemma SentenceBegins(ts: seq<string>)
    requires ts != []
    ensures CountBegins(SentenceWords(ts)) == 1
  {
    var ws := SentenceWords(ts);
    assert ws[0].tags[0] == TagBegin;
    NoBegins(ws[1..]);
  }

  lemma {:induction false} NoBegins(ws: seq<Word>)
    requires forall i :: 0 <= i < |ws| ==> ws[i].tags == [] || ws[i].tags == [TagEndl]
    ensures CountBegins(ws) == 0
  {
    if ws != [] {
      NoBegins(ws[1..]);
    }
  }

  /** `operator>>` of the client: every queued sentence followed by a
      space. */
  function Joined(qs: seq<string>): string
  {
    if qs == [] then "" else qs[0] + " " + Joined(qs[1..])
  }

  /** Reading the client as a stream gives the same words as
      `getCachedSentences`, in the same order. */
  lemma {:induction false} JoinedTokens(qs: seq<string>)
    ensures Tokenize(Joined(qs)) == Tokens(qs)
  {
    if qs != [] {
      JoinedTokens(qs[1..]);
      TokenizeSpaceSplit(qs[0], ' ', Joined(qs[1..]));
      assert Joined(qs) == qs[0] + [' '] + Joined(qs[1..]);
    }
  }

  // ---------------------------------------------------------------------------
  // User entries
  // ---------------------------------------------------------------------------

  /** The nick of an entry: all but the " JOIN" or " PART" it ends with. */
  function Nick(entry: string): string
    requires |entry| >= 5
  {
    entry[..|entry| - 5]
  }

  predicate LongEnough(users: seq<string>)
  {
    forall k :: 0 <= k < |users| ==> |users[k]| >= 5
  }

  /** A word names a user when its lower-case text contains the nick of some
      entry (the nick itself is not lowered). */
  predicate NamesUser(text: string, users: seq<string>)
    requires LongEnough(users)
  {
    exists k :: 0 <= k < |users| && Contains(Lower(text), Nick(users[k]))
  }

  /** A word after `doUsersCharacteristics`: NAME added when it names a
      user. */
  function Tagged(w: Word, users: seq<string>): Word
    requires LongEnough(users)
  {
    if NamesUser(w.text, users) then w.(tags := w.tags + [TagName]) else w
  }

  /**
   * The entries `doUsersPart` leaves, its loop at index i: an entry holding
   * "PART" is overwritten by the last entry, which is popped; the index
   * moves on either way, so the entry moved in is not looked at.
   */
  function PartSweep(us: seq<string>, i: nat): seq<string>
    decreases |us|, |us| - i
  {
    if i >= |us| then us
    else if Contains(us[i], "PART") then PartSweep(us[i := us[|us| - 1]][..|us| - 1], i + 1)
    else PartSweep(us, i + 1)
  }

  lemma SwapPop(us: seq<string>, i: nat)
    requires i < |us|
    ensures multiset(us[i := us[|us| - 1]][..|us| - 1]) == multiset(us) - multiset{us[i]}
  {
    var last := |us| - 1;
    if i == last {
      assert us[i := us[last]][..last] == us[..last];
      assert us == us[..last] + [us[last]];
    } else {
      var v := us[i := us[last]][..last];
      assert us == us[..i] + [us[i]] + us[i + 1..last] + [us[last]];
      assert v == us[..i] + [us[last]] + us[i + 1..last];
    }
  }

  /** The sweep only removes entries, and only entries holding "PART":
      every other entry keeps its count. */
  lemma {:induction false} PartSweepRemovesOnlyParts(us: seq<string>, i: nat)
    ensures multiset(PartSweep(us, i)) <= multiset(us)
    ensures forall x :: !Contains(x, "PART") ==> multiset(PartSweep(us, i))[x] == multiset(us)[x]
    decreases |us|, |us| - i
  {
    if i < |us| {
      if Contains(us[i], "PART") {
        var v := us[i := us[|us| - 1]][..|us| - 1];
        SwapPop(us, i);
        PartSweepRemovesOnlyParts(v, i + 1);
      } else {
        PartSweepRemovesOnlyParts(us, i + 1);
      }
    }
  }

  /** Two leaving users in a row: the second is moved into the first one's
      place and never looked at, so it stays. */
  lemma PartSweepKeepsSecondPart()
    ensures PartSweep(["a PART", "b PART"], 0) == ["b PART"]
  {
    var us := ["a PART", "b PART"];
    assert OccursAt(us[0], "PART", 2);
    assert OccursAt(us[1], "PART", 2);
    var v := us[0 := us[1]][..1];
    assert v == ["b PART"];
    assert PartSweep(v, 1) == v;
  }

  /** A JOIN entry whose nick holds "PART" is removed as well. */
  lemma PartSweepDropsPartInNick()
    ensures PartSweep(["PARTY JOIN"], 0) == []
  {
    var us := ["PARTY JOIN"];
    assert OccursAt(us[0], "PART", 0);
    assert us[0 := us[0]][..0] == [];
  }

  // ---------------------------------------------------------------------------
  // The client
  // ---------------------------------------------------------------------------

  class Irc {
    const nick: string
    const address: string
    const channel: string
    const pass: string
    const port: string
    /** `stop`: the receive loop ends once set. */
    var stop: bool
    /** `users_`: one entry per JOIN or PART line seen. */
    var users: seq<string>
    /** `sentencesToBeParsed`: channel messages not yet handed over. */
    var sentencesToBeParsed: seq<string>
    /** `ss`: what `operator>>` last produced. */
    var ss: string
    /** Everything handed to `sendData`, in order. */
    var sent: seq<string>

    predicate Valid()
      reads this
    {
      LongEnough(users)
    }

    constructor (nick: string, address: string, channel: string, pass: string := "", port: string := "6667")
      ensures this.nick == nick && this.address == address && this.channel == channel
      ensures this.pass == pass && this.port == port
      ensures !stop && users == [] && sentencesToBeParsed == [] && ss == "" && sent == []
      ensures Valid()
    {
      this.nick := nick;
      this.address := address;
      this.channel := channel;
      this.pass := pass;
      this.port := port;
      stop := false;
      users := [];
      sentencesToBeParsed := [];
      ss := "";
      sent := [];
    }

    /** `parseOutput`: one server line, handled by the first test it
        passes; nothing else changes. */
    method ParseOutput(msg: string)
      requires Valid() && Parsable(msg)
      modifies this
      ensures Valid()
      ensures sent == old(sent) + (if KindOf(msg) == Ping then [PongReply(msg)] else [])
      ensures stop == (old(stop) || KindOf(msg) == Disconnect)
      ensures users == old(users) + (if KindOf(msg) == UserLine then [UserEntry(msg)] else [])
      ensures sentencesToBeParsed ==
              old(sentencesToBeParsed) + (if KindOf(msg) == Sentence then [FormatNiceOutput(msg)] else [])
      ensures ss == old(ss)
    {
      if Contains(msg, "PING") {
        SendPong(msg);
      } else if msg == "DISCONNECT" {
        stop := true;
        return;
      } else if Contains(msg, "JOIN") || Contains(msg, "PART") {
        RecordUser(msg);
      } else if Contains(msg, "PRIVMSG") && Contains(msg, "#") {
        sentencesToBeParsed := sentencesToBeParsed + [FormatNiceOutput(msg)];
      }
    }

    /** The JOIN and PART branch: the entry is cut from the line and
        appended to `users`. */
    method RecordUser(msg: string)
      requires Valid() && HasNick(msg)
      modifies this
      ensures users == old(users) + [UserEntry(msg)] && Valid()
      ensures stop == old(stop) && sent == old(sent)
      ensures sentencesToBeParsed == old(sentencesToBeParsed) && ss == old(ss)
    {
      var x := msg[1..];
      var bang := Find(x, "!");
      x := x[..bang.value];
      if Contains(msg, "JOIN") {
        x := x + " JOIN";
      } else {
        x := x + " PART";
      }
      users := users + [x];
    }

    /** `sendPong`: the reply is handed to `sendData`. */
    method SendPong(msg: string)
      requires |msg| >= 5
      modifies this
      ensures sent == old(sent) + [PongReply(msg)]
      ensures stop == old(stop) && users == old(users)
      ensures sentencesToBeParsed == old(sentencesToBeParsed) && ss == old(ss)
    {
      var response := "PONG " + msg[5..];
      sent := sent + [response];
    }

    /** `formatPrivMsg`: a PRIVMSG to the client's own channel with `str` as
        trailing parameter; its command and channel arguments are not
        used. */
    method FormatPrivMsg(command: string, target: string, str: string) returns (ret: string)
      ensures ret == "PRIVMSG " + (if Contains(channel, "#") then "" else "#") + channel + " :" + str + "\r\n"
    {
      ret := FormatString("PRIVMSG", channel);
      ret := ret[..|ret| - 2];
      ret := ret + " :" + str + "\r\n";
    }

    /** `doUsersCharacteristics`: every word that names a user gets NAME,
        once. */
    method DoUsersCharacteristics(vec: seq<Word>) returns (r: seq<Word>)
      requires Valid()
      ensures |r| == |vec|
      ensures forall i :: 0 <= i < |vec| ==> r[i] == Tagged(vec[i], users)
    {
      r := vec;
      for i := 0 to |r|
        invariant |r| == |vec|
        invariant forall j :: 0 <= j < i ==> r[j] == Tagged(vec[j], users)
        invariant forall j :: i <= j < |r| ==> r[j] == vec[j]
      {
        var named := IsUserName(r[i].text);
        if named {
          r := r[i := r[i].(tags := r[i].tags + [TagName])];
        }
      }
    }

    /** The inner loop: the first entry whose nick the lowered word
        contains ends the search. */
    method IsUserName(text: string) returns (found: bool)
      requires Valid()
      ensures found <==> NamesUser(text, users)
    {
      found := false;
      var k := 0;
      while k < |users|
        invariant 0 <= k <= |users|
        invariant forall j :: 0 <= j < k ==> !Contains(Lower(text), Nick(users[j]))
      {
        var temp := users[k][..|users[k]| - 5];
        var tempWord := Lower(text);
        if Contains(tempWord, temp) {
          found := true;
          break;
        }
        k := k + 1;
      }
    }

    /** `doUsersPart`: the sweep over `users`. */
    method DoUsersPart()
      requires Valid()
      modifies this
      ensures users == PartSweep(old(users), 0) && Valid()
      ensures stop == old(stop) && sent == old(sent)
      ensures sentencesToBeParsed == old(sentencesToBeParsed) && ss == old(ss)
    {
      PartSweepRemovesOnlyParts(users, 0);
      var i := 0;
      while i < |users|
        invariant PartSweep(users, i) == PartSweep(old(users), 0)
        invariant stop == old(stop) && sent == old(sent)
        invariant sentencesToBeParsed == old(sentencesToBeParsed) && ss == old(ss)
        decreases |users|, |users| - i
      {
        if Contains(users[i], "PART") {
          users := users[i := users[|users| - 1]][..|users| - 1];
        }
        i := i + 1;
      }
      SweptLongEnough(old(users));
    }

    /**
     * `getCachedSentences`: nothing when the queue is empty. Otherwise the
     * words of every queued sentence, tagged, with names found against the
     * entries as they were; then the PART sweep, and the queue is emptied.
     */
    method GetCachedSentences() returns (ret: seq<Word>)
      requires Valid() && AllSpoken(sentencesToBeParsed)
      modifies this
      ensures Valid()
      ensures old(sentencesToBeParsed) == [] ==>
                ret == [] && users == old(users) && sentencesToBeParsed == []
      ensures old(sentencesToBeParsed) != [] ==>
                |ret| == |Cached(old(sentencesToBeParsed))| &&
                (forall i :: 0 <= i < |ret| ==> ret[i] == Tagged(Cached(old(sentencesToBeParsed))[i], old(users))) &&
                users == PartSweep(old(users), 0) && sentencesToBeParsed == []
      ensures stop == old(stop) && sent == old(sent) && ss == old(ss)
    {
      ret := [];
      if |sentencesToBeParsed| <= 0 {
        return;
      }
      ret := Collect(sentencesToBeParsed);
      ret := DoUsersCharacteristics(ret);
      DoUsersPart();
      sentencesToBeParsed := [];
    }

    /** The loop over the queue: each sentence's words appended in turn. */
    static method Collect(q: seq<string>) returns (ret: seq<Word>)
      requires AllSpoken(q)
      ensures ret == Cached(q)
    {
      ret := [];
      for k := 0 to |q|
        invariant ret + Cached(q[k..]) == Cached(q)
      {
        assert q[k..][1..] == q[k + 1..];
        var tempSentence := SplitSentence(q[k]);
        AppendAssoc(ret, tempSentence, Cached(q[k + 1..]));
        ret := ret + tempSentence;
      }
      assert q[|q|..] == [];
    }

    /** `while (ss >> word)` over one sentence, then the BEGIN and ENDL
        tags on its first and last word. */
    static method SplitSentence(x: string) returns (tempSentence: seq<Word>)
      requires Tokenize(x) != []
      ensures tempSentence == SentenceWords(Tokenize(x))
    {
      var words := Tokenize(x);
      tempSentence := [];
      for i := 0 to |words|
        invariant |tempSentence| == i
        invariant forall j :: 0 <= j < i ==> tempSentence[j] == Fresh(words[j])
      {
        tempSentence := tempSentence + [Fresh(words[i])];
      }
      var front := tempSentence[0];
      tempSentence := tempSentence[0 := front.(tags := front.tags + [TagBegin])];
      var back := tempSentence[|tempSentence| - 1];
      tempSentence := tempSentence[|tempSentence| - 1 := back.(tags := back.tags + [TagEndl])];
    }

    /** `operator>>`: the queued sentences, each followed by a space, become
        the stream's text, and the queue is emptied. */
    method Read() returns (text: string)
      modifies this
      ensures text == ss == Joined(old(sentencesToBeParsed)) && sentencesToBeParsed == []
      ensures stop == old(stop) && sent == old(sent) && users == old(users)
    {
      ss := "";
      var q := sentencesToBeParsed;
      for k := 0 to |q|
        invariant ss + Joined(q[k..]) == Joined(q)
        invariant stop == old(stop) && sent == old(sent) && users == old(users)
      {
        assert q[k..][1..] == q[k + 1..];
        AppendAssoc(ss, q[k] + " ", Joined(q[k + 1..]));
        ss := ss + q[k] + " ";
      }
      assert q[|q|..] == [];
      sentencesToBeParsed := [];
      text := ss;
    }
  }

  lemma SweptLongEnough(us: seq<string>)
    requires LongEnough(us)
    ensures LongEnough(PartSweep(us, 0))
  {
    var r := PartSweep(us, 0);
    PartSweepRemovesOnlyParts(us, 0);
    forall k | 0 <= k < |r|
      ensures |r[k]| >= 5
    {
      assert r[k] in multiset(r);
      assert r[k] in multiset(us);
    }
  }
}
