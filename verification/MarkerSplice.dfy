/**
 The splice of generated blocks into a hand-written document: every text between an opening and the next
 closing marker is replaced, everything else is prose and stays.

 An opening marker is a fixed text, a key and a fixed text; `word` is the word-character class of the
 key pattern, and blanks and angle brackets are never in it.
 */
module MarkerSplice {
  import opened Wrappers

  datatype Syntax = Syntax(open: string, end: string, close: string, word: char -> bool)

  /** The markers of the generated document. */
  function Erd(word: char -> bool): Syntax {
    Syntax("<!-- ERD:auto ", " -->", "<!-- /ERD:auto -->", word)
  }

  predicate NoMark(s: string) {
    forall i :: 0 <= i < |s| ==> s[i] != '<'
  }

  predicate NoNewline(s: string) {
    forall i :: 0 <= i < |s| ==> s[i] != '\n'
  }

  /** What the markers' shape is good for: neither can begin inside a marker, and a newline ends any of them. */
  predicate WellFormed(x: Syntax) {
    && x.open != "" && x.open[0] == '<' && NoMark(x.open[1..])
    && x.end != "" && x.end[0] == ' ' && NoMark(x.end)
    && x.close != "" && x.close[0] == '<' && NoMark(x.close[1..]) && NoNewline(x.close)
    && (exists i :: 0 <= i < |x.open| && i < |x.close| && x.open[i] != x.close[i])
  }

  lemma {:induction false} ErdWellFormed(word: char -> bool)
    ensures WellFormed(Erd(word))
  {
    var x := Erd(word);
    OpenShape(x.open);
    EndShape(x.end);
    CloseShape(x.close);
    assert x.open[5] != x.close[5];
  }

  lemma {:induction false} OpenShape(s: string)
    requires s == "<!-- ERD:auto "
    ensures |s| == 14 && s[0] == '<' && s[5] == 'E' && NoMark(s[1..])
  {
  }

  lemma {:induction false} EndShape(s: string)
    requires s == " -->"
    ensures |s| == 4 && s[0] == ' ' && NoMark(s)
  {
  }

  lemma {:induction false} CloseShape(s: string)
    requires s == "<!-- /ERD:auto -->"
    ensures |s| == 18 && s[0] == '<' && s[5] == '/' && NoMark(s[1..]) && NoNewline(s)
  {
  }

  // ---- one match ----

  predicate KeyChar(x: Syntax, c: char) {
    c != ' ' && c != '<' && (c == '.' || c == '/' || c == '-' || x.word(c))
  }

  datatype Split = Split(before: string, after: string)

  /** The run of key characters that a text begins with, and what follows it. */
  function SplitKey(x: Syntax, s: string): (r: Split)
    ensures s == r.before + r.after
    ensures forall i :: 0 <= i < |r.before| ==> KeyChar(x, r.before[i])
    ensures r.after != "" ==> !KeyChar(x, r.after[0])
  {
    if s != "" && KeyChar(x, s[0]) then
      var rest := SplitKey(x, s[1..]);
      Split([s[0]] + rest.before, rest.after)
    else Split("", s)
  }

  function OpenText(x: Syntax, key: string): string {
    x.open + (key + x.end)
  }

  /** The key of the opening marker that a text begins with, and what follows the marker. */
  function SplitOpen(x: Syntax, s: string): (r: Option<Split>)
    ensures r.Some? ==> s == OpenText(x, r.value.before) + r.value.after && r.value.before != ""
  {
    if !(x.open <= s) then None
    else
      var r := SplitKey(x, s[|x.open|..]);
      if r.before == "" || !(x.end <= r.after) then None
      else
        assert s == x.open + (r.before + (x.end + r.after[|x.end|..]));
        Some(Split(r.before, r.after[|x.end|..]))
  }

  /** What is before and after the first closing marker. */
  function SplitClose(x: Syntax, s: string): (r: Option<Split>)
    ensures r.Some? ==> s == r.value.before + (x.close + r.value.after)
  {
    if x.close <= s then Some(Split("", s[|x.close|..]))
    else if s == "" then None
    else
      var r := SplitClose(x, s[1..]);
      if r.None? then None
      else
        assert s == [s[0]] + s[1..];
        Some(Split([s[0]] + r.value.before, r.value.after))
  }

  datatype Match = Match(key: string, body: string, rest: string)

  /** The match of the pattern at the beginning of a text: the body ends at the first closing marker. */
  function MatchAt(x: Syntax, s: string): (m: Option<Match>)
    ensures m.Some? ==> s == OpenText(x, m.value.key) + (m.value.body + (x.close + m.value.rest))
  {
    var open := SplitOpen(x, s);
    if open.None? then None
    else
      var close := SplitClose(x, open.value.after);
      if close.None? then None else Some(Match(open.value.before, close.value.before, close.value.after))
  }

  // ---- the document as pieces ----

  datatype Piece = Prose(c: char) | Block(key: string, body: string)

  function Parse(x: Syntax, s: string): seq<Piece>
    requires WellFormed(x)
    decreases |s|
  {
    if s == "" then []
    else
      var m := MatchAt(x, s);
      if m.Some? then [Block(m.value.key, m.value.body)] + Parse(x, m.value.rest) else [Prose(s[0])] + Parse(x, s[1..])
  }

  function Text(x: Syntax, p: Piece): string {
    match p
    case Prose(c) => [c]
    case Block(key, body) => OpenText(x, key) + (body + x.close)
  }

  function Print(x: Syntax, pieces: seq<Piece>): string {
    if pieces == [] then "" else Text(x, pieces[0]) + Print(x, pieces[1..])
  }

  /** The pieces make up the document: nothing is dropped and nothing overlaps. */
  lemma {:induction false} PiecesMakeUpDocument(x: Syntax, s: string)
    requires WellFormed(x)
    ensures Print(x, Parse(x, s)) == s
    decreases |s|
  {
    if s != "" {
      var m := MatchAt(x, s);
      if m.Some? {
        PiecesMakeUpDocument(x, m.value.rest);
        var p := Block(m.value.key, m.value.body);
        assert Parse(x, s) == [p] + Parse(x, m.value.rest);
        assert Text(x, p) + m.value.rest == OpenText(x, p.key) + (p.body + (x.close + m.value.rest));
      } else {
        PiecesMakeUpDocument(x, s[1..]);
        assert Parse(x, s)[1..] == Parse(x, s[1..]);
      }
    }
  }

  // ---- the splice ----

  type Blocks = map<string, string>

  /** What a block holds after the splice. */
  function NewBody(blocks: Blocks, key: string, body: string): string {
    if key in blocks then "\n" + (blocks[key] + "\n") else body
  }

  function RefillOne(blocks: Blocks, p: Piece): Piece {
    if p.Prose? then p else Block(p.key, NewBody(blocks, p.key, p.body))
  }

  function Refill(blocks: Blocks, pieces: seq<Piece>): seq<Piece> {
    if pieces == [] then [] else [RefillOne(blocks, pieces[0])] + Refill(blocks, pieces[1..])
  }

  lemma {:induction false} RefillCons(x: Syntax, blocks: Blocks, p: Piece, rest: seq<Piece>)
    ensures Refill(blocks, [p] + rest) == [RefillOne(blocks, p)] + Refill(blocks, rest)
    ensures Print(x, [p] + rest) == Text(x, p) + Print(x, rest)
  {
    assert ([p] + rest)[1..] == rest;
  }

  /** The document with its blocks refilled. */
  function Spliced(x: Syntax, blocks: Blocks, s: string): string
    requires WellFormed(x)
    decreases |s|
  {
    if s == "" then ""
    else
      var m := MatchAt(x, s);
      if m.Some? then
        OpenText(x, m.value.key) + (NewBody(blocks, m.value.key, m.value.body)
          + (x.close + Spliced(x, blocks, m.value.rest)))
      else [s[0]] + Spliced(x, blocks, s[1..])
  }

  lemma {:induction false} TextOfBlock(x: Syntax, key: string, body: string, rest: string)
    ensures Text(x, Block(key, body)) + rest == OpenText(x, key) + (body + (x.close + rest))
  {
  }

  /** The splice rewrites the bodies of the pieces; the prose between them is the same, in the same order. */
  lemma {:induction false} SpliceRefills(x: Syntax, blocks: Blocks, s: string)
    requires WellFormed(x)
    ensures Spliced(x, blocks, s) == Print(x, Refill(blocks, Parse(x, s)))
    decreases |s|
  {
    if s != "" {
      var m := MatchAt(x, s);
      var p := if m.Some? then Block(m.value.key, m.value.body) else Prose(s[0]);
      var rest := if m.Some? then m.value.rest else s[1..];
      SpliceRefills(x, blocks, rest);
      RefillCons(x, blocks, p, Parse(x, rest));
      RefillCons(x, blocks, RefillOne(blocks, p), Refill(blocks, Parse(x, rest)));
      if m.Some? {
        TextOfBlock(x, p.key, NewBody(blocks, p.key, p.body), Spliced(x, blocks, rest));
      }
    }
  }

  // ---- markers in a spliced document ----

  lemma {:induction false} PrefixCons(t: string, s: string)
    requires t != "" && s != ""
    ensures t <= s <==> t[0] == s[0] && t[1..] <= s[1..]
  {
    assert t == [t[0]] + t[1..] && s == [s[0]] + s[1..];
  }

  /** Up to the next angle bracket the splice changes nothing. */
  lemma {:induction false} PlainPrefixKept(x: Syntax, blocks: Blocks, s: string, t: string)
    requires WellFormed(x) && NoMark(t)
    ensures t <= Spliced(x, blocks, s) <==> t <= s
    decreases |s|
  {
    if s != "" && t != "" {
      var out := Spliced(x, blocks, s);
      if MatchAt(x, s).Some? {
        assert s[0] == '<' && out[0] == '<' && t[0] != '<';
      } else {
        PlainPrefixKept(x, blocks, s[1..], t[1..]);
        PrefixCons(t, s);
        PrefixCons(t, out);
        assert out[0] == s[0] && out[1..] == Spliced(x, blocks, s[1..]);
      }
    }
  }

  lemma {:induction false} KeySplitsOff(x: Syntax, key: string, rest: string)
    requires forall i :: 0 <= i < |key| ==> KeyChar(x, key[i])
    requires rest != "" && !KeyChar(x, rest[0])
    ensures SplitKey(x, key + rest) == Split(key, rest)
  {
    if key == "" {
      assert key + rest == rest;
    } else {
      var s := key + rest;
      KeySplitsOff(x, key[1..], rest);
      assert s[1..] == key[1..] + rest && s[0] == key[0];
      assert SplitKey(x, s) == Split([s[0]] + SplitKey(x, s[1..]).before, SplitKey(x, s[1..]).after);
      assert key == [key[0]] + key[1..];
    }
  }

  predicate IsKey(x: Syntax, key: string) {
    key != "" && forall i :: 0 <= i < |key| ==> KeyChar(x, key[i])
  }

  /** An opening marker is recognised whatever follows it. */
  lemma {:induction false} OpenRecognised(x: Syntax, key: string, rest: string)
    requires WellFormed(x) && IsKey(x, key)
    ensures SplitOpen(x, OpenText(x, key) + rest) == Some(Split(key, rest))
  {
    var s := OpenText(x, key) + rest;
    assert s[|x.open|..] == key + (x.end + rest);
    KeySplitsOff(x, key, x.end + rest);
    assert (x.end + rest)[|x.end|..] == rest;
  }

  lemma {:induction false} OpenIsKey(x: Syntax, s: string)
    requires SplitOpen(x, s).Some?
    ensures IsKey(x, SplitOpen(x, s).value.before)
  {
  }

  /** Behind its first character an opening marker is plain text. */
  lemma {:induction false} OpenIsPlain(x: Syntax, key: string)
    requires WellFormed(x) && IsKey(x, key)
    ensures NoMark(OpenText(x, key)[1..]) && OpenText(x, key)[0] == '<'
    ensures forall rest :: !(x.close <= OpenText(x, key) + rest)
  {
    var i :| 0 <= i < |x.open| && i < |x.close| && x.open[i] != x.close[i];
    forall rest ensures !(x.close <= OpenText(x, key) + rest) {
      assert (OpenText(x, key) + rest)[i] == x.open[i];
    }
    var text := OpenText(x, key);
    forall j | 1 <= j < |text| ensures text[j] != '<' {
      if j < |x.open| {
        assert text[j] == x.open[1..][j - 1];
      } else if j < |x.open| + |key| {
        assert text[j] == key[j - |x.open|] && KeyChar(x, key[j - |x.open|]);
      } else {
        assert text[j] == x.end[j - |x.open| - |key|];
      }
    }
  }

  function Prepend(t: string, r: Option<Split>): Option<Split> {
    if r.None? then None else Some(Split(t + r.value.before, r.value.after))
  }

  lemma {:induction false} PrependTwice(c: char, t: string, r: Option<Split>)
    ensures Prepend([c], Prepend(t, r)) == Prepend([c] + t, r)
    ensures Prepend("", r) == r
  {
    if r.Some? {
      assert [c] + (t + r.value.before) == ([c] + t) + r.value.before;
      assert "" + r.value.before == r.value.before;
    }
  }

  /** Text without an angle bracket does not hide or add a closing marker. */
  lemma {:induction false} CloseBehindPlain(x: Syntax, t: string, u: string)
    requires WellFormed(x) && NoMark(t)
    ensures SplitClose(x, t + u) == Prepend(t, SplitClose(x, u))
  {
    if t == "" {
      assert t + u == u;
      PrependTwice(' ', "", SplitClose(x, u));
    } else {
      CloseBehindPlain(x, t[1..], u);
      assert (t + u)[1..] == t[1..] + u && (t + u)[0] == t[0] != x.close[0];
      PrependTwice(t[0], t[1..], SplitClose(x, u));
      assert t == [t[0]] + t[1..];
    }
  }

  lemma {:induction false} CloseBehindOpen(x: Syntax, key: string, rest: string)
    requires WellFormed(x) && IsKey(x, key)
    ensures SplitClose(x, OpenText(x, key) + rest).Some? <==> SplitClose(x, rest).Some?
  {
    var text := OpenText(x, key);
    OpenIsPlain(x, key);
    assert !(x.close <= text + rest);
    assert (text + rest)[1..] == text[1..] + rest;
    CloseBehindPlain(x, text[1..], rest);
  }

  lemma {:induction false} NoCloseNoMatch(x: Syntax, s: string)
    requires WellFormed(x) && SplitClose(x, s).None?
    ensures MatchAt(x, s).None? && (s != "" ==> SplitClose(x, s[1..]).None?)
  {
    if SplitOpen(x, s).Some? {
      OpenIsKey(x, s);
      CloseBehindOpen(x, SplitOpen(x, s).value.before, SplitOpen(x, s).value.after);
    }
  }

  lemma {:induction false} NoMatchSteps(x: Syntax, blocks: Blocks, s: string)
    requires WellFormed(x) && s != "" && MatchAt(x, s).None?
    ensures Parse(x, s) == [Prose(s[0])] + Parse(x, s[1..])
    ensures Spliced(x, blocks, s) == [s[0]] + Spliced(x, blocks, s[1..])
    ensures Refill(blocks, Parse(x, s)) == [Prose(s[0])] + Refill(blocks, Parse(x, s[1..]))
  {
    RefillCons(x, blocks, Prose(s[0]), Parse(x, s[1..]));
  }

  /** Without a closing marker there is no match, and the splice changes nothing. */
  lemma {:induction false} NoCloseNoChange(x: Syntax, blocks: Blocks, s: string)
    requires WellFormed(x) && SplitClose(x, s).None?
    ensures Spliced(x, blocks, s) == s && Parse(x, s) == Refill(blocks, Parse(x, s))
    ensures forall i :: 0 <= i < |Parse(x, s)| ==> Parse(x, s)[i].Prose?
    decreases |s|
  {
    if s != "" {
      NoCloseNoMatch(x, s);
      NoCloseNoChange(x, blocks, s[1..]);
      NoMatchSteps(x, blocks, s);
    }
  }

  /** An opening marker at the beginning of the spliced text was there before. */
  lemma {:induction false} OpenWasThere(x: Syntax, blocks: Blocks, s: string, key: string, after: string)
    returns (rest: string)
    requires WellFormed(x) && s != "" && MatchAt(x, s).None? && IsKey(x, key)
    requires Spliced(x, blocks, s) == OpenText(x, key) + after
    ensures s == OpenText(x, key) + rest
  {
    var out, text := Spliced(x, blocks, s), OpenText(x, key);
    OpenIsPlain(x, key);
    DropFirst(text, after);
    PlainPrefixKept(x, blocks, s[1..], text[1..]);
    rest := s[1..][|text| - 1..];
    Assembled(s, out, text, after, rest);
  }

  lemma {:induction false} Assembled(s: string, out: string, text: string, after: string, rest: string)
    requires s != "" && text != "" && out == text + after && s[0] == out[0]
    requires text[1..] <= s[1..] && rest == s[1..][|text| - 1..]
    ensures s == text + rest
  {
    assert s[1..] == text[1..] + rest;
    DropFirst(text, rest);
    assert s == [s[0]] + s[1..];
  }

  /** Where no match begins, none begins after the splice. */
  lemma {:induction false} NoNewMatch(x: Syntax, blocks: Blocks, s: string)
    requires WellFormed(x) && s != "" && MatchAt(x, s).None?
    ensures MatchAt(x, Spliced(x, blocks, s)).None?
  {
    var out := Spliced(x, blocks, s);
    if SplitOpen(x, out).Some? {
      OpenIsKey(x, out);
      var key := SplitOpen(x, out).value.before;
      var rest := OpenWasThere(x, blocks, s, key, SplitOpen(x, out).value.after);
      OpenRecognised(x, key, rest);
      CloseBehindOpen(x, key, rest);
      NoCloseNoChange(x, blocks, s);
    }
  }

  /** A newline ends every marker before it. */
  lemma {:induction false} NewlineEndsMarker(x: Syntax, a: string, v: string)
    requires WellFormed(x)
    ensures x.close <= a + ("\n" + v) <==> x.close <= a
  {
    if |a| < |x.close| {
      assert (a + ("\n" + v))[|a|] == '\n';
      assert x.close[|a|] != '\n';
    } else {
      assert (a + ("\n" + v))[..|x.close|] == a[..|x.close|];
    }
  }

  lemma {:induction false} CloseAtStart(x: Syntax, u: string)
    ensures SplitClose(x, x.close + u) == Some(Split("", u))
  {
    assert (x.close + u)[|x.close|..] == u;
  }

  /** The closing marker behind a body without one is the first. */
  lemma {:induction false} CloseBehindBody(x: Syntax, a: string, u: string)
    requires WellFormed(x) && SplitClose(x, a).None?
    ensures SplitClose(x, a + ("\n" + (x.close + u))) == Some(Split(a + "\n", u))
  {
    var tail := "\n" + (x.close + u);
    if a == "" {
      CloseAtStart(x, u);
      CloseBehindPlain(x, "\n", x.close + u);
      assert a + tail == tail && a + "\n" == "\n" + "";
    } else {
      NewlineEndsMarker(x, a, x.close + u);
      CloseBehindBody(x, a[1..], u);
      DropFirst(a, tail);
      DropFirst(a, "\n");
      Assoc([a[0]], a[1..], "\n");
    }
  }

  // ---- the spliced document, parsed again ----

  predicate Clean(x: Syntax, body: string) {
    SplitClose(x, body).None?
  }

  /** A refilled block is matched again; its body is whole exactly when it is clean. */
  lemma {:induction false} BlockMatchedAgain(x: Syntax, key: string, text: string, rest: string)
    requires WellFormed(x) && IsKey(x, key) && Clean(x, text)
    ensures MatchAt(x, OpenText(x, key) + (("\n" + (text + "\n")) + (x.close + rest))) ==
            Some(Match(key, "\n" + (text + "\n"), rest))
  {
    var body := "\n" + (text + "\n");
    OpenRecognised(x, key, body + (x.close + rest));
    CloseBehindBody(x, text, rest);
    var u := text + ("\n" + (x.close + rest));
    assert body + (x.close + rest) == "\n" + u;
    CloseBehindPlain(x, "\n", u);
  }

  /**
   A block is recognised: an opening marker around any key of word characters, dots, slashes and hyphens, a
   body, and the first closing marker behind it.
   */
  lemma {:induction false} BlockRecognised(x: Syntax, key: string, body: string, rest: string)
    requires WellFormed(x) && key != ""
    requires forall i :: 0 <= i < |key| ==>
      key[i] in {'.', '/', '-'} || (x.word(key[i]) && key[i] != ' ' && key[i] != '<')
    requires SplitClose(x, body + (x.close + rest)) == Some(Split(body, rest))
    ensures MatchAt(x, (x.open + (key + x.end)) + (body + (x.close + rest))) == Some(Match(key, body, rest))
  {
    OpenRecognised(x, key, body + (x.close + rest));
  }

  function Keys(pieces: seq<Piece>): set<string> {
    if pieces == [] then {} else (if pieces[0].Block? then {pieces[0].key} else {}) + Keys(pieces[1..])
  }

  lemma {:induction false} KeysCons(p: Piece, rest: seq<Piece>)
    ensures Keys([p] + rest) == (if p.Block? then {p.key} else {}) + Keys(rest)
  {
    assert ([p] + rest)[1..] == rest;
  }

  lemma {:induction false} RefillKeepsKeys(blocks: Blocks, pieces: seq<Piece>)
    ensures Keys(Refill(blocks, pieces)) == Keys(pieces)
  {
    if pieces != [] {
      RefillKeepsKeys(blocks, pieces[1..]);
      KeysCons(RefillOne(blocks, pieces[0]), Refill(blocks, pieces[1..]));
    }
  }

  lemma {:induction false} MatchedKey(x: Syntax, s: string)
    requires MatchAt(x, s).Some?
    ensures IsKey(x, MatchAt(x, s).value.key)
  {
    OpenIsKey(x, s);
  }

  /**
   With clean bodies the spliced document has the pieces of the document, refilled: the same prose and
   the same keys in the same order.
   */
  lemma {:induction false} SplicedParses(x: Syntax, blocks: Blocks, s: string)
    requires WellFormed(x)
    requires forall key :: key in Keys(Parse(x, s)) ==> key in blocks && Clean(x, blocks[key])
    ensures Parse(x, Spliced(x, blocks, s)) == Refill(blocks, Parse(x, s))
    decreases |s|
  {
    if s != "" {
      var m := MatchAt(x, s);
      var p := if m.Some? then Block(m.value.key, m.value.body) else Prose(s[0]);
      var rest := if m.Some? then m.value.rest else s[1..];
      KeysCons(p, Parse(x, rest));
      RefillCons(x, blocks, p, Parse(x, rest));
      SplicedParses(x, blocks, rest);
      if m.Some? {
        MatchedKey(x, s);
        BlockMatchedAgain(x, p.key, blocks[p.key], Spliced(x, blocks, rest));
      } else {
        NoNewMatch(x, blocks, s);
        assert Spliced(x, blocks, s)[1..] == Spliced(x, blocks, rest);
      }
    }
  }

  lemma {:induction false} RefillAgain(blocks: Blocks, pieces: seq<Piece>)
    ensures Refill(blocks, Refill(blocks, pieces)) == Refill(blocks, pieces)
  {
    if pieces != [] {
      RefillAgain(blocks, pieces[1..]);
      assert Refill(blocks, pieces)[1..] == Refill(blocks, pieces[1..]);
    }
  }

  // ---- counting closing markers ----

  function Count(x: Syntax, s: string): nat {
    if s == "" then 0 else (if x.close <= s then 1 else 0) + Count(x, s[1..])
  }

  lemma {:induction false} CountBehindPlain(x: Syntax, t: string, u: string)
    requires WellFormed(x) && NoMark(t)
    ensures Count(x, t + u) == Count(x, u)
  {
    if t == "" {
      assert t + u == u;
    } else {
      CountBehindPlain(x, t[1..], u);
      assert (t + u)[1..] == t[1..] + u && (t + u)[0] == t[0] != x.close[0];
    }
  }

  lemma {:induction false} CountBehindOpen(x: Syntax, key: string, u: string)
    requires WellFormed(x) && IsKey(x, key)
    ensures Count(x, OpenText(x, key) + u) == Count(x, u)
  {
    var text := OpenText(x, key);
    OpenIsPlain(x, key);
    CountBehindPlain(x, text[1..], u);
    assert !(x.close <= text + u) && (text + u)[1..] == text[1..] + u;
  }

  lemma {:induction false} CountClose(x: Syntax, u: string)
    requires WellFormed(x)
    ensures Count(x, x.close + u) == 1 + Count(x, u)
  {
    CountBehindPlain(x, x.close[1..], u);
    assert (x.close + u)[1..] == x.close[1..] + u;
  }

  lemma {:induction false} CountAcrossNewline(x: Syntax, a: string, v: string)
    requires WellFormed(x)
    ensures Count(x, a + ("\n" + v)) == Count(x, a) + Count(x, v)
  {
    if a == "" {
      CountBehindPlain(x, "\n", v);
      assert a + ("\n" + v) == "\n" + v;
    } else {
      NewlineEndsMarker(x, a, v);
      CountAcrossNewline(x, a[1..], v);
      assert (a + ("\n" + v))[1..] == a[1..] + ("\n" + v);
    }
  }

  lemma {:induction false} CountOfMatched(x: Syntax, s: string)
    requires WellFormed(x) && SplitClose(x, s).Some?
    ensures Count(x, s) == 1 + Count(x, SplitClose(x, s).value.after)
  {
    if x.close <= s {
      assert s == x.close + s[|x.close|..];
      CountClose(x, s[|x.close|..]);
    } else {
      CountOfMatched(x, s[1..]);
    }
  }

  lemma {:induction false} CleanIsCount(x: Syntax, s: string)
    requires WellFormed(x)
    ensures Clean(x, s) <==> Count(x, s) == 0
  {
    if s != "" {
      CleanIsCount(x, s[1..]);
    }
  }

  /** The closing markers that the bodies of a document bring with them. */
  function Brought(x: Syntax, blocks: Blocks, pieces: seq<Piece>): nat {
    if pieces == [] then 0
    else
      (if pieces[0].Block? && pieces[0].key in blocks then Count(x, blocks[pieces[0].key]) else 0)
      + Brought(x, blocks, pieces[1..])
  }

  lemma {:induction false} CountOfRefilled(x: Syntax, key: string, text: string, rest: string)
    requires WellFormed(x) && IsKey(x, key)
    ensures Count(x, OpenText(x, key) + (("\n" + (text + "\n")) + (x.close + rest))) ==
            Count(x, text) + 1 + Count(x, rest)
  {
    var body := "\n" + (text + "\n");
    CountBehindOpen(x, key, body + (x.close + rest));
    assert body + (x.close + rest) == "\n" + (text + ("\n" + (x.close + rest)));
    CountBehindPlain(x, "\n", text + ("\n" + (x.close + rest)));
    CountAcrossNewline(x, text, x.close + rest);
    CountClose(x, rest);
  }

  /** A splice adds exactly the closing markers that the bodies bring. */
  lemma {:induction false} SpliceAddsMarkers(x: Syntax, blocks: Blocks, s: string)
    requires WellFormed(x) && Keys(Parse(x, s)) <= blocks.Keys
    ensures Count(x, Spliced(x, blocks, s)) == Count(x, s) + Brought(x, blocks, Parse(x, s))
    decreases |s|
  {
    if s != "" {
      var m := MatchAt(x, s);
      var p := if m.Some? then Block(m.value.key, m.value.body) else Prose(s[0]);
      var rest := if m.Some? then m.value.rest else s[1..];
      KeysCons(p, Parse(x, rest));
      SpliceAddsMarkers(x, blocks, rest);
      assert ([p] + Parse(x, rest))[1..] == Parse(x, rest);
      if m.Some? {
        MatchedKey(x, s);
        CountOfRefilled(x, p.key, blocks[p.key], Spliced(x, blocks, rest));
        CountBehindOpen(x, p.key, m.value.body + (x.close + rest));
        CountOfMatched(x, m.value.body + (x.close + rest));
      } else {
        CloseAtHeadKept(x, blocks, s);
      }
    }
  }

  lemma {:induction false} CloseAtHeadKept(x: Syntax, blocks: Blocks, s: string)
    requires WellFormed(x) && s != "" && MatchAt(x, s).None?
    ensures x.close <= Spliced(x, blocks, s) <==> x.close <= s
  {
    var out := Spliced(x, blocks, s);
    PlainPrefixKept(x, blocks, s[1..], x.close[1..]);
    PrefixCons(x.close, s);
    PrefixCons(x.close, out);
    assert out[1..] == Spliced(x, blocks, s[1..]);
  }

  /** An unclean body is still referred to by the spliced document. */
  lemma {:induction false} UncleanStays(x: Syntax, blocks: Blocks, s: string)
    requires WellFormed(x) && Keys(Parse(x, s)) <= blocks.Keys
    requires Brought(x, blocks, Parse(x, s)) > 0
    ensures Brought(x, blocks, Parse(x, Spliced(x, blocks, s))) > 0
    decreases |s|
  {
    var m := MatchAt(x, s);
    var p := if m.Some? then Block(m.value.key, m.value.body) else Prose(s[0]);
    var rest := if m.Some? then m.value.rest else s[1..];
    var out := Spliced(x, blocks, s);
    KeysCons(p, Parse(x, rest));
    assert ([p] + Parse(x, rest))[1..] == Parse(x, rest);
    if m.None? {
      NoNewMatch(x, blocks, s);
      UncleanStays(x, blocks, rest);
      assert out[1..] == Spliced(x, blocks, rest);
    } else {
      MatchedKey(x, s);
      CleanIsCount(x, blocks[p.key]);
      if Clean(x, blocks[p.key]) {
        BlockMatchedAgain(x, p.key, blocks[p.key], Spliced(x, blocks, rest));
        UncleanStays(x, blocks, rest);
      } else {
        UncleanMatched(x, p.key, blocks[p.key], Spliced(x, blocks, rest));
      }
    }
  }

  lemma {:induction false} UncleanMatched(x: Syntax, key: string, text: string, rest: string)
    requires WellFormed(x) && IsKey(x, key)
    ensures var m := MatchAt(x, OpenText(x, key) + (("\n" + (text + "\n")) + (x.close + rest)));
            m.Some? && m.value.key == key
  {
    var behind := ("\n" + (text + "\n")) + (x.close + rest);
    OpenRecognised(x, key, behind);
    CleanIsCount(x, behind);
    CountOfRefilled(x, key, text, rest);
    CountBehindOpen(x, key, behind);
  }

  lemma {:induction false} UncleanCounts(x: Syntax, blocks: Blocks, pieces: seq<Piece>, key: string)
    requires WellFormed(x) && key in Keys(pieces) && key in blocks && !Clean(x, blocks[key])
    ensures Brought(x, blocks, pieces) > 0
  {
    CleanIsCount(x, blocks[key]);
    if !(pieces[0].Block? && pieces[0].key == key) {
      UncleanCounts(x, blocks, pieces[1..], key);
    }
  }

  // ---- rendering ----

  /** Every block is known, and every generated body has a block. */
  predicate Fits(x: Syntax, blocks: Blocks, s: string)
    requires WellFormed(x)
  {
    Keys(Parse(x, s)) == blocks.Keys
  }

  predicate AllClean(x: Syntax, blocks: Blocks) {
    forall key :: key in blocks ==> Clean(x, blocks[key])
  }

  /**
   Rendering the rendered document again gives the same document exactly when no generated body holds a
   closing marker.
   */
  lemma {:induction false} RenderAgainExactly(x: Syntax, blocks: Blocks, s: string)
    requires WellFormed(x) && Fits(x, blocks, s)
    ensures var out := Spliced(x, blocks, s);
            Fits(x, blocks, out) && Spliced(x, blocks, out) == out <==> AllClean(x, blocks)
  {
    var out := Spliced(x, blocks, s);
    if AllClean(x, blocks) {
      SplicedParses(x, blocks, s);
      RefillKeepsKeys(blocks, Parse(x, s));
      SpliceRefills(x, blocks, s);
      SpliceRefills(x, blocks, out);
      RefillAgain(blocks, Parse(x, s));
    } else {
      var key :| key in blocks && !Clean(x, blocks[key]);
      UncleanCounts(x, blocks, Parse(x, s), key);
      UncleanStays(x, blocks, s);
      if Fits(x, blocks, out) {
        SpliceAddsMarkers(x, blocks, out);
      }
    }
  }

  lemma {:induction false} EmptyBlockMatches(x: Syntax, key: string, s: string)
    requires WellFormed(x) && IsKey(x, key) && s == OpenText(x, key) + x.close
    ensures MatchAt(x, s) == Some(Match(key, "", ""))
  {
    CloseAtStart(x, "");
    assert x.close + "" == x.close;
    OpenRecognised(x, key, x.close);
  }

  lemma {:induction false} EmptyBlockKeys(x: Syntax, key: string, s: string)
    requires WellFormed(x) && MatchAt(x, s) == Some(Match(key, "", ""))
    ensures Keys(Parse(x, s)) == {key}
  {
    KeysOfMatch(x, s);
    assert Parse(x, "") == [];
  }

  lemma {:induction false} CloseIsUnclean(x: Syntax)
    ensures !Clean(x, x.close)
  {
    CloseAtStart(x, "");
    assert x.close + "" == x.close;
  }

  /**
   A document of one empty block, and a body that is a closing marker: the second render is another text,
   or refused.
   */
  lemma {:induction false} UncleanBodyIsUnstable(x: Syntax, key: string)
    requires WellFormed(x) && IsKey(x, key)
    ensures var s, blocks := OpenText(x, key) + x.close, map[key := x.close];
            && Fits(x, blocks, s)
            && !(Fits(x, blocks, Spliced(x, blocks, s))
                 && Spliced(x, blocks, Spliced(x, blocks, s)) == Spliced(x, blocks, s))
  {
    var s, blocks := OpenText(x, key) + x.close, map[key := x.close];
    EmptyBlockMatches(x, key, s);
    EmptyBlockKeys(x, key, s);
    CloseIsUnclean(x);
    assert key in blocks && !Clean(x, blocks[key]);
    RenderAgainExactly(x, blocks, s);
  }

  /** So it is for the document's own markers. */
  lemma {:induction false} ErdCanBeUnstable(word: char -> bool)
    ensures var x := Erd(word);
            var s, blocks := OpenText(x, "-") + x.close, map["-" := x.close];
            && WellFormed(x) && Fits(x, blocks, s)
            && !(Fits(x, blocks, Spliced(x, blocks, s))
                 && Spliced(x, blocks, Spliced(x, blocks, s)) == Spliced(x, blocks, s))
  {
    ErdWellFormed(word);
    UncleanBodyIsUnstable(Erd(word), "-");
  }

  /** The prose of a document, in order. */
  function ProseOf(pieces: seq<Piece>): string {
    if pieces == [] then "" else (if pieces[0].Prose? then [pieces[0].c] else "") + ProseOf(pieces[1..])
  }

  /** With clean bodies a render keeps the prose and puts exactly the generated bodies into the blocks. */
  lemma {:induction false} RenderKeepsProse(x: Syntax, blocks: Blocks, s: string)
    requires WellFormed(x) && Fits(x, blocks, s) && AllClean(x, blocks)
    ensures var before, after := Parse(x, s), Parse(x, Spliced(x, blocks, s));
            && ProseOf(after) == ProseOf(before) && |after| == |before|
            && forall i :: 0 <= i < |after| ==>
                 after[i] == if before[i].Prose? then before[i]
                             else Block(before[i].key, NewBody(blocks, before[i].key, before[i].body))
  {
    SplicedParses(x, blocks, s);
    RefillKeepsProse(blocks, Parse(x, s));
  }

  lemma {:induction false} RefillKeepsProse(blocks: Blocks, pieces: seq<Piece>)
    ensures ProseOf(Refill(blocks, pieces)) == ProseOf(pieces) && |Refill(blocks, pieces)| == |pieces|
    ensures forall i :: 0 <= i < |pieces| ==> Refill(blocks, pieces)[i] == RefillOne(blocks, pieces[i])
  {
    if pieces != [] {
      RefillKeepsProse(blocks, pieces[1..]);
      assert Refill(blocks, pieces)[1..] == Refill(blocks, pieces[1..]);
    }
  }

  lemma {:induction false} KeysOfMatch(x: Syntax, s: string)
    requires WellFormed(x) && MatchAt(x, s).Some?
    ensures var m := MatchAt(x, s).value;
            Keys(Parse(x, s)) == {m.key} + Keys(Parse(x, m.rest))
  {
    var m := MatchAt(x, s).value;
    KeysCons(Block(m.key, m.body), Parse(x, m.rest));
  }

  lemma {:induction false} KeysOfProse(x: Syntax, s: string)
    requires WellFormed(x) && s != "" && MatchAt(x, s).None?
    ensures Keys(Parse(x, s)) == Keys(Parse(x, s[1..]))
  {
    KeysCons(Prose(s[0]), Parse(x, s[1..]));
  }

  lemma {:induction false} SplicedAtMatch(x: Syntax, blocks: Blocks, s: string, done: string)
    requires WellFormed(x) && MatchAt(x, s).Some? && MatchAt(x, s).value.key in blocks
    ensures var m := MatchAt(x, s).value;
            var block := OpenText(x, m.key) + (("\n" + (blocks[m.key] + "\n")) + x.close);
            done + Spliced(x, blocks, s) == (done + block) + Spliced(x, blocks, m.rest)
  {
    var m := MatchAt(x, s).value;
    var body, tail := "\n" + (blocks[m.key] + "\n"), Spliced(x, blocks, m.rest);
    assert Spliced(x, blocks, s) == OpenText(x, m.key) + (body + (x.close + tail));
    AssocFour(OpenText(x, m.key), body, x.close, tail);
    Assoc(done, OpenText(x, m.key) + (body + x.close), tail);
  }

  lemma {:induction false} SplicedAtProse(x: Syntax, blocks: Blocks, s: string, done: string)
    requires WellFormed(x) && s != "" && MatchAt(x, s).None?
    ensures done + Spliced(x, blocks, s) == (done + [s[0]]) + Spliced(x, blocks, s[1..])
  {
  }

  // ---- the files ----

  /**
   What reading a file in text mode makes of its line ends: "\r\n" and "\r" become "\n". Writing translates
   nothing.
   */
  function ReadText(s: string): string {
    if s == "" then ""
    else if s[0] == '\r' then ['\n'] + ReadText(if |s| > 1 && s[1] == '\n' then s[2..] else s[1..])
    else [s[0]] + ReadText(s[1..])
  }

  lemma {:induction false} ReadHasNoReturn(s: string)
    ensures '\r' !in ReadText(s)
  {
    if s != "" {
      ReadHasNoReturn(if s[0] == '\r' && |s| > 1 && s[1] == '\n' then s[2..] else s[1..]);
    }
  }

  lemma {:induction false} ReadKeeps(s: string)
    requires '\r' !in s
    ensures ReadText(s) == s
  {
    if s != "" {
      assert s == [s[0]] + s[1..];
      ReadKeeps(s[1..]);
    }
  }

  predicate AllPlain(blocks: Blocks) {
    forall key :: key in blocks ==> '\r' !in blocks[key]
  }

  /** Every character of a spliced body is in the spliced document. */
  lemma {:induction false} BodyShows(x: Syntax, blocks: Blocks, s: string, key: string, c: char)
    requires WellFormed(x) && key in Keys(Parse(x, s)) && key in blocks && c in blocks[key]
    ensures c in Spliced(x, blocks, s)
    decreases |s|
  {
    var m := MatchAt(x, s);
    if m.Some? {
      KeysOfMatch(x, s);
      if m.value.key == key {
        assert c in NewBody(blocks, key, m.value.body);
      } else {
        BodyShows(x, blocks, m.value.rest, key, c);
      }
    } else {
      KeysOfProse(x, s);
      BodyShows(x, blocks, s[1..], key, c);
    }
  }

  /** And no other but newlines and those of the document comes in. */
  lemma {:induction false} SplicedChars(x: Syntax, blocks: Blocks, s: string, c: char)
    requires WellFormed(x) && c !in s && c != '\n' && forall key :: key in blocks ==> c !in blocks[key]
    ensures c !in Spliced(x, blocks, s)
    decreases |s|
  {
    if s != "" {
      var m := MatchAt(x, s);
      if m.Some? {
        SplicedChars(x, blocks, m.value.rest, c);
        assert c !in NewBody(blocks, m.value.key, m.value.body);
      } else {
        SplicedChars(x, blocks, s[1..], c);
      }
    }
  }

  /** The document's file after a write: rewritten only when what was read differs from the render. */
  function Rewritten(x: Syntax, blocks: Blocks, file: string): string
    requires WellFormed(x)
  {
    var current := ReadText(file);
    if Spliced(x, blocks, current) == current then file else Spliced(x, blocks, current)
  }

  predicate Fresh(x: Syntax, blocks: Blocks, file: string)
    requires WellFormed(x)
  {
    Fits(x, blocks, ReadText(file)) && Spliced(x, blocks, ReadText(file)) == ReadText(file)
  }

  /** A file that was just written is fresh exactly when no body holds a closing marker or a carriage return. */
  lemma {:induction false} RewrittenIsFresh(x: Syntax, blocks: Blocks, file: string)
    requires WellFormed(x) && Fits(x, blocks, ReadText(file))
    ensures Fresh(x, blocks, Rewritten(x, blocks, file)) <==> AllClean(x, blocks) && AllPlain(blocks)
  {
    var current := ReadText(file);
    var out := Spliced(x, blocks, current);
    ReadHasNoReturn(file);
    ReadHasNoReturn(out);
    RenderAgainExactly(x, blocks, current);
    if AllPlain(blocks) {
      SplicedChars(x, blocks, current, '\r');
      ReadKeeps(out);
    } else {
      var key :| key in blocks && '\r' in blocks[key];
      BodyShows(x, blocks, current, key, '\r');
      if Fits(x, blocks, ReadText(out)) {
        BodyShows(x, blocks, ReadText(out), key, '\r');
      }
    }
  }

  class Document {
    var text: string
    /** The schema artifact beside the document, if it exists; what it should hold is generated with the blocks. */
    var artifact: Option<string>

    function Committed(): string
      reads this
    {
      if artifact.Some? then ReadText(artifact.value) else ""
    }

    /** `Failure` is the exit with a message, for a block nothing generates or a body without a block. */
    static method Render(x: Syntax, blocks: Blocks, current: string) returns (r: Result<string>)
      requires WellFormed(x)
      ensures r.Success? <==> Fits(x, blocks, current)
      ensures r.Success? ==> r.value == Spliced(x, blocks, current)
    {
      var done, rest, found := "", current, {};
      while rest != ""
        invariant Spliced(x, blocks, current) == done + Spliced(x, blocks, rest)
        invariant Keys(Parse(x, current)) == found + Keys(Parse(x, rest))
        invariant found <= blocks.Keys
        decreases |rest|
      {
        var m := MatchAt(x, rest);
        if m.Some? {
          var key := m.value.key;
          KeysOfMatch(x, rest);
          if key !in blocks {
            return Failure("a block that nothing produces");
          }
          SplicedAtMatch(x, blocks, rest, done);
          found := found + {key};
          done := done + (OpenText(x, key) + (("\n" + (blocks[key] + "\n")) + x.close));
          rest := m.value.rest;
        } else {
          KeysOfProse(x, rest);
          SplicedAtProse(x, blocks, rest, done);
          done := done + [rest[0]];
          rest := rest[1..];
        }
      }
      if exists key :: key in blocks && key !in found {
        return Failure("generated blocks have nowhere to go");
      }
      assert found == blocks.Keys;
      r := Success(done);
    }

    /** The write mode: each of the two files is written only when it differs, and neither when the render fails. */
    method Write(x: Syntax, blocks: Blocks, schema: string) returns (ok: bool)
      requires WellFormed(x)
      modifies this
      ensures ok <==> Fits(x, blocks, ReadText(old(text)))
      ensures text == if ok then Rewritten(x, blocks, old(text)) else old(text)
      ensures artifact == if ok && old(Committed()) != schema then Some(schema) else old(artifact)
    {
      var current := ReadText(text);
      var updated := Render(x, blocks, current);
      ok := updated.Success?;
      if !ok {
        return;
      }
      if current != updated.value {
        text := updated.value;
      }
      if Committed() != schema {
        artifact := Some(schema);
      }
    }

    /** The check mode: exit code zero. */
    method Check(x: Syntax, blocks: Blocks, schema: string) returns (upToDate: bool)
      requires WellFormed(x)
      ensures upToDate <==> Fresh(x, blocks, text) && Committed() == schema
    {
      var current := ReadText(text);
      var updated := Render(x, blocks, current);
      upToDate := updated.Success? && current == updated.value && Committed() == schema;
    }

    /**
     Right after a successful write the check passes exactly when no generated body holds a closing marker,
     and neither a body nor the schema holds a carriage return.
     */
    method WriteThenCheck(x: Syntax, blocks: Blocks, schema: string) returns (ok: bool, upToDate: bool)
      requires WellFormed(x)
      modifies this
      ensures ok <==> Fits(x, blocks, ReadText(old(text)))
      ensures ok ==> (upToDate <==> AllClean(x, blocks) && AllPlain(blocks) && '\r' !in schema)
      ensures !ok ==> text == old(text) && artifact == old(artifact) && !upToDate
    {
      ghost var before := text;
      ghost var committed := Committed();
      if artifact.Some? { ReadHasNoReturn(artifact.value); }
      ok := Write(x, blocks, schema);
      upToDate := Check(x, blocks, schema);
      if ok {
        RewrittenIsFresh(x, blocks, before);
        ReadHasNoReturn(schema);
        if '\r' !in schema { ReadKeeps(schema); }
      }
    }
  }
}
