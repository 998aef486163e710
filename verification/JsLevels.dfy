/**
 What the TypeScript scan lists, level by level: the whole text and each substitution of a listed token is
 a level of code. Its bare characters are those outside the tokens, comments and regular expressions
 listed in it. Bare braces decide where a substitution ends, and the last bare or listed thing before a
 slash decides what the slash is.
 */
module JsLevels {
  import opened TextEscapes
  import opened GoLexer
  import opened JsReference

  // ---- levels ----

  /** The spans listed inside an extent. */
  ghost function Inside(spans: seq<Span>, outer: Extent): set<Span> {
    set s | s in spans && Within(s.extent, outer)
  }

  predicate Covers(s: Span, p: nat) {
    s.extent.start <= p < s.extent.end
  }

  ghost predicate Bare(level: set<Span>, p: nat) {
    forall s :: s in level ==> !Covers(s, p)
  }

  ghost predicate InComment(level: set<Span>, p: nat) {
    exists s :: s in level && s.Blank? && s.kind != Regex && Covers(s, p)
  }

  /** Opening less closing braces among the bare characters between the two indices. */
  ghost function Depth(src: Text, level: set<Span>, from: nat, p: nat): int
    requires from <= p <= |src|
    decreases p
  {
    if p == from then 0
    else
      Depth(src, level, from, p - 1)
      + if !Bare(level, p - 1) then 0
        else if src[p - 1] == OPEN_BRACE then 1 else if src[p - 1] == CLOSE_BRACE then -1 else 0
  }

  function WordStart(src: Text, p: nat): (b: nat)
    requires p <= |src|
    ensures b <= p
  {
    if p > 0 && IsWord(src[p - 1]) then WordStart(src, p - 1) else p
  }

  /**
   What comes before an index of the level, but for spaces and comments: a newline where the level begins,
   a closing parenthesis for a token or a regular expression, a whole word, or one character.
   */
  ghost function PrevOf(src: Text, level: set<Span>, from: nat, p: nat): Text
    requires p <= |src|
  {
    if p <= from then [NEWLINE]
    else if Bare(level, p - 1) then
      if IsSpace(src[p - 1]) then PrevOf(src, level, from, p - 1)
      else if IsWord(src[p - 1]) then src[WordStart(src, p)..p] else [src[p - 1]]
    else if InComment(level, p - 1) then PrevOf(src, level, from, p - 1)
    else [CLOSE_PAREN]
  }

  /**
   Before its end a substitution has never closed more braces than it opened; it ends right behind the
   first brace that does, or with the text.
   */
  ghost predicate Balanced(src: Text, level: set<Span>, hole: Extent) {
    && hole.start <= hole.end <= |src|
    && (forall p :: hole.start <= p < hole.end ==> Depth(src, level, hole.start, p) >= 0)
    && (Depth(src, level, hole.start, hole.end) == -1
        || (hole.end == |src| && Depth(src, level, hole.start, hole.end) >= 0))
  }

  /** A bare slash opens no comment, and no regular expression: ">" follows it, or what precedes it lets none open. */
  ghost predicate PlainSlash(src: Text, level: set<Span>, from: nat, p: nat)
    requires p < |src|
  {
    && !AtLineComment(src, p) && !AtBlockComment(src, p)
    && ((p + 1 < |src| && src[p + 1] == GREATER) || !RegexAfter(PrevOf(src, level, from, p)))
  }

  ghost predicate SlashesPlain(src: Text, level: set<Span>, from: nat, to: nat)
    requires to <= |src|
  {
    forall p :: from <= p < to && Bare(level, p) && src[p] == SLASH ==> PlainSlash(src, level, from, p)
  }

  ghost predicate LevelOk(src: Text, spans: seq<Span>, hole: Extent) {
    Balanced(src, Inside(spans, hole), hole) && SlashesPlain(src, Inside(spans, hole), hole.start, hole.end)
  }

  ghost predicate HolesOk(src: Text, spans: seq<Span>, holes: seq<Extent>) {
    forall k :: 0 <= k < |holes| ==> LevelOk(src, spans, holes[k])
  }

  /** Every substitution of a listed token is such a level. */
  ghost predicate Levels(src: Text, spans: seq<Span>) {
    forall i :: 0 <= i < |spans| && spans[i].Span? ==> HolesOk(src, spans, spans[i].holes)
  }

  // ---- levels do not see what lies elsewhere ----

  /** A listed span is not empty, and its substitutions lie inside it, behind its opening quote. */
  lemma {:induction false} FaithfulShape(src: Text, s: Span)
    requires Faithful(src, s)
    ensures s.extent.start < s.extent.end
    ensures s.Span? ==> forall k :: 0 <= k < |s.holes| ==>
      s.extent.start < s.holes[k].start && Within(s.holes[k], s.extent)
  {
    if s.Span? {
      var start := s.extent.start;
      var end: nat :| BodyEnds(src, s, end) && JsReference.Spelled(src, src[start], start, s.raws, s.holes, end);
      forall k | 0 <= k < |s.holes|
        ensures start < s.holes[k].start && Within(s.holes[k], s.extent)
      {
        HoleAt(src, src[start], start, s.raws, s.holes, end, k);
      }
    }
  }

  /** Spans elsewhere are not inside. */
  lemma {:induction false} ElsewhereIsOutside(src: Text, a: seq<Span>, b: seq<Span>, outer: Extent)
    requires AllFaithful(src, b)
    requires forall j :: 0 <= j < |b| ==> b[j].extent.end <= outer.start || outer.end <= b[j].extent.start
    ensures Inside(a + b, outer) == Inside(a, outer) && Inside(b + a, outer) == Inside(a, outer)
  {
    forall j | 0 <= j < |b|
      ensures !Within(b[j].extent, outer)
    {
      FaithfulShape(src, b[j]);
    }
    assert forall s :: s in a + b <==> s in a || s in b;
    assert forall s :: s in b + a <==> s in a || s in b;
  }

  lemma {:induction false} HolesElsewhere(src: Text, a: seq<Span>, b: seq<Span>, holes: seq<Extent>, outer: Extent)
    requires AllFaithful(src, b) && HolesOk(src, a, holes)
    requires forall k :: 0 <= k < |holes| ==> Within(holes[k], outer)
    requires forall j :: 0 <= j < |b| ==> b[j].extent.end <= outer.start || outer.end <= b[j].extent.start
    ensures HolesOk(src, a + b, holes) && HolesOk(src, b + a, holes)
  {
    forall k | 0 <= k < |holes|
      ensures LevelOk(src, a + b, holes[k]) && LevelOk(src, b + a, holes[k])
    {
      assert LevelOk(src, a, holes[k]);
      ElsewhereIsOutside(src, a, b, holes[k]);
    }
  }

  /** The spans of two stretches, one behind the other. */
  lemma {:induction false} LevelsConcat(src: Text, a: seq<Span>, b: seq<Span>, start: nat, middle: nat, end: nat)
    requires AllFaithful(src, a) && AllFaithful(src, b) && Levels(src, a) && Levels(src, b)
    requires AllWithin(a, Extent(start, middle)) && AllWithin(b, Extent(middle, end))
    ensures Levels(src, a + b)
  {
    forall i | 0 <= i < |a + b| && (a + b)[i].Span?
      ensures HolesOk(src, a + b, (a + b)[i].holes)
    {
      FaithfulShape(src, (a + b)[i]);
      if i < |a| {
        assert Within(a[i].extent, Extent(start, middle));
        HolesElsewhere(src, a, b, a[i].holes, Extent(start, middle));
      } else {
        assert Within(b[i - |a|].extent, Extent(middle, end));
        HolesElsewhere(src, b, a, b[i - |a|].holes, Extent(middle, end));
      }
    }
  }

  // ---- the code loop, level by level ----

  ghost function All(spans: seq<Span>): set<Span> {
    set s | s in spans
  }

  /** Up to the index both levels have the same bare characters and comments. */
  ghost predicate SameBelow(a: set<Span>, b: set<Span>, p: nat) {
    forall q: nat :: q < p ==> (Bare(a, q) <==> Bare(b, q)) && (InComment(a, q) <==> InComment(b, q))
  }

  lemma {:induction false} SameDepth(src: Text, a: set<Span>, b: set<Span>, from: nat, p: nat)
    requires from <= p <= |src| && SameBelow(a, b, p)
    ensures Depth(src, a, from, p) == Depth(src, b, from, p)
    decreases p
  {
    if p > from {
      assert Bare(a, p - 1) <==> Bare(b, p - 1);
      SameDepth(src, a, b, from, p - 1);
    }
  }

  lemma {:induction false} SamePrev(src: Text, a: set<Span>, b: set<Span>, from: nat, p: nat)
    requires p <= |src| && SameBelow(a, b, p)
    ensures PrevOf(src, a, from, p) == PrevOf(src, b, from, p)
  {
    if p > from {
      assert (Bare(a, p - 1) <==> Bare(b, p - 1)) && (InComment(a, p - 1) <==> InComment(b, p - 1));
      SamePrev(src, a, b, from, p - 1);
    }
  }

  lemma {:induction false} SameSlashes(src: Text, a: set<Span>, b: set<Span>, from: nat, to: nat)
    requires to <= |src| && SameBelow(a, b, to) && SlashesPlain(src, a, from, to)
    ensures SlashesPlain(src, b, from, to)
  {
    forall p | from <= p < to && Bare(b, p) && src[p] == SLASH
      ensures PlainSlash(src, b, from, p)
    {
      assert Bare(a, p) && PlainSlash(src, a, from, p);
      SamePrev(src, a, b, from, p);
    }
  }

  /** Spans that begin later do not matter before. */
  lemma {:induction false} LaterSpans(a: seq<Span>, b: seq<Span>, p: nat)
    requires forall j :: 0 <= j < |b| ==> p <= b[j].extent.start
    ensures SameBelow(All(a), All(a + b), p)
  {
    forall q: nat | q < p
      ensures Bare(All(a), q) <==> Bare(All(a + b), q)
      ensures InComment(All(a), q) <==> InComment(All(a + b), q)
    {
      forall s | s in b ensures !Covers(s, q) {
        var j :| 0 <= j < |b| && b[j] == s;
      }
      assert forall s :: s in All(a + b) <==> s in a || s in b;
    }
  }

  /** Where no character is bare, the depth stays. */
  lemma {:induction false} CoveredDepth(src: Text, level: set<Span>, from: nat, a: nat, b: nat)
    requires from <= a <= b <= |src| && forall p: nat :: a <= p < b ==> !Bare(level, p)
    ensures Depth(src, level, from, b) == Depth(src, level, from, a)
    decreases b
  {
    if a < b {
      CoveredDepth(src, level, from, a, b - 1);
    }
  }

  /** So it does over characters that are no braces. */
  lemma {:induction false} BracelessDepth(src: Text, level: set<Span>, from: nat, a: nat, b: nat)
    requires from <= a <= b <= |src| && forall p: nat :: a <= p < b ==> src[p] != OPEN_BRACE && src[p] != CLOSE_BRACE
    ensures Depth(src, level, from, b) == Depth(src, level, from, a)
    decreases b
  {
    if a < b {
      BracelessDepth(src, level, from, a, b - 1);
    }
  }

  /** A comment changes nothing about what comes before. */
  lemma {:induction false} CommentPrev(src: Text, level: set<Span>, from: nat, a: nat, b: nat)
    requires from <= a <= b <= |src| && forall p: nat :: a <= p < b ==> InComment(level, p)
    ensures PrevOf(src, level, from, b) == PrevOf(src, level, from, a)
    decreases b
  {
    if a < b {
      assert InComment(level, b - 1);
      CommentPrev(src, level, from, a, b - 1);
    }
  }

  lemma {:induction false} WordStartIs(src: Text, b: nat, p: nat)
    requires b <= p <= |src| && forall k :: b <= k < p ==> IsWord(src[k])
    requires b > 0 ==> !IsWord(src[b - 1])
    ensures WordStart(src, p) == b
    decreases p
  {
    if b < p {
      WordStartIs(src, b, p - 1);
    }
  }

  /** What the code loop that began at `from` has made of its variables. */
  ghost predicate Traced(src: Text, from: nat, inTemplate: bool, t: Position) {
    var at := Least(t.i, |src|);
    && from <= at && t.i <= |src| + 2 && Sound(src, t)
    && AllFaithful(src, t.spans) && AllWithin(t.spans, Extent(from, at)) && Levels(src, t.spans)
    && t.depth == Depth(src, All(t.spans), from, at)
    && (inTemplate ==> forall p :: from <= p <= at ==> Depth(src, All(t.spans), from, p) >= 0)
    && (t.i < |src| ==> t.prev == PrevOf(src, All(t.spans), from, t.i))
    && SlashesPlain(src, All(t.spans), from, at)
  }

  /** The spans a turn adds are those behind the ones before it. */
  lemma {:induction false} Added(src: Text, before: seq<Span>, after: seq<Span>, outer: Extent)
    returns (added: seq<Span>)
    requires Continues(src, before, after, outer)
    ensures added == after[|before|..] && after == before + added
    ensures Adds(src, added, outer)
    ensures SameBelow(All(before), All(after), outer.start)
  {
    added := after[|before|..];
    forall j | 0 <= j < |added| ensures outer.start <= added[j].extent.start {
      assert Within(added[j].extent, outer);
    }
    LaterSpans(before, added, outer.start);
    assert after == before + added;
  }

  /** A turn over a listed stretch keeps the trace. */
  lemma {:induction false} CoveredTraces(src: Text, from: nat, inTemplate: bool, t: Position, r: Position)
    requires Traced(src, from, inTemplate, t) && t.i < |src| && r.depth == t.depth
    requires t.i < r.i <= |src| + 2 && Sound(src, r)
    requires Continues(src, t.spans, r.spans, Extent(t.i, Least(r.i, |src|))) && Levels(src, r.spans[|t.spans|..])
    requires forall p: nat :: t.i <= p < Least(r.i, |src|) ==> !Bare(All(r.spans), p)
    requires r.i < |src| ==> r.prev == PrevOf(src, All(r.spans), from, r.i)
    ensures Traced(src, from, inTemplate, r)
  {
    var at, level, level' := Least(r.i, |src|), All(t.spans), All(r.spans);
    var added := Added(src, t.spans, r.spans, Extent(t.i, at));
    LevelsConcat(src, t.spans, added, from, t.i, at);
    FaithfulConcat(src, t.spans, added);
    forall i | 0 <= i < |r.spans| ensures Within(r.spans[i].extent, Extent(from, at)) {
      if i < |t.spans| {
        assert Within(t.spans[i].extent, Extent(from, t.i));
      } else {
        assert Within(added[i - |t.spans|].extent, Extent(t.i, at));
      }
    }
    SameDepth(src, level, level', from, t.i);
    forall p | from <= p <= at
      ensures inTemplate ==> Depth(src, level', from, p) >= 0
      ensures p == at ==> Depth(src, level', from, p) == t.depth
    {
      if p <= t.i {
        SameDepth(src, level, level', from, p);
      } else {
        CoveredDepth(src, level', from, t.i, p);
      }
    }
    SameSlashes(src, level, level', from, t.i);
  }

  /** A turn that lists nothing passes one character, or a word. */
  lemma {:induction false} PlainTraces(src: Text, from: nat, inTemplate: bool, t: Position)
    requires Traced(src, from, inTemplate, t) && t.i < |src| && !AtBlank(src, t) && !IsQuote(src[t.i])
    requires !(src[t.i] == CLOSE_BRACE && inTemplate && t.depth == 0)
    ensures Traced(src, from, inTemplate, NextTurn(src, t))
  {
    var r := NextTurn(src, t);
    PlainTurn(src, t);
    TurnStaysSound(src, t);
    PlainIsBare(src, t.spans, from, t.i);
    PlainDepth(src, from, t);
    if inTemplate {
      PlainStaysOpen(src, from, t);
    }
    PlainPrev(src, from, t);
    PlainSlashes(src, from, t);
    NothingListedIn(t.spans, from, t.i, r.i);
  }

  lemma {:induction false} NothingListedIn(spans: seq<Span>, from: nat, at: nat, to: nat)
    requires AllWithin(spans, Extent(from, at)) && at <= to
    ensures AllWithin(spans, Extent(from, to))
  {
    forall i | 0 <= i < |spans| ensures Within(spans[i].extent, Extent(from, to)) {
      assert Within(spans[i].extent, Extent(from, at));
    }
  }

  lemma {:induction false} PlainIsBare(src: Text, spans: seq<Span>, from: nat, at: nat)
    requires AllWithin(spans, Extent(from, at))
    ensures forall p: nat :: at <= p ==> Bare(All(spans), p) && !InComment(All(spans), p)
  {
    forall p: nat, s | at <= p && s in spans ensures !Covers(s, p) {
      var i :| 0 <= i < |spans| && spans[i] == s;
      assert Within(spans[i].extent, Extent(from, at));
    }
  }

  lemma {:induction false} PlainDepth(src: Text, from: nat, t: Position)
    requires t.i < |src| && !AtBlank(src, t) && !IsQuote(src[t.i]) && from <= t.i
    requires t.depth == Depth(src, All(t.spans), from, t.i)
    requires forall p: nat :: t.i <= p ==> Bare(All(t.spans), p)
    ensures NextTurn(src, t).i <= |src|
    ensures NextTurn(src, t).depth == Depth(src, All(t.spans), from, NextTurn(src, t).i)
    ensures t.i + 1 < NextTurn(src, t).i ==> forall p: nat :: t.i <= p < NextTurn(src, t).i ==> IsWord(src[p])
  {
    var r := NextTurn(src, t);
    PlainTurn(src, t);
    if IsWord(src[t.i]) {
      BracelessDepth(src, All(t.spans), from, t.i, r.i);
    } else {
      assert Bare(All(t.spans), t.i);
    }
  }

  lemma {:induction false} PlainStaysOpen(src: Text, from: nat, t: Position)
    requires t.i < |src| && !AtBlank(src, t) && !IsQuote(src[t.i]) && from <= t.i
    requires src[t.i] == CLOSE_BRACE ==> t.depth != 0
    requires t.depth == Depth(src, All(t.spans), from, t.i)
    requires forall p: nat :: t.i <= p ==> Bare(All(t.spans), p)
    requires forall p :: from <= p <= t.i ==> Depth(src, All(t.spans), from, p) >= 0
    ensures forall p :: from <= p <= NextTurn(src, t).i && p <= |src| ==> Depth(src, All(t.spans), from, p) >= 0
  {
    var r, level := NextTurn(src, t), All(t.spans);
    PlainDepth(src, from, t);
    PlainTurn(src, t);
    assert Depth(src, level, from, t.i) >= 0;
    forall p | t.i < p < r.i
      ensures Depth(src, level, from, p) >= 0
    {
      BracelessDepth(src, level, from, t.i, p);
    }
  }

  lemma {:induction false} PlainPrev(src: Text, from: nat, t: Position)
    requires t.i < |src| && !AtBlank(src, t) && !IsQuote(src[t.i]) && from <= t.i && Edge(src, t.i)
    requires t.prev == PrevOf(src, All(t.spans), from, t.i)
    requires forall p: nat :: t.i <= p ==> Bare(All(t.spans), p)
    ensures NextTurn(src, t).i <= |src|
    ensures NextTurn(src, t).prev == PrevOf(src, All(t.spans), from, NextTurn(src, t).i)
  {
    var r, c := NextTurn(src, t), src[t.i];
    PlainTurn(src, t);
    if IsWord(c) {
      WordStartIs(src, t.i, r.i);
      WordPrev(src, All(t.spans), from, t.i, r.i);
    } else {
      CharPrev(src, All(t.spans), from, t.i);
    }
  }

  lemma {:induction false} WordPrev(src: Text, level: set<Span>, from: nat, b: nat, p: nat)
    requires from <= b < p <= |src| && Bare(level, p - 1) && IsWord(src[p - 1]) && WordStart(src, p) == b
    ensures PrevOf(src, level, from, p) == src[b..p]
  {
  }

  lemma {:induction false} CharPrev(src: Text, level: set<Span>, from: nat, p: nat)
    requires from <= p < |src| && Bare(level, p) && !IsWord(src[p])
    ensures PrevOf(src, level, from, p + 1) ==
            if IsSpace(src[p]) then PrevOf(src, level, from, p) else src[p..p + 1]
  {
  }

  lemma {:induction false} PlainSlashes(src: Text, from: nat, t: Position)
    requires t.i < |src| && !AtBlank(src, t) && !IsQuote(src[t.i]) && from <= t.i
    requires t.prev == PrevOf(src, All(t.spans), from, t.i)
    requires SlashesPlain(src, All(t.spans), from, t.i)
    ensures NextTurn(src, t).i <= |src| && SlashesPlain(src, All(t.spans), from, NextTurn(src, t).i)
  {
    var r := NextTurn(src, t);
    PlainTurn(src, t);
    forall p | from <= p < r.i && Bare(All(t.spans), p) && src[p] == SLASH
      ensures PlainSlash(src, All(t.spans), from, p)
    {
      if p >= t.i {
        assert p == t.i;
      }
    }
  }

  /** A listed span covers its extent. */
  lemma {:induction false} ListedIsCovered(spans: seq<Span>, i: nat)
    requires i < |spans|
    ensures forall p: nat :: Covers(spans[i], p) ==> !Bare(All(spans), p)
    ensures spans[i].Blank? && spans[i].kind != Regex ==>
      forall p: nat :: Covers(spans[i], p) ==> InComment(All(spans), p)
  {
    assert spans[i] in All(spans);
  }

  /** Directly behind a token or a regular expression comes what a closing parenthesis stands for. */
  lemma {:induction false} BehindToken(src: Text, spans: seq<Span>, from: nat, p: nat)
    requires from < p <= |src| && !Bare(All(spans), p - 1) && !InComment(All(spans), p - 1)
    ensures PrevOf(src, All(spans), from, p) == [CLOSE_PAREN]
  {
  }

  lemma {:induction false} BlankTraces(src: Text, from: nat, inTemplate: bool, t: Position)
    requires Traced(src, from, inTemplate, t) && t.i < |src| && AtBlank(src, t)
    ensures Traced(src, from, inTemplate, NextTurn(src, t))
  {
    var r, blank := NextTurn(src, t), BlankAt(src, t);
    BlankTurn(src, t);
    TurnStaysSound(src, t);
    TurnAdds(src, t);
    assert r.spans[|t.spans|..] == [blank];
    ListedIsCovered(r.spans, |t.spans|);
    if r.i < |src| {
      if blank.kind == Regex {
        PlainIsBare(src, t.spans, from, t.i);
        OnlyLast(t.spans, blank, r.i - 1);
        BehindToken(src, r.spans, from, r.i);
      } else {
        CommentPrev(src, All(r.spans), from, t.i, r.i);
        LaterSpans(t.spans, [blank], t.i);
        SamePrev(src, All(t.spans), All(r.spans), from, t.i);
      }
    }
    CoveredTraces(src, from, inTemplate, t, r);
  }

  /** A last span that is no comment brings none. */
  lemma {:induction false} OnlyLast(spans: seq<Span>, last: Span, p: nat)
    requires !InComment(All(spans), p) && !(last.Blank? && last.kind != Regex && Covers(last, p))
    ensures !InComment(All(spans + [last]), p)
  {
    assert forall s :: s in All(spans + [last]) <==> s in All(spans) || s == last;
  }

  lemma {:induction false} QuoteTraces(src: Text, from: nat, inTemplate: bool, t: Position)
    requires Traced(src, from, inTemplate, t) && t.i < |src| && !AtBlank(src, t)
    requires IsQuote(src[t.i]) && src[t.i] != BACKTICK
    ensures Traced(src, from, inTemplate, NextTurn(src, t))
  {
    var r, token := NextTurn(src, t), QuotedSpan(src, t.i);
    QuoteTurn(src, t);
    QuotedSpanAt(src, t.i, StringEnd(src, t.i));
    TurnStaysSound(src, t);
    TurnAdds(src, t);
    assert r.spans[|t.spans|..] == [token];
    ListedIsCovered(r.spans, |t.spans|);
    if r.i < |src| {
      PlainIsBare(src, t.spans, from, t.i);
      OnlyLast(t.spans, token, r.i - 1);
      BehindToken(src, r.spans, from, r.i);
    }
    CoveredTraces(src, from, inTemplate, t, r);
  }

  // ---- templates, level by level ----

  /** What a template's loop keeps. */
  ghost predicate LoomOk(src: Text, l: Loom) {
    && l.i <= |src| + 1 && Weaving(src, l.w, l.i, l.spans)
    && Levels(src, l.spans) && HolesOk(src, l.spans, l.w.holes)
  }

  /** The substitutions so far, and what they hold, lie before the loop's index. */
  lemma {:induction false} WovenBefore(src: Text, l: Loom)
    requires LoomOk(src, l)
    ensures var done := Extent(l.w.start + 1, Least(l.i, |src|));
            && AllWithin(l.spans, done)
            && forall k :: 0 <= k < |l.w.holes| ==> Within(l.w.holes[k], done)
  {
    var at := Least(l.i, |src|);
    forall k | 0 <= k < |l.w.holes|
      ensures Within(l.w.holes[k], Extent(l.w.start + 1, at))
    {
      HoleAt(src, BACKTICK, l.w.start, l.w.chunks + [l.w.buf], l.w.holes, at, k);
    }
    forall i | 0 <= i < |l.spans|
      ensures Within(l.spans[i].extent, Extent(l.w.start + 1, at))
    {
      var k :| 0 <= k < |l.w.holes| && Within(l.spans[i].extent, l.w.holes[k]);
    }
  }

  /** Everything a scan of a substitution lists is inside it. */
  lemma {:induction false} NewHoleLevel(src: Text, before: seq<Span>, inner: seq<Span>, hole: Extent)
    requires AllFaithful(src, before) && AllWithin(inner, hole)
    requires forall j :: 0 <= j < |before| ==> before[j].extent.end <= hole.start
    requires Balanced(src, All(inner), hole) && SlashesPlain(src, All(inner), hole.start, hole.end)
    ensures LevelOk(src, before + inner, hole)
  {
    ElsewhereIsOutside(src, inner, before, hole);
    AllIsInside(inner, hole);
  }

  lemma {:induction false} AllIsInside(spans: seq<Span>, outer: Extent)
    requires AllWithin(spans, outer)
    ensures Inside(spans, outer) == All(spans)
  {
    forall s | s in spans ensures Within(s.extent, outer) {
      var j :| 0 <= j < |spans| && spans[j] == s;
    }
  }

  /** An enclosing token is not inside its substitutions, nor inside theirs. */
  lemma {:induction false} EnclosingIsOutside(src: Text, spans: seq<Span>, span: Span, holes: seq<Extent>)
    requires HolesOk(src, spans, holes)
    requires forall k :: 0 <= k < |holes| ==> span.extent.start < holes[k].start
    ensures HolesOk(src, spans + [span], holes)
  {
    forall k | 0 <= k < |holes|
      ensures LevelOk(src, spans + [span], holes[k])
    {
      assert LevelOk(src, spans, holes[k]);
      assert Inside(spans + [span], holes[k]) == Inside(spans, holes[k]);
    }
  }

  lemma {:induction false} TemplateCloses(src: Text, l: Loom, span: Span)
    requires LoomOk(src, l) && span.Span? && span.extent.start == l.w.start && span.holes == l.w.holes
    ensures Levels(src, l.spans + [span])
  {
    WovenBefore(src, l);
    var all := l.spans + [span];
    forall i | 0 <= i < |all| && all[i].Span?
      ensures HolesOk(src, all, all[i].holes)
    {
      if i < |l.spans| {
        FaithfulShape(src, l.spans[i]);
        assert Within(l.spans[i].extent, Extent(l.w.start + 1, Least(l.i, |src|)));
      }
      EnclosingIsOutside(src, l.spans, span, all[i].holes);
    }
  }

  lemma {:induction false} HoleIsLevel(src: Text, l: Loom, hole: Scan)
    requires LoomOk(src, l) && l.i < |src| && l.i + 2 <= hole.end <= |src|
    requires Adds(src, hole.spans, Extent(l.i + 2, hole.end)) && Levels(src, hole.spans)
    requires Balanced(src, All(hole.spans), Extent(l.i + 2, hole.end))
    requires SlashesPlain(src, All(hole.spans), l.i + 2, hole.end)
    ensures Levels(src, l.spans + hole.spans)
    ensures HolesOk(src, l.spans + hole.spans, l.w.holes + [Extent(l.i + 2, hole.end)])
  {
    var extent, done := Extent(l.i + 2, hole.end), Extent(l.w.start + 1, l.i);
    var holes := l.w.holes + [extent];
    WovenBefore(src, l);
    forall j | 0 <= j < |l.spans| ensures l.spans[j].extent.end <= l.i {
      assert Within(l.spans[j].extent, done);
    }
    forall j | 0 <= j < |hole.spans| ensures l.i + 2 <= hole.spans[j].extent.start {
      assert Within(hole.spans[j].extent, extent);
    }
    NothingListedIn(l.spans, l.w.start + 1, l.i, l.i + 2);
    LevelsConcat(src, l.spans, hole.spans, l.w.start + 1, l.i + 2, hole.end);
    HolesElsewhere(src, l.spans, hole.spans, l.w.holes, done);
    NewHoleLevel(src, l.spans, hole.spans, extent);
    forall k | 0 <= k < |holes|
      ensures LevelOk(src, l.spans + hole.spans, holes[k])
    {
      assert k < |l.w.holes| ==> holes[k] == l.w.holes[k];
    }
  }

  // ---- every scan ----

  lemma {:induction false} TemplateTraces(src: Text, from: nat, inTemplate: bool, t: Position)
    requires Traced(src, from, inTemplate, t) && t.i < |src| && !AtBlank(src, t) && src[t.i] == BACKTICK
    ensures Traced(src, from, inTemplate, NextTurn(src, t))
    decreases |src| + 2 - t.i, 1
  {
    var r, l := NextTurn(src, t), TemplateLoop(src, TemplateFrom(t.i));
    QuoteTurn(src, t);
    TurnStaysSound(src, t);
    TurnAdds(src, t);
    TemplateLevels(src, t.i);
    var inner, span := l.spans, TemplateSpan(src, l);
    assert r.spans == t.spans + (inner + [span]) && r.i == l.i + 1;
    assert r.spans[|t.spans|..] == inner + [span];
    assert r.spans[|r.spans| - 1] == span;
    ListedIsCovered(r.spans, |r.spans| - 1);
    if r.i < |src| {
      PlainIsBare(src, t.spans, from, t.i);
      PlainIsBare(src, inner, t.i + 1, l.i);
      NoComment(t.spans, inner, span, l.i);
      BehindToken(src, r.spans, from, r.i);
    }
    CoveredTraces(src, from, inTemplate, t, r);
  }

  lemma {:induction false} NoComment(before: seq<Span>, inner: seq<Span>, span: Span, p: nat)
    requires span.Span? && !InComment(All(before), p) && !InComment(All(inner), p)
    ensures !InComment(All(before + (inner + [span])), p)
  {
    assert forall s :: s in All(before + (inner + [span])) <==> s in All(before) || s in All(inner) || s == span;
  }

  /** Every turn keeps what the code loop has made of its variables. */
  lemma {:induction false} TurnTraces(src: Text, from: nat, inTemplate: bool, t: Position)
    requires Traced(src, from, inTemplate, t) && t.i < |src|
    requires !(src[t.i] == CLOSE_BRACE && inTemplate && t.depth == 0)
    ensures Traced(src, from, inTemplate, NextTurn(src, t))
    decreases |src| + 2 - t.i, 2
  {
    if AtBlank(src, t) {
      BlankTraces(src, from, inTemplate, t);
    } else if src[t.i] == BACKTICK {
      TemplateTraces(src, from, inTemplate, t);
    } else if IsQuote(src[t.i]) {
      QuoteTraces(src, from, inTemplate, t);
    } else {
      PlainTraces(src, from, inTemplate, t);
    }
  }

  /** What a code scan that began at `from` may give. */
  ghost predicate ScanOk(src: Text, from: nat, inTemplate: bool, r: Scan) {
    && from <= r.end <= |src| && Levels(src, r.spans) && SlashesPlain(src, All(r.spans), from, r.end)
    && (inTemplate ==> Balanced(src, All(r.spans), Extent(from, r.end)))
  }

  lemma {:induction false} ClosedOk(src: Text, from: nat, t: Position)
    requires Traced(src, from, true, t) && t.i < |src| && src[t.i] == CLOSE_BRACE && t.depth == 0
    ensures ScanOk(src, from, true, Scan(t.i + 1, t.spans))
  {
    PlainIsBare(src, t.spans, from, t.i);
    assert Bare(All(t.spans), t.i);
  }

  /**
   What a code scan lists makes levels: in each substitution braces decide the end, as they do for the scan
   itself inside a template, and no bare slash could have opened a comment or a regular expression.
   */
  lemma {:induction false} CodeLevels(src: Text, from: nat, inTemplate: bool, t: Position)
    requires Traced(src, from, inTemplate, t)
    ensures ScanOk(src, from, inTemplate, CodeScan(src, inTemplate, t))
    decreases |src| + 2 - t.i, 3
  {
    if t.i < |src| {
      if src[t.i] == CLOSE_BRACE && inTemplate && t.depth == 0 {
        ClosedOk(src, from, t);
      } else {
        TurnTraces(src, from, inTemplate, t);
        CodeLevels(src, from, inTemplate, NextTurn(src, t));
      }
    }
  }

  /** Code starts traced. */
  lemma {:induction false} StartIsTraced(src: Text, i: nat, inTemplate: bool)
    requires i == 0 || (2 <= i <= |src| && OpensHole(src, i - 2))
    ensures Traced(src, i, inTemplate, CodeFrom(i))
  {
    StartIsSound(src, i);
  }

  /** What the scan of a substitution lists. */
  lemma {:induction false} HoleScanOk(src: Text, from: nat, start: Position)
    requires 2 <= from <= |src| && OpensHole(src, from - 2) && start == CodeFrom(from)
    ensures ScanOk(src, from, true, CodeScan(src, true, start))
    decreases |src| + 2 - from, 4
  {
    StartIsTraced(src, from, true);
    CodeLevels(src, from, true, start);
  }

  lemma {:induction false} HoleLevels(src: Text, l: Loom, hole: Scan, r: Loom)
    requires LoomOk(src, l) && l.i < |src| && l.i + 2 <= hole.end <= |src|
    requires Adds(src, hole.spans, Extent(l.i + 2, hole.end)) && ScanOk(src, l.i + 2, true, hole)
    requires r == Loom(hole.end, CloseHole(l.w, Extent(l.i + 2, hole.end)), l.spans + hole.spans)
    ensures Levels(src, r.spans) && HolesOk(src, r.spans, r.w.holes)
  {
    HoleIsLevel(src, l, hole);
  }

  lemma {:induction false} StitchLevels(src: Text, l: Loom, r: Loom)
    requires LoomOk(src, l) && l.i < |src| && src[l.i] != BACKTICK && r == NextStitch(src, l)
    ensures LoomOk(src, r)
    decreases |src| + 2 - l.i, 2
  {
    StitchWeaves(src, l, r);
    if OpensHole(src, l.i) {
      var hole := HoleAdds(src, l.i);
      HoleScanOk(src, l.i + 2, CodeFrom(l.i + 2));
      HoleStitch(src, l, hole);
      HoleLevels(src, l, hole, r);
    } else {
      TextStitch(src, l);
    }
  }

  lemma {:induction false} LoopLevels(src: Text, l: Loom)
    requires LoomOk(src, l)
    ensures LoomOk(src, TemplateLoop(src, l))
    decreases |src| + 2 - l.i, 3
  {
    if l.i < |src| && src[l.i] != BACKTICK {
      StitchLevels(src, l, NextStitch(src, l));
      LoopLevels(src, NextStitch(src, l));
    }
  }

  /** What a template lists makes levels. */
  lemma {:induction false} TemplateLevels(src: Text, start: nat)
    requires start < |src| && src[start] == BACKTICK
    ensures Levels(src, TemplateScan(src, start).spans)
    ensures var l := TemplateLoop(src, TemplateFrom(start));
            AllWithin(l.spans, Extent(start + 1, Least(l.i, |src|)))
    decreases |src| + 2 - start, 0
  {
    WeaveStart(src, start);
    LoopLevels(src, TemplateFrom(start));
    var l := TemplateLoop(src, TemplateFrom(start));
    WovenBefore(src, l);
    TemplateCloses(src, l, TemplateSpan(src, l));
  }
}
