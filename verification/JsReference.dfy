/**
 The TypeScript scan as functions of the source, and what they guarantee. A scan of code and a scan of a
 template call each other; indices may overrun the text by up to two.

 A token carries, besides the literal, the raw chunks and the extents (clamped to the text) that the
 claims below are about. Beside the tokens a scan lists the blanks, the comments and regular expressions
 it skips. What a template's substitutions hold comes before the template.
 */
module JsReference {
  import opened TextEscapes
  import opened GoLexer

  const DOLLAR: CodePoint := 0x24
  const GREATER: CodePoint := 0x3E
  const OPEN_BRACKET: CodePoint := 0x5B
  const CLOSE_BRACKET: CodePoint := 0x5D
  const CLOSE_PAREN: CodePoint := 0x29

  function Ascii(s: string): Text
    requires forall i :: 0 <= i < |s| ==> s[i] < 128 as char
  {
    seq(|s|, i requires 0 <= i < |s| => s[i] as CodePoint)
  }

  /** After these a slash opens a regular expression. */
  predicate RegexAfter(prev: Text) {
    || (|prev| == 1 && prev[0] in {0x28, 0x2C, 0x3D, 0x3A, 0x5B, 0x21, 0x26, 0x7C, 0x3F, 0x7B, 0x7D, 0x3B, 0x0A})
    || prev in {Ascii("return"), Ascii("typeof"), Ascii("case"), Ascii("in"), Ascii("of"), Ascii("delete"),
                Ascii("void"), Ascii("throw"), Ascii("new"), Ascii("yield"), Ascii("await")}
  }

  predicate IsWord(c: CodePoint) {
    0x30 <= c <= 0x39 || 0x41 <= c <= 0x5A || 0x61 <= c <= 0x7A || c == 0x5F || c == DOLLAR
  }

  /** A part of the source, from `start` up to `end`. */
  datatype Extent = Extent(start: nat, end: nat)

  datatype BlankKind = ToLineEnd | ToBlockEnd | Regex

  /**
   A complete token with its extent, its raw chunks and the extents of its `${...}` contents; or a
   skipped blank.
   */
  datatype Span = Span(extent: Extent, raws: seq<Text>, holes: seq<Extent>) | Blank(extent: Extent, kind: BlankKind)

  function Unescaped(raws: seq<Text>): seq<Text> {
    seq(|raws|, i requires 0 <= i < |raws| => Unescape(raws[i]))
  }

  function LiteralOf(t: Span): Literal
    requires t.Span?
  {
    Literal(t.extent.start, Unescaped(t.raws), t.holes == [])
  }

  predicate Within(inner: Extent, outer: Extent) {
    outer.start <= inner.start && inner.end <= outer.end
  }

  ghost predicate InSome(inner: Extent, holes: seq<Extent>) {
    exists k :: 0 <= k < |holes| && Within(inner, holes[k])
  }

  /** `a`, which was completed first, lies before `b` or inside one of its substitutions. */
  ghost predicate BeforeOrInHole(a: Span, b: Span) {
    a.extent.end <= b.extent.start || (b.Span? && InSome(a.extent, b.holes))
  }

  /** Pairwise disjoint or nested, and nested only inside a substitution of the enclosing template. */
  ghost predicate Laminar(tokens: seq<Span>) {
    forall i, j :: 0 <= i < j < |tokens| ==> BeforeOrInHole(tokens[i], tokens[j])
  }

  ghost predicate AllWithin(tokens: seq<Span>, outer: Extent) {
    forall i :: 0 <= i < |tokens| ==> Within(tokens[i].extent, outer)
  }

  /**
   The end of a token's text: its closing quote, the end of the line for a quoted string, or the end of the
   source.
   */
  predicate Ended(src: Text, opener: CodePoint, end: nat) {
    end <= |src| && (end < |src| ==> src[end] == opener || (opener != BACKTICK && src[end] == NEWLINE))
  }

  /** Where the inside of a token ends; the token ends behind what ended it. */
  ghost predicate BodyEnds(src: Text, t: Span, end: nat)
    requires t.Span? && t.extent.start < |src|
  {
    t.extent.start < end && Ended(src, src[t.extent.start], end) && t.extent.end == Least(end + 1, |src|)
  }

  /**
   A recorded token spells exactly the source text of its extent, and has one chunk more than
   substitutions; a recorded blank is a whole comment or regular expression, the latter where one may open.
   */
  ghost predicate Faithful(src: Text, t: Span) {
    if t.Span? then Spelling(src, t) else TrueBlank(src, t.extent, t.kind)
  }

  ghost predicate TrueBlank(src: Text, e: Extent, kind: BlankKind) {
    && e.start < e.end <= |src|
    && match kind
       case ToLineEnd => AtLineComment(src, e.start) && e.end == LineEnd(src, e.start)
       case ToBlockEnd => AtBlockComment(src, e.start) && e.end == BlockEnd(src, e.start)
       case Regex =>
         && src[e.start] == SLASH && !AtLineComment(src, e.start) && !AtBlockComment(src, e.start)
         && !(e.start + 1 < |src| && src[e.start + 1] == GREATER)
         && RegexContext(src, e.start)
         && e.end == Least(RegexEnd(src, e.start + 1, false), |src|)
  }

  /** Where a text opened by `opener` is interrupted: by its closing quote, the end of the line, or a substitution. */
  predicate Interrupts(src: Text, opener: CodePoint, i: nat)
    requires i < |src|
  {
    src[i] == opener || if opener == BACKTICK then OpensHole(src, i) else src[i] == NEWLINE
  }

  /** Characters and escapes follow one another, and none of them interrupts the text. */
  ghost predicate TextRun(src: Text, opener: CodePoint, from: nat, end: nat)
    decreases end - from
  {
    from == end
    || (from < end <= |src| && !Interrupts(src, opener, from) && Least(TextStep(src, from), |src|) <= end
        && TextRun(src, opener, Least(TextStep(src, from), |src|), end))
  }

  ghost predicate ChunkOk(src: Text, opener: CodePoint, raw: Text, from: nat, end: nat) {
    from <= end <= |src| && raw == src[from..end] && TextRun(src, opener, from, end)
  }

  /** A chunk begins behind the opening quote or behind the substitution before it. */
  function ChunkFrom(start: nat, holes: seq<Extent>, k: nat): nat
    requires k <= |holes|
  {
    if k == 0 then start + 1 else holes[k - 1].end
  }

  /** A chunk is the text up to its substitution, which is opened by `${`. */
  ghost predicate HoleOk(src: Text, opener: CodePoint, start: nat, raw: Text, holes: seq<Extent>, k: nat)
    requires k < |holes|
  {
    var hole := holes[k];
    && start + 2 < hole.start <= hole.end <= |src|
    && ChunkOk(src, opener, raw, ChunkFrom(start, holes, k), hole.start - 2)
    && OpensHole(src, hole.start - 2)
  }

  /** A substitution is what a code scan from its start passes. */
  ghost predicate HoleEnds(src: Text, hole: Extent) {
    hole.start <= |src| && hole.end == CodeScan(src, true, CodeFrom(hole.start)).end
  }

  ghost predicate HolesEnd(src: Text, holes: seq<Extent>) {
    forall k :: 0 <= k < |holes| ==> HoleEnds(src, holes[k])
  }

  /** The chunks and the substitutions between them, one after the other, are the source up to `end`. */
  ghost predicate Spelled(src: Text, opener: CodePoint, start: nat, raws: seq<Text>, holes: seq<Extent>, end: nat) {
    && |raws| == |holes| + 1
    && (forall k {:trigger HoleOk(src, opener, start, raws[k], holes, k)} ::
          0 <= k < |holes| ==> HoleOk(src, opener, start, raws[k], holes, k) && holes[k].end <= end)
    && ChunkOk(src, opener, raws[|holes|], ChunkFrom(start, holes, |holes|), end)
  }

  ghost predicate Spelling(src: Text, t: Span)
    requires t.Span?
  {
    && t.extent.start < t.extent.end <= |src|
    && src[t.extent.start] in {SINGLE, DOUBLE, BACKTICK}
    && (t.holes != [] ==> src[t.extent.start] == BACKTICK)
    && HolesEnd(src, t.holes)
    && exists end: nat ::
         BodyEnds(src, t, end) && Spelled(src, src[t.extent.start], t.extent.start, t.raws, t.holes, end)
  }

  ghost predicate AllFaithful(src: Text, tokens: seq<Span>) {
    forall i :: 0 <= i < |tokens| ==> Faithful(src, tokens[i])
  }

  /** What a stretch of scanning may add. */
  ghost predicate Adds(src: Text, tokens: seq<Span>, outer: Extent) {
    AllFaithful(src, tokens) && Laminar(tokens) && AllWithin(tokens, outer)
  }

  function Least(a: nat, b: nat): nat { if a <= b then a else b }

  /** The tokens of a scan, without its blanks. */
  function Tokens(spans: seq<Span>): (tokens: seq<Span>)
    ensures forall i :: 0 <= i < |tokens| ==> tokens[i].Span?
  {
    if spans == [] then []
    else
      var last := spans[|spans| - 1];
      Tokens(spans[..|spans| - 1]) + if last.Span? then [last] else []
  }

  function Literals(tokens: seq<Span>): seq<Literal>
    requires forall i :: 0 <= i < |tokens| ==> tokens[i].Span?
  {
    seq(|tokens|, i requires 0 <= i < |tokens| => LiteralOf(tokens[i]))
  }

  // ---- stretches without tokens ----

  /** The end of a line comment: its newline, or the end of the text. */
  function LineEnd(src: Text, i: nat): (next: nat)
    requires i < |src| && src[i] != NEWLINE
    ensures i < next <= |src|
  {
    NotHere(src, NEWLINE, i);
    Wrapped(Find(src, NEWLINE, i), |src|)
  }

  lemma {:induction false} NotHere(src: Text, c: CodePoint, i: nat)
    requires i < |src| && src[i] != c
    ensures Find(src, c, i) != i
  {
  }

  function BlockEnd(src: Text, i: nat): (next: nat)
    requires i + 1 < |src|
    ensures i < next <= |src|
  {
    var end := FindPair(src, STAR, SLASH, i + 2);
    if end < 0 then |src| else end + 2
  }

  /** Past a regular expression, from `j` inside it: behind the unescaped slash outside a class, or the line's end. */
  function RegexEnd(src: Text, j: nat, inClass: bool): (next: nat)
    requires j <= |src| + 1
    ensures j < next <= |src| + 2
    decreases |src| + 1 - j
  {
    if j >= |src| || src[j] == NEWLINE || (src[j] == SLASH && !inClass) then j + 1
    else
      RegexEnd(src, j + if src[j] == BACKSLASH then 2 else 1,
               (inClass || src[j] == OPEN_BRACKET) && src[j] != CLOSE_BRACKET)
  }

  function WordEnd(src: Text, i: nat): (end: nat)
    requires i <= |src|
    ensures i <= end <= |src| && (forall k :: i <= k < end ==> IsWord(src[k]))
    decreases |src| - i
  {
    if i < |src| && IsWord(src[i]) then WordEnd(src, i + 1) else i
  }

  /** The index after a quoted string: behind its closing quote or its line's end. */
  function StringEnd(src: Text, i: nat): (next: nat)
    requires i < |src|
    ensures i + 2 <= next <= |src| + 2
  {
    i + QuotedRun(src[i + 1..], src[i]) + 2
  }

  function QuotedSpan(src: Text, i: nat): Span
    requires i < |src|
  {
    var next := StringEnd(src, i);
    Span(Extent(i, Least(next, |src|)), [src[i + 1..Least(next - 1, |src|)]], [])
  }

  function BlankSpan(src: Text, kind: BlankKind, i: nat, next: nat): Span {
    Blank(Extent(i, Least(next, |src|)), kind)
  }

  // ---- where a regular expression may open ----

  predicate IsQuote(c: CodePoint) {
    c == SINGLE || c == DOUBLE || c == BACKTICK
  }

  predicate IsSpace(c: CodePoint) { c == 0x20 || c == 0x09 || c == RETURN }

  /** Between the two indices lie only spaces and comments. */
  ghost predicate Skips(src: Text, from: nat, to: nat)
    decreases to - from
  {
    from == to
    || (from < to && from < |src|
        && ((IsSpace(src[from]) && Skips(src, from + 1, to))
            || (AtLineComment(src, from) && LineEnd(src, from) <= to && Skips(src, LineEnd(src, from), to))
            || (AtBlockComment(src, from) && BlockEnd(src, from) <= to && Skips(src, BlockEnd(src, from), to))))
  }

  lemma {:induction false} SkipsTwice(src: Text, from: nat, middle: nat, to: nat)
    requires Skips(src, from, middle) && Skips(src, middle, to) && from <= middle <= to
    ensures Skips(src, from, to)
    decreases middle - from
  {
    if from < middle {
      if IsSpace(src[from]) {
        SkipsTwice(src, from + 1, middle, to);
      } else if AtLineComment(src, from) {
        SkipsTwice(src, LineEnd(src, from), middle, to);
      } else {
        SkipsTwice(src, BlockEnd(src, from), middle, to);
      }
    }
  }

  /** The text before `end` ends with a mark or with a whole word after which a slash opens a regular expression. */
  ghost predicate OpenerEnds(src: Text, end: nat) {
    exists b: nat :: b < end <= |src| && RegexAfter(src[b..end])
                     && (IsWord(src[b]) ==> b == 0 || !IsWord(src[b - 1]))
  }

  /** Before `i`, but for spaces and comments, comes such a mark or word, or nothing. */
  ghost predicate RegexContext(src: Text, i: nat) {
    exists e: nat :: e <= i && Skips(src, e, i) && (e == 0 || OpenerEnds(src, e))
  }

  /** No word runs across the index. */
  predicate Edge(src: Text, i: nat) {
    0 < i < |src| ==> !IsWord(src[i - 1]) || !IsWord(src[i])
  }

  /**
   What the code loop keeps: its `prev` says where a regular expression may open, and it never stands
   inside a word.
   */
  ghost predicate Sound(src: Text, t: Position) {
    t.i < |src| ==>
      && (RegexAfter(t.prev) ==> RegexContext(src, t.i))
      && Edge(src, t.i)
  }

  lemma {:induction false} ContextGoesOn(src: Text, i: nat, next: nat)
    requires RegexContext(src, i) && i <= next && Skips(src, i, next)
    ensures RegexContext(src, next)
  {
    var e: nat :| e <= i && Skips(src, e, i) && (e == 0 || OpenerEnds(src, e));
    SkipsTwice(src, e, i, next);
  }

  lemma {:induction false} ContextBehind(src: Text, b: nat, end: nat)
    requires b < end <= |src| && RegexAfter(src[b..end])
    requires IsWord(src[b]) ==> b == 0 || !IsWord(src[b - 1])
    ensures RegexContext(src, end)
  {
    assert OpenerEnds(src, end) && Skips(src, end, end);
  }

  // ---- the scan ----

  datatype Scan = Scan(end: nat, spans: seq<Span>)

  /** The variables of the code loop. */
  datatype Position = Position(i: nat, depth: int, prev: Text, spans: seq<Span>)

  /** What a template scan has gathered: finished chunks, the current one, and the substitutions. */
  datatype Weave = Weave(start: nat, chunks: seq<Text>, buf: Text, holes: seq<Extent>)

  datatype Loom = Loom(i: nat, w: Weave, spans: seq<Span>)

  predicate AtLineComment(src: Text, i: nat) {
    i + 1 < |src| && src[i] == SLASH && src[i + 1] == SLASH
  }

  predicate AtBlockComment(src: Text, i: nat) {
    i + 1 < |src| && src[i] == SLASH && src[i + 1] == STAR
  }

  predicate RegexOpens(src: Text, i: nat, prev: Text) {
    i < |src| && src[i] == SLASH && !(i + 1 < |src| && src[i + 1] == GREATER) && RegexAfter(prev)
  }

  /** One turn of the code loop. */
  function NextTurn(src: Text, t: Position): (r: Position)
    requires t.i < |src|
    ensures t.i < r.i <= |src| + 2
    decreases |src| + 2 - t.i, 1
  {
    var i, c := t.i, src[t.i];
    if c == 0x20 || c == 0x09 || c == RETURN then t.(i := i + 1)
    else if c == NEWLINE then t.(prev := [NEWLINE], i := i + 1)
    else if AtLineComment(src, i) then
      t.(i := LineEnd(src, i), spans := t.spans + [BlankSpan(src, ToLineEnd, i, LineEnd(src, i))])
    else if AtBlockComment(src, i) then
      t.(i := BlockEnd(src, i), spans := t.spans + [BlankSpan(src, ToBlockEnd, i, BlockEnd(src, i))])
    else if RegexOpens(src, i, t.prev) then
      var next := RegexEnd(src, i + 1, false);
      t.(i := next, prev := [CLOSE_PAREN], spans := t.spans + [BlankSpan(src, Regex, i, next)])
    else if c == SINGLE || c == DOUBLE then
      t.(i := StringEnd(src, i), prev := [CLOSE_PAREN], spans := t.spans + [QuotedSpan(src, i)])
    else if c == BACKTICK then
      var template := TemplateScan(src, i);
      t.(i := template.end, prev := [CLOSE_PAREN], spans := t.spans + template.spans)
    else if c == OPEN_BRACE then t.(depth := t.depth + 1, prev := [c], i := i + 1)
    else if c == CLOSE_BRACE then t.(depth := t.depth - 1, prev := [c], i := i + 1)
    else if IsWord(c) then t.(prev := src[i..WordEnd(src, i + 1)], i := WordEnd(src, i + 1))
    else t.(prev := [c], i := i + 1)
  }

  /** Scans code; inside a template it stops behind the closing brace of the substitution. */
  function CodeScan(src: Text, inTemplate: bool, t: Position): (r: Scan)
    requires t.i <= |src| + 2
    ensures Least(t.i, |src|) <= r.end <= |src|
    decreases |src| + 2 - t.i, 2
  {
    if t.i >= |src| then Scan(|src|, t.spans)
    else if src[t.i] == CLOSE_BRACE && inTemplate && t.depth == 0 then Scan(t.i + 1, t.spans)
    else CodeScan(src, inTemplate, NextTurn(src, t))
  }

  /** The code scan that starts at an index. */
  function CodeFrom(i: nat): Position {
    Position(i, 0, [NEWLINE], [])
  }

  predicate OpensHole(src: Text, i: nat) {
    i + 1 < |src| && src[i] == DOLLAR && src[i + 1] == OPEN_BRACE
  }

  function TextStep(src: Text, i: nat): (next: nat)
    requires i < |src|
    ensures i < next <= |src| + 1
  {
    i + if src[i] == BACKSLASH then 2 else 1
  }

  /** One turn of a template's loop: a substitution, or a character of text with its escape. */
  function NextStitch(src: Text, l: Loom): (r: Loom)
    requires l.i < |src|
    ensures l.i < r.i <= |src| + 1 && r.w.start == l.w.start
    decreases |src| + 2 - l.i, 2
  {
    if OpensHole(src, l.i) then
      var hole := CodeScan(src, true, CodeFrom(l.i + 2));
      Loom(hole.end, CloseHole(l.w, Extent(l.i + 2, hole.end)), l.spans + hole.spans)
    else
      var next := TextStep(src, l.i);
      l.(i := next, w := l.w.(buf := l.w.buf + src[l.i..Least(next, |src|)]))
  }

  /** The loop of a template: to its closing backtick or the end of the text. */
  function TemplateLoop(src: Text, l: Loom): (r: Loom)
    requires l.i <= |src| + 1
    ensures l.i <= r.i <= |src| + 1 && (r.i < |src| ==> src[r.i] == BACKTICK) && r.w.start == l.w.start
    decreases |src| + 2 - l.i, 3
  {
    if l.i >= |src| || src[l.i] == BACKTICK then l else TemplateLoop(src, NextStitch(src, l))
  }

  function CloseHole(w: Weave, hole: Extent): Weave {
    Weave(w.start, w.chunks + [w.buf], [], w.holes + [hole])
  }

  function TemplateFrom(start: nat): Loom {
    Loom(start + 1, Weave(start, [], [], []), [])
  }

  function TemplateSpan(src: Text, l: Loom): Span {
    Span(Extent(l.w.start, Least(l.i + 1, |src|)), l.w.chunks + [l.w.buf], l.w.holes)
  }

  /** A template literal: the tokens of its substitutions, then itself. */
  function TemplateScan(src: Text, start: nat): (r: Scan)
    requires start < |src|
    ensures start < r.end <= |src| + 2
    decreases |src| + 2 - start, 0
  {
    var l := TemplateLoop(src, TemplateFrom(start));
    Scan(l.i + 1, l.spans + [TemplateSpan(src, l)])
  }

  // ---- recorded tokens ----

  lemma {:induction false} AddsAppend(src: Text, a: seq<Span>, b: seq<Span>, start: nat, middle: nat, end: nat)
    requires Adds(src, a, Extent(start, middle)) && Adds(src, b, Extent(middle, end))
    requires start <= middle <= end
    ensures Adds(src, a + b, Extent(start, end))
  {
    forall i, j | 0 <= i < j < |a + b|
      ensures BeforeOrInHole((a + b)[i], (a + b)[j])
    {
      if j < |a| {
        assert BeforeOrInHole(a[i], a[j]);
      } else if i >= |a| {
        assert BeforeOrInHole(b[i - |a|], b[j - |a|]);
      } else {
        assert Within(a[i].extent, Extent(start, middle)) && Within(b[j - |a|].extent, Extent(middle, end));
      }
    }
  }

  ghost predicate Nested(spans: seq<Span>, holes: seq<Extent>) {
    forall a :: 0 <= a < |spans| ==> InSome(spans[a].extent, holes)
  }

  /** The invariant of a template scan up to index `i`. */
  ghost predicate Weaving(src: Text, w: Weave, i: nat, spans: seq<Span>) {
    && w.start < Least(i, |src|)
    && SpelledOut(src, w, Least(i, |src|)) && HolesEnd(src, w.holes)
    && AllFaithful(src, spans) && Laminar(spans) && Nested(spans, w.holes)
  }

  ghost predicate SpelledOut(src: Text, w: Weave, end: nat)
    requires w.start < end <= |src|
  {
    |w.chunks| == |w.holes| && Spelled(src, BACKTICK, w.start, w.chunks + [w.buf], w.holes, end)
  }

  /** A run goes on over one more character or escape. */
  lemma {:induction false} RunOn(src: Text, opener: CodePoint, from: nat, i: nat)
    requires TextRun(src, opener, from, i) && from <= i < |src| && !Interrupts(src, opener, i)
    ensures TextRun(src, opener, from, Least(TextStep(src, i), |src|))
    decreases i - from
  {
    if from < i {
      RunOn(src, opener, Least(TextStep(src, from), |src|), i);
    } else {
      assert TextRun(src, opener, Least(TextStep(src, i), |src|), Least(TextStep(src, i), |src|));
    }
  }

  lemma {:induction false} WeaveStart(src: Text, start: nat)
    requires start < |src|
    ensures Weaving(src, Weave(start, [], [], []), start + 1, [])
  {
    assert ([] + [[]])[0] == src[start + 1..start + 1];
    assert ChunkOk(src, BACKTICK, [], start + 1, start + 1);
  }

  lemma {:induction false} ChunkGrows(src: Text, raw: Text, from: nat, i: nat, to: nat)
    requires ChunkOk(src, BACKTICK, raw, from, i) && i < |src| && !Interrupts(src, BACKTICK, i)
    requires to == Least(TextStep(src, i), |src|)
    ensures ChunkOk(src, BACKTICK, raw + src[i..to], from, to)
  {
    RunOn(src, BACKTICK, from, i);
    assert src[from..to] == src[from..i] + src[i..to];
  }

  lemma {:induction false} WeaveText(src: Text, w: Weave, i: nat, to: nat, next: nat, spans: seq<Span>)
    requires Weaving(src, w, i, spans) && i < |src| && !Interrupts(src, BACKTICK, i)
    requires next == TextStep(src, i) && to == Least(next, |src|)
    ensures Weaving(src, w.(buf := w.buf + src[i..to]), next, spans)
  {
    var n := |w.holes|;
    var all, more := w.chunks + [w.buf], w.chunks + [w.buf + src[i..to]];
    ChunkGrows(src, w.buf, ChunkFrom(w.start, w.holes, n), i, to);
    forall k | 0 <= k < n
      ensures HoleOk(src, BACKTICK, w.start, more[k], w.holes, k) && w.holes[k].end <= to
    {
      HoleAt(src, BACKTICK, w.start, all, w.holes, i, k);
    }
    assert more[n] == w.buf + src[i..to];
    assert Spelled(src, BACKTICK, w.start, more, w.holes, to);
  }

  lemma {:induction false} NestedAppend(spans: seq<Span>, inner: seq<Span>, holes: seq<Extent>, hole: Extent)
    requires Nested(spans, holes)
    requires AllWithin(inner, hole) && Laminar(spans) && Laminar(inner)
    requires forall k :: 0 <= k < |holes| ==> holes[k].end <= hole.start
    ensures Laminar(spans + inner)
    ensures Nested(spans + inner, holes + [hole])
  {
    var all, more := spans + inner, holes + [hole];
    forall a | 0 <= a < |all|
      ensures InSome(all[a].extent, more)
    {
      if a < |spans| {
        var k :| 0 <= k < |holes| && Within(spans[a].extent, holes[k]);
        assert Within(all[a].extent, more[k]);
      } else {
        assert Within(inner[a - |spans|].extent, more[|holes|]);
      }
    }
    forall a, b | 0 <= a < b < |all|
      ensures BeforeOrInHole(all[a], all[b])
    {
      if b < |spans| {
        assert BeforeOrInHole(spans[a], spans[b]);
      } else if a >= |spans| {
        assert BeforeOrInHole(inner[a - |spans|], inner[b - |spans|]);
      } else {
        var k :| 0 <= k < |holes| && Within(spans[a].extent, holes[k]);
        assert Within(inner[b - |spans|].extent, hole);
      }
    }
  }

  lemma {:induction false} FaithfulConcat(src: Text, a: seq<Span>, b: seq<Span>)
    requires AllFaithful(src, a) && AllFaithful(src, b)
    ensures AllFaithful(src, a + b)
  {
  }

  lemma {:induction false} HoleAt(src: Text, opener: CodePoint, start: nat, raws: seq<Text>, holes: seq<Extent>,
                                  end: nat, k: nat)
    requires Spelled(src, opener, start, raws, holes, end) && k < |holes|
    ensures HoleOk(src, opener, start, raws[k], holes, k) && holes[k].end <= end
    ensures start + 2 < holes[k].start <= holes[k].end <= |src| && OpensHole(src, holes[k].start - 2)
  {
  }

  /** A substitution is in place whatever comes behind it. */
  lemma {:induction false} HoleKept(src: Text, opener: CodePoint, start: nat, raw: Text, holes: seq<Extent>,
                                    now: seq<Extent>, k: nat)
    requires k < |holes| && k < |now| && now[k] == holes[k] && (k > 0 ==> now[k - 1] == holes[k - 1])
    requires HoleOk(src, opener, start, raw, holes, k)
    ensures HoleOk(src, opener, start, raw, now, k)
  {
  }

  lemma {:induction false} NewHole(src: Text, start: nat, raw: Text, holes: seq<Extent>, now: seq<Extent>, i: nat,
                                   end: nat)
    requires ChunkOk(src, BACKTICK, raw, ChunkFrom(start, holes, |holes|), i) && start < i && OpensHole(src, i)
    requires i + 2 <= end <= |src| && now == holes + [Extent(i + 2, end)]
    ensures HoleOk(src, BACKTICK, start, raw, now, |holes|)
  {
    assert ChunkFrom(start, now, |holes|) == ChunkFrom(start, holes, |holes|);
  }

  lemma {:induction false} HoleSpelled(src: Text, w: Weave, i: nat, end: nat)
    requires w.start < i < |src| && SpelledOut(src, w, i)
    requires OpensHole(src, i) && i + 2 <= end <= |src|
    ensures SpelledOut(src, CloseHole(w, Extent(i + 2, end)), end)
  {
    var n, now := |w.holes|, w.holes + [Extent(i + 2, end)];
    var raws, more := w.chunks + [w.buf], w.chunks + [w.buf] + [[]];
    forall k | 0 <= k < |now|
      ensures HoleOk(src, BACKTICK, w.start, more[k], now, k) && now[k].end <= end
    {
      if k < n {
        HoleAt(src, BACKTICK, w.start, raws, w.holes, i, k);
        HoleKept(src, BACKTICK, w.start, raws[k], w.holes, now, k);
      } else {
        NewHole(src, w.start, w.buf, w.holes, now, i, end);
      }
    }
    assert ChunkOk(src, BACKTICK, [], end, end) && ChunkFrom(w.start, now, n + 1) == end;
  }

  lemma {:induction false} WeaveHole(src: Text, w: Weave, i: nat, end: nat, spans: seq<Span>, inner: seq<Span>)
    requires Weaving(src, w, i, spans) && i < |src| && OpensHole(src, i)
    requires i + 2 <= end <= |src| && end == CodeScan(src, true, CodeFrom(i + 2)).end
    requires Adds(src, inner, Extent(i + 2, end))
    ensures Weaving(src, CloseHole(w, Extent(i + 2, end)), end, spans + inner)
  {
    HoleSpelled(src, w, i, end);
    forall k | 0 <= k < |w.holes| ensures w.holes[k].end <= i {
      HoleAt(src, BACKTICK, w.start, w.chunks + [w.buf], w.holes, i, k);
    }
    NestedAppend(spans, inner, w.holes, Extent(i + 2, end));
    FaithfulConcat(src, spans, inner);
  }

  lemma {:induction false} TemplateFaithful(src: Text, w: Weave, i: nat, span: Span)
    requires w.start < Least(i, |src|) && SpelledOut(src, w, Least(i, |src|)) && HolesEnd(src, w.holes)
    requires src[w.start] == BACKTICK && (i < |src| ==> src[i] == BACKTICK)
    requires span == Span(Extent(w.start, Least(i + 1, |src|)), w.chunks + [w.buf], w.holes)
    ensures Faithful(src, span)
  {
    var end := Least(i, |src|);
    assert BodyEnds(src, span, end);
    assert Spelled(src, BACKTICK, w.start, span.raws, span.holes, end);
  }

  lemma {:induction false} NestedIsWithin(spans: seq<Span>, holes: seq<Extent>, span: Span)
    requires span.Span? && span.holes == holes && Nested(spans, holes) && Laminar(spans)
    requires forall k :: 0 <= k < |holes| ==> Within(holes[k], span.extent)
    ensures Laminar(spans + [span]) && AllWithin(spans + [span], span.extent)
  {
    var all := spans + [span];
    forall a | 0 <= a < |spans| ensures Within(spans[a].extent, span.extent) {
      var k :| 0 <= k < |holes| && Within(spans[a].extent, holes[k]);
    }
    forall a, b | 0 <= a < b < |all|
      ensures BeforeOrInHole(all[a], all[b])
    {
      if b < |spans| {
        assert BeforeOrInHole(spans[a], spans[b]);
      } else {
        assert InSome(spans[a].extent, span.holes);
      }
    }
  }

  lemma {:induction false} WeaveEnd(src: Text, w: Weave, i: nat, spans: seq<Span>, span: Span)
    requires Weaving(src, w, i, spans)
    requires src[w.start] == BACKTICK && i <= |src| + 1
    requires i < |src| ==> src[i] == BACKTICK
    requires span == Span(Extent(w.start, Least(i + 1, |src|)), w.chunks + [w.buf], w.holes)
    ensures Adds(src, spans + [span], span.extent)
  {
    TemplateFaithful(src, w, i, span);
    FaithfulConcat(src, spans, [span]);
    forall k | 0 <= k < |w.holes| ensures Within(w.holes[k], span.extent) {
      HoleAt(src, BACKTICK, w.start, span.raws, w.holes, Least(i, |src|), k);
    }
    NestedIsWithin(spans, w.holes, span);
  }

  /** A quoted string spells its part of the source. */
  lemma {:induction false} QuotedFaithful(src: Text, i: nat, stop: nat, span: Span)
    requires i < |src| && i < stop && src[i] in {SINGLE, DOUBLE}
    requires stop < |src| ==> src[stop] == src[i] || src[stop] == NEWLINE
    requires TextRun(src, src[i], i + 1, Least(stop, |src|))
    requires span == Span(Extent(i, Least(stop + 1, |src|)), [src[i + 1..Least(stop, |src|)]], [])
    ensures Adds(src, [span], span.extent)
  {
    var end := Least(stop, |src|);
    assert BodyEnds(src, span, end);
    assert ChunkOk(src, src[i], span.raws[0], ChunkFrom(i, span.holes, 0), end);
    assert Spelled(src, src[i], i, span.raws, span.holes, end);
  }

  /** A quoted body is one run. */
  lemma {:induction false} QuotedRuns(src: Text, from: nat, quote: CodePoint)
    requires from <= |src| && quote != BACKTICK
    ensures TextRun(src, quote, from, Least(from + QuotedRun(src[from..], quote), |src|))
    decreases |src| - from
  {
    if from < |src| && src[from] != quote && src[from] != NEWLINE {
      var next := Least(TextStep(src, from), |src|);
      assert src[from..][1..] == src[from + 1..];
      assert from + 2 <= |src| ==> src[from..][2..] == src[from + 2..];
      QuotedRuns(src, next, quote);
      if src[from] == BACKSLASH && from + 1 == |src| {
        assert TextRun(src, quote, |src|, |src|);
      }
    }
  }

  /** Where the scan of a quoted body stops inside the text, there is the quote or the end of the line. */
  lemma {:induction false} QuotedStop(src: Text, i: nat)
    requires i < |src|
    ensures var stop := i + 1 + QuotedRun(src[i + 1..], src[i]);
            stop < |src| ==> src[stop] == src[i] || src[stop] == NEWLINE
  {
    RunStop(src[i + 1..], src[i]);
  }

  lemma {:induction false} RunStop(s: Text, quote: CodePoint)
    ensures var run := QuotedRun(s, quote);
            run < |s| ==> s[run] == quote || s[run] == NEWLINE
  {
    if s != [] && s[0] != quote && s[0] != NEWLINE {
      if s[0] == BACKSLASH {
        if |s| > 1 { RunStop(s[2..], quote); }
      } else {
        RunStop(s[1..], quote);
      }
    }
  }

  /** The body of a quoted string is one run, up to what ends it. */
  lemma {:induction false} QuotedBody(src: Text, i: nat) returns (stop: nat)
    requires i < |src| && src[i] in {SINGLE, DOUBLE}
    ensures stop + 1 == StringEnd(src, i) && i < stop
    ensures stop < |src| ==> src[stop] == src[i] || src[stop] == NEWLINE
    ensures TextRun(src, src[i], i + 1, Least(stop, |src|))
  {
    stop := i + 1 + QuotedRun(src[i + 1..], src[i]);
    QuotedStop(src, i);
    QuotedRuns(src, i + 1, src[i]);
  }

  lemma {:induction false} QuotedSpanAt(src: Text, i: nat, next: nat)
    requires i < |src| && next == StringEnd(src, i)
    ensures QuotedSpan(src, i) == Span(Extent(i, Least(next, |src|)), [src[i + 1..Least(next - 1, |src|)]], [])
  {
  }

  lemma {:induction false} SpanIsFaithful(src: Text, i: nat, span: Span)
    requires i < |src| && src[i] in {SINGLE, DOUBLE} && span == QuotedSpan(src, i)
    ensures Adds(src, [span], span.extent)
  {
    var stop := QuotedBody(src, i);
    QuotedSpanAt(src, i, stop + 1);
    QuotedFaithful(src, i, stop, span);
  }

  /** What a scan adds to the tokens it was given. */
  ghost predicate Continues(src: Text, before: seq<Span>, after: seq<Span>, outer: Extent) {
    |before| <= |after| && after[..|before|] == before && Adds(src, after[|before|..], outer)
  }

  lemma {:induction false} ContinuesTwice(src: Text, a: seq<Span>, b: seq<Span>, c: seq<Span>, start: nat, middle: nat,
                                          end: nat)
    requires Continues(src, a, b, Extent(start, middle)) && Continues(src, b, c, Extent(middle, end))
    requires start <= middle <= end
    ensures Continues(src, a, c, Extent(start, end))
  {
    AddsAppend(src, b[|a|..], c[|b|..], start, middle, end);
    assert c[|a|..] == b[|a|..] + c[|b|..];
    assert c[..|a|] == c[..|b|][..|a|];
  }

  lemma {:induction false} ContinuesWith(src: Text, before: seq<Span>, added: seq<Span>, outer: Extent)
    requires Adds(src, added, outer)
    ensures Continues(src, before, before + added, outer)
  {
    assert (before + added)[|before|..] == added;
  }

  lemma {:induction false} NothingAdded(src: Text, spans: seq<Span>, outer: Extent)
    ensures Continues(src, spans, spans, outer)
  {
  }

  predicate AtBlank(src: Text, t: Position) {
    AtLineComment(src, t.i) || AtBlockComment(src, t.i) || RegexOpens(src, t.i, t.prev)
  }

  /** The blank that opens here. */
  function BlankAt(src: Text, t: Position): Span
    requires AtBlank(src, t)
  {
    if AtLineComment(src, t.i) then BlankSpan(src, ToLineEnd, t.i, LineEnd(src, t.i))
    else if AtBlockComment(src, t.i) then BlankSpan(src, ToBlockEnd, t.i, BlockEnd(src, t.i))
    else BlankSpan(src, Regex, t.i, RegexEnd(src, t.i + 1, false))
  }

  /** What a turn at a blank records, and where it goes on. */
  lemma {:induction false} BlankTurn(src: Text, t: Position)
    requires t.i < |src| && AtBlank(src, t)
    ensures var r := NextTurn(src, t);
            && r.spans == t.spans + [BlankAt(src, t)]
            && BlankAt(src, t).extent == Extent(t.i, Least(r.i, |src|))
            && (if AtLineComment(src, t.i) then r.i == LineEnd(src, t.i) && r.prev == t.prev
                else if AtBlockComment(src, t.i) then r.i == BlockEnd(src, t.i) && r.prev == t.prev
                else r.i == RegexEnd(src, t.i + 1, false) && r.prev == [CLOSE_PAREN])
  {
  }

  /** What a turn at a quote records. */
  lemma {:induction false} QuoteTurn(src: Text, t: Position)
    requires t.i < |src| && IsQuote(src[t.i])
    ensures var r := NextTurn(src, t);
            && r.prev == [CLOSE_PAREN]
            && if src[t.i] == BACKTICK then
                 r.spans == t.spans + TemplateScan(src, t.i).spans && r.i == TemplateScan(src, t.i).end
               else r.spans == t.spans + [QuotedSpan(src, t.i)] && r.i == StringEnd(src, t.i)
  {
  }

  /** Any other turn records nothing. */
  lemma {:induction false} PlainTurn(src: Text, t: Position)
    requires t.i < |src| && !AtBlank(src, t) && !IsQuote(src[t.i])
    ensures var r, c := NextTurn(src, t), src[t.i];
            && r.spans == t.spans && r.i == (if IsWord(c) then WordEnd(src, t.i + 1) else t.i + 1)
            && r.prev == if IsSpace(c) then t.prev else src[t.i..r.i]
  {
    assert !IsWord(src[t.i]) ==> src[t.i..t.i + 1] == [src[t.i]];
  }

  lemma {:induction false} CloseParenOpensNothing()
    ensures !RegexAfter([CLOSE_PAREN])
  {
    assert |Ascii("return")| == 6 && |Ascii("typeof")| == 6 && |Ascii("case")| == 4 && |Ascii("in")| == 2;
    assert |Ascii("of")| == 2 && |Ascii("delete")| == 6 && |Ascii("void")| == 4 && |Ascii("throw")| == 5;
    assert |Ascii("new")| == 3 && |Ascii("yield")| == 5 && |Ascii("await")| == 5;
  }

  /** A regular expression ends behind a slash or with its line. */
  lemma {:induction false} RegexStops(src: Text, j: nat, inClass: bool)
    requires j <= |src| + 1
    ensures var next := RegexEnd(src, j, inClass);
            next <= |src| ==> src[next - 1] == SLASH || src[next - 1] == NEWLINE
    decreases |src| + 1 - j
  {
    if !(j >= |src| || src[j] == NEWLINE || (src[j] == SLASH && !inClass)) {
      RegexStops(src, j + if src[j] == BACKSLASH then 2 else 1,
                 (inClass || src[j] == OPEN_BRACKET) && src[j] != CLOSE_BRACKET);
    }
  }

  lemma {:induction false} WordStops(src: Text, i: nat)
    requires i <= |src|
    ensures WordEnd(src, i) < |src| ==> !IsWord(src[WordEnd(src, i)])
    decreases |src| - i
  {
    if i < |src| && IsWord(src[i]) {
      WordStops(src, i + 1);
    }
  }

  lemma {:induction false} LineStops(src: Text, i: nat)
    requires i < |src| && src[i] != NEWLINE
    ensures LineEnd(src, i) < |src| ==> src[LineEnd(src, i)] == NEWLINE
  {
    FindHits(src[i..], NEWLINE);
  }

  lemma {:induction false} FindHits(s: Text, c: CodePoint)
    ensures IndexOf(s, c) >= 0 ==> IndexOf(s, c) < |s| && s[IndexOf(s, c)] == c
  {
    if s != [] && s[0] != c {
      FindHits(s[1..], c);
    }
  }

  lemma {:induction false} BlockStops(src: Text, i: nat)
    requires i + 1 < |src|
    ensures BlockEnd(src, i) < |src| ==> src[BlockEnd(src, i) - 1] == SLASH
  {
    if i + 2 <= |src| {
      PairHits(src[i + 2..], STAR, SLASH);
    }
  }

  lemma {:induction false} PairHits(s: Text, a: CodePoint, b: CodePoint)
    ensures IndexOfPair(s, a, b) >= 0 ==> IndexOfPair(s, a, b) < |s| - 1 && s[IndexOfPair(s, a, b) + 1] == b
  {
    if |s| >= 2 && !(s[0] == a && s[1] == b) {
      PairHits(s[1..], a, b);
    }
  }

  lemma {:induction false} StringStops(src: Text, i: nat)
    requires i < |src| && src[i] in {SINGLE, DOUBLE}
    ensures StringEnd(src, i) < |src| ==> !IsWord(src[StringEnd(src, i) - 1])
  {
    QuotedStop(src, i);
  }

  lemma {:induction false} TemplateStops(src: Text, start: nat)
    requires start < |src|
    ensures TemplateScan(src, start).end < |src| ==> src[TemplateScan(src, start).end - 1] == BACKTICK
  {
  }

  /** Behind every kind of turn the loop stands at the edge of a word. */
  lemma {:induction false} TurnEndsAtEdge(src: Text, t: Position)
    requires t.i < |src|
    ensures Edge(src, NextTurn(src, t).i)
  {
    if AtBlank(src, t) {
      BlankTurn(src, t);
      BlankEndsAtEdge(src, t.i);
    } else if IsQuote(src[t.i]) {
      QuoteTurn(src, t);
      if src[t.i] == BACKTICK { TemplateStops(src, t.i); } else { StringStops(src, t.i); }
    } else {
      PlainTurn(src, t);
      if IsWord(src[t.i]) { WordStops(src, t.i + 1); }
    }
  }

  lemma {:induction false} BlankEndsAtEdge(src: Text, i: nat)
    requires i < |src|
    ensures AtLineComment(src, i) ==> Edge(src, LineEnd(src, i))
    ensures AtBlockComment(src, i) ==> Edge(src, BlockEnd(src, i))
    ensures Edge(src, RegexEnd(src, i + 1, false))
  {
    if AtLineComment(src, i) {
      LineStops(src, i);
    }
    if AtBlockComment(src, i) {
      BlockStops(src, i);
    }
    RegexStops(src, i + 1, false);
  }

  lemma {:induction false} TurnStaysSound(src: Text, t: Position)
    requires t.i < |src| && Sound(src, t)
    ensures Sound(src, NextTurn(src, t))
  {
    var i, c, r := t.i, src[t.i], NextTurn(src, t);
    TurnEndsAtEdge(src, t);
    CloseParenOpensNothing();
    if AtBlank(src, t) { BlankTurn(src, t); } else if IsQuote(c) { QuoteTurn(src, t); } else { PlainTurn(src, t); }
    if r.i < |src| && RegexAfter(r.prev) {
      if AtLineComment(src, i) || AtBlockComment(src, i) || IsSpace(c) {
        assert Skips(src, r.i, r.i);
        assert Skips(src, i, r.i);
        ContextGoesOn(src, i, r.i);
      } else {
        ContextBehind(src, i, r.i);
      }
    }
  }

  /** Code starts at the beginning of the text or behind the opening of a substitution. */
  lemma {:induction false} StartIsSound(src: Text, i: nat)
    requires i == 0 || (2 <= i <= |src| && OpensHole(src, i - 2))
    ensures Sound(src, CodeFrom(i))
  {
    assert Skips(src, i, i);
    if i > 0 {
      assert src[i - 1..i] == [OPEN_BRACE];
      ContextBehind(src, i - 1, i);
    }
  }

  lemma {:induction false} BlankIsTrue(src: Text, t: Position)
    requires t.i < |src| && Sound(src, t) && AtBlank(src, t)
    ensures Adds(src, [BlankAt(src, t)], BlankAt(src, t).extent)
  {
  }

  /** One turn records only tokens and blanks of the stretch it passes. */
  lemma {:induction false} TurnAdds(src: Text, t: Position)
    requires t.i < |src| && Sound(src, t)
    ensures var r := NextTurn(src, t);
            Continues(src, t.spans, r.spans, Extent(t.i, Least(r.i, |src|)))
    decreases |src| + 2 - t.i, 1
  {
    var i, c := t.i, src[t.i];
    if AtBlank(src, t) {
      BlankTurn(src, t);
      BlankIsTrue(src, t);
      ContinuesWith(src, t.spans, [BlankAt(src, t)], BlankAt(src, t).extent);
    } else if c == BACKTICK {
      QuoteTurn(src, t);
      TemplateAdds(src, i);
      ContinuesWith(src, t.spans, TemplateScan(src, i).spans, Extent(i, Least(TemplateScan(src, i).end, |src|)));
    } else if IsQuote(c) {
      QuoteTurn(src, t);
      SpanIsFaithful(src, i, QuotedSpan(src, i));
      ContinuesWith(src, t.spans, [QuotedSpan(src, i)], QuotedSpan(src, i).extent);
    } else {
      PlainTurn(src, t);
      NothingAdded(src, t.spans, Extent(i, Least(NextTurn(src, t).i, |src|)));
    }
  }

  /**
   A code scan records, inside the stretch it scans, tokens and blanks that are disjoint or nested in
   substitutions of an enclosing template. Each token spells exactly its part of the source; each blank is a
   comment, or a regular expression behind a mark or word that lets one open.
   */
  lemma {:induction false} CodeAdds(src: Text, inTemplate: bool, t: Position)
    requires t.i <= |src| + 2 && Sound(src, t)
    ensures var r := CodeScan(src, inTemplate, t);
            Continues(src, t.spans, r.spans, Extent(Least(t.i, |src|), r.end))
    decreases |src| + 2 - t.i, 2
  {
    if t.i < |src| && !(src[t.i] == CLOSE_BRACE && inTemplate && t.depth == 0) {
      var next := NextTurn(src, t);
      TurnAdds(src, t);
      TurnStaysSound(src, t);
      CodeAdds(src, inTemplate, next);
      ContinuesTwice(src, t.spans, next.spans, CodeScan(src, inTemplate, next).spans, t.i, Least(next.i, |src|),
                     CodeScan(src, inTemplate, next).end);
    }
  }

  /** What a substitution's scan adds. */
  lemma {:induction false} HoleAdds(src: Text, i: nat) returns (hole: Scan)
    requires i < |src| && OpensHole(src, i)
    ensures hole == CodeScan(src, true, CodeFrom(i + 2)) && i + 2 <= hole.end <= |src|
    ensures Adds(src, hole.spans, Extent(i + 2, hole.end))
    decreases |src| + 2 - i, 0
  {
    hole := CodeScan(src, true, CodeFrom(i + 2));
    StartIsSound(src, i + 2);
    CodeAdds(src, true, CodeFrom(i + 2));
    assert hole.spans[0..] == hole.spans;
  }

  lemma {:induction false} HoleStitch(src: Text, l: Loom, hole: Scan)
    requires l.i < |src| && OpensHole(src, l.i) && hole == CodeScan(src, true, CodeFrom(l.i + 2))
    ensures NextStitch(src, l) == Loom(hole.end, CloseHole(l.w, Extent(l.i + 2, hole.end)), l.spans + hole.spans)
  {
  }

  lemma {:induction false} TextStitch(src: Text, l: Loom)
    requires l.i < |src| && !OpensHole(src, l.i)
    ensures var next := TextStep(src, l.i);
            NextStitch(src, l) == l.(i := next, w := l.w.(buf := l.w.buf + src[l.i..Least(next, |src|)]))
  {
  }

  lemma {:induction false} HoleWeaves(src: Text, l: Loom, r: Loom)
    requires l.i < |src| && OpensHole(src, l.i) && Weaving(src, l.w, l.i, l.spans) && r == NextStitch(src, l)
    ensures Weaving(src, r.w, r.i, r.spans)
    decreases |src| + 2 - l.i, 1
  {
    var hole := HoleAdds(src, l.i);
    HoleStitch(src, l, hole);
    WeaveHole(src, l.w, l.i, hole.end, l.spans, hole.spans);
  }

  lemma {:induction false} TextWeaves(src: Text, l: Loom, r: Loom)
    requires l.i < |src| && src[l.i] != BACKTICK && !OpensHole(src, l.i)
    requires Weaving(src, l.w, l.i, l.spans) && r == NextStitch(src, l)
    ensures Weaving(src, r.w, r.i, r.spans)
  {
    TextStitch(src, l);
    WeaveText(src, l.w, l.i, Least(TextStep(src, l.i), |src|), TextStep(src, l.i), l.spans);
  }

  lemma {:induction false} StitchWeaves(src: Text, l: Loom, r: Loom)
    requires l.i < |src| && src[l.i] != BACKTICK && Weaving(src, l.w, l.i, l.spans) && r == NextStitch(src, l)
    ensures Weaving(src, r.w, r.i, r.spans)
    decreases |src| + 2 - l.i, 2
  {
    if OpensHole(src, l.i) {
      HoleWeaves(src, l, r);
    } else {
      TextWeaves(src, l, r);
    }
  }

  lemma {:induction false} LoopWeaves(src: Text, l: Loom)
    requires l.i <= |src| + 1 && Weaving(src, l.w, l.i, l.spans)
    ensures var r := TemplateLoop(src, l);
            Weaving(src, r.w, r.i, r.spans)
    decreases |src| + 2 - l.i, 3
  {
    if l.i < |src| && src[l.i] != BACKTICK {
      StitchWeaves(src, l, NextStitch(src, l));
      LoopWeaves(src, NextStitch(src, l));
    }
  }

  lemma {:induction false} TemplateAdds(src: Text, start: nat)
    requires start < |src| && src[start] == BACKTICK
    ensures var r := TemplateScan(src, start);
            Adds(src, r.spans, Extent(start, Least(r.end, |src|)))
    decreases |src| + 2 - start, 0
  {
    WeaveStart(src, start);
    LoopWeaves(src, TemplateFrom(start));
    var l := TemplateLoop(src, TemplateFrom(start));
    WeaveEnd(src, l.w, l.i, l.spans, TemplateSpan(src, l));
  }

  // ---- what a listed span is, exactly ----

  /** The chunks and substitutions of a template put together again, each substitution after its `${`. */
  function Woven(src: Text, raws: seq<Text>, holes: seq<Extent>): Text
    requires |raws| == |holes| + 1
    requires forall k :: 0 <= k < |holes| ==> holes[k].start <= holes[k].end <= |src|
  {
    if holes == [] then raws[0]
    else
      var n := |holes| - 1;
      Woven(src, raws[..n + 1], holes[..n]) + [DOLLAR, OPEN_BRACE] + src[holes[n].start..holes[n].end] + raws[n + 1]
  }

  lemma {:induction false} SliceAtHole(src: Text, from: nat, hole: Extent, end: nat)
    requires from + 2 <= hole.start <= hole.end <= end <= |src| && OpensHole(src, hole.start - 2)
    ensures src[from..end] ==
            src[from..hole.start - 2] + [DOLLAR, OPEN_BRACE] + src[hole.start..hole.end] + src[hole.end..end]
  {
    assert src[hole.start - 2..hole.start] == [DOLLAR, OPEN_BRACE];
    assert src[from..end] == src[from..hole.start - 2] + src[hole.start - 2..end];
    assert src[hole.start - 2..end] == src[hole.start - 2..hole.start] + src[hole.start..end];
    assert src[hole.start..end] == src[hole.start..hole.end] + src[hole.end..end];
  }

  lemma {:induction false} HolesInOrder(src: Text, opener: CodePoint, start: nat, raws: seq<Text>, holes: seq<Extent>,
                                        end: nat, k: nat, n: nat)
    requires Spelled(src, opener, start, raws, holes, end) && k < n < |holes|
    ensures holes[k].end <= holes[n].start - 2
    decreases n
  {
    HoleAt(src, opener, start, raws, holes, end, n);
    if k < n - 1 {
      HolesInOrder(src, opener, start, raws, holes, end, k, n - 1);
      HoleAt(src, opener, start, raws, holes, end, n - 1);
    }
  }

  lemma {:induction false} ShorterSpelled(src: Text, opener: CodePoint, start: nat, raws: seq<Text>, holes: seq<Extent>,
                                          end: nat, raws': seq<Text>, holes': seq<Extent>, end': nat)
    requires Spelled(src, opener, start, raws, holes, end) && holes != []
    requires holes' == holes[..|holes| - 1] && raws' == raws[..|holes|] && end' == holes[|holes| - 1].start - 2
    ensures Spelled(src, opener, start, raws', holes', end')
  {
    var n := |holes| - 1;
    forall k | 0 <= k < n ensures HoleOk(src, opener, start, raws'[k], holes', k) && holes'[k].end <= end' {
      HoleAt(src, opener, start, raws, holes, end, k);
      HoleKept(src, opener, start, raws[k], holes, holes', k);
      HolesInOrder(src, opener, start, raws, holes, end, k, n);
    }
    HoleAt(src, opener, start, raws, holes, end, n);
  }

  /** The chunks and substitutions of a spelled token, put together again, are its source. */
  lemma {:induction false} SpelledWeaves(src: Text, opener: CodePoint, start: nat, raws: seq<Text>, holes: seq<Extent>,
                                         end: nat)
    requires Spelled(src, opener, start, raws, holes, end)
    ensures forall k :: 0 <= k < |holes| ==> holes[k].start <= holes[k].end <= |src|
    ensures start < end <= |src| && src[start + 1..end] == Woven(src, raws, holes)
    decreases |holes|
  {
    forall k | 0 <= k < |holes| ensures holes[k].start <= holes[k].end <= |src| {
      HoleAt(src, opener, start, raws, holes, end, k);
    }
    if holes != [] {
      var n := |holes| - 1;
      HoleAt(src, opener, start, raws, holes, end, n);
      ShorterSpelled(src, opener, start, raws, holes, end, raws[..n + 1], holes[..n], holes[n].start - 2);
      SpelledWeaves(src, opener, start, raws[..n + 1], holes[..n], holes[n].start - 2);
      SliceAtHole(src, start + 1, holes[n], end);
      LastChunk(src, opener, start, raws, holes, end);
      WovenLast(src, raws, holes);
    }
  }

  lemma {:induction false} WovenLast(src: Text, raws: seq<Text>, holes: seq<Extent>)
    requires |raws| == |holes| + 1 && holes != []
    requires forall k :: 0 <= k < |holes| ==> holes[k].start <= holes[k].end <= |src|
    ensures var n := |holes| - 1;
            Woven(src, raws, holes) == Woven(src, raws[..n + 1], holes[..n])
              + [DOLLAR, OPEN_BRACE] + src[holes[n].start..holes[n].end] + raws[n + 1]
  {
  }

  lemma {:induction false} LastChunk(src: Text, opener: CodePoint, start: nat, raws: seq<Text>, holes: seq<Extent>,
                                     end: nat)
    requires Spelled(src, opener, start, raws, holes, end) && holes != []
    ensures holes[|holes| - 1].end <= end <= |src| && raws[|holes|] == src[holes[|holes| - 1].end..end]
  {
    assert ChunkOk(src, opener, raws[|holes|], ChunkFrom(start, holes, |holes|), end);
  }

  /** Two runs from one index that are interrupted, or end with the text, end at the same index. */
  lemma {:induction false} RunsEndTogether(src: Text, opener: CodePoint, from: nat, a: nat, b: nat)
    requires from <= a <= |src| && from <= b <= |src|
    requires TextRun(src, opener, from, a) && TextRun(src, opener, from, b)
    requires a < |src| ==> Interrupts(src, opener, a)
    requires b < |src| ==> Interrupts(src, opener, b)
    ensures a == b
    decreases a - from
  {
    if from < a && from < b {
      RunsEndTogether(src, opener, Least(TextStep(src, from), |src|), a, b);
    }
  }

  /** Substitutions that begin together end together. */
  ghost predicate Together(holes: seq<Extent>, holes': seq<Extent>) {
    forall i, j :: 0 <= i < |holes| && 0 <= j < |holes'| && holes[i].start == holes'[j].start ==>
      holes[i].end == holes'[j].end
  }

  lemma {:induction false} ScansEndTogether(src: Text, holes: seq<Extent>, holes': seq<Extent>)
    requires HolesEnd(src, holes) && HolesEnd(src, holes')
    ensures Together(holes, holes')
  {
    forall i, j | 0 <= i < |holes| && 0 <= j < |holes'| && holes[i].start == holes'[j].start
      ensures holes[i].end == holes'[j].end
    {
      assert HoleEnds(src, holes[i]) && HoleEnds(src, holes'[j]);
    }
  }

  lemma {:induction false} SameHole(src: Text, from: nat, raw: Text, hole: Extent, raw': Text, hole': Extent)
    requires 2 <= hole.start && 2 <= hole'.start && (hole.start == hole'.start ==> hole.end == hole'.end)
    requires ChunkOk(src, BACKTICK, raw, from, hole.start - 2) && OpensHole(src, hole.start - 2)
    requires ChunkOk(src, BACKTICK, raw', from, hole'.start - 2) && OpensHole(src, hole'.start - 2)
    ensures hole == hole' && raw == raw'
  {
    RunsEndTogether(src, BACKTICK, from, hole.start - 2, hole'.start - 2);
  }

  lemma {:induction false} SameHoleAt(src: Text, start: nat, raws: seq<Text>, holes: seq<Extent>, end: nat,
                                      raws': seq<Text>, holes': seq<Extent>, end': nat, k: nat)
    requires Together(holes, holes') && k < |holes| && k < |holes'|
    requires Spelled(src, BACKTICK, start, raws, holes, end) && Spelled(src, BACKTICK, start, raws', holes', end')
    requires ChunkFrom(start, holes, k) == ChunkFrom(start, holes', k)
    ensures holes[k] == holes'[k] && raws[k] == raws'[k]
  {
    HoleAt(src, BACKTICK, start, raws, holes, end, k);
    HoleAt(src, BACKTICK, start, raws', holes', end', k);
    SameHole(src, ChunkFrom(start, holes, k), raws[k], holes[k], raws'[k], holes'[k]);
  }

  lemma {:induction false} PrefixGrows<T>(a: seq<T>, b: seq<T>, k: nat)
    requires 0 < k <= |a| && k <= |b| && a[..k - 1] == b[..k - 1] && a[k - 1] == b[k - 1]
    ensures a[..k] == b[..k]
  {
    assert a[..k] == a[..k - 1] + [a[k - 1]] && b[..k] == b[..k - 1] + [b[k - 1]];
  }

  /** As far as both go, two spellings from one start have the same chunks and substitutions. */
  lemma {:induction false} SameHoles(src: Text, opener: CodePoint, start: nat, raws: seq<Text>, holes: seq<Extent>,
                                     end: nat, raws': seq<Text>, holes': seq<Extent>, end': nat, k: nat)
    requires opener == BACKTICK && Together(holes, holes')
    requires Spelled(src, opener, start, raws, holes, end) && Spelled(src, opener, start, raws', holes', end')
    requires k <= |holes| && k <= |holes'|
    ensures holes[..k] == holes'[..k] && raws[..k] == raws'[..k]
    ensures ChunkFrom(start, holes, k) == ChunkFrom(start, holes', k)
  {
    if k > 0 {
      SameHoles(src, opener, start, raws, holes, end, raws', holes', end', k - 1);
      SameHoleAt(src, start, raws, holes, end, raws', holes', end', k - 1);
      PrefixGrows(holes, holes', k);
      PrefixGrows(raws, raws', k);
    }
  }

  /** One spelling cannot go on where the other ends. */
  lemma {:induction false} NoMoreHoles(src: Text, start: nat, raws: seq<Text>, holes: seq<Extent>, end: nat,
                                       raws': seq<Text>, holes': seq<Extent>, end': nat)
    requires Together(holes, holes')
    requires Spelled(src, BACKTICK, start, raws, holes, end) && Spelled(src, BACKTICK, start, raws', holes', end')
    requires Ended(src, BACKTICK, end)
    ensures |holes| >= |holes'|
  {
    var k := |holes|;
    if k < |holes'| {
      SameHoles(src, BACKTICK, start, raws, holes, end, raws', holes', end', k);
      HoleAt(src, BACKTICK, start, raws', holes', end', k);
      RunsEndTogether(src, BACKTICK, ChunkFrom(start, holes, k), end, holes'[k].start - 2);
    }
  }

  lemma {:induction false} OneSpelling(src: Text, opener: CodePoint, start: nat, raws: seq<Text>, holes: seq<Extent>,
                                       end: nat, raws': seq<Text>, holes': seq<Extent>, end': nat)
    requires HolesEnd(src, holes) && HolesEnd(src, holes')
    requires opener != BACKTICK ==> holes == [] && holes' == []
    requires Spelled(src, opener, start, raws, holes, end) && Spelled(src, opener, start, raws', holes', end')
    requires Ended(src, opener, end) && Ended(src, opener, end')
    ensures raws == raws' && holes == holes' && end == end'
  {
    if opener == BACKTICK {
      ScansEndTogether(src, holes, holes');
      NoMoreHoles(src, start, raws, holes, end, raws', holes', end');
      NoMoreHoles(src, start, raws', holes', end', raws, holes, end);
      SameHoles(src, opener, start, raws, holes, end, raws', holes', end', |holes|);
    }
    var n := |holes|;
    RunsEndTogether(src, opener, ChunkFrom(start, holes, n), end, end');
    assert holes == holes[..n] && holes' == holes'[..n];
    assert raws == raws[..n] + [raws[n]] && raws' == raws'[..n] + [raws'[n]];
  }

  /** A listed token or blank is determined by where it begins: its end, its chunks and its substitutions. */
  lemma {:induction false} FaithfulIsUnique(src: Text, a: Span, b: Span)
    requires Faithful(src, a) && Faithful(src, b) && a.extent.start == b.extent.start
    ensures a == b
  {
    if a.Span? && b.Span? {
      var start := a.extent.start;
      var end: nat :| BodyEnds(src, a, end) && Spelled(src, src[start], start, a.raws, a.holes, end);
      var end': nat :| BodyEnds(src, b, end') && Spelled(src, src[start], start, b.raws, b.holes, end');
      OneSpelling(src, src[start], start, a.raws, a.holes, end, b.raws, b.holes, end');
    }
  }

  // ---- nothing is missed ----

  ghost predicate InHole(holes: seq<Extent>, p: nat) {
    exists k :: 0 <= k < |holes| && holes[k].start <= p < holes[k].end
  }

  /** The index lies in a blank, or in a token outside its substitutions. */
  ghost predicate Holds(span: Span, p: nat) {
    span.extent.start <= p < span.extent.end && (span.Span? ==> !InHole(span.holes, p))
  }

  ghost predicate Accounted(spans: seq<Span>, p: nat) {
    exists k :: 0 <= k < |spans| && Holds(spans[k], p)
  }

  lemma {:induction false} AccountedConcat(a: seq<Span>, b: seq<Span>, p: nat)
    requires Accounted(a, p) || Accounted(b, p)
    ensures Accounted(a + b, p)
  {
    if Accounted(a, p) {
      var k :| 0 <= k < |a| && Holds(a[k], p);
      assert Holds((a + b)[k], p);
    } else {
      var k :| 0 <= k < |b| && Holds(b[k], p);
      assert Holds((a + b)[|a| + k], p);
    }
  }

  lemma {:induction false} TurnExtends(src: Text, t: Position)
    requires t.i < |src|
    ensures var spans := NextTurn(src, t).spans;
            |t.spans| <= |spans| && spans[..|t.spans|] == t.spans
  {
    if AtBlank(src, t) {
      BlankTurn(src, t);
    } else if IsQuote(src[t.i]) {
      QuoteTurn(src, t);
    } else {
      PlainTurn(src, t);
    }
  }

  /** A scan keeps what was recorded before. */
  lemma {:induction false} CodeExtends(src: Text, inTemplate: bool, t: Position)
    requires t.i <= |src| + 2
    ensures var spans := CodeScan(src, inTemplate, t).spans;
            |t.spans| <= |spans| && spans[..|t.spans|] == t.spans
    decreases |src| + 2 - t.i
  {
    if t.i < |src| && !(src[t.i] == CLOSE_BRACE && inTemplate && t.depth == 0) {
      var next := NextTurn(src, t);
      var spans := CodeScan(src, inTemplate, next).spans;
      TurnExtends(src, t);
      CodeExtends(src, inTemplate, next);
      assert spans[..|t.spans|] == spans[..|next.spans|][..|t.spans|];
    }
  }

  lemma {:induction false} NoQuoteInWord(src: Text, i: nat, p: nat)
    requires i < |src| && !IsQuote(src[i]) && i <= p < (if IsWord(src[i]) then WordEnd(src, i + 1) else i + 1)
    ensures !IsQuote(src[p])
  {
  }

  lemma {:induction false} TurnAccounts(src: Text, t: Position, p: nat)
    requires t.i < |src| && t.i <= p < Least(NextTurn(src, t).i, |src|) && IsQuote(src[p])
    ensures Accounted(NextTurn(src, t).spans, p)
    decreases |src| + 2 - t.i, 1
  {
    var i, c, r := t.i, src[t.i], NextTurn(src, t);
    if AtBlank(src, t) {
      BlankTurn(src, t);
      assert Holds(r.spans[|t.spans|], p);
    } else if c == BACKTICK {
      QuoteTurn(src, t);
      TemplateAccounts(src, i, p);
      AccountedConcat(t.spans, TemplateScan(src, i).spans, p);
    } else if IsQuote(c) {
      QuoteTurn(src, t);
      assert Holds(r.spans[|t.spans|], p);
    } else {
      PlainTurn(src, t);
      NoQuoteInWord(src, i, p);
    }
  }

  /**
   Every quote character of scanned code lies in a recorded token outside its substitutions, or in a
   recorded comment or regular expression.
   */
  lemma {:induction false} NoStringMissed(src: Text, inTemplate: bool, t: Position, p: nat)
    requires t.i <= |src| + 2 && t.i <= p < CodeScan(src, inTemplate, t).end && IsQuote(src[p])
    ensures Accounted(CodeScan(src, inTemplate, t).spans, p)
    decreases |src| + 2 - t.i, 2
  {
    if t.i < |src| && !(src[t.i] == CLOSE_BRACE && inTemplate && t.depth == 0) {
      var next := NextTurn(src, t);
      if p < next.i {
        TurnAccounts(src, t, p);
        var spans := CodeScan(src, inTemplate, next).spans;
        CodeExtends(src, inTemplate, next);
        AccountedConcat(next.spans, spans[|next.spans|..], p);
        assert next.spans + spans[|next.spans|..] == spans;
      } else {
        NoStringMissed(src, inTemplate, next, p);
      }
    }
  }

  /** What the template loop keeps: a quote in a finished substitution is accounted for. */
  lemma {:induction false} LoopAccounts(src: Text, l: Loom, p: nat)
    requires l.i <= |src| + 1 && p < |src| && IsQuote(src[p])
    requires InHole(l.w.holes, p) ==> Accounted(l.spans, p)
    ensures var r := TemplateLoop(src, l);
            InHole(r.w.holes, p) ==> Accounted(r.spans, p)
    decreases |src| + 2 - l.i, 3
  {
    if l.i < |src| && src[l.i] != BACKTICK {
      StitchAccounts(src, l, p);
      LoopAccounts(src, NextStitch(src, l), p);
    }
  }

  lemma {:induction false} StitchAccounts(src: Text, l: Loom, p: nat)
    requires l.i < |src| && p < |src| && IsQuote(src[p])
    requires InHole(l.w.holes, p) ==> Accounted(l.spans, p)
    ensures InHole(NextStitch(src, l).w.holes, p) ==> Accounted(NextStitch(src, l).spans, p)
    decreases |src| + 2 - l.i, 2
  {
    if OpensHole(src, l.i) {
      var hole := CodeScan(src, true, CodeFrom(l.i + 2));
      var all := l.w.holes + [Extent(l.i + 2, hole.end)];
      if InHole(all, p) {
        var k :| 0 <= k < |all| && all[k].start <= p < all[k].end;
        if k < |l.w.holes| {
          assert InHole(l.w.holes, p);
        } else {
          NoStringMissed(src, true, CodeFrom(l.i + 2), p);
        }
        AccountedConcat(l.spans, hole.spans, p);
      }
    }
  }

  lemma {:induction false} TemplateAccounts(src: Text, start: nat, p: nat)
    requires start < |src| && start <= p < Least(TemplateScan(src, start).end, |src|) && IsQuote(src[p])
    ensures Accounted(TemplateScan(src, start).spans, p)
    decreases |src| + 2 - start, 0
  {
    var l := TemplateLoop(src, TemplateFrom(start));
    LoopAccounts(src, TemplateFrom(start), p);
    if !InHole(l.w.holes, p) {
      assert Holds([TemplateSpan(src, l)][0], p);
    }
    AccountedConcat(l.spans, [TemplateSpan(src, l)], p);
  }
}
