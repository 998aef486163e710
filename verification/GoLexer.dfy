/**
 The lexer for Go sources: comments and rune literals are skipped, raw and interpreted strings are
 the literals. `Lex` is the lexer as a recursion over the remaining text; the method is the scan.
 */
module GoLexer {
  import opened Wrappers
  import opened TextEscapes

  /** One string token: where it starts, its chunks between substitutions, and whether it had none. */
  datatype Literal = Literal(offset: nat, chunks: seq<Text>, whole: bool)

  // ---- searching ----

  /** `s.find(c)`. */
  function IndexOf(s: Text, c: CodePoint): (k: int)
    ensures -1 <= k < |s|
    ensures k >= 0 ==> s[k] == c
  {
    if s == [] then -1
    else if s[0] == c then 0
    else
      var k := IndexOf(s[1..], c);
      if k < 0 then -1 else k + 1
  }

  /** `s.find(ab)` for a two-character pattern. */
  function IndexOfPair(s: Text, a: CodePoint, b: CodePoint): (k: int)
    ensures -1 <= k && (k >= 0 ==> k + 1 < |s| && s[k] == a && s[k + 1] == b)
  {
    if |s| < 2 then -1
    else if s[0] == a && s[1] == b then 0
    else
      var k := IndexOfPair(s[1..], a, b);
      if k < 0 then -1 else k + 1
  }

  /** `src.find(c, from)`. */
  function Find(src: Text, c: CodePoint, from: nat): (k: int)
    requires from <= |src|
    ensures k == -1 || from <= k < |src|
  {
    var k := IndexOf(src[from..], c);
    if k < 0 then -1 else from + k
  }

  function FindPair(src: Text, a: CodePoint, b: CodePoint, from: nat): (k: int)
    requires from <= |src|
    ensures k == -1 || from <= k < |src| - 1
  {
    var k := IndexOfPair(src[from..], a, b);
    if k < 0 then -1 else from + k
  }

  /** `find(...) % (n + 1)`: a failed search wraps round to the end of the text. */
  function Wrapped(k: int, n: nat): (r: nat)
    requires -1 <= k < n
    ensures r == if k < 0 then n else k
  {
    WrapsToEnd(k, n);
    k % (n + 1)
  }

  lemma {:induction false} WrapsToEnd(k: int, n: nat)
    requires -1 <= k < n
    ensures k % (n + 1) == if k < 0 then n else k
  {
    if k < 0 { assert -1 == -1 * (n + 1) + n; }
  }

  predicate StartsWith(s: Text, a: CodePoint, b: CodePoint) {
    |s| >= 2 && s[0] == a && s[1] == b
  }

  // ---- quoted strings ----

  /** How far the scan of a quoted body goes; a backslash at the very end overruns by one. */
  function QuotedRun(s: Text, quote: CodePoint): (n: nat)
    ensures n <= |s| + 1
    decreases |s|
  {
    if s == [] || s[0] == quote || s[0] == NEWLINE then 0
    else if s[0] == BACKSLASH then if |s| == 1 then 2 else 2 + QuotedRun(s[2..], quote)
    else 1 + QuotedRun(s[1..], quote)
  }

  function Clamp(n: nat, s: Text): (m: nat)
    ensures m <= |s| && m <= n
  {
    if n <= |s| then n else |s|
  }

  /** The value of the string opening at `i` and the index after it; ends at the line. */
  method Quoted(src: Text, i: nat) returns (text: Text, next: nat)
    requires i < |src|
    ensures var run := QuotedRun(src[i + 1..], src[i]);
            next == i + run + 2 && text == Unescape(src[i + 1..][..Clamp(run, src[i + 1..])])
  {
    var quote, start, j := src[i], i + 1, i + 1;
    while j < |src| && src[j] != quote && src[j] != NEWLINE
      invariant start <= j <= |src| + 1
      invariant j - start + QuotedRun(if j <= |src| then src[j..] else [], quote) == QuotedRun(src[start..], quote)
      decreases |src| + 1 - j
    {
      assert src[j] == BACKSLASH && j + 1 < |src| ==> src[j..][2..] == src[j + 2..];
      assert src[j..][1..] == src[j + 1..];
      j := j + if src[j] == BACKSLASH then 2 else 1;
    }
    var end := if j <= |src| then j else |src|;
    assert src[start..end] == src[start..][..Clamp(j - start, src[start..])];
    text := Unescape(src[start..end]);
    next := j + 1;
  }

  // ---- the lexer ----

  /** What is left after `n` characters; an overrunning index leaves nothing. */
  function Drop(s: Text, n: nat): Text {
    if n <= |s| then s[n..] else []
  }

  /** The body of a string token as written; an escaped one is decoded when it is yielded. */
  datatype Body = Verbatim(text: Text) | Escaped(text: Text)

  type Positive = n: nat | n > 0 witness 1

  /** One turn of the scan: how far it moves, and the string body it passes, if any. */
  datatype Token = Token(length: Positive, bodies: seq<Body>)

  function SkipLine(s: Text): (t: Token)
    requires StartsWith(s, SLASH, SLASH)
    ensures t.length <= |s|
  {
    var k := IndexOf(s, NEWLINE);
    Token(if k < 0 then |s| else k, [])
  }

  function SkipBlock(s: Text): (t: Token)
    requires StartsWith(s, SLASH, STAR)
    ensures t.length <= |s|
  {
    var k := IndexOfPair(s[2..], STAR, SLASH);
    Token(if k < 0 then |s| else k + 4, [])
  }

  function RawToken(s: Text): (t: Token)
    requires s != []
  {
    var k := IndexOf(s[1..], BACKTICK);
    var end := if k < 0 then |s| else k + 1;
    Token(end + 1, [Verbatim(s[1..end])])
  }

  function QuotedToken(s: Text): (t: Token)
    requires s != []
  {
    var run := QuotedRun(s[1..], s[0]);
    Token(run + 2, if s[0] == DOUBLE then [Escaped(s[1..][..Clamp(run, s[1..])])] else [])
  }

  function NextToken(s: Text): Token {
    if s == [] then Token(1, [])
    else if StartsWith(s, SLASH, SLASH) then SkipLine(s)
    else if StartsWith(s, SLASH, STAR) then SkipBlock(s)
    else if s[0] == BACKTICK then RawToken(s)
    else if s[0] == DOUBLE || s[0] == SINGLE then QuotedToken(s)
    else Token(1, [])
  }

  datatype Placed = Placed(offset: nat, body: Body)

  function PlaceAt(bodies: seq<Body>, offset: nat): seq<Placed> {
    seq(|bodies|, i requires 0 <= i < |bodies| => Placed(offset, bodies[i]))
  }

  /** The string bodies of the remaining text `s`, which starts at offset `base`, turn by turn. */
  function LexBodies(turn: Text -> Token, s: Text, base: nat): seq<Placed>
    decreases |s|
  {
    if s == [] then []
    else PlaceAt(turn(s).bodies, base) + LexBodies(turn, Drop(s, turn(s).length), base + turn(s).length)
  }

  function BodyValue(body: Body): Text {
    match body
    case Verbatim(text) => text
    case Escaped(text) => Unescape(text)
  }

  function ToLiteral(p: Placed): Literal {
    Literal(p.offset, [BodyValue(p.body)], true)
  }

  function Mapped(decode: Placed -> Literal, found: seq<Placed>): seq<Literal> {
    seq(|found|, i requires 0 <= i < |found| => decode(found[i]))
  }

  /** The literals of a source. */
  function Lex(src: Text): seq<Literal> {
    Mapped(ToLiteral, LexBodies(NextToken, src, 0))
  }

  /** `turn` is the lexer's turn; the name keeps the verifier from unfolding it where only its results matter. */
  ghost predicate Go(turn: Text -> Token) {
    forall s {:trigger NextToken(s)} :: turn(s) == NextToken(s)
  }

  /** Names one unrolling of the recursion in `Unrolls`. */
  predicate Turn(s: Text, base: nat) { true }

  /** `lex` is the recursion of `LexBodies`, unrolled only where a proof asks for it. */
  ghost predicate Unrolls(lex: (Text, nat) -> seq<Placed>, turn: Text -> Token) {
    && (forall base: nat :: lex([], base) == [])
    && forall s, base: nat {:trigger Turn(s, base)} :: s != [] ==>
         lex(s, base) == PlaceAt(turn(s).bodies, base) + lex(Drop(s, turn(s).length), base + turn(s).length)
  }

  ghost predicate Decodes(decode: Placed -> Literal) {
    forall p {:trigger ToLiteral(p)} :: decode(p) == ToLiteral(p)
  }

  lemma {:induction false} MappedAppend(decode: Placed -> Literal, a: seq<Placed>, b: seq<Placed>)
    ensures Mapped(decode, a + b) == Mapped(decode, a) + Mapped(decode, b)
  {
  }

  lemma {:induction false} DropDrop(src: Text, i: nat, n: nat)
    requires i <= |src|
    ensures Drop(src[i..], n) == Drop(src, i + n)
  {
  }

  method ScanLine(src: Text, i: nat) returns (next: nat)
    requires i < |src| && StartsWith(src[i..], SLASH, SLASH)
    ensures next == i + SkipLine(src[i..]).length && SkipLine(src[i..]).bodies == []
  {
    next := Wrapped(Find(src, NEWLINE, i), |src|);
  }

  method ScanBlock(src: Text, i: nat) returns (next: nat)
    requires i < |src| && StartsWith(src[i..], SLASH, STAR)
    ensures next == i + SkipBlock(src[i..]).length && SkipBlock(src[i..]).bodies == []
  {
    assert src[i..][2..] == src[i + 2..];
    var end := FindPair(src, STAR, SLASH, i + 2);
    next := if end < 0 then |src| else end + 2;
  }

  method ScanRaw(src: Text, i: nat) returns (found: seq<Literal>, next: nat)
    requires i < |src|
    ensures next == i + RawToken(src[i..]).length
    ensures found == Mapped(ToLiteral, PlaceAt(RawToken(src[i..]).bodies, i))
  {
    ghost var s := src[i..];
    assert s[1..] == src[i + 1..];
    var k := Find(src, BACKTICK, i + 1);
    var end := if k < 0 then |src| else k;
    assert s[1..end - i] == src[i + 1..end];
    found, next := [Literal(i, [src[i + 1..end]], true)], end + 1;
    assert found[0] == ToLiteral(Placed(i, Verbatim(src[i + 1..end])));
  }

  method ScanQuoted(src: Text, i: nat) returns (found: seq<Literal>, next: nat)
    requires i < |src|
    ensures next == i + QuotedToken(src[i..]).length
    ensures found == Mapped(ToLiteral, PlaceAt(QuotedToken(src[i..]).bodies, i))
  {
    assert src[i..][1..] == src[i + 1..];
    var text;
    text, next := Quoted(src, i);
    found := if src[i] == DOUBLE then [Literal(i, [text], true)] else [];
    assert src[i] == DOUBLE ==> found[0] == ToLiteral(Placed(i, QuotedToken(src[i..]).bodies[0]));
  }

  /** One turn of the loop, by index. */
  method ScanOne(src: Text, i: nat) returns (found: seq<Literal>, next: nat)
    requires i < |src|
    ensures next == i + NextToken(src[i..]).length
    ensures found == Mapped(ToLiteral, PlaceAt(NextToken(src[i..]).bodies, i))
  {
    found := [];
    if StartsWith(src[i..], SLASH, SLASH) {
      next := ScanLine(src, i);
    } else if StartsWith(src[i..], SLASH, STAR) {
      next := ScanBlock(src, i);
    } else if src[i] == BACKTICK {
      found, next := ScanRaw(src, i);
    } else if src[i] == DOUBLE || src[i] == SINGLE {
      found, next := ScanQuoted(src, i);
    } else {
      next := i + 1;
    }
  }

  method ScanTurn(src: Text, i: nat, ghost turn: Text -> Token, ghost decode: Placed -> Literal)
    returns (found: seq<Literal>, next: nat)
    requires i < |src| && Go(turn) && Decodes(decode)
    ensures next == i + turn(src[i..]).length
    ensures found == Mapped(decode, PlaceAt(turn(src[i..]).bodies, i))
  {
    found, next := ScanOne(src, i);
    ghost var placed := PlaceAt(NextToken(src[i..]).bodies, i);
    assert forall k :: 0 <= k < |placed| ==> decode(placed[k]) == ToLiteral(placed[k]);
  }

  /** One turn of the recursion at an index of the source, after `placed`. */
  lemma {:induction false} LexTurn(turn: Text -> Token, src: Text, i: nat, placed: seq<Placed>)
    requires i < |src|
    ensures var t := turn(src[i..]);
            placed + LexBodies(turn, Drop(src, i), i) ==
            placed + PlaceAt(t.bodies, i) + LexBodies(turn, Drop(src, i + t.length), i + t.length)
  {
    var t := turn(src[i..]);
    DropDrop(src, i, t.length);
    var a, b := PlaceAt(t.bodies, i), LexBodies(turn, Drop(src, i + t.length), i + t.length);
    assert LexBodies(turn, src[i..], i) == a + b;
    assert placed + (a + b) == placed + a + b;
  }

  method ScanAll(src: Text, ghost turn: Text -> Token, ghost decode: Placed -> Literal) returns (found: seq<Literal>)
    requires Go(turn) && Decodes(decode)
    ensures found == Mapped(decode, LexBodies(turn, src, 0))
  {
    var i := 0;
    found := [];
    ghost var placed: seq<Placed> := [];
    while i < |src|
      invariant found == Mapped(decode, placed)
      invariant placed + LexBodies(turn, Drop(src, i), i) == LexBodies(turn, src, 0)
      decreases |src| - i
    {
      LexTurn(turn, src, i, placed);
      ghost var more := PlaceAt(turn(src[i..]).bodies, i);
      MappedAppend(decode, placed, more);
      var literals;
      literals, i := ScanTurn(src, i, turn, decode);
      found, placed := found + literals, placed + more;
    }
  }

  /** The scan over the source yields exactly the literals of `Lex`. */
  method GoLiterals(src: Text) returns (found: seq<Literal>)
    ensures found == Lex(src)
  {
    found := ScanAll(src, NextToken, ToLiteral);
  }

  // ---- printing ----

  /** A piece of Go source as a writer composes it. */
  datatype Piece =
    | Code(text: Text)
    | LineComment(text: Text)
    | BlockComment(text: Text)
    | Rune(chars: seq<Spelled>)
    | RawString(text: Text)
    | Interpreted(chars: seq<Spelled>)

  /** No quote of any kind, and no slash that could open a comment, also not together with what follows. */
  predicate PlainCode(text: Text) {
    text == [] ||
    (&& text[0] != DOUBLE && text[0] != SINGLE && text[0] != BACKTICK
     && (text[0] == SLASH ==> |text| > 1 && text[1] != SLASH && text[1] != STAR)
     && PlainCode(text[1..]))
  }

  predicate PieceOk(p: Piece) {
    match p
    case Code(text) => PlainCode(text)
    case LineComment(text) => NEWLINE !in text
    case BlockComment(text) => IndexOfPair(text, STAR, SLASH) < 0
    case Rune(chars) => Spellable(chars, SINGLE)
    case RawString(text) => BACKTICK !in text
    case Interpreted(chars) => Spellable(chars, DOUBLE) && forall i :: 0 <= i < |chars| ==> Scalar(chars[i].c)
  }

  function Print(p: Piece): Text
    requires PieceOk(p)
  {
    match p
    case Code(text) => text
    case LineComment(text) => [SLASH, SLASH] + text + [NEWLINE]
    case BlockComment(text) => [SLASH, STAR] + text + [STAR, SLASH]
    case Rune(chars) => [SINGLE] + SpellAll(chars, SINGLE) + [SINGLE]
    case RawString(text) => [BACKTICK] + text + [BACKTICK]
    case Interpreted(chars) => [DOUBLE] + SpellAll(chars, DOUBLE) + [DOUBLE]
  }

  /** The literal a piece stands for, if any: its value and where it is. */
  function Denotes(p: Piece, base: nat): seq<Literal> {
    match p
    case RawString(text) => [Literal(base, [text], true)]
    case Interpreted(chars) => [Literal(base, [Value(chars)], true)]
    case _ => []
  }

  /** The string body a piece prints. */
  function BodyOf(p: Piece): seq<Body>
    requires PieceOk(p)
  {
    match p
    case RawString(text) => [Verbatim(text)]
    case Interpreted(chars) => [Escaped(SpellAll(chars, DOUBLE))]
    case _ => []
  }

  function BodiesAll(pieces: seq<Piece>, base: nat): seq<Placed>
    requires PiecesOk(pieces)
  {
    if pieces == [] then []
    else PlaceAt(BodyOf(pieces[0]), base) + BodiesAll(pieces[1..], base + |Print(pieces[0])|)
  }

  predicate PiecesOk(pieces: seq<Piece>) { forall i :: 0 <= i < |pieces| ==> PieceOk(pieces[i]) }

  function PrintAll(pieces: seq<Piece>): Text
    requires PiecesOk(pieces)
  {
    if pieces == [] then [] else Print(pieces[0]) + PrintAll(pieces[1..])
  }

  function DenotesAll(pieces: seq<Piece>, base: nat): seq<Literal>
    requires PiecesOk(pieces)
  {
    if pieces == [] then []
    else Denotes(pieces[0], base) + DenotesAll(pieces[1..], base + |Print(pieces[0])|)
  }

  // ---- the round trip ----

  lemma {:induction false} IndexSkips(text: Text, c: CodePoint, rest: Text)
    requires c !in text
    ensures IndexOf(text + [c] + rest, c) == |text|
  {
    if text == [] {
      assert (text + [c] + rest)[0] == c;
    } else {
      assert (text + [c] + rest)[1..] == text[1..] + [c] + rest;
      IndexSkips(text[1..], c, rest);
    }
  }

  /** The first closer after a body without one is the body's own, even after a trailing star. */
  lemma {:induction false} PairSkips(text: Text, rest: Text)
    requires IndexOfPair(text, STAR, SLASH) < 0
    ensures IndexOfPair(text + [STAR, SLASH] + rest, STAR, SLASH) == |text|
  {
    var s := text + [STAR, SLASH] + rest;
    if text == [] {
      assert s[0] == STAR && s[1] == SLASH;
    } else {
      assert s[1..] == text[1..] + [STAR, SLASH] + rest;
      assert |text| == 1 ==> s[1] == STAR;
      PairSkips(text[1..], rest);
    }
  }

  lemma {:induction false} RunSkips(s: Text, prefix: Text, quote: CodePoint)
    requires |prefix| <= |s| && s[..|prefix|] == prefix
    requires forall i :: 0 <= i < |prefix| ==> prefix[i] != quote && prefix[i] != NEWLINE && prefix[i] != BACKSLASH
    ensures QuotedRun(s, quote) == |prefix| + QuotedRun(s[|prefix|..], quote)
  {
    if prefix != [] {
      assert s[0] == prefix[0];
      assert s[1..][..|prefix| - 1] == prefix[1..];
      RunSkips(s[1..], prefix[1..], quote);
      assert s[1..][|prefix| - 1..] == s[|prefix|..];
    }
  }

  lemma {:induction false} DigitsAreBody(v: nat, base: nat, width: nat)
    requires 2 <= base <= 16
    ensures forall i :: 0 <= i < width ==>
      var d := Digits(v, base, width)[i]; IsHex(d) && d != DOUBLE && d != SINGLE && d != NEWLINE && d != BACKSLASH
  {
  }

  /** The scan steps over `\<head>` and the harmless characters after it. */
  lemma {:induction false} EscapeSkips(head: CodePoint, body: Text, rest: Text, quote: CodePoint)
    requires quote == DOUBLE || quote == SINGLE
    requires forall i :: 0 <= i < |body| ==> body[i] != quote && body[i] != NEWLINE && body[i] != BACKSLASH
    ensures QuotedRun([BACKSLASH, head] + body + rest, quote) == 2 + |body| + QuotedRun(rest, quote)
  {
    var s := [BACKSLASH, head] + body + rest;
    assert s[2..] == body + rest;
    RunSkips(s[2..], body, quote);
    assert s[2..][|body|..] == rest;
  }

  lemma {:induction false} DigitsSkip(letter: CodePoint, v: nat, width: nat, quote: CodePoint, rest: Text)
    requires quote == DOUBLE || quote == SINGLE
    ensures QuotedRun([BACKSLASH, letter] + Digits(v, 16, width) + rest, quote) == 2 + width + QuotedRun(rest, quote)
  {
    DigitsAreBody(v, 16, width);
    EscapeSkips(letter, Digits(v, 16, width), rest, quote);
  }

  lemma {:induction false} BracedSkips(v: nat, width: nat, quote: CodePoint, rest: Text)
    requires quote == DOUBLE || quote == SINGLE
    ensures QuotedRun([BACKSLASH, LOWER_U, OPEN_BRACE] + Digits(v, 16, width) + [CLOSE_BRACE] + rest, quote)
            == 4 + width + QuotedRun(rest, quote)
  {
    var body := [OPEN_BRACE] + Digits(v, 16, width) + [CLOSE_BRACE];
    DigitsAreBody(v, 16, width);
    EscapeSkips(LOWER_U, body, rest, quote);
    assert [BACKSLASH, LOWER_U, OPEN_BRACE] + Digits(v, 16, width) + [CLOSE_BRACE] + rest
        == [BACKSLASH, LOWER_U] + body + rest;
  }

  lemma {:induction false} OctalSkips(v: nat, quote: CodePoint, rest: Text)
    requires quote == DOUBLE || quote == SINGLE
    ensures QuotedRun([BACKSLASH] + Digits(v, 8, 3) + rest, quote) == 4 + QuotedRun(rest, quote)
  {
    var d := Digits(v, 8, 3);
    DigitsAreBody(v, 8, 3);
    EscapeSkips(d[0], d[1..], rest, quote);
    assert [BACKSLASH] + d + rest == [BACKSLASH, d[0]] + d[1..] + rest;
  }

  lemma {:induction false} SpelledSkips(c: CodePoint, how: Spelling, quote: CodePoint, rest: Text)
    requires CanSpell(c, how, quote) && (quote == DOUBLE || quote == SINGLE)
    ensures QuotedRun(Spell(c, how, quote) + rest, quote) == |Spell(c, how, quote)| + QuotedRun(rest, quote)
  {
    var s := Spell(c, how, quote) + rest;
    match how
    case Plain =>
      assert s[1..] == rest;
    case Simple =>
      assert s == [BACKSLASH, s[1]] + [] + rest;
      EscapeSkips(s[1], [], rest, quote);
    case Octal3 => OctalSkips(c, quote, rest);
    case Hex2 => DigitsSkip(LOWER_X, c, 2, quote, rest);
    case Hex4 => DigitsSkip(LOWER_U, c, 4, quote, rest);
    case Hex8 => DigitsSkip(UPPER_U, c, 8, quote, rest);
    case Braced(width) => BracedSkips(c, width, quote, rest);
    case Pair =>
      var second := [BACKSLASH, LOWER_U] + Digits(Low(c), 16, 4);
      assert s == [BACKSLASH, LOWER_U] + Digits(High(c), 16, 4) + (second + rest);
      DigitsSkip(LOWER_U, High(c), 4, quote, second + rest);
      DigitsSkip(LOWER_U, Low(c), 4, quote, rest);
  }

  /** The scan stops at the true closing quote, whatever the body spells. */
  lemma {:induction false} StopsAtClosingQuote(chars: seq<Spelled>, quote: CodePoint, rest: Text)
    requires Spellable(chars, quote) && (quote == DOUBLE || quote == SINGLE)
    ensures QuotedRun(SpellAll(chars, quote) + [quote] + rest, quote) == |SpellAll(chars, quote)|
  {
    var s := SpellAll(chars, quote) + [quote] + rest;
    if chars == [] {
      assert s[0] == quote;
    } else {
      var tail := SpellAll(chars[1..], quote) + [quote] + rest;
      AssocFour(Spell(chars[0].c, chars[0].how, quote), SpellAll(chars[1..], quote), [quote], rest);
      SpelledSkips(chars[0].c, chars[0].how, quote, tail);
      StopsAtClosingQuote(chars[1..], quote, rest);
    }
  }

  lemma {:induction false} CodeToken(text: Text, rest: Text)
    requires PlainCode(text) && text != []
    ensures NextToken(text + rest) == Token(1, [])
  {
    var s := text + rest;
    assert s[0] == text[0];
    assert |text| > 1 ==> s[1] == text[1];
  }

  lemma {:induction false} CodeTurn(turn: Text -> Token, text: Text, rest: Text)
    requires Go(turn) && PlainCode(text) && text != []
    ensures turn(text + rest) == Token(1, [])
  {
    CodeToken(text, rest);
  }

  lemma {:induction false} CodeLexes(lex: (Text, nat) -> seq<Placed>, turn: Text -> Token, text: Text, rest: Text,
                                     base: nat)
    requires Go(turn) && Unrolls(lex, turn) && PlainCode(text)
    ensures lex(text + rest, base) == lex(rest, base + |text|)
  {
    if text == [] {
      assert text + rest == rest;
    } else {
      CodeTurn(turn, text, rest);
      CharacterLexes(lex, turn, text, rest, base);
      CodeLexes(lex, turn, text[1..], rest, base + 1);
    }
  }

  /** A harmless character is passed. */
  lemma {:induction false} CharacterLexes(lex: (Text, nat) -> seq<Placed>, turn: Text -> Token, text: Text, rest: Text,
                                          base: nat)
    requires Unrolls(lex, turn) && text != [] && turn(text + rest) == Token(1, [])
    ensures lex(text + rest, base) == lex(text[1..] + rest, base + 1)
  {
    assert Turn(text + rest, base);
    assert Drop(text + rest, 1) == text[1..] + rest;
  }

  lemma {:induction false} LineToken(text: Text, rest: Text)
    requires NEWLINE !in text
    ensures NextToken([SLASH, SLASH] + text + [NEWLINE] + rest) == Token(|text| + 2, [])
  {
    var s := [SLASH, SLASH] + text + [NEWLINE] + rest;
    assert s == ([SLASH, SLASH] + text) + [NEWLINE] + rest;
    IndexSkips([SLASH, SLASH] + text, NEWLINE, rest);
  }

  lemma {:induction false} LineTurn(turn: Text -> Token, text: Text, rest: Text)
    requires Go(turn) && NEWLINE !in text
    ensures turn([SLASH, SLASH] + text + ([NEWLINE] + rest)) == Token(|text| + 2, [])
  {
    assert [SLASH, SLASH] + text + ([NEWLINE] + rest) == [SLASH, SLASH] + text + [NEWLINE] + rest;
    LineToken(text, rest);
  }

  lemma {:induction false} BlockToken(text: Text, rest: Text)
    requires IndexOfPair(text, STAR, SLASH) < 0
    ensures var s := [SLASH, STAR] + text + [STAR, SLASH] + rest;
            NextToken(s) == Token(|text| + 4, []) && Drop(s, |text| + 4) == rest
  {
    var s := [SLASH, STAR] + text + [STAR, SLASH] + rest;
    assert s[2..] == text + [STAR, SLASH] + rest;
    PairSkips(text, rest);
  }

  lemma {:induction false} RawStringToken(text: Text, rest: Text)
    requires BACKTICK !in text
    ensures var s := [BACKTICK] + text + [BACKTICK] + rest;
            NextToken(s) == Token(|text| + 2, [Verbatim(text)]) && Drop(s, |text| + 2) == rest
  {
    var s := [BACKTICK] + text + [BACKTICK] + rest;
    assert s[1..] == text + [BACKTICK] + rest;
    IndexSkips(text, BACKTICK, rest);
    assert s[1..|text| + 1] == text;
  }

  lemma {:induction false} QuotedStringToken(chars: seq<Spelled>, quote: CodePoint, rest: Text)
    requires Spellable(chars, quote) && (quote == DOUBLE || quote == SINGLE)
    ensures var body := SpellAll(chars, quote);
            var s := [quote] + body + [quote] + rest;
            NextToken(s) == Token(|body| + 2, if quote == DOUBLE then [Escaped(body)] else [])
            && Drop(s, |body| + 2) == rest
  {
    var body := SpellAll(chars, quote);
    var s := [quote] + body + [quote] + rest;
    assert s[1..] == body + [quote] + rest;
    StopsAtClosingQuote(chars, quote, rest);
    assert s[1..][..|body|] == body;
    assert NextToken(s) == QuotedToken(s);
  }

  /** A turn over the whole of `printed` moves on right behind it. */
  lemma {:induction false} TurnLexes(lex: (Text, nat) -> seq<Placed>, turn: Text -> Token, printed: Text, rest: Text,
                                     bodies: seq<Body>, base: nat)
    requires Unrolls(lex, turn) && printed != [] && turn(printed + rest) == Token(|printed|, bodies)
    ensures lex(printed + rest, base) == PlaceAt(bodies, base) + lex(rest, base + |printed|)
  {
    assert Turn(printed + rest, base);
    assert Drop(printed + rest, |printed|) == rest;
  }

  lemma {:induction false} LineLexes(lex: (Text, nat) -> seq<Placed>, turn: Text -> Token, text: Text, rest: Text,
                                     base: nat)
    requires Go(turn) && Unrolls(lex, turn) && NEWLINE !in text
    ensures lex([SLASH, SLASH] + text + [NEWLINE] + rest, base) == lex(rest, base + |text| + 3)
  {
    var printed := [SLASH, SLASH] + text;
    LineTurn(turn, text, rest);
    assert [SLASH, SLASH] + text + [NEWLINE] + rest == printed + ([NEWLINE] + rest);
    TurnLexes(lex, turn, printed, [NEWLINE] + rest, [], base);
    CodeLexes(lex, turn, [NEWLINE], rest, base + |printed|);
  }

  /** The one turn that passes a piece other than code and line comments. */
  lemma {:induction false} PieceTurn(turn: Text -> Token, p: Piece, rest: Text)
    requires Go(turn) && PieceOk(p) && !p.Code? && !p.LineComment?
    ensures Print(p) != [] && turn(Print(p) + rest) == Token(|Print(p)|, BodyOf(p))
  {
    match p
    case BlockComment(text) => BlockToken(text, rest);
    case Rune(chars) => QuotedStringToken(chars, SINGLE, rest);
    case RawString(text) => RawStringToken(text, rest);
    case Interpreted(chars) => QuotedStringToken(chars, DOUBLE, rest);
  }

  /** Lexing what a piece prints passes its string body, and goes on right behind it. */
  lemma {:induction false} PieceLexes(lex: (Text, nat) -> seq<Placed>, turn: Text -> Token, p: Piece, rest: Text,
                                      base: nat)
    requires Go(turn) && Unrolls(lex, turn) && PieceOk(p)
    ensures lex(Print(p) + rest, base) == PlaceAt(BodyOf(p), base) + lex(rest, base + |Print(p)|)
  {
    if p.Code? {
      CodeLexes(lex, turn, p.text, rest, base);
    } else if p.LineComment? {
      LineLexes(lex, turn, p.text, rest, base);
    } else {
      PieceTurn(turn, p, rest);
      TurnLexes(lex, turn, Print(p), rest, BodyOf(p), base);
    }
  }

  lemma {:induction false} FirstPiece(pieces: seq<Piece>, base: nat)
    requires PiecesOk(pieces) && pieces != []
    ensures PrintAll(pieces) == Print(pieces[0]) + PrintAll(pieces[1..])
    ensures BodiesAll(pieces, base) ==
            PlaceAt(BodyOf(pieces[0]), base) + BodiesAll(pieces[1..], base + |Print(pieces[0])|)
  {
  }

  lemma {:induction false} PiecesLex(lex: (Text, nat) -> seq<Placed>, turn: Text -> Token, pieces: seq<Piece>,
                                     base: nat)
    requires Go(turn) && Unrolls(lex, turn) && PiecesOk(pieces)
    ensures lex(PrintAll(pieces), base) == BodiesAll(pieces, base)
  {
    if pieces != [] {
      var next := base + |Print(pieces[0])|;
      PieceLexes(lex, turn, pieces[0], PrintAll(pieces[1..]), base);
      PiecesLex(lex, turn, pieces[1..], next);
      FirstPiece(pieces, base);
    }
  }

  lemma {:induction false} LexBodiesUnrolls(turn: Text -> Token)
    ensures Unrolls((s: Text, base: nat) => LexBodies(turn, s, base), turn)
  {
  }

  lemma {:induction false} PieceDenotes(decode: Placed -> Literal, p: Piece, base: nat)
    requires Decodes(decode) && PieceOk(p)
    ensures Mapped(decode, PlaceAt(BodyOf(p), base)) == Denotes(p, base)
  {
    var placed := PlaceAt(BodyOf(p), base);
    assert forall k :: 0 <= k < |placed| ==> decode(placed[k]) == ToLiteral(placed[k]);
    if p.Interpreted? {
      UnescapeInvertsSpelling(p.chars, DOUBLE);
    }
  }

  lemma {:induction false} BodiesDenote(decode: Placed -> Literal, pieces: seq<Piece>, base: nat)
    requires Decodes(decode) && PiecesOk(pieces)
    ensures Mapped(decode, BodiesAll(pieces, base)) == DenotesAll(pieces, base)
  {
    if pieces != [] {
      var next := base + |Print(pieces[0])|;
      PieceDenotes(decode, pieces[0], base);
      BodiesDenote(decode, pieces[1..], next);
      MappedAppend(decode, PlaceAt(BodyOf(pieces[0]), base), BodiesAll(pieces[1..], next));
    }
  }

  /**
   Print/lex round trip: lexing any concatenation of pieces finds exactly the raw and interpreted
   strings, with their values and positions, in order.
   */
  lemma {:induction false} RoundTrip(pieces: seq<Piece>)
    requires PiecesOk(pieces)
    ensures Lex(PrintAll(pieces)) == DenotesAll(pieces, 0)
  {
    LexBodiesUnrolls(NextToken);
    PiecesLex((s: Text, base: nat) => LexBodies(NextToken, s, base), NextToken, pieces, 0);
    BodiesDenote(ToLiteral, pieces, 0);
  }
}
