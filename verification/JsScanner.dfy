/**
 The TypeScript scanner: `Code` and `Template` call each other, and tokens are appended to `found` when
 they are complete, an enclosing template after the tokens of its substitutions.
 */
module JsScanner {
  import opened TextEscapes
  import opened GoLexer
  import opened JsReference
  import opened JsLevels

  // ---- the reference loop, unrolled only where a proof asks for it ----

  predicate Unrolled(l: Loom) { true }

  ghost predicate IsLoop(src: Text, loop: Loom -> Loom) {
    forall l: Loom {:trigger Unrolled(l)} :: l.i <= |src| + 1 ==> loop(l) == TemplateLoop(src, l)
  }

  lemma {:induction false} LoopOf(src: Text) returns (loop: Loom -> Loom)
    ensures IsLoop(src, loop)
  {
    loop := (l: Loom) => if l.i <= |src| + 1 then TemplateLoop(src, l) else l;
  }

  lemma {:induction false} LoopTurn(src: Text, loop: Loom -> Loom, l: Loom, r: Loom)
    requires IsLoop(src, loop) && l.i < |src| && src[l.i] != BACKTICK && r == NextStitch(src, l)
    ensures loop(l) == loop(r)
  {
    assert Unrolled(l) && Unrolled(r);
  }

  /** Where the loop ends, it has made the template. */
  lemma {:induction false} LoopEnds(src: Text, loop: Loom -> Loom, start: nat, l: Loom)
    requires IsLoop(src, loop) && start < |src| && loop(l) == loop(TemplateFrom(start))
    requires l.i <= |src| + 1 && (l.i < |src| ==> src[l.i] == BACKTICK)
    ensures TemplateScan(src, start) == Scan(l.i + 1, l.spans + [TemplateSpan(src, l)])
  {
    assert Unrolled(l) && Unrolled(TemplateFrom(start));
  }

  class Scanner {
    const src: Text
    var found: seq<Span>
    /** The tokens found and, between them, the blanks skipped. */
    ghost var listed: seq<Span>

    ghost predicate Valid()
      reads this
    {
      found == Tokens(listed)
    }

    constructor (source: Text)
      ensures src == source && Valid() && listed == []
    {
      src, found, listed := source, [], [];
    }

    method Record(token: Span)
      requires Valid() && token.Span?
      modifies this`found, this`listed
      ensures Valid() && listed == old(listed) + [token]
    {
      found, listed := found + [token], listed + [token];
      assert listed[..|listed| - 1] == old(listed);
    }

    ghost method Skip(blank: Span)
      requires Valid() && blank.Blank?
      modifies this`listed
      ensures Valid() && listed == old(listed) + [blank]
    {
      listed := listed + [blank];
      assert listed[..|listed| - 1] == old(listed);
    }

    /** Past a regular expression opening at `i`. */
    method SkipRegex(i: nat) returns (next: nat)
      requires i < |src|
      ensures next == RegexEnd(src, i + 1, false)
    {
      var j, inClass := i + 1, false;
      while j < |src| && src[j] != NEWLINE && (src[j] != SLASH || inClass)
        invariant i < j <= |src| + 1
        invariant RegexEnd(src, j, inClass) == RegexEnd(src, i + 1, false)
        decreases |src| + 1 - j
      {
        var c := src[j];
        inClass := (inClass || c == OPEN_BRACKET) && c != CLOSE_BRACKET;
        j := j + if c == BACKSLASH then 2 else 1;
      }
      next := j + 1;
    }

    method Word(i: nat) returns (end: nat)
      requires i < |src| && IsWord(src[i])
      ensures end == WordEnd(src, i + 1)
    {
      end := i + 1;
      while end < |src| && IsWord(src[end])
        invariant i < end <= |src| && WordEnd(src, end) == WordEnd(src, i + 1)
      {
        end := end + 1;
      }
    }

    /** The token of the quoted string opening at `i`, and the index after it. */
    method QuotedToken(i: nat) returns (token: Span, next: nat)
      requires i < |src|
      ensures next == StringEnd(src, i) && token == QuotedSpan(src, i)
    {
      next := EndOfString(i);
      QuotedSpanAt(src, i, next);
      token := Span(Extent(i, Least(next, |src|)), [src[i + 1..Least(next - 1, |src|)]], []);
    }

    method EndOfString(i: nat) returns (next: nat)
      requires i < |src|
      ensures next == StringEnd(src, i)
    {
      var text;
      text, next := Quoted(src, i);
    }

    /** Records the quoted string opening at `i`. */
    method StringAt(i: nat) returns (next: nat)
      requires i < |src| && src[i] in {SINGLE, DOUBLE} && Valid()
      modifies this`found, this`listed
      ensures next == StringEnd(src, i) && Valid() && listed == old(listed) + [QuotedSpan(src, i)]
    {
      var token;
      token, next := QuotedToken(i);
      Record(token);
    }

    /** One turn of the code loop. `before` was listed when the loop began, `got` since. */
    method Turn(i: nat, depth: int, prev: Text, ghost before: seq<Span>, ghost got: seq<Span>)
      returns (next: nat, depth': int, prev': Text, ghost got': seq<Span>)
      requires i < |src| && Valid() && listed == before + got
      modifies this`found, this`listed
      decreases |src| - i, 1
      ensures Position(next, depth', prev', got') == NextTurn(src, Position(i, depth, prev, got))
      ensures Valid() && listed == before + got'
    {
      var c := src[i];
      depth', prev', got' := depth, prev, got;
      if c == 0x20 || c == 0x09 || c == RETURN {
        next := i + 1;
      } else if c == NEWLINE {
        prev', next := [NEWLINE], i + 1;
      } else if AtLineComment(src, i) {
        next := LineEnd(src, i);
        got' := got + [BlankSpan(src, ToLineEnd, i, next)];
        Skip(BlankSpan(src, ToLineEnd, i, next));
      } else if AtBlockComment(src, i) {
        next := BlockEnd(src, i);
        got' := got + [BlankSpan(src, ToBlockEnd, i, next)];
        Skip(BlankSpan(src, ToBlockEnd, i, next));
      } else if RegexOpens(src, i, prev) {
        next := SkipRegex(i);
        prev', got' := [CLOSE_PAREN], got + [BlankSpan(src, Regex, i, next)];
        Skip(BlankSpan(src, Regex, i, next));
      } else if c == SINGLE || c == DOUBLE {
        next := StringAt(i);
        prev', got' := [CLOSE_PAREN], got + [QuotedSpan(src, i)];
      } else if c == BACKTICK {
        next := Template(i);
        prev', got' := [CLOSE_PAREN], got + TemplateScan(src, i).spans;
      } else if c == OPEN_BRACE {
        depth', prev', next := depth + 1, [c], i + 1;
      } else if c == CLOSE_BRACE {
        depth', prev', next := depth - 1, [c], i + 1;
      } else if IsWord(c) {
        next := Word(i);
        prev' := src[i..next];
      } else {
        prev', next := [c], i + 1;
      }
    }

    /** Scans code from `start`; inside a template it stops behind the closing brace of the substitution. */
    method Code(start: nat, inTemplate: bool) returns (end: nat)
      requires start <= |src| && Valid()
      modifies this`found, this`listed
      decreases |src| - start, 2
      ensures end == CodeScan(src, inTemplate, CodeFrom(start)).end
      ensures Valid() && listed == old(listed) + CodeScan(src, inTemplate, CodeFrom(start)).spans
    {
      var n, i := |src|, start;
      var depth := 0;
      var prev: Text := [NEWLINE];
      ghost var before, got := listed, [];
      while i < n
        invariant start <= i <= n + 2 && Valid() && listed == before + got
        invariant CodeScan(src, inTemplate, Position(i, depth, prev, got)) == CodeScan(src, inTemplate, CodeFrom(start))
        decreases n + 2 - i
      {
        if src[i] == CLOSE_BRACE && inTemplate && depth == 0 {
          return i + 1;
        }
        i, depth, prev, got := Turn(i, depth, prev, before, got);
      }
      end := n;
    }

    /** Scans the substitution opening at `i`, while `before` and `inside` are listed. */
    method Substitution(i: nat, ghost before: seq<Span>, ghost inside: seq<Span>)
      returns (end: nat, ghost hole: Scan, ghost inside': seq<Span>)
      requires i < |src| && OpensHole(src, i) && Valid() && listed == before + inside
      modifies this`found, this`listed
      decreases |src| - i, 0
      ensures hole == CodeScan(src, true, CodeFrom(i + 2)) && end == hole.end
      ensures inside' == inside + hole.spans && Valid() && listed == before + inside'
    {
      hole := CodeScan(src, true, CodeFrom(i + 2));
      end := Code(i + 2, true);
      inside' := inside + hole.spans;
    }

    /** Scans the template literal opening at `start` and records it after the tokens of its substitutions. */
    method Template(start: nat) returns (next: nat)
      requires start < |src| && src[start] == BACKTICK && Valid()
      modifies this`found, this`listed
      decreases |src| - start, 0
      ensures next == TemplateScan(src, start).end
      ensures Valid() && listed == old(listed) + TemplateScan(src, start).spans
    {
      var n, i := |src|, start + 1;
      var chunks, buf, holes := [], [], [];
      ghost var before, inside := listed, [];
      ghost var loop := LoopOf(src);
      while i < n && src[i] != BACKTICK
        invariant start < i <= n + 1 && Valid() && listed == before + inside
        invariant loop(Loom(i, Weave(start, chunks, buf, holes), inside)) == loop(TemplateFrom(start))
        decreases n + 1 - i
      {
        ghost var l := Loom(i, Weave(start, chunks, buf, holes), inside);
        if OpensHole(src, i) {
          chunks, buf := chunks + [buf], [];
          ghost var hole;
          var end;
          end, hole, inside := Substitution(i, before, inside);
          HoleStitch(src, l, hole);
          holes, i := holes + [Extent(i + 2, end)], end;
        } else {
          TextStitch(src, l);
          var next := TextStep(src, i);
          buf, i := buf + src[i..Least(next, n)], next;
        }
        LoopTurn(src, loop, l, Loom(i, Weave(start, chunks, buf, holes), inside));
      }
      LoopEnds(src, loop, start, Loom(i, Weave(start, chunks, buf, holes), inside));
      Record(Span(Extent(start, Least(i + 1, n)), chunks + [buf], holes));
      next := i + 1;
    }
  }

  /** The literal begins where its token does, has the token's decoded chunks, and knows of substitutions. */
  predicate Denotes(l: Literal, t: Span)
    requires t.Span?
  {
    && l.offset == t.extent.start && |l.chunks| == |t.raws|
    && (forall k :: 0 <= k < |t.raws| ==> l.chunks[k] == Unescape(t.raws[k]))
    && (l.whole <==> t.holes == [])
  }

  lemma {:induction false} LiteralsDenote(tokens: seq<Span>)
    requires forall i :: 0 <= i < |tokens| ==> tokens[i].Span?
    ensures |Literals(tokens)| == |tokens|
    ensures forall i :: 0 <= i < |tokens| ==> Denotes(Literals(tokens)[i], tokens[i])
  {
    forall i | 0 <= i < |tokens|
      ensures Denotes(Literals(tokens)[i], tokens[i])
    {
      assert Literals(tokens)[i] == LiteralOf(tokens[i]);
    }
  }

  /**
   The whole scan. It ends for every source. What it lists, tokens and blanks, is disjoint or nested in
   substitutions of an enclosing template; each token spells exactly its part of the source, each blank is
   a comment or a regular expression; and every quote character of the source lies in a blank or in a token
   outside its substitutions. A substitution ends behind the first brace that closes more than it opened; and
   no slash outside of what is listed could have opened a comment or a regular expression. The recorded
   literals are those of the tokens.
   */
  method JsLiterals(source: Text) returns (literals: seq<Literal>, tokens: seq<Span>, ghost spans: seq<Span>)
    ensures spans == CodeScan(source, false, CodeFrom(0)).spans
    ensures tokens == Tokens(spans) && |literals| == |tokens|
    ensures forall i :: 0 <= i < |tokens| ==> tokens[i].Span? && Denotes(literals[i], tokens[i])
    ensures Adds(source, spans, Extent(0, |source|))
    ensures forall p :: 0 <= p < |source| && IsQuote(source[p]) ==> Accounted(spans, p)
    ensures Levels(source, spans)
    ensures SlashesPlain(source, Inside(spans, Extent(0, |source|)), 0, |source|)
  {
    var scanner := new Scanner(source);
    var end := scanner.Code(0, false);
    tokens := scanner.found;
    spans := scanner.listed;
    literals := Literals(tokens);
    LiteralsDenote(tokens);
    WholeText(source, CodeFrom(0));
    StartIsSound(source, 0);
    CodeAdds(source, false, CodeFrom(0));
    assert spans[0..] == spans;
    StartIsTraced(source, 0, false);
    CodeLevels(source, 0, false, CodeFrom(0));
    AllIsInside(spans, Extent(0, |source|));
    forall p | 0 <= p < |source| && IsQuote(source[p])
      ensures Accounted(spans, p)
    {
      NoStringMissed(source, false, CodeFrom(0), p);
    }
  }

  /** Outside templates a code scan ends at the end of the text. */
  lemma {:induction false} WholeText(src: Text, t: Position)
    requires t.i <= |src| + 2
    ensures CodeScan(src, false, t).end == |src|
    decreases |src| + 2 - t.i
  {
    if t.i < |src| {
      WholeText(src, NextTurn(src, t));
    }
  }
}
