/**
 Where the comments and regular expressions of the TypeScript scan end, and the scan's tables, without the
 functions that search for them.
 */
module JsBlanks {
  import opened TextEscapes
  import opened GoLexer
  import opened JsReference

  // ---- searching ----

  /** No character before the first hit is the one searched for. */
  lemma {:induction false} FirstHit(s: Text, c: CodePoint, k: nat)
    requires k < (if IndexOf(s, c) < 0 then |s| else IndexOf(s, c))
    ensures s[k] != c
  {
    if k > 0 {
      FirstHit(s[1..], c, k - 1);
    }
  }

  lemma {:induction false} FirstPair(s: Text, a: CodePoint, b: CodePoint, k: nat)
    requires k + 1 < |s| && (IndexOfPair(s, a, b) < 0 || k < IndexOfPair(s, a, b))
    ensures !(s[k] == a && s[k + 1] == b)
  {
    if k > 0 {
      FirstPair(s[1..], a, b, k - 1);
    }
  }

  // ---- comments ----

  /** A line comment reaches up to the first newline, or to the end of the text. */
  lemma {:induction false} LineCommentExactly(src: Text, e: Extent)
    requires e.start < |src| && TrueBlank(src, e, ToLineEnd)
    ensures src[e.start..e.start + 2] == [SLASH, SLASH]
    ensures forall k :: e.start <= k < e.end ==> src[k] != NEWLINE
    ensures e.end == |src| || src[e.end] == NEWLINE
  {
    LineStops(src, e.start);
    forall k | e.start <= k < e.end
      ensures src[k] != NEWLINE
    {
      FirstHit(src[e.start..], NEWLINE, k - e.start);
    }
  }

  /** The two characters close a block comment. */
  predicate Closes(src: Text, k: int) {
    0 <= k && k + 1 < |src| && src[k] == STAR && src[k + 1] == SLASH
  }

  /** A block comment reaches up to the first closing mark behind its opening one, or to the end of the text. */
  lemma {:induction false} BlockCommentExactly(src: Text, e: Extent)
    requires e.start < |src| && TrueBlank(src, e, ToBlockEnd)
    ensures src[e.start..e.start + 2] == [SLASH, STAR]
    ensures if exists k :: e.start + 2 <= k && Closes(src, k)
            then e.start + 4 <= e.end && Closes(src, e.end - 2) && forall k :: e.start + 2 <= k < e.end - 2 ==>
              !Closes(src, k)
            else e.end == |src|
  {
    var s := src[e.start + 2..];
    forall k | e.start + 2 <= k && (IndexOfPair(s, STAR, SLASH) < 0 || k < e.end - 2)
      ensures !Closes(src, k)
    {
      if k + 1 < |src| {
        FirstPair(s, STAR, SLASH, k - (e.start + 2));
      }
    }
    if IndexOfPair(s, STAR, SLASH) >= 0 {
      assert Closes(src, e.end - 2);
    }
  }

  // ---- regular expressions ----

  /** Characters and escapes lead from one index to the other. */
  ghost predicate Walks(src: Text, from: nat, end: nat)
    decreases if end >= from then end - from else 0
  {
    from == end || (from < end && from < |src| && Walks(src, TextStep(src, from), end))
  }

  lemma {:induction false} WalksOn(src: Text, from: nat, end: nat)
    requires Walks(src, from, end) && from <= end < |src|
    ensures Walks(src, from, TextStep(src, end))
    decreases end - from
  {
    if from < end {
      WalksOn(src, TextStep(src, from), end);
    } else {
      assert Walks(src, TextStep(src, end), TextStep(src, end));
    }
  }

  lemma {:induction false} WalksForward(src: Text, from: nat, end: nat)
    requires Walks(src, from, end)
    ensures from <= end
  {
  }

  /** Between an index on the way and the next one there is none. */
  lemma {:induction false} NoneBetween(src: Text, from: nat, j: nat, d: nat)
    requires Walks(src, from, j) && Walks(src, from, d) && j < |src| && j < d
    ensures TextStep(src, j) <= d
    decreases if j >= from then j - from else 0
  {
    WalksForward(src, from, j);
    if from < j {
      NoneBetween(src, TextStep(src, from), j, d);
    } else {
      WalksForward(src, TextStep(src, j), d);
    }
  }

  /** The bracket is on the way, unescaped. */
  ghost predicate BracketAt(src: Text, from: nat, b: nat, bracket: CodePoint) {
    b < |src| && Walks(src, from, b) && src[b] == bracket
  }

  /** The last bracket on the way is an opening one. */
  ghost predicate InClass(src: Text, from: nat, end: nat) {
    exists b: nat :: b < end && BracketAt(src, from, b, OPEN_BRACKET)
                     && forall d: nat :: b < d < end ==> !BracketAt(src, from, d, CLOSE_BRACKET)
  }

  /** A line end or a slash outside a class, on the way. */
  ghost predicate Stops(src: Text, from: nat, j: nat) {
    && j < |src| && Walks(src, from, j)
    && (src[j] == NEWLINE || (src[j] == SLASH && !InClass(src, from, j)))
  }

  lemma {:induction false} ClassGoesOn(src: Text, from: nat, j: nat)
    requires j < |src| && Walks(src, from, j)
    ensures InClass(src, from, TextStep(src, j)) <==>
            (InClass(src, from, j) || src[j] == OPEN_BRACKET) && src[j] != CLOSE_BRACKET
  {
    var next := TextStep(src, j);
    forall d: nat | j < d < next
      ensures !Walks(src, from, d)
    {
      if Walks(src, from, d) {
        NoneBetween(src, from, j, d);
      }
    }
    if src[j] == OPEN_BRACKET {
      assert BracketAt(src, from, j, OPEN_BRACKET);
      assert forall d: nat :: j < d < next ==> !BracketAt(src, from, d, CLOSE_BRACKET);
    } else if src[j] == CLOSE_BRACKET {
      assert BracketAt(src, from, j, CLOSE_BRACKET);
    } else {
      ClassStays(src, from, j, next);
    }
  }

  lemma {:induction false} ClassStays(src: Text, from: nat, j: nat, next: nat)
    requires j < |src| && j < next && src[j] != OPEN_BRACKET && src[j] != CLOSE_BRACKET
    requires forall d: nat :: j < d < next ==> !Walks(src, from, d)
    ensures InClass(src, from, next) <==> InClass(src, from, j)
  {
    forall d: nat, bracket: CodePoint | j <= d < next && (bracket == OPEN_BRACKET || bracket == CLOSE_BRACKET)
      ensures !BracketAt(src, from, d, bracket)
    {
    }
    if b: nat :| b < next && BracketAt(src, from, b, OPEN_BRACKET)
                 && forall d: nat :: b < d < next ==> !BracketAt(src, from, d, CLOSE_BRACKET) {
      assert b < j;
      assert forall d: nat :: b < d < j ==> !BracketAt(src, from, d, CLOSE_BRACKET);
    }
    if b: nat :| b < j && BracketAt(src, from, b, OPEN_BRACKET)
                 && forall d: nat :: b < d < j ==> !BracketAt(src, from, d, CLOSE_BRACKET) {
      assert forall d: nat :: b < d < next ==> !BracketAt(src, from, d, CLOSE_BRACKET);
    }
  }

  /** The scan of a regular expression goes to its first stop. */
  lemma {:induction false} RegexEndStops(src: Text, from: nat, j: nat, inClass: bool)
    requires from <= j <= |src| + 1 && Walks(src, from, j) && (inClass <==> InClass(src, from, j))
    requires forall i: nat :: i < j ==> !Stops(src, from, i)
    ensures var end := RegexEnd(src, j, inClass) - 1;
            && (end < |src| ==> Stops(src, from, end))
            && forall i: nat :: i < end ==> !Stops(src, from, i)
    decreases |src| + 1 - j
  {
    if j < |src| && !Stops(src, from, j) {
      var next := TextStep(src, j);
      WalksOn(src, from, j);
      ClassGoesOn(src, from, j);
      forall i: nat | i < next
        ensures !Stops(src, from, i)
      {
        if j < i && Walks(src, from, i) {
          NoneBetween(src, from, j, i);
        }
      }
      RegexEndStops(src, from, next, (inClass || src[j] == OPEN_BRACKET) && src[j] != CLOSE_BRACKET);
    }
  }

  /**
   A regular expression reaches behind the first line end, or slash outside a class, that is not escaped, or
   to the end of the text.
   */
  lemma {:induction false} RegexExactly(src: Text, e: Extent)
    requires e.start < |src| && TrueBlank(src, e, Regex)
    ensures src[e.start] == SLASH && e.start + 1 <= e.end
    ensures var from := e.start + 1;
            && (forall i: nat :: i < e.end - 1 ==> !Stops(src, from, i))
            && (e.end < |src| ==> Stops(src, from, e.end - 1))
  {
    var from := e.start + 1;
    assert Walks(src, from, from);
    forall b: nat | b < from
      ensures !Walks(src, from, b)
    {
    }
    assert !InClass(src, from, from);
    RegexEndStops(src, from, from, false);
  }

  // ---- the tables ----

  /** The text is the string. */
  predicate Is(t: Text, s: string) {
    |t| == |s| && forall i :: 0 <= i < |s| ==> t[i] == s[i] as int
  }

  lemma {:induction false} AsciiIs(t: Text, s: string, w: string)
    requires Is(t, s) && forall i :: 0 <= i < |w| ==> w[i] < 128 as char
    ensures t == Ascii(w) <==> s == w
  {
    if t == Ascii(w) {
      forall i | 0 <= i < |s| ensures s[i] == w[i] {
        assert Ascii(w)[i] == w[i] as int;
      }
    }
  }

  /** The characters of a word. */
  lemma {:induction false} WordTable(c: char)
    requires c < 128 as char
    ensures IsWord(c as int) <==> 'a' <= c <= 'z' || 'A' <= c <= 'Z' || '0' <= c <= '9' || c == '_' || c == '$'
  {
  }

  const MARKS := ['(', ',', '=', ':', '[', '!', '&', '|', '?', '{', '}', ';', '\n']

  const KEYWORDS := ["return", "typeof", "case", "in", "of", "delete", "void", "throw", "new", "yield", "await"]

  lemma {:induction false} MarkTable(c: char)
    requires c < 128 as char
    ensures (c as int in {0x28, 0x2C, 0x3D, 0x3A, 0x5B, 0x21, 0x26, 0x7C, 0x3F, 0x7B, 0x7D, 0x3B, 0x0A}) <==> c in MARKS
  {
  }

  lemma {:induction false} KeywordTable(t: Text, s: string)
    requires Is(t, s)
    ensures (t in {Ascii("return"), Ascii("typeof"), Ascii("case"), Ascii("in"), Ascii("of"), Ascii("delete"),
                   Ascii("void"), Ascii("throw"), Ascii("new"), Ascii("yield"), Ascii("await")}) <==> s in KEYWORDS
  {
    AsciiIs(t, s, "return");
    AsciiIs(t, s, "typeof");
    AsciiIs(t, s, "case");
    AsciiIs(t, s, "in");
    AsciiIs(t, s, "of");
    AsciiIs(t, s, "delete");
    AsciiIs(t, s, "void");
    AsciiIs(t, s, "throw");
    AsciiIs(t, s, "new");
    AsciiIs(t, s, "yield");
    AsciiIs(t, s, "await");
  }

  /** A regular expression may open behind one of the marks, and behind one of the keywords. */
  lemma {:induction false} RegexTable(t: Text, s: string)
    requires Is(t, s) && forall i :: 0 <= i < |s| ==> s[i] < 128 as char
    ensures RegexAfter(t) <==> (|s| == 1 && s[0] in MARKS) || s in KEYWORDS
  {
    KeywordTable(t, s);
    if |s| == 1 {
      MarkTable(s[0]);
    }
  }
}
