/**
 String literal bodies as code-point sequences (lone surrogates included), the decoding of their
 escapes, and every spelling a writer can choose for a character.
 */
module TextEscapes {
  import opened Wrappers

  type CodePoint = c: int | 0 <= c < 0x110000
  type Text = seq<CodePoint>

  const BACKSLASH: CodePoint := 0x5C
  const NEWLINE: CodePoint := 0x0A
  const RETURN: CodePoint := 0x0D
  const DOUBLE: CodePoint := 0x22
  const SINGLE: CodePoint := 0x27
  const BACKTICK: CodePoint := 0x60
  const SLASH: CodePoint := 0x2F
  const STAR: CodePoint := 0x2A
  const OPEN_BRACE: CodePoint := 0x7B
  const CLOSE_BRACE: CodePoint := 0x7D
  const LOWER_U: CodePoint := 0x75
  const UPPER_U: CodePoint := 0x55
  const LOWER_X: CodePoint := 0x78

  // ---- digits ----

  predicate IsOctal(c: CodePoint) { 0x30 <= c <= 0x37 }

  predicate IsHex(c: CodePoint) {
    0x30 <= c <= 0x39 || 0x41 <= c <= 0x46 || 0x61 <= c <= 0x66
  }

  function DigitValue(c: CodePoint): nat
    requires IsHex(c)
  {
    if c <= 0x39 then c - 0x30 else if c <= 0x46 then c - 0x41 + 10 else c - 0x61 + 10
  }

  predicate AllHex(s: Text) { forall i :: 0 <= i < |s| ==> IsHex(s[i]) }

  /** `int(s, base)`. */
  function Number(s: Text, base: nat): nat
    requires AllHex(s)
  {
    if s == [] then 0 else Number(s[..|s| - 1], base) * base + DigitValue(s[|s| - 1])
  }

  /** How many characters at the start satisfy the digit class, at most `limit`. */
  function HexRun(s: Text): (n: nat)
    ensures n <= |s| && AllHex(s[..n])
    ensures n < |s| ==> !IsHex(s[n])
  {
    if s == [] || !IsHex(s[0]) then 0
    else
      var n := HexRun(s[1..]);
      assert s[..n + 1] == [s[0]] + s[1..][..n];
      n + 1
  }

  function OctalRun(s: Text, limit: nat): (n: nat)
    ensures n <= |s| && n <= limit && forall i :: 0 <= i < n ==> IsOctal(s[i])
  {
    if limit == 0 || s == [] || !IsOctal(s[0]) then 0 else 1 + OctalRun(s[1..], limit - 1)
  }

  // ---- decoding ----

  /** One escape: how many characters after the backslash it takes, and what it stands for. */
  datatype Escape = Escape(length: nat, value: Text)

  function PointOrRaw(point: nat, raw: Text): Text {
    if point <= 0x10FFFF then [point] else raw
  }

  function SimpleEscape(c: CodePoint): CodePoint {
    if c == 0x6E then NEWLINE
    else if c == 0x74 then 0x09
    else if c == 0x72 then RETURN
    else if c == 0x62 then 0x08
    else if c == 0x66 then 0x0C
    else if c == 0x76 then 0x0B
    else c
  }

  /** The digits of a fixed-width escape, when all `width` of them are there. */
  predicate HasHex(s: Text, from: nat, width: nat) {
    from + width <= |s| && AllHex(s[from..from + width])
  }

  /** The alternatives of the escape pattern in order; `s` is what follows the backslash. */
  function EscapeAt(s: Text): (e: Escape)
    requires s != []
    ensures 1 <= e.length <= |s|
  {
    var c := s[0];
    if c == LOWER_U && |s| > 1 && s[1] == OPEN_BRACE && HexRun(s[2..]) > 0
       && 2 + HexRun(s[2..]) < |s| && s[2 + HexRun(s[2..])] == CLOSE_BRACE then
      var n := HexRun(s[2..]);
      Escape(n + 3, PointOrRaw(Number(s[2..][..n], 16), [BACKSLASH] + s[..n + 3]))
    else if c == LOWER_U && HasHex(s, 1, 4) then
      Escape(5, PointOrRaw(Number(s[1..5], 16), [BACKSLASH] + s[..5]))
    else if c == UPPER_U && HasHex(s, 1, 8) then
      Escape(9, PointOrRaw(Number(s[1..9], 16), [BACKSLASH] + s[..9]))
    else if c == LOWER_X && HasHex(s, 1, 2) then
      Escape(3, PointOrRaw(Number(s[1..3], 16), [BACKSLASH] + s[..3]))
    else if IsOctal(c) then
      var n := OctalRun(s, 3);
      OctalIsHex(s, n);
      Escape(n, PointOrRaw(Number(s[..n], 8), []))
    else if c == RETURN && |s| > 1 && s[1] == NEWLINE then Escape(2, [])
    else if c == NEWLINE || c == RETURN then Escape(1, [])
    else Escape(1, [SimpleEscape(c)])
  }

  lemma {:induction false} OctalIsHex(s: Text, n: nat)
    requires n <= |s| && forall i :: 0 <= i < n ==> IsOctal(s[i])
    ensures AllHex(s[..n])
  {
  }

  /** The left-to-right substitution of every escape; a trailing backslash stays. */
  function Substitute(s: Text): Text
    decreases |s|
  {
    if s == [] then []
    else if s[0] == BACKSLASH && |s| > 1 then
      var e := EscapeAt(s[1..]);
      e.value + Substitute(s[1 + e.length..])
    else [s[0]] + Substitute(s[1..])
  }

  predicate HighSurrogate(c: CodePoint) { 0xD800 <= c < 0xDC00 }

  predicate LowSurrogate(c: CodePoint) { 0xDC00 <= c < 0xE000 }

  predicate Scalar(c: CodePoint) { !HighSurrogate(c) && !LowSurrogate(c) }

  /** The UTF-16 round trip: pairs join, and a lone surrogate makes it fail. */
  function JoinPairs(s: Text): Option<Text> {
    if s == [] then Some([])
    else if HighSurrogate(s[0]) then
      if |s| > 1 && LowSurrogate(s[1]) then
        var rest := JoinPairs(s[2..]);
        if rest.None? then None
        else Some([0x10000 + (s[0] - 0xD800) * 0x400 + (s[1] - 0xDC00)] + rest.value)
      else None
    else if LowSurrogate(s[0]) then None
    else
      var rest := JoinPairs(s[1..]);
      if rest.None? then None else Some([s[0]] + rest.value)
  }

  /** The string value of a literal body. */
  function Unescape(raw: Text): Text {
    var text := Substitute(raw);
    var joined := JoinPairs(text);
    if joined.Some? then joined.value else text
  }

  // ---- spelling ----

  /** The ways to write one character inside quotes. */
  datatype Spelling = Plain | Simple | Octal3 | Hex2 | Hex4 | Hex8 | Braced(width: nat) | Pair

  function HexDigit(v: nat): CodePoint
    requires v < 16
  {
    if v < 10 then 0x30 + v else 0x61 + (v - 10)
  }

  function Power(base: nat, width: nat): nat {
    if width == 0 then 1 else Power(base, width - 1) * base
  }

  /** `v` in `width` digits, leading zeros included. */
  function Digits(v: nat, base: nat, width: nat): (s: Text)
    requires 2 <= base <= 16
    ensures |s| == width && AllHex(s)
  {
    if width == 0 then [] else Digits(v / base, base, width - 1) + [HexDigit(v % base)]
  }

  lemma {:induction false} DigitsRead(v: nat, base: nat, width: nat)
    requires (base == 8 || base == 16) && v < Power(base, width)
    ensures Number(Digits(v, base, width), base) == v
  {
    if width > 0 {
      var shorter := Digits(v / base, base, width - 1);
      Quotient(v, base, Power(base, width - 1));
      DigitsRead(v / base, base, width - 1);
      LastDigit(shorter, v % base, base);
    }
  }

  lemma {:induction false} LastDigit(s: Text, d: nat, base: nat)
    requires AllHex(s) && d < base <= 16
    ensures AllHex(s + [HexDigit(d)])
    ensures Number(s + [HexDigit(d)], base) == Number(s, base) * base + d
  {
    assert (s + [HexDigit(d)])[..|s|] == s;
  }

  lemma {:induction false} Quotient(v: nat, base: nat, bound: nat)
    requires (base == 8 || base == 16) && v < bound * base
    ensures v / base < bound && v / base * base + v % base == v
  {
    if base == 8 { assert v / 8 < bound; } else { assert v / 16 < bound; }
  }

  predicate Control(c: CodePoint) { c in {NEWLINE, 0x09, RETURN, 0x08, 0x0C, 0x0B} }

  function ControlLetter(c: CodePoint): CodePoint
    requires Control(c)
  {
    if c == NEWLINE then 0x6E
    else if c == 0x09 then 0x74
    else if c == RETURN then 0x72
    else if c == 0x08 then 0x62
    else if c == 0x0C then 0x66
    else 0x76
  }

  /** A character that a backslash leaves alone. */
  predicate SelfEscaping(c: CodePoint) {
    && c !in {LOWER_U, UPPER_U, LOWER_X, NEWLINE, RETURN, 0x6E, 0x74, 0x72, 0x62, 0x66, 0x76}
    && !IsOctal(c)
  }

  /** Which spellings a character has inside quotes of one kind. */
  predicate CanSpell(c: CodePoint, how: Spelling, quote: CodePoint) {
    match how
    case Plain => c != quote && c != BACKSLASH && c != NEWLINE
    case Simple => Control(c) || SelfEscaping(c)
    case Octal3 => c < 512
    case Hex2 => c < 0x100
    case Hex4 => c < 0x10000
    case Hex8 => true
    case Braced(width) => c < Power(16, width) && width > 0
    case Pair => c >= 0x10000
  }

  function Spell(c: CodePoint, how: Spelling, quote: CodePoint): Text
    requires CanSpell(c, how, quote)
  {
    match how
    case Plain => [c]
    case Simple => [BACKSLASH, if Control(c) then ControlLetter(c) else c]
    case Octal3 => [BACKSLASH] + Digits(c, 8, 3)
    case Hex2 => [BACKSLASH, LOWER_X] + Digits(c, 16, 2)
    case Hex4 => [BACKSLASH, LOWER_U] + Digits(c, 16, 4)
    case Hex8 => [BACKSLASH, UPPER_U] + Digits(c, 16, 8)
    case Braced(width) => [BACKSLASH, LOWER_U, OPEN_BRACE] + Digits(c, 16, width) + [CLOSE_BRACE]
    case Pair =>
      [BACKSLASH, LOWER_U] + Digits(High(c), 16, 4) + [BACKSLASH, LOWER_U] + Digits(Low(c), 16, 4)
  }

  function High(c: CodePoint): CodePoint
    requires c >= 0x10000
  {
    0xD800 + (c - 0x10000) / 0x400
  }

  function Low(c: CodePoint): CodePoint
    requires c >= 0x10000
  {
    0xDC00 + (c - 0x10000) % 0x400
  }

  /** What the substitution turns one spelled character into; the surrogates of a pair join afterwards. */
  function Halves(c: CodePoint, how: Spelling): Text
    requires how.Pair? ==> c >= 0x10000
  {
    if how.Pair? then [High(c), Low(c)] else [c]
  }

  datatype Spelled = Spelled(c: CodePoint, how: Spelling)

  predicate Spellable(chars: seq<Spelled>, quote: CodePoint) {
    forall i :: 0 <= i < |chars| ==> CanSpell(chars[i].c, chars[i].how, quote)
  }

  function SpellAll(chars: seq<Spelled>, quote: CodePoint): Text
    requires Spellable(chars, quote)
  {
    if chars == [] then [] else Spell(chars[0].c, chars[0].how, quote) + SpellAll(chars[1..], quote)
  }

  function Value(chars: seq<Spelled>): Text {
    seq(|chars|, i requires 0 <= i < |chars| => chars[i].c)
  }

  function AllHalves(chars: seq<Spelled>, quote: CodePoint): Text
    requires Spellable(chars, quote)
  {
    if chars == [] then [] else Halves(chars[0].c, chars[0].how) + AllHalves(chars[1..], quote)
  }

  // ---- the round trip ----

  lemma {:induction false} Powers()
    ensures Power(16, 2) == 0x100 && Power(16, 4) == 0x10000 && Power(16, 8) == 0x1_0000_0000 && Power(8, 3) == 512
  {
    assert Power(16, 3) == 0x1000 && Power(16, 1) == 16 && Power(16, 0) == 1;
    assert Power(16, 5) == 0x100000 && Power(16, 6) == 0x1000000 && Power(16, 7) == 0x10000000;
    assert Power(8, 2) == 64 && Power(8, 1) == 8 && Power(8, 0) == 1;
  }

  lemma {:induction false} EscapeParts(letter: CodePoint, digits: Text, rest: Text, s: Text)
    requires s == [BACKSLASH, letter] + digits + rest
    ensures s[0] == BACKSLASH && s[1] == letter && s[1..][0] == letter
    ensures s[1..][1..1 + |digits|] == digits && s[1 + (|digits| + 1)..] == rest
    ensures digits != [] ==> s[1..][1] == digits[0]
  {
  }

  /** A fixed-width escape `\<letter><digits>` decodes to the number its digits write. */
  lemma {:induction false} FixedWidth(letter: CodePoint, v: CodePoint, width: nat, rest: Text)
    requires (letter == LOWER_X && width == 2) || (letter == LOWER_U && width == 4) || (letter == UPPER_U && width == 8)
    requires v < Power(16, width)
    ensures Substitute([BACKSLASH, letter] + Digits(v, 16, width) + rest) == [v] + Substitute(rest)
  {
    var digits := Digits(v, 16, width);
    var s := [BACKSLASH, letter] + digits + rest;
    var t := s[1..];
    EscapeParts(letter, digits, rest, s);
    assert letter == LOWER_U ==> t[1] == digits[0] != OPEN_BRACE;
    DigitsRead(v, 16, width);
    assert EscapeAt(t) == Escape(width + 1, [v]);
  }

  lemma {:induction false} HexRunOf(digits: Text, rest: Text)
    requires AllHex(digits) && (rest != [] ==> !IsHex(rest[0]))
    ensures HexRun(digits + rest) == |digits|
  {
    var s := digits + rest;
    if digits == [] {
      assert s == rest;
    } else {
      assert s[1..] == digits[1..] + rest;
      HexRunOf(digits[1..], rest);
    }
  }

  lemma {:induction false} BracedRead(v: CodePoint, width: nat, rest: Text)
    requires width > 0 && v < Power(16, width)
    ensures Substitute([BACKSLASH, LOWER_U, OPEN_BRACE] + Digits(v, 16, width) + [CLOSE_BRACE] + rest)
            == [v] + Substitute(rest)
  {
    var digits := Digits(v, 16, width);
    var s := [BACKSLASH, LOWER_U, OPEN_BRACE] + digits + [CLOSE_BRACE] + rest;
    BracedParts(digits, rest, s);
    HexRunOf(digits, [CLOSE_BRACE] + rest);
    DigitsRead(v, 16, width);
    assert EscapeAt(s[1..]) == Escape(width + 3, [v]);
  }

  lemma {:induction false} BracedParts(digits: Text, rest: Text, s: Text)
    requires s == [BACKSLASH, LOWER_U, OPEN_BRACE] + digits + [CLOSE_BRACE] + rest
    ensures s[0] == BACKSLASH && s[1..][0] == LOWER_U && s[1..][1] == OPEN_BRACE
    ensures s[1..][2..] == digits + ([CLOSE_BRACE] + rest) && s[1..][2..][..|digits|] == digits
    ensures s[1..][2 + |digits|] == CLOSE_BRACE && s[1 + (|digits| + 3)..] == rest
  {
  }

  lemma {:induction false} PairRead(c: CodePoint, rest: Text)
    requires c >= 0x10000
    ensures Substitute([BACKSLASH, LOWER_U] + Digits(High(c), 16, 4) + [BACKSLASH, LOWER_U] + Digits(Low(c), 16, 4)
      + rest)
            == [High(c), Low(c)] + Substitute(rest)
  {
    Powers();
    TwoRead(High(c), Low(c), 4, rest);
  }

  lemma {:induction false} TwoRead(high: CodePoint, low: CodePoint, width: nat, rest: Text)
    requires width == 4 && high < Power(16, width) && low < Power(16, width)
    ensures Substitute([BACKSLASH, LOWER_U] + Digits(high, 16, width) + [BACKSLASH, LOWER_U] + Digits(low, 16, width)
      + rest)
            == [high, low] + Substitute(rest)
  {
    var mark, first, second := [BACKSLASH, LOWER_U], Digits(high, 16, width), Digits(low, 16, width);
    FixedWidth(LOWER_U, low, width, rest);
    FixedWidth(LOWER_U, high, width, mark + second + rest);
    AssocFour(mark + first, mark, second, rest);
    Assoc([high], [low], Substitute(rest));
  }

  lemma {:induction false} SimpleRead(c: CodePoint, rest: Text)
    requires Control(c) || SelfEscaping(c)
    ensures Substitute([BACKSLASH, if Control(c) then ControlLetter(c) else c] + rest) == [c] + Substitute(rest)
  {
    var s := [BACKSLASH, if Control(c) then ControlLetter(c) else c] + rest;
    assert EscapeAt(s[1..]) == Escape(1, [c]);
    assert s[2..] == rest;
  }

  /** Any spelling of a character is decoded to it (or to its two halves). */
  lemma {:induction false} SpelledDecodes(c: CodePoint, how: Spelling, quote: CodePoint, rest: Text)
    requires CanSpell(c, how, quote)
    ensures Substitute(Spell(c, how, quote) + rest) == Halves(c, how) + Substitute(rest)
  {
    match how
    case Plain => assert ([c] + rest)[1..] == rest;
    case Simple => SimpleRead(c, rest);
    case Octal3 => Powers(); OctalDecodes(c, 3, rest);
    case Hex2 => Powers(); FixedWidth(LOWER_X, c, 2, rest);
    case Hex4 => Powers(); FixedWidth(LOWER_U, c, 4, rest);
    case Hex8 => Powers(); FixedWidth(UPPER_U, c, 8, rest);
    case Braced(width) => BracedRead(c, width, rest);
    case Pair => PairRead(c, rest);
  }

  lemma {:induction false} AllDecode(chars: seq<Spelled>, quote: CodePoint)
    requires Spellable(chars, quote)
    ensures Substitute(SpellAll(chars, quote)) == AllHalves(chars, quote)
  {
    if chars != [] {
      SpelledDecodes(chars[0].c, chars[0].how, quote, SpellAll(chars[1..], quote));
      AllDecode(chars[1..], quote);
    }
  }

  lemma {:induction false} HalvesJoin(chars: seq<Spelled>, quote: CodePoint)
    requires Spellable(chars, quote)
    requires forall i :: 0 <= i < |chars| ==> Scalar(chars[i].c)
    ensures JoinPairs(AllHalves(chars, quote)) == Some(Value(chars))
  {
    if chars != [] {
      HalvesJoin(chars[1..], quote);
      var c, rest := chars[0].c, AllHalves(chars[1..], quote);
      var all := AllHalves(chars, quote);
      assert Value(chars) == [c] + Value(chars[1..]);
      if chars[0].how.Pair? {
        assert all[2..] == rest;
        assert c - 0x10000 == (c - 0x10000) / 0x400 * 0x400 + (c - 0x10000) % 0x400;
      } else {
        assert all[1..] == rest;
      }
    }
  }

  /**
   No spelling hides a string: whatever mix of plain characters and escapes writes it, the decoded
   literal is the string itself.
   */
  lemma {:induction false} UnescapeInvertsSpelling(chars: seq<Spelled>, quote: CodePoint)
    requires Spellable(chars, quote)
    requires forall i :: 0 <= i < |chars| ==> Scalar(chars[i].c)
    ensures Unescape(SpellAll(chars, quote)) == Value(chars)
  {
    AllDecode(chars, quote);
    HalvesJoin(chars, quote);
  }

  // ---- what no writer spells ----

  lemma {:induction false} StepsOver(head: Text, rest: Text, s: Text)
    requires s == [BACKSLASH] + head + rest && head != []
    ensures s[0] == BACKSLASH && |s| > 1 && s[1..] == head + rest && s[1..][..|head|] == head
    ensures s[1 + |head|..] == rest
  {
  }

  /** A backslash at the end of a line joins the lines; one at the very end of the text stays. */
  lemma {:induction false} ContinuationVanishes(rest: Text)
    ensures Substitute([BACKSLASH] + [NEWLINE] + rest) == Substitute(rest)
    ensures Substitute([BACKSLASH] + [RETURN, NEWLINE] + rest) == Substitute(rest)
    ensures (rest != [] ==> rest[0] != NEWLINE) ==> Substitute([BACKSLASH] + [RETURN] + rest) == Substitute(rest)
    ensures Substitute([BACKSLASH]) == [BACKSLASH]
  {
    StepsOver([NEWLINE], rest, [BACKSLASH] + [NEWLINE] + rest);
    StepsOver([RETURN, NEWLINE], rest, [BACKSLASH] + [RETURN, NEWLINE] + rest);
    StepsOver([RETURN], rest, [BACKSLASH] + [RETURN] + rest);
    assert EscapeAt([NEWLINE] + rest) == Escape(1, []);
    assert EscapeAt([RETURN, NEWLINE] + rest) == Escape(2, []);
    assert (rest != [] ==> rest[0] != NEWLINE) ==> EscapeAt([RETURN] + rest) == Escape(1, []);
    assert [] + Substitute(rest) == Substitute(rest);
    assert [BACKSLASH] + Substitute([]) == [BACKSLASH];
  }

  lemma {:induction false} OctalRunOf(digits: Text, rest: Text, limit: nat)
    requires |digits| <= limit && forall i :: 0 <= i < |digits| ==> IsOctal(digits[i])
    requires |digits| == limit || rest == [] || !IsOctal(rest[0])
    ensures OctalRun(digits + rest, limit) == |digits|
  {
    var s := digits + rest;
    if digits == [] {
      assert s == rest;
    } else {
      assert s[1..] == digits[1..] + rest;
      OctalRunOf(digits[1..], rest, limit - 1);
    }
  }

  lemma {:induction false} OctalDigits(v: nat, width: nat)
    ensures forall i :: 0 <= i < width ==> IsOctal(Digits(v, 8, width)[i])
  {
    if width > 0 {
      OctalDigits(v / 8, width - 1);
      assert IsOctal(HexDigit(v % 8));
    }
  }

  /** An octal escape takes one to three digits, as many as there are. */
  lemma {:induction false} OctalDecodes(v: CodePoint, width: nat, rest: Text)
    requires 1 <= width <= 3 && v < Power(8, width)
    requires width == 3 || rest == [] || !IsOctal(rest[0])
    ensures Substitute([BACKSLASH] + Digits(v, 8, width) + rest) == [v] + Substitute(rest)
  {
    var digits := Digits(v, 8, width);
    OctalDigits(v, width);
    OctalRunOf(digits, rest, 3);
    DigitsRead(v, 8, width);
    StepsOver(digits, rest, [BACKSLASH] + digits + rest);
    assert IsOctal((digits + rest)[0]);
    assert EscapeAt(digits + rest) == Escape(width, [v]);
  }

  /** A number beyond the last code point stands for itself, as written. */
  lemma {:induction false} TooLargeStays(v: nat, width: nat, rest: Text)
    requires 0x10FFFF < v < Power(16, width) && width > 0
    ensures var braced := [LOWER_U, OPEN_BRACE] + Digits(v, 16, width) + [CLOSE_BRACE];
            Substitute([BACKSLASH] + braced + rest) == [BACKSLASH] + braced + Substitute(rest)
    ensures width == 8 ==>
      var wide := [UPPER_U] + Digits(v, 16, 8);
      Substitute([BACKSLASH] + wide + rest) == [BACKSLASH] + wide + Substitute(rest)
  {
    var digits := Digits(v, 16, width);
    var braced := [LOWER_U, OPEN_BRACE] + digits + [CLOSE_BRACE];
    var t := braced + rest;
    DigitsRead(v, 16, width);
    StepsOver(braced, rest, [BACKSLASH] + braced + rest);
    assert t[2..] == digits + ([CLOSE_BRACE] + rest);
    HexRunOf(digits, [CLOSE_BRACE] + rest);
    assert t[2..][..width] == digits && t[2 + width] == CLOSE_BRACE && t[..width + 3] == braced;
    assert EscapeAt(t) == Escape(width + 3, [BACKSLASH] + braced);
    if width == 8 {
      var wide := [UPPER_U] + digits;
      StepsOver(wide, rest, [BACKSLASH] + wide + rest);
      assert (wide + rest)[1..9] == digits && (wide + rest)[..9] == wide;
      assert EscapeAt(wide + rest) == Escape(9, [BACKSLASH] + wide);
    }
  }

  /** A surrogate without its partner beside it. */
  predicate LoneAt(s: Text, i: int) {
    && 0 <= i < |s|
    && ((HighSurrogate(s[i]) && (i + 1 < |s| ==> !LowSurrogate(s[i + 1])))
        || (LowSurrogate(s[i]) && (i > 0 ==> !HighSurrogate(s[i - 1]))))
  }

  /** The halves join, unless some surrogate is without its partner; then the text stays as it is. */
  lemma {:induction false} JoinsExactly(s: Text)
    ensures JoinPairs(s).None? <==> exists i :: LoneAt(s, i)
    decreases |s|
  {
    if s != [] {
      if HighSurrogate(s[0]) {
        if |s| > 1 && LowSurrogate(s[1]) {
          JoinsExactly(s[2..]);
          assert forall i :: LoneAt(s[2..], i) <==> i >= 0 && LoneAt(s, i + 2);
          assert !LoneAt(s, 0) && !LoneAt(s, 1);
          assert forall i :: LoneAt(s, i) ==> LoneAt(s[2..], i - 2);
        } else {
          assert LoneAt(s, 0);
        }
      } else if LowSurrogate(s[0]) {
        assert LoneAt(s, 0);
      } else {
        JoinsExactly(s[1..]);
        assert forall i :: LoneAt(s[1..], i) <==> i >= 0 && LoneAt(s, i + 1);
        assert forall i :: LoneAt(s, i) ==> LoneAt(s[1..], i - 1);
      }
    }
  }
}
