/**
 The grammar of the texts the cache tokenizer accepts. A text is laid out from lexemes: each
 has white space in front of it, mandatory only after a word, and a quoted string spells every
 byte raw, behind a backslash, or as three octal digits. The grammar has its own classes of bytes
 and knows nothing of the tokenizer; `Recognized` proves that the two agree on every input.
 */
module CacheGrammar {
  import opened Outcome
  import opened Positions
  import opened RustText
  import opened Utf8
  import opened CacheTokenizer

  /** Tab, line feed, form feed, carriage return and space. */
  const WHITE_SPACE: set<byte> := {9, 10, 12, 13, 32}

  const DOUBLE_QUOTE: byte := 34

  const ESCAPE: byte := 92

  /** The bytes of the ten decimal digits. */
  const DIGITS: set<byte> := {48, 49, 50, 51, 52, 53, 54, 55, 56, 57}

  type HighDigit = d: byte | 0x30 <= d <= 0x33 witness 0x30

  type LowDigit = d: byte | 0x30 <= d <= 0x37 witness 0x30

  datatype Piece = Raw(b: byte) | Escaped(b: byte) | Octal(x: HighDigit, y: LowDigit, z: LowDigit) {
    function Byte(): byte {
      match this
      case Raw(b) => b
      case Escaped(b) => b
      case Octal(x, y, z) => (x - 0x30) * 64 + (y - 0x30) * 8 + (z - 0x30)
    }
  }

  datatype Lexeme = WordLexeme(text: Text) | QuotedLexeme(pieces: seq<Piece>)

  datatype Item = Item(gap: Text, lexeme: Lexeme)

  function Spell(p: Piece): Text {
    match p
    case Raw(b) => [b]
    case Escaped(b) => [ESCAPE, b]
    case Octal(x, y, z) => [ESCAPE, x, y, z]
  }

  function SpellAll(ps: seq<Piece>): Text {
    if ps == [] then [] else Spell(ps[0]) + SpellAll(ps[1..])
  }

  function Value(ps: seq<Piece>): (v: Text)
    ensures |v| == |ps|
  {
    seq(|ps|, i requires 0 <= i < |ps| => ps[i].Byte())
  }

  /** A digit may stand behind a backslash only where it cannot be read as an octal escape. */
  predicate LegalPieces(ps: seq<Piece>) {
    ps == [] || (LegalPiece(ps[0], SpellAll(ps[1..])) && LegalPieces(ps[1..]))
  }

  predicate LegalPiece(p: Piece, after: Text) {
    match p
    case Raw(b) => b != DOUBLE_QUOTE && b != ESCAPE
    case Escaped(b) => !(b in DIGITS && |after| >= 2 && after[0] in DIGITS && after[1] in DIGITS)
    case Octal(_, _, _) => true
  }

  function SpellLexeme(l: Lexeme): Text {
    match l
    case WordLexeme(text) => text
    case QuotedLexeme(ps) => [DOUBLE_QUOTE] + SpellAll(ps) + [DOUBLE_QUOTE]
  }

  function Meaning(l: Lexeme): Token {
    match l
    case WordLexeme(text) => Word(text)
    case QuotedLexeme(ps) => Quoted(Value(ps))
  }

  predicate LegalLexeme(l: Lexeme) {
    match l
    case WordLexeme(text) =>
      && text != [] && text[0] != DOUBLE_QUOTE
      && (forall i :: 0 <= i < |text| ==> text[i] !in WHITE_SPACE) && Valid(text)
    case QuotedLexeme(ps) => LegalPieces(ps) && Valid(Value(ps))
  }

  predicate Blank(s: Text) {
    forall i :: 0 <= i < |s| ==> s[i] in WHITE_SPACE
  }

  /** `trailing` is the white space after the last lexeme. */
  predicate Legal(items: seq<Item>, trailing: Text) {
    if items == [] then Blank(trailing)
    else
      && Blank(items[0].gap)
      && LegalLexeme(items[0].lexeme)
      && (items[0].lexeme.WordLexeme? && |items| > 1 ==> items[1].gap != [])
      && Legal(items[1..], trailing)
  }

  function Layout(items: seq<Item>, trailing: Text): Text {
    if items == [] then trailing
    else items[0].gap + SpellLexeme(items[0].lexeme) + Layout(items[1..], trailing)
  }

  function Meanings(items: seq<Item>): (ts: seq<Token>)
    ensures |ts| == |items|
  {
    seq(|items|, i requires 0 <= i < |items| => Meaning(items[i].lexeme))
  }

  // ---------- Every legal layout is read back ----------

  /** Every byte has an octal spelling. */
  lemma OctalSpelling(b: byte) returns (p: Piece)
    ensures p.Octal? && p.Byte() == b
  {
    var high, low := b / 64, b % 64;
    p := Octal(0x30 + high, 0x30 + low / 8, 0x30 + low % 8);
  }

  lemma SpaceEnd(s: Text, i: nat, j: nat)
    requires i <= j <= |s|
    requires forall k :: i <= k < j ==> IsBlank(s[k])
    requires j < |s| ==> !IsBlank(s[j])
    ensures SkipSpace(s, i) == j
  {
  }

  lemma WordEndAt(s: Text, i: nat, j: nat)
    requires i <= j <= |s|
    requires forall k :: i <= k < j ==> !IsBlank(s[k])
    requires j < |s| ==> IsBlank(s[j])
    ensures WordEnd(s, i) == j
  {
  }

  lemma {:induction false} PiecesRead(s: Text, i: nat, ps: seq<Piece>)
    requires LegalPieces(ps)
    requires At(s, i, SpellAll(ps) + [QUOTE])
    ensures ScanQuoted(s, i) == Ok((Value(ps), i + |SpellAll(ps)| + 1))
    decreases |ps|
  {
    hide ScanQuoted, LegalPiece, Spell, At;
    if ps == [] {
      assert SpellAll(ps) + [QUOTE] == [QUOTE];
      ClosingQuoteRead(s, i);
      assert Value(ps) == [];
    } else {
      var p, rest := ps[0], ps[1..];
      FirstPiece(ps);
      AtParts(s, i, Spell(p), SpellAll(rest) + [QUOTE]);
      PiecesRead(s, i + |Spell(p)|, rest);
      PieceRead(s, i, p, SpellAll(rest));
    }
  }

  lemma ClosingQuoteRead(s: Text, i: nat)
    requires At(s, i, [QUOTE])
    ensures ScanQuoted(s, i) == Ok(([], i + 1))
  {
    assert s[i + 0] == [QUOTE][0];
  }

  lemma FirstPiece(ps: seq<Piece>)
    requires ps != []
    ensures SpellAll(ps) + [QUOTE] == Spell(ps[0]) + (SpellAll(ps[1..]) + [QUOTE])
    ensures |SpellAll(ps)| == |Spell(ps[0])| + |SpellAll(ps[1..])|
    ensures Value(ps) == [ps[0].Byte()] + Value(ps[1..])
  {
  }

  /** One legal piece is read as one byte. */
  lemma PieceRead(s: Text, i: nat, p: Piece, after: Text)
    requires LegalPiece(p, after)
    requires At(s, i, Spell(p)) && At(s, i + |Spell(p)|, after + [QUOTE])
    ensures ScanQuoted(s, i) == Push([p.Byte()], ScanQuoted(s, i + |Spell(p)|))
  {
    assert s[i + 0] == Spell(p)[0];
    match p {
      case Raw(b) =>
      case Octal(x, y, z) =>
        assert s[i + 1] == Spell(p)[1] && s[i + 2] == Spell(p)[2] && s[i + 3] == Spell(p)[3];
      case Escaped(b) =>
        assert s[i + 1] == Spell(p)[1];
        EscapeIsNotOctal(s, i, b, after);
    }
  }

  lemma EscapeIsNotOctal(s: Text, i: nat, b: byte, after: Text)
    requires i + 1 < |s| && s[i + 1] == b
    requires At(s, i + 2, after + [QUOTE])
    requires LegalPiece(Escaped(b), after)
    ensures !DigitsAt(s, i + 1)
  {
    AtParts(s, i + 2, after, [QUOTE]);
    assert s[i + 2 + |after|] == [QUOTE][0];
    if |after| >= 2 {
      assert s[i + 2 + 0] == after[0] && s[i + 2 + 1] == after[1];
    }
  }

  lemma {:induction false} LayoutRead(s: Text, i: nat, items: seq<Item>, trailing: Text)
    requires Legal(items, trailing)
    requires At(s, i, Layout(items, trailing)) && i + |Layout(items, trailing)| == |s|
    ensures TokensFrom(s, i) == Ok(Meanings(items))
    decreases |items|
  {
    hide Valid, TokensFrom, SpellLexeme, LegalLexeme;
    if items == [] {
      forall k | i <= k < |s| ensures IsBlank(s[k]) { assert s[i + (k - i)] == trailing[k - i]; }
      BlankRead(s, i);
      assert Meanings(items) == [];
    } else {
      var item, rest := items[0], items[1..];
      var text, tail := SpellLexeme(item.lexeme), Layout(rest, trailing);
      assert Layout(items, trailing) == item.gap + (text + tail);
      AtParts(s, i, item.gap, text + tail);
      var start := i + |item.gap|;
      AtParts(s, start, text, tail);
      LayoutRead(s, start + |text|, rest, trailing);
      WordFollowedBySpace(s, start + |text|, item.lexeme, rest, trailing);
      LexemeRead(s, start, item.lexeme);
      GapSkipped(s, i, item);
      assert Meanings(items) == [Meaning(item.lexeme)] + Meanings(rest);
    }
  }

  lemma BlankRead(s: Text, i: nat)
    requires i <= |s| && forall k :: i <= k < |s| ==> IsBlank(s[k])
    ensures TokensFrom(s, i) == Ok([])
  {
    SpaceEnd(s, i, |s|);
  }

  /** White space in front of a lexeme changes nothing. */
  lemma GapSkipped(s: Text, i: nat, item: Item)
    requires Blank(item.gap) && LegalLexeme(item.lexeme)
    requires At(s, i, item.gap) && At(s, i + |item.gap|, SpellLexeme(item.lexeme))
    ensures TokensFrom(s, i) == TokensFrom(s, i + |item.gap|)
  {
    hide SkipSpace, ScanQuoted, WordEnd, Valid, SpellLexeme, LegalLexeme;
    var start := i + |item.gap|;
    forall k | i <= k < start ensures IsBlank(s[k]) { assert s[i + (k - i)] == item.gap[k - i]; }
    LexemeStart(s, start, item.lexeme);
    SpaceEnd(s, i, start);
    SpaceEnd(s, start, start);
  }

  /** One legal lexeme is read as one token. */
  lemma LexemeRead(s: Text, start: nat, l: Lexeme)
    requires LegalLexeme(l) && At(s, start, SpellLexeme(l))
    requires l.WordLexeme? && start + |SpellLexeme(l)| < |s| ==> IsBlank(s[start + |SpellLexeme(l)|])
    ensures TokensFrom(s, start) == Prepend([Meaning(l)], TokensFrom(s, start + |SpellLexeme(l)|))
  {
    hide TokensFrom, ScanQuoted, SpellLexeme, Value, Valid, LegalPieces, WordEnd, At;
    LexemeStart(s, start, l);
    WordSpelled(l);
    SpaceEnd(s, start, start);
    match l {
      case WordLexeme(word) =>
        WordRead(s, start, word);
        WordToken(s, start);
      case QuotedLexeme(ps) =>
        QuotedRead(s, start, ps);
        QuotedToken(s, start);
    }
  }

  lemma WordSpelled(l: Lexeme)
    ensures l.WordLexeme? ==> SpellLexeme(l) == l.text
  {
  }

  lemma WordToken(s: Text, start: nat)
    requires start < |s| && SkipSpace(s, start) == start && s[start] != QUOTE && Valid(s[start..WordEnd(s, start)])
    ensures var end := WordEnd(s, start);
      TokensFrom(s, start) == Prepend([Word(s[start..end])], TokensFrom(s, end))
  {
    hide SkipSpace, WordEnd, ScanQuoted, Valid;
  }

  lemma QuotedToken(s: Text, start: nat)
    requires start < |s| && SkipSpace(s, start) == start && s[start] == QUOTE
    requires ScanQuoted(s, start + 1).Ok? && Valid(ScanQuoted(s, start + 1).value.0)
    ensures var (value, next) := ScanQuoted(s, start + 1).value;
      TokensFrom(s, start) == Prepend([Quoted(value)], TokensFrom(s, next))
  {
    hide SkipSpace, WordEnd, ScanQuoted, Valid;
  }

  lemma LexemeStart(s: Text, start: nat, l: Lexeme)
    requires LegalLexeme(l) && At(s, start, SpellLexeme(l))
    ensures start < |s| && s[start] == SpellLexeme(l)[0] && !IsBlank(s[start])
    ensures s[start] == QUOTE <==> l.QuotedLexeme?
  {
    hide Valid, SpellAll, LegalPieces;
    assert s[start + 0] == SpellLexeme(l)[0];
  }

  lemma QuotedRead(s: Text, start: nat, ps: seq<Piece>)
    requires LegalPieces(ps) && At(s, start, SpellLexeme(QuotedLexeme(ps)))
    ensures ScanQuoted(s, start + 1) == Ok((Value(ps), start + |SpellLexeme(QuotedLexeme(ps))|))
  {
    hide ScanQuoted, SpellAll, LegalPieces, At;
    assert SpellLexeme(QuotedLexeme(ps)) == [QUOTE] + (SpellAll(ps) + [QUOTE]);
    AtParts(s, start, [QUOTE], SpellAll(ps) + [QUOTE]);
    PiecesRead(s, start + 1, ps);
  }

  lemma WordRead(s: Text, start: nat, word: Text)
    requires At(s, start, word) && forall i :: 0 <= i < |word| ==> !IsBlank(word[i])
    requires start + |word| < |s| ==> IsBlank(s[start + |word|])
    ensures WordEnd(s, start) == start + |word| && s[start..start + |word|] == word
  {
    forall k | start <= k < start + |word| ensures !IsBlank(s[k]) {
      assert s[start + (k - start)] == word[k - start];
    }
    WordEndAt(s, start, start + |word|);
  }

  lemma WordFollowedBySpace(s: Text, j: nat, l: Lexeme, rest: seq<Item>, trailing: Text)
    requires Legal(rest, trailing) && (l.WordLexeme? && rest != [] ==> rest[0].gap != [])
    requires At(s, j, Layout(rest, trailing)) && j + |Layout(rest, trailing)| == |s|
    ensures l.WordLexeme? && j < |s| ==> IsBlank(s[j])
  {
    if j < |s| {
      assert s[j + 0] == Layout(rest, trailing)[0];
    }
  }

  // ---------- Every text that is read is a legal layout ----------

  lemma {:induction false} PiecesExist(s: Text, i: nat) returns (ps: seq<Piece>)
    requires i <= |s| && ScanQuoted(s, i).Ok?
    ensures LegalPieces(ps) && Value(ps) == ScanQuoted(s, i).value.0
    ensures s[i..ScanQuoted(s, i).value.1] == SpellAll(ps) + [QUOTE]
    decreases |s| - i
  {
    hide ScanQuoted, DigitsAt, OctalByte, LegalPiece, SpellAll, LegalPieces, Value;
    NoPieces();
    var end := ScanQuoted(s, i).value.1;
    if s[i] == QUOTE {
      ps := [];
      ClosingQuoteRead(s, i);
      assert s[i..i + 1] == [QUOTE];
    } else {
      var p, j := PieceAt(s, i);
      var rest := PiecesExist(s, j);
      ps := [p] + rest;
      assert s[i..end] == s[i..j] + s[j..end];
      PlainIsLegal(p, SpellAll(rest));
      if p.Escaped? {
        OctalRejected(s, i, SpellAll(rest), end);
      }
      PieceInFront(p, rest);
    }
  }

  lemma NoPieces()
    ensures LegalPieces([]) && Value([]) == [] && SpellAll([]) == []
  {
  }

  lemma PieceInFront(p: Piece, rest: seq<Piece>)
    requires LegalPieces(rest) && LegalPiece(p, SpellAll(rest))
    ensures LegalPieces([p] + rest)
    ensures Value([p] + rest) == [p.Byte()] + Value(rest)
    ensures SpellAll([p] + rest) == Spell(p) + SpellAll(rest)
  {
    hide LegalPiece, Spell;
    assert ([p] + rest)[1..] == rest;
  }

  lemma PlainIsLegal(p: Piece, after: Text)
    ensures LegalPiece(p, after) || p.Escaped? || (p.Raw? && (p.b == QUOTE || p.b == BACKSLASH))
  {
  }

  /** The piece a scan reads at `i`. */
  lemma PieceAt(s: Text, i: nat) returns (p: Piece, j: nat)
    requires i < |s| && s[i] != QUOTE && ScanQuoted(s, i).Ok?
    ensures i < j <= |s| && s[i..j] == Spell(p)
    ensures ScanQuoted(s, i) == Push([p.Byte()], ScanQuoted(s, j))
    ensures p.Raw? ==> p.b != QUOTE && p.b != BACKSLASH
    ensures p.Escaped? ==> j == i + 2 && !DigitsAt(s, i + 1)
  {
    if s[i] != BACKSLASH {
      p, j := Raw(s[i]), i + 1;
    } else if DigitsAt(s, i + 1) {
      p, j := Octal(s[i + 1], s[i + 2], s[i + 3]), i + 4;
      assert s[i..j] == [s[i], s[i + 1], s[i + 2], s[i + 3]];
    } else {
      p, j := Escaped(s[i + 1]), i + 2;
    }
  }

  lemma OctalRejected(s: Text, i: nat, after: Text, end: nat)
    requires i + 2 <= end <= |s| && !DigitsAt(s, i + 1)
    requires s[i + 2..end] == after + [QUOTE]
    ensures LegalPiece(Escaped(s[i + 1]), after)
  {
    if |after| >= 2 {
      assert s[i + 2..end][0] == after[0] && s[i + 2..end][1] == after[1];
    }
  }

  lemma {:induction false} LayoutExists(s: Text, i: nat) returns (items: seq<Item>, trailing: Text)
    requires i <= |s| && TokensFrom(s, i).Ok?
    ensures Legal(items, trailing) && s[i..] == Layout(items, trailing)
    ensures Meanings(items) == TokensFrom(s, i).value
    ensures items != [] && items[0].gap == [] ==> i < |s| && !IsBlank(s[i])
    decreases |s| - i
  {
    hide Valid, ScanQuoted, WordEnd, SpellLexeme, LegalLexeme, Layout, Meaning;
    var start := SkipSpace(s, i);
    EmptyLayout(s[i..]);
    if start == |s| {
      items, trailing := [], s[i..];
      assert Meanings(items) == [];
    } else {
      SpaceEnd(s, start, start);
      assert TokensFrom(s, i) == TokensFrom(s, start);
      var lexeme, end := LexemeAt(s, start);
      var rest;
      rest, trailing := LayoutExists(s, end);
      items := [Item(s[i..start], lexeme)] + rest;
      assert items[1..] == rest;
      LayoutExtended(s, i, start, end, lexeme, rest, trailing);
      Extended(items, trailing);
      SpaceIsBlank(s, i);
    }
  }

  lemma EmptyLayout(trailing: Text)
    ensures Layout([], trailing) == trailing
  {
  }

  lemma SpaceIsBlank(s: Text, i: nat)
    requires i <= |s|
    ensures Blank(s[i..SkipSpace(s, i)])
  {
  }

  /** A gap and a lexeme in front of a layout. */
  lemma LayoutExtended(s: Text, i: nat, start: nat, end: nat, lexeme: Lexeme, rest: seq<Item>, trailing: Text)
    requires i <= start <= end <= |s| && s[start..end] == SpellLexeme(lexeme) && s[end..] == Layout(rest, trailing)
    ensures s[i..] == Layout([Item(s[i..start], lexeme)] + rest, trailing)
  {
    hide SpellLexeme;
    var items := [Item(s[i..start], lexeme)] + rest;
    assert items[1..] == rest;
    assert s[i..] == s[i..start] + s[start..end] + s[end..];
  }

  /** Unfolds one item of a layout. */
  lemma Extended(items: seq<Item>, trailing: Text)
    requires items != []
    ensures Layout(items, trailing) == items[0].gap + SpellLexeme(items[0].lexeme) + Layout(items[1..], trailing)
    ensures Meanings(items) == [Meaning(items[0].lexeme)] + Meanings(items[1..])
  {
  }

  /** The lexeme a successful tokenizer reads at `start`. */
  lemma LexemeAt(s: Text, start: nat) returns (l: Lexeme, end: nat)
    requires start < |s| && !IsBlank(s[start]) && TokensFrom(s, start).Ok?
    ensures start < end <= |s| && s[start..end] == SpellLexeme(l) && LegalLexeme(l)
    ensures TokensFrom(s, start) == Prepend([Meaning(l)], TokensFrom(s, end))
    ensures l.WordLexeme? && end < |s| ==> IsBlank(s[end])
  {
    hide Valid, ScanQuoted, LegalPieces;
    if s[start] != QUOTE {
      end := WordEnd(s, start);
      l := WordLexeme(s[start..end]);
    } else {
      var ps := PiecesExist(s, start + 1);
      l := QuotedLexeme(ps);
      end := ScanQuoted(s, start + 1).value.1;
      assert s[start..end] == [QUOTE] + s[start + 1..end];
    }
  }

  // ---------- The tokenizer recognizes exactly the grammar ----------

  ghost predicate IsLayoutOf(s: Text, items: seq<Item>, trailing: Text) {
    Legal(items, trailing) && Layout(items, trailing) == s
  }

  /** The tokenizer returns `ts` exactly for the legal layouts whose lexemes mean `ts`. */
  lemma Recognized(s: Text, ts: seq<Token>)
    ensures TokensFrom(s, 0) == Ok(ts) <==>
            exists items, trailing :: IsLayoutOf(s, items, trailing) && Meanings(items) == ts
  {
    if TokensFrom(s, 0) == Ok(ts) {
      var items, trailing := LayoutExists(s, 0);
      assert s[0..] == s;
      assert IsLayoutOf(s, items, trailing);
    }
    if items, trailing :| IsLayoutOf(s, items, trailing) && Meanings(items) == ts {
      LayoutRead(s, 0, items, trailing);
    }
  }

  predicate StartsWithTwoDigits(s: Text) {
    |s| >= 2 && IsDigit(s[0]) && IsDigit(s[1])
  }

  /** A backslash in front of a digit, and more pieces behind it: the digit itself where two more
      digits do not follow; where they do, an error unless the three are an octal byte. */
  lemma EscapedDigitAccepted(b: byte, after: seq<Piece>)
    requires IsDigit(b) && LegalPieces(after)
    ensures var text := [QUOTE, BACKSLASH, b] + SpellAll(after) + [QUOTE];
      if !StartsWithTwoDigits(SpellAll(after)) then
        TokensFrom(text, 0)
          == if Valid([b] + Value(after)) then Ok([Quoted([b] + Value(after))]) else Err(NonUtf8String)
      else
        OctalByte(b, SpellAll(after)[0], SpellAll(after)[1]).None? ==> TokensFrom(text, 0) == Err(InvalidOctalEscape)
  {
    hide Valid, ScanQuoted, LegalPieces, SpellAll, Value, TokensFrom, OctalByte;
    if !StartsWithTwoDigits(SpellAll(after)) {
      DigitTaken(b, after);
    } else {
      if OctalByte(b, SpellAll(after)[0], SpellAll(after)[1]).None? { DigitRefused(b, SpellAll(after)); }
    }
  }

  lemma DigitSpelled(b: byte, after: seq<Piece>)
    requires IsDigit(b) && LegalPieces(after) && !StartsWithTwoDigits(SpellAll(after))
    ensures var ps := [Escaped(b)] + after;
      && LegalPieces(ps) && Value(ps) == [b] + Value(after)
      && SpellLexeme(QuotedLexeme(ps)) == [QUOTE, BACKSLASH, b] + SpellAll(after) + [QUOTE]
  {
    hide Value, SpellAll, LegalPieces;
    var ps := [Escaped(b)] + after;
    PieceInFront(Escaped(b), after);
    assert SpellAll(ps) == [BACKSLASH, b] + SpellAll(after);
    assert [QUOTE] + ([BACKSLASH, b] + SpellAll(after)) == [QUOTE, BACKSLASH, b] + SpellAll(after);
  }

  lemma DigitTaken(b: byte, after: seq<Piece>)
    requires IsDigit(b) && LegalPieces(after) && !StartsWithTwoDigits(SpellAll(after))
    ensures TokensFrom([QUOTE, BACKSLASH, b] + SpellAll(after) + [QUOTE], 0)
         == if Valid([b] + Value(after)) then Ok([Quoted([b] + Value(after))]) else Err(NonUtf8String)
  {
    hide Valid, ScanQuoted, LegalPieces, SpellAll, Value, TokensFrom;
    var text := [QUOTE, BACKSLASH, b] + SpellAll(after) + [QUOTE];
    var ps := [Escaped(b)] + after;
    DigitSpelled(b, after);
    hide SpellLexeme, StartsWithTwoDigits;
    OnlyQuoted(text);
    QuotedRead(text, 0, ps);
  }

  lemma DigitRefused(b: byte, rest: Text)
    requires IsDigit(b) && StartsWithTwoDigits(rest) && OctalByte(b, rest[0], rest[1]).None?
    ensures TokensFrom([QUOTE, BACKSLASH, b] + rest + [QUOTE], 0) == Err(InvalidOctalEscape)
  {
    hide ScanQuoted, TokensFrom, OctalByte;
    var text := [QUOTE, BACKSLASH, b] + rest + [QUOTE];
    OnlyQuoted(text);
    assert text[3] == rest[0] && text[4] == rest[1];
    RefusedOctal(text, 1);
  }

  /** A text that starts with a quote is one quoted string, or what reading that one gives. */
  lemma OnlyQuoted(s: Text)
    requires s != [] && s[0] == QUOTE
    ensures match ScanQuoted(s, 1)
      case Err(e) => TokensFrom(s, 0) == Err(e)
      case Ok((value, next)) =>
        next == |s| ==> TokensFrom(s, 0) == if Valid(value) then Ok([Quoted(value)]) else Err(NonUtf8String)
  {
    hide Valid, ScanQuoted, WordEnd;
    SpaceEnd(s, 0, 0);
    assert TokensFrom(s, |s|) == Ok([]);
    if ScanQuoted(s, 1).Ok? {
      var token := Quoted(ScanQuoted(s, 1).value.0);
      assert [token] + [] == [token];
    }
  }

  lemma RefusedOctal(s: Text, i: nat)
    requires i + 4 < |s| && s[i] == BACKSLASH && DigitsAt(s, i + 1)
    ensures OctalByte(s[i + 1], s[i + 2], s[i + 3]).None? ==> ScanQuoted(s, i) == Err(InvalidOctalEscape)
  {
  }

  // ---------- Words need no UTF-8 check ----------

  /** In valid text a word is cut at ASCII bytes only, so its own validity check never fails. */
  lemma {:induction false} WordsAreValid(s: Text, i: nat)
    requires i <= |s| && Valid(s[i..])
    ensures TokensFrom(s, i) != Err(NonUtf8Word)
    decreases |s| - i
  {
    hide Valid, ScanQuoted;
    var start := SkipSpace(s, i);
    if start < |s| {
      CutAfterSpace(s, i, start);
      if s[start] != QUOTE {
        WordIsValid(s, start);
        WordsAreValid(s, WordEnd(s, start));
      } else {
        ScanErrors(s, start + 1);
        if ScanQuoted(s, start + 1).Ok? {
          var next := ScanQuoted(s, start + 1).value.1;
          CutAfterQuote(s, start, next);
          WordsAreValid(s, next);
        }
      }
    }
  }

  lemma WordIsValid(s: Text, start: nat)
    requires start < |s| && Valid(s[start..])
    ensures Valid(s[start..WordEnd(s, start)]) && Valid(s[WordEnd(s, start)..])
  {
    var end := WordEnd(s, start);
    CutBeforeAscii(s[start..], end - start);
    assert s[start..][..end - start] == s[start..end] && s[start..][end - start..] == s[end..];
  }

  lemma CutAfterQuote(s: Text, start: nat, next: nat)
    requires start < next <= |s| && Valid(s[start..]) && s[next - 1] == QUOTE
    ensures Valid(s[next..])
  {
    CutBeforeAscii(s[start..], next - 1 - start);
    assert s[start..][next - 1 - start..] == s[next - 1..];
    DropAscii(s[next - 1..]);
    assert s[next - 1..][1..] == s[next..];
  }

  lemma {:induction false} CutAfterSpace(s: Text, i: nat, j: nat)
    requires i <= j <= |s| && Valid(s[i..])
    requires forall k :: i <= k < j ==> IsBlank(s[k])
    ensures Valid(s[j..])
    decreases j - i
  {
    if i < j {
      DropAscii(s[i..]);
      assert s[i..][1..] == s[i + 1..];
      CutAfterSpace(s, i + 1, j);
    }
  }

  lemma {:induction false} ScanErrors(s: Text, i: nat)
    requires i <= |s|
    ensures ScanQuoted(s, i) != Err(NonUtf8Word)
    decreases |s| - i
  {
    if i < |s| && s[i] != QUOTE {
      if s[i] != BACKSLASH {
        ScanErrors(s, i + 1);
      } else if i + 1 < |s| {
        ScanErrors(s, i + 2);
        if DigitsAt(s, i + 1) {
          ScanErrors(s, i + 4);
        }
      }
    }
  }
}
