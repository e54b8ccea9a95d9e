/**
 What the cache parser accepts and returns, stated against the records a reply encodes:
 exact acceptance, exact consumption, prefix-freeness and the print/parse round trip.
 */
module CacheRoundTrip {
  import opened Outcome
  import opened RustText
  import opened Utf8
  import opened CacheTokenizer
  import opened CacheGrammar
  import opened CacheReply

  /** One record of a reply: what the parser returns of it, and what it reads and drops. */
  datatype Record = Record(
    node: ObjectRef,
    application: ObjectRef,
    parent: ObjectRef,
    indexInParent: i32,
    childCount: i32,
    interfaces: seq<Text>,
    name: Text,
    role: u32,
    description: Text,
    states: seq<u32>
  ) {
    function Visible(): CacheItem {
      CacheItem(node, parent, interfaces, name, role, states)
    }

    predicate Countable() {
      |interfaces| <= USIZE_MAX && |states| <= USIZE_MAX
    }
  }

  datatype Field =
    | StringField(text: Text)
    | CountField(count: nat)
    | U32Field(unsigned: u32)
    | I32Field(signed: i32)

  /** `t` encodes `f`: the very string, or any word that denotes the number. */
  predicate Encodes(t: Token, f: Field) {
    match f
    case StringField(s) => t == Quoted(s)
    case CountField(n) => t.Word? && Number(t.text, false) == Some(n)
    case U32Field(n) => t.Word? && Number(t.text, false) == Some(n)
    case I32Field(n) => t.Word? && Number(t.text, true) == Some(n)
  }

  predicate EncodesAt(ts: seq<Token>, i: nat, fs: seq<Field>) {
    i + |fs| <= |ts| && forall k :: 0 <= k < |fs| ==> Encodes(ts[i + k], fs[k])
  }

  function RefFields(o: ObjectRef): seq<Field> {
    [StringField(o.service), StringField(o.path)]
  }

  function StringFields(texts: seq<Text>): (fs: seq<Field>)
    ensures |fs| == |texts|
  {
    seq(|texts|, i requires 0 <= i < |texts| => StringField(texts[i]))
  }

  function U32Fields(ns: seq<u32>): (fs: seq<Field>)
    ensures |fs| == |ns|
  {
    seq(|ns|, i requires 0 <= i < |ns| => U32Field(ns[i]))
  }

  function HeadFields(r: Record): (fs: seq<Field>)
    ensures |fs| == 8
  {
    RefFields(r.node) + RefFields(r.application) + RefFields(r.parent)
    + [I32Field(r.indexInParent), I32Field(r.childCount)]
  }

  function MiddleFields(r: Record): (fs: seq<Field>)
    ensures |fs| == 4
  {
    [StringField(r.name), U32Field(r.role), StringField(r.description), CountField(|r.states|)]
  }

  function Fields(r: Record): (fs: seq<Field>)
    ensures |fs| == 13 + |r.interfaces| + |r.states|
  {
    HeadFields(r) + ([CountField(|r.interfaces|)]
    + (StringFields(r.interfaces) + (MiddleFields(r) + U32Fields(r.states))))
  }

  function AllFields(rs: seq<Record>): seq<Field> {
    if rs == [] then [] else AllFields(rs[..|rs| - 1]) + Fields(rs[|rs| - 1])
  }

  function VisibleItems(rs: seq<Record>): (items: seq<CacheItem>)
    ensures |items| == |rs|
  {
    seq(|rs|, i requires 0 <= i < |rs| => rs[i].Visible())
  }

  predicate AllCountable(rs: seq<Record>) {
    forall i :: 0 <= i < |rs| ==> rs[i].Countable()
  }

  /** `ts` is a reply with these records: the signature, the record count, every field. */
  predicate EncodesReply(ts: seq<Token>, rs: seq<Record>) {
    && AllCountable(rs) && |rs| <= 65536
    && |ts| == 2 + |AllFields(rs)|
    && ts[0] == Word(Bytes("a((so)(so)(so)iiassusau)"))
    && Encodes(ts[1], CountField(|rs|))
    && EncodesAt(ts, 2, AllFields(rs))
  }

  // ---------- Encoded fields are read ----------

  lemma EncodedParts(ts: seq<Token>, i: nat, a: seq<Field>, b: seq<Field>)
    ensures EncodesAt(ts, i, a + b) <==> EncodesAt(ts, i, a) && EncodesAt(ts, i + |a|, b)
  {
    if EncodesAt(ts, i, a + b) {
      forall k | 0 <= k < |a| ensures Encodes(ts[i + k], a[k]) { assert (a + b)[k] == a[k]; }
      forall k | 0 <= k < |b| ensures Encodes(ts[i + |a| + k], b[k]) { assert (a + b)[|a| + k] == b[k]; }
    }
    if EncodesAt(ts, i, a) && EncodesAt(ts, i + |a|, b) {
      forall k | 0 <= k < |a + b| ensures Encodes(ts[i + k], (a + b)[k]) {
        if k >= |a| { assert Encodes(ts[i + |a| + (k - |a|)], b[k - |a|]); }
      }
    }
  }

  lemma {:induction false} StringsRead(ts: seq<Token>, i: nat, texts: seq<Text>)
    ensures EncodesAt(ts, i, StringFields(texts)) <==> QuotedsAt(ts, i, |texts|) == Ok(texts) && i + |texts| <= |ts|
  {
    if texts != [] {
      var n := |texts| - 1;
      StringsRead(ts, i, texts[..n]);
      assert texts == texts[..n] + [texts[n]];
      assert StringFields(texts) == StringFields(texts[..n]) + [StringField(texts[n])];
      EncodedParts(ts, i, StringFields(texts[..n]), [StringField(texts[n])]);
      OneEncoded(ts, i + n, StringField(texts[n]));
    }
  }

  lemma {:induction false} U32sRead(ts: seq<Token>, i: nat, ns: seq<u32>)
    ensures EncodesAt(ts, i, U32Fields(ns)) <==> U32sAt(ts, i, |ns|) == Ok(ns) && i + |ns| <= |ts|
  {
    if ns != [] {
      var n := |ns| - 1;
      U32sRead(ts, i, ns[..n]);
      assert ns == ns[..n] + [ns[n]];
      assert U32Fields(ns) == U32Fields(ns[..n]) + [U32Field(ns[n])];
      EncodedParts(ts, i, U32Fields(ns[..n]), [U32Field(ns[n])]);
      OneEncoded(ts, i + n, U32Field(ns[n]));
    }
  }

  lemma OneEncoded(ts: seq<Token>, i: nat, f: Field)
    ensures EncodesAt(ts, i, [f]) <==> i < |ts| && Encodes(ts[i], f)
  {
    if i < |ts| {
      assert ts[i + 0] == ts[i] && [f][0] == f;
    }
  }

  /** The application, index and child count are read, whatever they are, and dropped. */
  lemma HeadRead(ts: seq<Token>, i: nat, r: Record)
    requires EncodesAt(ts, i, HeadFields(r))
    ensures HeadAt(ts, i) == Ok((r.node, r.parent))
  {
    var fs := HeadFields(r);
    assert Encodes(ts[i + 0], fs[0]) && Encodes(ts[i + 1], fs[1]) && Encodes(ts[i + 2], fs[2]);
    assert Encodes(ts[i + 3], fs[3]) && Encodes(ts[i + 4], fs[4]) && Encodes(ts[i + 5], fs[5]);
    assert Encodes(ts[i + 6], fs[6]) && Encodes(ts[i + 7], fs[7]);
  }

  lemma MiddleRead(ts: seq<Token>, i: nat, r: Record)
    requires |r.states| <= USIZE_MAX && EncodesAt(ts, i, MiddleFields(r))
    ensures QuotedAt(ts, i) == Ok(r.name) && U32At(ts, i + 1) == Ok(r.role)
    ensures QuotedAt(ts, i + 2) == Ok(r.description) && UsizeAt(ts, i + 3) == Ok(|r.states|)
  {
    var fs := MiddleFields(r);
    assert Encodes(ts[i + 0], fs[0]) && Encodes(ts[i + 1], fs[1]);
    assert Encodes(ts[i + 2], fs[2]) && Encodes(ts[i + 3], fs[3]);
  }

  lemma RecordParts(ts: seq<Token>, i: nat, r: Record)
    ensures EncodesAt(ts, i, Fields(r)) <==>
            && EncodesAt(ts, i, HeadFields(r))
            && EncodesAt(ts, i + 8, [CountField(|r.interfaces|)])
            && EncodesAt(ts, i + 9, StringFields(r.interfaces))
            && EncodesAt(ts, i + 9 + |r.interfaces|, MiddleFields(r))
            && EncodesAt(ts, i + 13 + |r.interfaces|, U32Fields(r.states))
  {
    var tail := MiddleFields(r) + U32Fields(r.states);
    EncodedParts(ts, i + 9 + |r.interfaces|, MiddleFields(r), U32Fields(r.states));
    EncodedParts(ts, i + 9, StringFields(r.interfaces), tail);
    EncodedParts(ts, i + 8, [CountField(|r.interfaces|)], StringFields(r.interfaces) + tail);
    EncodedParts(ts, i, HeadFields(r), [CountField(|r.interfaces|)] + (StringFields(r.interfaces) + tail));
  }

  lemma RecordRead(ts: seq<Token>, i: nat, r: Record)
    requires r.Countable() && EncodesAt(ts, i, Fields(r))
    ensures RecordAt(ts, i) == Ok((r.Visible(), i + |Fields(r)|))
  {
    hide HeadAt, QuotedsAt, U32sAt, Number, EncodesAt, HeadFields, MiddleFields, StringFields, U32Fields;
    RecordParts(ts, i, r);
    HeadRead(ts, i, r);
    CountRead(ts, i + 8, |r.interfaces|);
    StringsRead(ts, i + 9, r.interfaces);
    MiddleRead(ts, i + 9 + |r.interfaces|, r);
    U32sRead(ts, i + 13 + |r.interfaces|, r.states);
  }

  lemma CountRead(ts: seq<Token>, i: nat, n: nat)
    requires n <= USIZE_MAX
    ensures EncodesAt(ts, i, [CountField(n)]) <==> UsizeAt(ts, i) == Ok(n)
  {
    OneEncoded(ts, i, CountField(n));
  }

  lemma {:induction false} RecordsRead(ts: seq<Token>, i: nat, rs: seq<Record>)
    requires AllCountable(rs) && EncodesAt(ts, i, AllFields(rs))
    ensures RecordsAt(ts, i, |rs|) == Ok((VisibleItems(rs), i + |AllFields(rs)|))
  {
    hide Fields, RecordAt, EncodesAt, AllFields, VisibleItems, Record.Countable;
    if rs == [] {
      NoRecords();
    } else {
      var init, last := rs[..|rs| - 1], rs[|rs| - 1];
      LastRecord(init, last);
      assert rs == init + [last];
      EncodedParts(ts, i, AllFields(init), Fields(last));
      RecordsRead(ts, i, init);
      RecordRead(ts, i + |AllFields(init)|, last);
    }
  }

  lemma NoRecords()
    ensures AllFields([]) == [] && VisibleItems([]) == []
  {
  }

  lemma LastRecord(init: seq<Record>, last: Record)
    ensures AllFields(init + [last]) == AllFields(init) + Fields(last)
    ensures VisibleItems(init + [last]) == VisibleItems(init) + [last.Visible()]
  {
    assert (init + [last])[..|init|] == init;
  }

  // ---------- What is read was encoded ----------

  lemma HeadEncoded(ts: seq<Token>, i: nat) returns (r: Record)
    requires HeadAt(ts, i).Ok?
    ensures HeadAt(ts, i).value == (r.node, r.parent)
    ensures EncodesAt(ts, i, HeadFields(r))
  {
    r := Record(
      ObjectRefAt(ts, i).value, ObjectRefAt(ts, i + 2).value, ObjectRefAt(ts, i + 4).value,
      I32At(ts, i + 6).value, I32At(ts, i + 7).value, [], [], 0, [], []);
    hide ObjectRefAt, I32At, Encodes;
    RefEncoded(ts, i);
    RefEncoded(ts, i + 2);
    RefEncoded(ts, i + 4);
    I32Encoded(ts, i + 6);
    I32Encoded(ts, i + 7);
  }

  lemma RefEncoded(ts: seq<Token>, i: nat)
    requires ObjectRefAt(ts, i).Ok?
    ensures var o := ObjectRefAt(ts, i).value;
      i + 2 <= |ts| && Encodes(ts[i], StringField(o.service)) && Encodes(ts[i + 1], StringField(o.path))
  {
  }

  lemma I32Encoded(ts: seq<Token>, i: nat)
    requires I32At(ts, i).Ok?
    ensures i < |ts| && Encodes(ts[i], I32Field(I32At(ts, i).value))
  {
    hide Number;
  }

  lemma MiddleEncoded(ts: seq<Token>, i: nat, r: Record)
    requires QuotedAt(ts, i) == Ok(r.name) && U32At(ts, i + 1) == Ok(r.role)
    requires QuotedAt(ts, i + 2) == Ok(r.description) && UsizeAt(ts, i + 3) == Ok(|r.states|)
    ensures EncodesAt(ts, i, MiddleFields(r))
  {
    var fs := MiddleFields(r);
    assert Encodes(ts[i], fs[0]) && Encodes(ts[i + 1], fs[1]);
    assert Encodes(ts[i + 2], fs[2]) && Encodes(ts[i + 3], fs[3]);
  }

  lemma {:induction false} StringsInRange(ts: seq<Token>, i: nat, n: nat)
    requires QuotedsAt(ts, i, n).Ok? && i <= |ts|
    ensures i + n <= |ts|
  {
    if n > 0 { StringsInRange(ts, i, n - 1); }
  }

  lemma {:induction false} U32sInRange(ts: seq<Token>, i: nat, n: nat)
    requires U32sAt(ts, i, n).Ok? && i <= |ts|
    ensures i + n <= |ts|
  {
    if n > 0 { U32sInRange(ts, i, n - 1); }
  }

  lemma RecordEncoded(ts: seq<Token>, i: nat) returns (r: Record)
    requires RecordAt(ts, i).Ok?
    ensures r.Countable() && EncodesAt(ts, i, Fields(r))
    ensures RecordAt(ts, i).value == (r.Visible(), i + |Fields(r)|)
  {
    hide HeadAt, QuotedsAt, U32sAt, Number, EncodesAt, HeadFields, MiddleFields, StringFields, U32Fields;
    var item := RecordAt(ts, i).value.0;
    var n := UsizeAt(ts, i + 8).value;
    var head := HeadEncoded(ts, i);
    r := head.(
      interfaces := item.interfaces, name := item.name, role := item.role,
      description := QuotedAt(ts, i + 9 + n + 2).value, states := item.states);
    HeadKept(head, r);
    CountRead(ts, i + 8, n);
    StringsInRange(ts, i + 9, n);
    StringsRead(ts, i + 9, r.interfaces);
    MiddleEncoded(ts, i + 9 + n, r);
    U32sInRange(ts, i + 13 + n, |r.states|);
    U32sRead(ts, i + 13 + n, r.states);
    RecordParts(ts, i, r);
  }

  lemma HeadKept(a: Record, b: Record)
    requires a.node == b.node && a.application == b.application && a.parent == b.parent
    requires a.indexInParent == b.indexInParent && a.childCount == b.childCount
    ensures HeadFields(a) == HeadFields(b)
  {
  }

  lemma {:induction false} RecordsEncoded(ts: seq<Token>, i: nat, n: nat) returns (rs: seq<Record>)
    requires i <= |ts| && RecordsAt(ts, i, n).Ok?
    ensures |rs| == n && AllCountable(rs) && EncodesAt(ts, i, AllFields(rs))
    ensures RecordsAt(ts, i, n).value == (VisibleItems(rs), i + |AllFields(rs)|)
  {
    hide Fields, RecordAt, EncodesAt, AllFields, VisibleItems, Record.Countable;
    if n == 0 {
      rs := [];
      NoRecords();
      NothingEncoded(ts, i);
    } else {
      var init := RecordsEncoded(ts, i, n - 1);
      var last := RecordEncoded(ts, i + |AllFields(init)|);
      rs := init + [last];
      LastRecord(init, last);
      EncodedParts(ts, i, AllFields(init), Fields(last));
    }
  }

  lemma NothingEncoded(ts: seq<Token>, i: nat)
    requires i <= |ts|
    ensures EncodesAt(ts, i, [])
  {
  }

  // ---------- Main results ----------

  /** A token list is accepted with `items` exactly when it encodes records showing `items`. */
  lemma AcceptedTokens(ts: seq<Token>, items: seq<CacheItem>)
    ensures ItemsOf(ts) == Ok(items) <==> exists rs :: EncodesReply(ts, rs) && VisibleItems(rs) == items
  {
    hide RecordsAt, AllFields, VisibleItems;
    if ItemsOf(ts) == Ok(items) {
      var n := UsizeAt(ts, 1).value;
      var rs := RecordsEncoded(ts, 2, n);
      assert EncodesReply(ts, rs);
    }
    if rs :| EncodesReply(ts, rs) && VisibleItems(rs) == items {
      RecordsRead(ts, 2, rs);
    }
  }

  /** A reply text is accepted with `items` exactly when it lays out tokens that encode them. */
  lemma AcceptedReplies(output: Text, items: seq<CacheItem>)
    ensures ReplyOf(output) == Ok(items) <==>
            exists layout, trailing, rs ::
              IsLayoutOf(output, layout, trailing) && EncodesReply(Meanings(layout), rs) && VisibleItems(rs) == items
  {
    hide IsLayoutOf, EncodesReply, ItemsOf, VisibleItems, Meanings;
    if ReplyOf(output) == Ok(items) {
      var ts := TokensFrom(output, 0).value;
      Recognized(output, ts);
      AcceptedTokens(ts, items);
    }
    if layout, trailing, rs :|
      IsLayoutOf(output, layout, trailing) && EncodesReply(Meanings(layout), rs) && VisibleItems(rs) == items {
      Recognized(output, Meanings(layout));
      AcceptedTokens(Meanings(layout), items);
    }
  }

  /** Success consumes every token: exactly the declared number of records, and no token more. */
  lemma ExactConsumption(ts: seq<Token>)
    requires ItemsOf(ts).Ok?
    ensures UsizeAt(ts, 1) == Ok(|ItemsOf(ts).value|)
    ensures RecordsAt(ts, 2, |ItemsOf(ts).value|) == Ok((ItemsOf(ts).value, |ts|))
  {
    hide AllFields, VisibleItems, RecordAt;
    var rs := RecordsEncoded(ts, 2, UsizeAt(ts, 1).value);
  }

  /** No accepted token list is a proper prefix of another accepted one. */
  lemma PrefixFree(ts: seq<Token>, more: seq<Token>)
    requires ItemsOf(ts).Ok? && ItemsOf(ts + more).Ok?
    ensures more == []
  {
    hide RecordsAt, RecordAt, AllFields, VisibleItems;
    var us := ts + more;
    var n := UsizeAt(ts, 1).value;
    assert us[0] == ts[0] && us[1] == ts[1];
    var rs := RecordsEncoded(ts, 2, n);
    forall k | 0 <= k < |AllFields(rs)| ensures Encodes(us[2 + k], AllFields(rs)[k]) {
      assert us[2 + k] == ts[2 + k];
    }
    RecordsRead(us, 2, rs);
    ExactConsumption(ts);
    ExactConsumption(us);
  }

  // ---------- Printing ----------

  function PrintField(f: Field): Token {
    match f
    case StringField(s) => Quoted(s)
    case CountField(n) => Word(SignedText(n))
    case U32Field(n) => Word(SignedText(n))
    case I32Field(n) => Word(SignedText(n))
  }

  lemma PrintedFieldEncodes(f: Field)
    ensures Encodes(PrintField(f), f)
  {
    match f {
      case StringField(s) =>
      case CountField(n) => NumberRead(n);
      case U32Field(n) => NumberRead(n);
      case I32Field(n) => NumberRead(n);
    }
  }

  function PrintTokens(rs: seq<Record>): (ts: seq<Token>)
    ensures |ts| == 2 + |AllFields(rs)|
  {
    var fs := [CountField(|rs|)] + AllFields(rs);
    [Word(SIGNATURE)] + seq(|fs|, i requires 0 <= i < |fs| => PrintField(fs[i]))
  }

  /** A byte printed as itself, or behind a backslash where it must be. */
  function PrintByte(b: byte): Piece {
    if b == QUOTE || b == BACKSLASH then Escaped(b) else Raw(b)
  }

  function PrintToken(t: Token): Lexeme {
    match t
    case Word(text) => WordLexeme(text)
    case Quoted(text) => QuotedLexeme(seq(|text|, i requires 0 <= i < |text| => PrintByte(text[i])))
  }

  function PrintLayout(ts: seq<Token>): (items: seq<Item>)
    ensures |items| == |ts|
  {
    seq(|ts|, i requires 0 <= i < |ts| => Item([SPACE], PrintToken(ts[i])))
  }

  /** The text of a reply: one space in front of every token. */
  function Print(rs: seq<Record>): Text {
    Layout(PrintLayout(PrintTokens(rs)), [])
  }

  predicate Printable(t: Token) {
    match t
    case Word(text) => LegalLexeme(WordLexeme(text))
    case Quoted(text) => Valid(text)
  }

  lemma {:induction false} PlainPiecesLegal(ps: seq<Piece>)
    requires forall i :: 0 <= i < |ps| ==> ps[i] == PrintByte(ps[i].Byte())
    ensures LegalPieces(ps)
  {
    if ps != [] {
      PlainPiecesLegal(ps[1..]);
    }
  }

  lemma PrintedTokenLegal(t: Token)
    requires Printable(t)
    ensures LegalLexeme(PrintToken(t)) && Meaning(PrintToken(t)) == t
  {
    if t.Quoted? {
      var ps := PrintToken(t).pieces;
      assert Value(ps) == t.text;
      PlainPiecesLegal(ps);
    }
  }

  lemma {:induction false} PrintedLayoutLegal(ts: seq<Token>, trailing: Text)
    requires forall i :: 0 <= i < |ts| ==> Printable(ts[i])
    requires Blank(trailing)
    ensures Legal(PrintLayout(ts), trailing)
  {
    if ts != [] {
      PrintedTokenLegal(ts[0]);
      PrintedLayoutLegal(ts[1..], trailing);
      assert PrintLayout(ts)[1..] == PrintLayout(ts[1..]);
    }
  }

  predicate ValidField(f: Field) {
    f.StringField? ==> Valid(f.text)
  }

  /** Every string of the records is UTF-8. */
  predicate ValidRecords(rs: seq<Record>) {
    forall k :: 0 <= k < |AllFields(rs)| ==> ValidField(AllFields(rs)[k])
  }

  lemma PrintedFieldPrintable(f: Field)
    requires ValidField(f)
    ensures Printable(PrintField(f))
  {
    var t := PrintField(f);
    if t.Word? {
      assert forall i :: 0 <= i < |t.text| ==> IsDigit(t.text[i]) || t.text[i] == MINUS;
      AsciiIsValid(t.text);
    }
  }

  lemma SignaturePrintable()
    ensures Printable(Word(SIGNATURE))
  {
    hide Valid;
    AsciiIsValid(SIGNATURE);
  }

  /**
   Printing records and parsing the text gives them back in order: node, parent, interfaces,
   name, role and states, whatever the application, index, child count and description were, and
   whatever white space ends the text, as the line feed of a command's output does.
   */
  lemma RoundTrip(rs: seq<Record>, trailing: Text)
    requires AllCountable(rs) && ValidRecords(rs) && |rs| <= 65536
    requires forall i :: 0 <= i < |trailing| ==> trailing[i] in {9, 10, 12, 13, 32}
    ensures ReplyOf(Print(rs) + trailing) == Ok(VisibleItems(rs))
  {
    hide Legal, Layout, LegalLexeme, ItemsOf, Encodes, AllFields, Printable, PrintField, Print, Meaning, PrintToken;
    var ts := PrintTokens(rs);
    var fs := [CountField(|rs|)] + AllFields(rs);
    forall i | 0 <= i < |ts| ensures Printable(ts[i]) {
      if i == 0 { SignaturePrintable(); } else { PrintedPrintable(rs, i - 1); }
    }
    forall i | 0 <= i < |fs| ensures Encodes(ts[1 + i], fs[i]) {
      PrintedFieldEncodes(fs[i]);
    }
    PrintedReplyEncodes(ts, rs);
    PrintedLayoutLegal(ts, trailing);
    PrintedMeanings(ts);
    PrintIsLayout(rs, trailing);
    AcceptedReplies(Print(rs) + trailing, VisibleItems(rs));
  }

  lemma PrintIsLayout(rs: seq<Record>, trailing: Text)
    requires Legal(PrintLayout(PrintTokens(rs)), trailing)
    ensures IsLayoutOf(Print(rs) + trailing, PrintLayout(PrintTokens(rs)), trailing)
  {
    TrailingLast(PrintLayout(PrintTokens(rs)), trailing);
  }

  lemma {:induction false} TrailingLast(items: seq<Item>, trailing: Text)
    ensures Layout(items, trailing) == Layout(items, []) + trailing
  {
    hide SpellLexeme;
    if items != [] { TrailingLast(items[1..], trailing); }
  }

  lemma PrintedPrintable(rs: seq<Record>, k: nat)
    requires ValidRecords(rs) && k < 1 + |AllFields(rs)|
    ensures Printable(PrintField(([CountField(|rs|)] + AllFields(rs))[k]))
  {
    PrintedFieldPrintable(([CountField(|rs|)] + AllFields(rs))[k]);
  }

  lemma PrintedReplyEncodes(ts: seq<Token>, rs: seq<Record>)
    requires ts == PrintTokens(rs) && AllCountable(rs) && |rs| <= 65536
    requires forall i :: 0 <= i < 1 + |AllFields(rs)| ==> Encodes(ts[1 + i], ([CountField(|rs|)] + AllFields(rs))[i])
    ensures EncodesReply(ts, rs)
  {
    hide Encodes, AllFields, PrintField;
    var fs := [CountField(|rs|)] + AllFields(rs);
    assert Encodes(ts[1 + 0], fs[0]);
    forall k | 0 <= k < |AllFields(rs)| ensures Encodes(ts[2 + k], AllFields(rs)[k]) {
      assert Encodes(ts[1 + (k + 1)], fs[k + 1]);
    }
  }

  lemma PrintedMeanings(ts: seq<Token>)
    requires forall i :: 0 <= i < |ts| ==> Printable(ts[i])
    ensures Meanings(PrintLayout(ts)) == ts
  {
    forall i | 0 <= i < |ts| ensures Meaning(PrintLayout(ts)[i].lexeme) == ts[i] {
      PrintedTokenLegal(ts[i]);
    }
  }
}
