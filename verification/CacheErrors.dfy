/**
 What a cache reply that is not accepted fails for: the first token that does not fit the record
 it stands in, a reply that ends too soon, or one that goes on; or the first lexeme that is none.
 */
module CacheErrors {
  import opened Outcome
  import opened Positions
  import opened RustText
  import opened Utf8
  import opened CacheTokenizer
  import opened CacheGrammar
  import opened CacheReply
  import opened CacheRoundTrip

  /** No value a field of this kind can have is encoded by the token. */
  ghost predicate Misfit(t: Token, f: Field) {
    match f
    case StringField(_) => forall s :: t != Quoted(s)
    case CountField(_) => forall n: nat :: n < 0x1_0000_0000_0000_0000 ==> !Encodes(t, CountField(n))
    case U32Field(_) => forall n: u32 :: !Encodes(t, U32Field(n))
    case I32Field(_) => forall n: i32 :: !Encodes(t, I32Field(n))
  }

  /** What is said of it: a string where a number belongs or the other way round, or no such number. */
  function Complaint(us: seq<Token>, k: nat, f: Field): CacheError {
    if k >= |us| then TruncatedReply
    else
      match f
      case StringField(_) => ExpectedQuoted
      case CountField(_) => if us[k].Quoted? then ExpectedWord else InvalidCount
      case U32Field(_) => if us[k].Quoted? then ExpectedWord else InvalidUnsigned
      case I32Field(_) => if us[k].Quoted? then ExpectedWord else InvalidInteger
  }

  /** The first `m` fields are encoded from `i` on, and the next one is not there or not encoded. */
  ghost predicate FailsAt(us: seq<Token>, i: nat, fs: seq<Field>, m: nat) {
    && m < |fs| && i + m <= |us|
    && (forall q :: 0 <= q < m ==> Encodes(us[i + q], fs[q]))
    && (i + m == |us| || Misfit(us[i + m], fs[m]))
  }

  // ---------- One field ----------

  lemma ReadEncoded(us: seq<Token>, i: nat)
    ensures QuotedAt(us, i).Ok? ==> i < |us| && us[i] == Quoted(QuotedAt(us, i).value)
    ensures UsizeAt(us, i).Ok? ==> i < |us| && Encodes(us[i], CountField(UsizeAt(us, i).value))
    ensures U32At(us, i).Ok? ==> i < |us| && Encodes(us[i], U32Field(U32At(us, i).value))
    ensures I32At(us, i).Ok? ==> i < |us| && Encodes(us[i], I32Field(I32At(us, i).value))
  {
    hide Number;
  }

  lemma StringMisfit(us: seq<Token>, i: nat, f: Field)
    requires f.StringField? && FailsAt(us, i, [f], 0)
    ensures QuotedAt(us, i) == Err(Complaint(us, i, f))
  {
    ReadEncoded(us, i);
    assert i < |us| ==> Misfit(us[i + 0], [f][0]);
  }

  lemma CountMisfit(us: seq<Token>, i: nat, f: Field)
    requires f.CountField? && FailsAt(us, i, [f], 0)
    ensures UsizeAt(us, i) == Err(Complaint(us, i, f))
  {
    hide Number;
    ReadEncoded(us, i);
    assert i < |us| ==> Misfit(us[i + 0], [f][0]);
  }

  lemma U32Misfit(us: seq<Token>, i: nat, f: Field)
    requires f.U32Field? && FailsAt(us, i, [f], 0)
    ensures U32At(us, i) == Err(Complaint(us, i, f))
  {
    hide Number;
    ReadEncoded(us, i);
    assert i < |us| ==> Misfit(us[i + 0], [f][0]);
  }

  lemma I32Misfit(us: seq<Token>, i: nat, f: Field)
    requires f.I32Field? && FailsAt(us, i, [f], 0)
    ensures I32At(us, i) == Err(Complaint(us, i, f))
  {
    hide Number;
    ReadEncoded(us, i);
    assert i < |us| ==> Misfit(us[i + 0], [f][0]);
  }

  lemma FieldFails(us: seq<Token>, i: nat, fs: seq<Field>, m: nat)
    requires FailsAt(us, i, fs, m)
    ensures FailsAt(us, i + m, [fs[m]], 0)
  {
    hide Encodes;
    assert [fs[m]][0] == fs[m] && us == us;
    if i + m < |us| { assert us[i + m + 0] == us[i + m]; }
  }

  /** A list of fields fails in its first part, or behind it. */
  lemma PartFails(us: seq<Token>, i: nat, a: seq<Field>, b: seq<Field>, m: nat)
    requires FailsAt(us, i, a + b, m)
    ensures m < |a| ==> FailsAt(us, i, a, m) && (a + b)[m] == a[m]
    ensures m >= |a| ==> EncodesAt(us, i, a) && FailsAt(us, i + |a|, b, m - |a|) && (a + b)[m] == b[m - |a|]
  {
    hide Encodes, Misfit;
    var fs := a + b;
    forall q | 0 <= q < |a| && q < m ensures Encodes(us[i + q], a[q]) { assert fs[q] == a[q]; }
    if m >= |a| {
      forall q | 0 <= q < m - |a| ensures Encodes(us[i + |a| + q], b[q]) {
        assert fs[|a| + q] == b[q] && us[i + (|a| + q)] == us[i + |a| + q];
      }
      assert fs[m] == b[m - |a|];
      if i + m < |us| { assert us[i + |a| + (m - |a|)] == us[i + m]; }
    }
  }

  // ---------- The parts of a record ----------

  lemma {:induction false} StringsFail(us: seq<Token>, i: nat, texts: seq<Text>, m: nat)
    requires FailsAt(us, i, StringFields(texts), m)
    ensures QuotedsAt(us, i, |texts|) == Err(Complaint(us, i + m, StringFields(texts)[m]))
    decreases |texts|
  {
    hide Encodes, Misfit, QuotedAt;
    var n := |texts| - 1;
    var init, last := StringFields(texts[..n]), [StringField(texts[n])];
    assert StringFields(texts) == init + last;
    PartFails(us, i, init, last, m);
    if m < n {
      StringsFail(us, i, texts[..n], m);
    } else {
      StringsRead(us, i, texts[..n]);
      StringMisfit(us, i + n, last[0]);
    }
  }

  lemma {:induction false} U32sFail(us: seq<Token>, i: nat, ns: seq<u32>, m: nat)
    requires FailsAt(us, i, U32Fields(ns), m)
    ensures U32sAt(us, i, |ns|) == Err(Complaint(us, i + m, U32Fields(ns)[m]))
    decreases |ns|
  {
    hide Encodes, Misfit, U32At;
    var n := |ns| - 1;
    var init, last := U32Fields(ns[..n]), [U32Field(ns[n])];
    assert U32Fields(ns) == init + last;
    PartFails(us, i, init, last, m);
    if m < n {
      U32sFail(us, i, ns[..n], m);
    } else {
      U32sRead(us, i, ns[..n]);
      U32Misfit(us, i + n, last[0]);
    }
  }

  lemma RefFails(us: seq<Token>, i: nat, o: ObjectRef, m: nat)
    requires FailsAt(us, i, RefFields(o), m)
    ensures ObjectRefAt(us, i) == Err(Complaint(us, i + m, RefFields(o)[m]))
  {
    hide Misfit;
    FieldFails(us, i, RefFields(o), m);
    StringMisfit(us, i + m, RefFields(o)[m]);
    if m == 1 { assert Encodes(us[i + 0], RefFields(o)[0]); }
  }

  lemma RefRead(us: seq<Token>, i: nat, o: ObjectRef)
    requires EncodesAt(us, i, RefFields(o))
    ensures ObjectRefAt(us, i) == Ok(o)
  {
    assert Encodes(us[i + 0], RefFields(o)[0]) && Encodes(us[i + 1], RefFields(o)[1]);
  }

  lemma IntRead(us: seq<Token>, i: nat, n: i32)
    requires EncodesAt(us, i, [I32Field(n)])
    ensures I32At(us, i) == Ok(n)
  {
    hide Number;
    assert Encodes(us[i + 0], [I32Field(n)][0]);
  }

  lemma HeadFails(us: seq<Token>, i: nat, r: Record, m: nat)
    requires FailsAt(us, i, HeadFields(r), m)
    ensures HeadAt(us, i) == Err(Complaint(us, i + m, HeadFields(r)[m]))
  {
    hide ObjectRefAt, I32At, FailsAt, EncodesAt, Complaint, RefFields;
    var a, b, c := RefFields(r.node), RefFields(r.application), RefFields(r.parent);
    var d, e := [I32Field(r.indexInParent)], [I32Field(r.childCount)];
    RefSize(r);
    assert HeadFields(r) == a + (b + (c + (d + e)));
    PartFails(us, i, a, b + (c + (d + e)), m);
    if m < 2 {
      RefFails(us, i, r.node, m);
    } else {
      RefRead(us, i, r.node);
      PartFails(us, i + 2, b, c + (d + e), m - 2);
      if m < 4 {
        RefFails(us, i + 2, r.application, m - 2);
      } else {
        RefRead(us, i + 2, r.application);
        PartFails(us, i + 4, c, d + e, m - 4);
        if m < 6 {
          RefFails(us, i + 4, r.parent, m - 4);
        } else {
          RefRead(us, i + 4, r.parent);
          IntsFail(us, i + 6, r, m - 6);
        }
      }
    }
  }

  lemma RefSize(r: Record)
    ensures |RefFields(r.node)| == |RefFields(r.application)| == |RefFields(r.parent)| == 2
  {
  }

  lemma IntsFail(us: seq<Token>, i: nat, r: Record, m: nat)
    requires var fs := [I32Field(r.indexInParent)] + [I32Field(r.childCount)]; FailsAt(us, i, fs, m)
    ensures m == 0 ==> I32At(us, i) == Err(Complaint(us, i, I32Field(r.indexInParent)))
    ensures m == 1 ==> I32At(us, i).Ok? && I32At(us, i + 1) == Err(Complaint(us, i + 1, I32Field(r.childCount)))
    ensures m < 2
  {
    hide FailsAt, EncodesAt, Complaint, I32At;
    PartFails(us, i, [I32Field(r.indexInParent)], [I32Field(r.childCount)], m);
    Extent(us, i, [I32Field(r.indexInParent)] + [I32Field(r.childCount)], m);
    if m == 0 {
      I32Misfit(us, i, I32Field(r.indexInParent));
    } else {
      IntRead(us, i, r.indexInParent);
      I32Misfit(us, i + 1, I32Field(r.childCount));
    }
  }

  lemma Extent(us: seq<Token>, i: nat, fs: seq<Field>, m: nat)
    requires FailsAt(us, i, fs, m)
    ensures m < |fs|
  {
  }

  // ---------- A record, and all of them ----------

  lemma MiddleFails(us: seq<Token>, i: nat, r: Record, m: nat)
    requires FailsAt(us, i, MiddleFields(r), m)
    ensures m < 4
    ensures var e := Complaint(us, i + m, MiddleFields(r)[m]);
      && (if m == 0 then QuotedAt(us, i) == Err(e) else QuotedAt(us, i).Ok?)
      && (m >= 1 ==> if m == 1 then U32At(us, i + 1) == Err(e) else U32At(us, i + 1).Ok?)
      && (m >= 2 ==> if m == 2 then QuotedAt(us, i + 2) == Err(e) else QuotedAt(us, i + 2).Ok?)
      && (m == 3 ==> UsizeAt(us, i + 3) == Err(e))
  {
    hide Misfit, Number;
    var fs := MiddleFields(r);
    FieldFails(us, i, fs, m);
    if m >= 1 { assert Encodes(us[i + 0], fs[0]); }
    if m >= 2 { assert Encodes(us[i + 1], fs[1]); }
    if m == 3 { assert Encodes(us[i + 2], fs[2]); }
    if m == 0 { StringMisfit(us, i, fs[0]); }
    else if m == 1 { U32Misfit(us, i + 1, fs[1]); }
    else if m == 2 { StringMisfit(us, i + 2, fs[2]); }
    else { CountMisfit(us, i + 3, fs[3]); }
  }

  lemma RecordFails(us: seq<Token>, i: nat, r: Record, m: nat)
    requires r.Countable() && FailsAt(us, i, Fields(r), m)
    ensures RecordAt(us, i) == Err(Complaint(us, i + m, Fields(r)[m]))
  {
    hide HeadAt, QuotedsAt, U32sAt, QuotedAt, U32At, UsizeAt, EncodesAt, FailsAt, Complaint;
    hide HeadFields, MiddleFields, StringFields, U32Fields;
    var n := |r.interfaces|;
    var count, strings, middle, states :=
      [CountField(n)], StringFields(r.interfaces), MiddleFields(r), U32Fields(r.states);
    PartFails(us, i, HeadFields(r), count + (strings + (middle + states)), m);
    if m < 8 {
      HeadFails(us, i, r, m);
    } else {
      HeadRead(us, i, r);
      PartFails(us, i + 8, count, strings + (middle + states), m - 8);
      if m == 8 {
        CountMisfit(us, i + 8, count[0]);
      } else {
        CountRead(us, i + 8, n);
        PartFails(us, i + 9, strings, middle + states, m - 9);
        if m < 9 + n {
          StringsFail(us, i + 9, r.interfaces, m - 9);
        } else {
          StringsRead(us, i + 9, r.interfaces);
          RestFails(us, i + 9 + n, r, m - 9 - n);
        }
      }
    }
  }

  /** What stands behind the interfaces of a record. */
  lemma RestFails(us: seq<Token>, j: nat, r: Record, m: nat)
    requires r.Countable() && FailsAt(us, j, MiddleFields(r) + U32Fields(r.states), m)
    ensures var e := Complaint(us, j + m, (MiddleFields(r) + U32Fields(r.states))[m]);
      && (if m == 0 then QuotedAt(us, j) == Err(e) else QuotedAt(us, j).Ok?)
      && (m >= 1 ==> if m == 1 then U32At(us, j + 1) == Err(e) else U32At(us, j + 1).Ok?)
      && (m >= 2 ==> if m == 2 then QuotedAt(us, j + 2) == Err(e) else QuotedAt(us, j + 2).Ok?)
      && (m >= 3 ==> if m == 3 then UsizeAt(us, j + 3) == Err(e) else UsizeAt(us, j + 3) == Ok(|r.states|))
      && (m >= 4 ==> U32sAt(us, j + 4, |r.states|) == Err(e))
  {
    hide U32sAt, QuotedAt, U32At, UsizeAt, EncodesAt, FailsAt, Complaint, MiddleFields, U32Fields;
    PartFails(us, j, MiddleFields(r), U32Fields(r.states), m);
    if m < 4 {
      MiddleFails(us, j, r, m);
    } else {
      MiddleRead(us, j, r);
      U32sFail(us, j + 4, r.states, m - 4);
    }
  }

  lemma {:induction false} RecordsFail(us: seq<Token>, i: nat, rs: seq<Record>, m: nat)
    requires AllCountable(rs) && FailsAt(us, i, AllFields(rs), m)
    ensures RecordsAt(us, i, |rs|) == Err(Complaint(us, i + m, AllFields(rs)[m]))
    decreases |rs|
  {
    hide RecordAt, EncodesAt, FailsAt, Complaint, Fields, VisibleItems, Record.Countable;
    Extent(us, i, AllFields(rs), m);
    var init, last := rs[..|rs| - 1], rs[|rs| - 1];
    PartFails(us, i, AllFields(init), Fields(last), m);
    if m < |AllFields(init)| {
      RecordsFail(us, i, init, m);
    } else {
      RecordsRead(us, i, init);
      RecordFails(us, i + |AllFields(init)|, last, m - |AllFields(init)|);
    }
  }

  // ---------- Main results ----------

  /** Where a token list departs from an encoding of records, at a token that is missing or fits no
      value of the field there, that is the error, whatever follows. */
  lemma FirstMisfit(ts: seq<Token>, rs: seq<Record>, us: seq<Token>, k: nat)
    requires EncodesReply(ts, rs) && 2 <= k < |ts| && k <= |us| && us[..k] == ts[..k]
    requires k == |us| || Misfit(us[k], AllFields(rs)[k - 2])
    ensures ItemsOf(us) == Err(Complaint(us, k, AllFields(rs)[k - 2]))
  {
    hide RecordsAt, AllFields, Misfit, Complaint, AllCountable;
    var fs := AllFields(rs);
    assert forall q :: 0 <= q < k ==> us[q] == ts[q] by {
      forall q | 0 <= q < k ensures us[q] == ts[q] { assert us[..k][q] == ts[..k][q]; }
    }
    forall q | 0 <= q < k - 2 ensures Encodes(us[2 + q], fs[q]) { assert Encodes(ts[2 + q], fs[q]); }
    if k < |us| { assert us[2 + (k - 2)] == us[k]; }
    assert FailsAt(us, 2, fs, k - 2);
    RecordsFail(us, 2, rs, k - 2);
    CountRead(us, 1, |rs|);
    OneEncoded(us, 1, CountField(|rs|));
  }

  /** A reply that ends before its last token is truncated; one that goes on has tokens too many. */
  lemma CutOrContinued(ts: seq<Token>, k: nat, more: seq<Token>)
    requires ItemsOf(ts).Ok? && k < |ts| && more != []
    ensures ItemsOf(ts[..k]) == Err(TruncatedReply)
    ensures ItemsOf(ts + more) == Err(TrailingTokens)
  {
    hide RecordsAt, AllFields, Misfit, VisibleItems;
    AcceptedTokens(ts, ItemsOf(ts).value);
    var rs :| EncodesReply(ts, rs) && VisibleItems(rs) == ItemsOf(ts).value;
    if k >= 2 { FirstMisfit(ts, rs, ts[..k], k); }
    var us, fs := ts + more, AllFields(rs);
    forall q | 0 <= q < |fs| ensures Encodes(us[2 + q], fs[q]) { assert Encodes(ts[2 + q], fs[q]); }
    RecordsRead(us, 2, rs);
  }

  /** The first two tokens: the signature, and a count that is a number and not too large. */
  lemma HeaderErrors(us: seq<Token>, n: nat)
    ensures us == [] ==> ItemsOf(us) == Err(TruncatedReply)
    ensures us != [] && us[0].Quoted? ==> ItemsOf(us) == Err(ExpectedWord)
    ensures us != [] && us[0].Word? && us[0].text != Bytes("a((so)(so)(so)iiassusau)") ==>
      ItemsOf(us) == Err(UnexpectedSignature)
    ensures us == [Word(Bytes("a((so)(so)(so)iiassusau)"))] ==> ItemsOf(us) == Err(TruncatedReply)
    ensures |us| >= 2 && us[0] == Word(Bytes("a((so)(so)(so)iiassusau)")) ==>
      && (us[1].Quoted? ==> ItemsOf(us) == Err(ExpectedWord))
      && (us[1].Word? && Misfit(us[1], CountField(n)) ==> ItemsOf(us) == Err(InvalidCount))
      && (Encodes(us[1], CountField(n)) && 65536 < n < 0x1_0000_0000_0000_0000 ==> ItemsOf(us) == Err(TooManyItems))
  {
    hide RecordsAt, Number;
    if |us| >= 2 && us[1].Word? && Misfit(us[1], CountField(n)) { CountMisfit(us, 1, CountField(n)); }
  }

  // ---------- Texts that are no tokens ----------

  /** The pieces are legal in front of `tail`, whatever that is. */
  predicate LegalBefore(ps: seq<Piece>, tail: Text) {
    ps == [] || (LegalPiece(ps[0], SpellAll(ps[1..]) + tail) && LegalBefore(ps[1..], tail))
  }

  /** A backslash and three digits that are no octal byte. */
  predicate NoOctal(tail: Text) {
    && |tail| >= 4 && tail[0] == 92
    && tail[1] in DIGITS && tail[2] in DIGITS && tail[3] in DIGITS
    && !(tail[1] <= 51 && tail[2] <= 55 && tail[3] <= 55)
  }

  lemma PushBoth(a: Text, b: Text, r: Scan)
    ensures Push(a, Push(b, r)) == Push(a + b, r)
    ensures Push([], r) == r
  {
    if r.Ok? {
      assert a + (b + r.value.0) == a + b + r.value.0;
      assert [] + r.value.0 == r.value.0;
    }
  }

  lemma CutThere(s: Text, i: nat, a: Text, b: Text)
    requires i <= |s| && s[i..] == a + b
    ensures At(s, i, a) && i + |a| <= |s| && At(s, i + |a|, b) && s[i + |a|..] == b
  {
    var t := s[i..];
    assert forall k :: 0 <= k < |t| ==> t[k] == s[i + k];
    assert t[..|a|] == a && t[|a|..] == b;
    assert s[i + |a|..] == t[|a|..];
  }

  lemma PieceScanned(s: Text, i: nat, p: Piece, after: Text)
    requires i <= |s| && s[i..] == Spell(p) + after && LegalPiece(p, after)
    ensures i + |Spell(p)| <= |s| && s[i + |Spell(p)|..] == after
    ensures ScanQuoted(s, i) == Push([p.Byte()], ScanQuoted(s, i + |Spell(p)|))
  {
    hide ScanQuoted, At;
    CutThere(s, i, Spell(p), after);
    match p {
      case Raw(b) => RawScanned(s, i, b);
      case Octal(x, y, z) => OctalScanned(s, i, x, y, z);
      case Escaped(b) => EscapedScanned(s, i, b, after);
    }
  }

  lemma RawScanned(s: Text, i: nat, b: byte)
    requires At(s, i, [b]) && b != 34 && b != 92
    ensures ScanQuoted(s, i) == Push([b], ScanQuoted(s, i + 1))
  {
    assert s[i + 0] == [b][0];
  }

  lemma OctalScanned(s: Text, i: nat, x: HighDigit, y: LowDigit, z: LowDigit)
    requires At(s, i, [92, x, y, z])
    ensures ScanQuoted(s, i) == Push([(x - 0x30) * 64 + (y - 0x30) * 8 + (z - 0x30)], ScanQuoted(s, i + 4))
  {
    var t: Text := [92, x, y, z];
    assert s[i + 0] == t[0] && s[i + 1] == t[1] && s[i + 2] == t[2] && s[i + 3] == t[3];
  }

  lemma EscapedScanned(s: Text, i: nat, b: byte, after: Text)
    requires At(s, i, [92, b]) && At(s, i + 2, after) && i + 2 + |after| == |s| && LegalPiece(Escaped(b), after)
    ensures ScanQuoted(s, i) == Push([b], ScanQuoted(s, i + 2))
  {
    var t: Text := [92, b];
    assert s[i + 0] == t[0] && s[i + 1] == t[1];
    if |after| >= 2 { assert s[i + 2 + 0] == after[0] && s[i + 2 + 1] == after[1]; }
  }

  lemma {:induction false} PiecesScanned(s: Text, i: nat, ps: seq<Piece>, tail: Text)
    requires i <= |s| && s[i..] == SpellAll(ps) + tail && LegalBefore(ps, tail)
    ensures |tail| <= |s| && s[|s| - |tail|..] == tail
    ensures ScanQuoted(s, i) == Push(Value(ps), ScanQuoted(s, |s| - |tail|))
    decreases |ps|
  {
    hide ScanQuoted, LegalPiece, Spell, SpellAll, Value, Push;
    FirstOf(ps, tail);
    if ps == [] {
      PushBoth([], [], ScanQuoted(s, i));
    } else {
      var p, rest := ps[0], ps[1..];
      PieceScanned(s, i, p, SpellAll(rest) + tail);
      PiecesScanned(s, i + |Spell(p)|, rest, tail);
      PushBoth([p.Byte()], Value(rest), ScanQuoted(s, |s| - |tail|));
    }
  }

  lemma FirstOf(ps: seq<Piece>, tail: Text)
    ensures ps == [] ==> SpellAll(ps) + tail == tail && Value(ps) == []
    ensures ps != [] ==>
      && SpellAll(ps) + tail == Spell(ps[0]) + (SpellAll(ps[1..]) + tail)
      && Value(ps) == [ps[0].Byte()] + Value(ps[1..])
  {
    hide Spell;
    if ps != [] { assert Spell(ps[0]) + SpellAll(ps[1..]) + tail == Spell(ps[0]) + (SpellAll(ps[1..]) + tail); }
  }

  lemma TailScanned(s: Text, i: nat, tail: Text)
    requires i <= |s| && s[i..] == tail
    ensures tail == [] ==> ScanQuoted(s, i) == Err(UnterminatedString)
    ensures tail == [92] ==> ScanQuoted(s, i) == Err(TruncatedEscape)
    ensures NoOctal(tail) ==> ScanQuoted(s, i) == Err(InvalidOctalEscape)
    ensures tail != [] && tail[0] == 34 ==> ScanQuoted(s, i) == Ok(([], i + 1))
  {
    assert forall k :: 0 <= k < |tail| ==> tail[k] == s[i + k];
    if tail != [] { assert s[i + 0] == tail[0]; }
    if NoOctal(tail) { assert s[i + 1] == tail[1] && s[i + 2] == tail[2] && s[i + 3] == tail[3]; }
  }

  /** The lexemes are legal in front of `tail`: a word needs white space or the end behind it. */
  predicate LegalThen(items: seq<Item>, tail: Text) {
    || items == []
    || (&& Blank(items[0].gap) && LegalLexeme(items[0].lexeme)
        && (items[0].lexeme.WordLexeme? ==>
              if |items| > 1 then items[1].gap != [] else tail == [] || tail[0] in WHITE_SPACE)
        && LegalThen(items[1..], tail))
  }

  lemma BlankBehind(s: Text, j: nat, item: Item, rest: seq<Item>, tail: Text)
    requires LegalThen([item] + rest, tail) && j <= |s| && s[j..] == Layout(rest, tail)
    ensures item.lexeme.WordLexeme? && j < |s| ==> IsBlank(s[j])
    ensures LegalThen(rest, tail) && Blank(item.gap) && LegalLexeme(item.lexeme)
  {
    var items := [item] + rest;
    assert items[1..] == rest;
    if item.lexeme.WordLexeme? && j < |s| {
      assert s[j] == s[j..][0];
      if rest != [] {
        assert items[1] == rest[0];
        assert Layout(rest, tail)[0] == rest[0].gap[0];
      }
    }
  }

  lemma {:induction false} LayoutThen(s: Text, i: nat, items: seq<Item>, tail: Text)
    requires i <= |s| && s[i..] == Layout(items, tail) && LegalThen(items, tail)
    ensures |tail| <= |s| && s[|s| - |tail|..] == tail
    ensures TokensFrom(s, i) == Prepend(Meanings(items), TokensFrom(s, |s| - |tail|))
    decreases |items|
  {
    hide Valid, TokensFrom, SpellLexeme, LegalLexeme, LegalThen, Blank;
    if items == [] {
      assert Meanings(items) == [];
      PrependBoth([], [], TokensFrom(s, i));
    } else {
      var item, rest := items[0], items[1..];
      var gap, text, more := item.gap, SpellLexeme(item.lexeme), Layout(rest, tail);
      assert [item] + rest == items;
      SplitThere(s, i, gap, text, more);
      BlankBehind(s, i + |gap| + |text|, item, rest, tail);
      LayoutThen(s, i + |gap| + |text|, rest, tail);
      LexemeRead(s, i + |gap|, item.lexeme);
      GapSkipped(s, i, item);
      PrependBoth([Meaning(item.lexeme)], Meanings(rest), TokensFrom(s, |s| - |tail|));
      assert Meanings(items) == [Meaning(item.lexeme)] + Meanings(rest);
    }
  }

  lemma SplitThere(s: Text, i: nat, a: Text, b: Text, c: Text)
    requires i <= |s| && s[i..] == a + b + c
    ensures At(s, i, a) && At(s, i + |a|, b) && i + |a| + |b| <= |s| && s[i + |a| + |b|..] == c
  {
    var t := s[i..];
    assert forall k :: 0 <= k < |t| ==> t[k] == s[i + k];
    assert t[..|a|] == a && t[|a|..|a| + |b|] == b && t[|a| + |b|..] == c;
    forall k | 0 <= k < |b| ensures s[i + |a| + k] == b[k] { assert t[|a|..|a| + |b|][k] == t[|a| + k]; }
    assert s[i + |a| + |b|..] == t[|a| + |b|..];
  }

  lemma PrependBoth(a: seq<Token>, b: seq<Token>, r: TokenResult)
    ensures Prepend(a, Prepend(b, r)) == Prepend(a + b, r)
    ensures Prepend([], r) == r
  {
    if r.Ok? {
      assert a + (b + r.value) == a + b + r.value;
      assert [] + r.value == r.value;
    }
  }

  lemma PiecesFail(s: Text, i: nat, ps: seq<Piece>, tail: Text)
    requires i <= |s| && s[i..] == SpellAll(ps) + tail && LegalBefore(ps, tail)
    ensures tail == [] ==> ScanQuoted(s, i) == Err(UnterminatedString)
    ensures tail == [92] ==> ScanQuoted(s, i) == Err(TruncatedEscape)
    ensures NoOctal(tail) ==> ScanQuoted(s, i) == Err(InvalidOctalEscape)
    ensures tail != [] && tail[0] == 34 ==> ScanQuoted(s, i).Ok? && ScanQuoted(s, i).value.0 == Value(ps)
  {
    hide ScanQuoted, LegalBefore, NoOctal, SpellAll, Value;
    PiecesScanned(s, i, ps, tail);
    TailScanned(s, |s| - |tail|, tail);
    assert Value(ps) + [] == Value(ps);
  }

  lemma StringAt(s: Text, i: nat, gap: Text, ps: seq<Piece>, tail: Text)
    requires i <= |s| && s[i..] == gap + [34] + (SpellAll(ps) + tail) && Blank(gap) && LegalBefore(ps, tail)
    ensures tail == [] ==> TokensFrom(s, i) == Err(UnterminatedString)
    ensures tail == [92] ==> TokensFrom(s, i) == Err(TruncatedEscape)
    ensures NoOctal(tail) ==> TokensFrom(s, i) == Err(InvalidOctalEscape)
    ensures tail != [] && tail[0] == 34 && !Valid(Value(ps)) ==> TokensFrom(s, i) == Err(NonUtf8String)
  {
    hide Valid, ScanQuoted, TokensFrom, LegalBefore, Blank, NoOctal, SpellAll, Value, At;
    SplitThere(s, i, gap, [34], SpellAll(ps) + tail);
    StringStarts(s, i, gap);
    PiecesFail(s, i + |gap| + 1, ps, tail);
  }

  /** What makes a quoted string bad behind any legal lexemes: no end, a backslash at the end, three
      digits that are no octal byte, or bytes that are no UTF-8. */
  lemma BadString(items: seq<Item>, gap: Text, ps: seq<Piece>, tail: Text)
    requires LegalThen(items, gap + [34] + (SpellAll(ps) + tail)) && Blank(gap) && LegalBefore(ps, tail)
    ensures var s := Layout(items, gap + [34] + (SpellAll(ps) + tail));
      && (tail == [] ==> TokensFrom(s, 0) == Err(UnterminatedString))
      && (tail == [92] ==> TokensFrom(s, 0) == Err(TruncatedEscape))
      && (NoOctal(tail) ==> TokensFrom(s, 0) == Err(InvalidOctalEscape))
      && (tail != [] && tail[0] == 34 && !Valid(Value(ps)) ==> TokensFrom(s, 0) == Err(NonUtf8String))
  {
    hide Valid, TokensFrom, LegalThen, LegalBefore, Blank, NoOctal, Layout, SpellAll, Value;
    var rest := gap + [34] + (SpellAll(ps) + tail);
    var s := Layout(items, rest);
    WholeText(s);
    LayoutThen(s, 0, items, rest);
    StringAt(s, |s| - |rest|, gap, ps, tail);
  }

  lemma WholeText(s: Text)
    ensures s[0..] == s
  {
  }

  lemma WordAtIs(s: Text, i: nat, gap: Text, word: Text, tail: Text)
    requires i <= |s| && s[i..] == gap + word + tail && Blank(gap) && word != [] && word[0] != 34 && !Valid(word)
    requires (forall k :: 0 <= k < |word| ==> word[k] !in WHITE_SPACE) && (tail == [] || tail[0] in WHITE_SPACE)
    ensures TokensFrom(s, i) == Err(NonUtf8Word)
  {
    hide Valid, TokensFrom, Blank, WordEnd, SkipSpace, At;
    SplitThere(s, i, gap, word, tail);
    WordStands(s, i + |gap|, word, tail);
    GapEnds(s, i, gap);
    WordFound(s, i, i + |gap|);
  }

  lemma WordFound(s: Text, i: nat, start: nat)
    requires i <= |s| && SkipSpace(s, i) == start && start < |s| && s[start] != 34
    requires !Valid(s[start..WordEnd(s, start)])
    ensures TokensFrom(s, i) == Err(NonUtf8Word)
  {
    hide Valid, ScanQuoted, WordEnd, SkipSpace;
  }

  lemma WordStands(s: Text, start: nat, word: Text, tail: Text)
    requires At(s, start, word) && s[start + |word|..] == tail && word != [] && word[0] != 34
    requires (forall k :: 0 <= k < |word| ==> word[k] !in WHITE_SPACE) && (tail == [] || tail[0] in WHITE_SPACE)
    ensures start < |s| && s[start] !in WHITE_SPACE && s[start] != 34
    ensures WordEnd(s, start) == start + |word| && s[start..start + |word|] == word
  {
    hide WordEnd;
    assert s[start + 0] == word[0];
    if tail != [] { assert s[start + |word|] == tail[0]; }
    WordRead(s, start, word);
  }

  /** A word that is no UTF-8, behind any legal lexemes. */
  lemma BadWord(items: seq<Item>, gap: Text, word: Text, tail: Text)
    requires LegalThen(items, gap + word + tail) && Blank(gap) && word != [] && word[0] != 34 && !Valid(word)
    requires (forall k :: 0 <= k < |word| ==> word[k] !in WHITE_SPACE) && (tail == [] || tail[0] in WHITE_SPACE)
    ensures TokensFrom(Layout(items, gap + word + tail), 0) == Err(NonUtf8Word)
  {
    hide Valid, TokensFrom, LegalThen, Blank, Layout;
    var rest := gap + word + tail;
    var s := Layout(items, rest);
    WholeText(s);
    LayoutThen(s, 0, items, rest);
    WordAtIs(s, |s| - |rest|, gap, word, tail);
  }

  lemma GapEnds(s: Text, i: nat, gap: Text)
    requires Blank(gap) && At(s, i, gap) && i + |gap| < |s| && s[i + |gap|] !in WHITE_SPACE
    ensures SkipSpace(s, i) == i + |gap|
  {
    forall k | i <= k < i + |gap| ensures IsBlank(s[k]) { assert s[i + (k - i)] == gap[k - i]; }
    SpaceEnd(s, i, i + |gap|);
  }

  lemma StringStarts(s: Text, i: nat, gap: Text)
    requires Blank(gap) && At(s, i, gap) && At(s, i + |gap|, [34])
    ensures match ScanQuoted(s, i + |gap| + 1)
      case Err(e) => TokensFrom(s, i) == Err(e)
      case Ok((value, next)) => !Valid(value) ==> TokensFrom(s, i) == Err(NonUtf8String)
  {
    hide Valid, ScanQuoted, Blank;
    assert s[i + |gap| + 0] == [34][0];
    GapEnds(s, i, gap);
  }
}
