/**
 Lists of window records as qdbus prints them, and what the scan makes of any text. A text is a
 listing of what the scan takes for records; a printed list is recovered whatever its titles hold,
 and whatever its records' tails hold exactly as long as no quote stands behind a marker in them.
 */
module WindowListing {
  import opened Outcome
  import opened Positions
  import opened KwinWindows

  /** A character of a quoted string: as it is, or behind a backslash. */
  datatype Glyph = Plain(c: char) | Escaped(c: char)

  predicate LegalGlyphs(gs: seq<Glyph>) {
    forall i :: 0 <= i < |gs| && gs[i].Plain? ==> gs[i].c != '"' && gs[i].c != '\\'
  }

  function Spell(gs: seq<Glyph>): string {
    if gs == [] then ""
    else (if gs[0].Plain? then [gs[0].c] else ['\\', gs[0].c]) + Spell(gs[1..])
  }

  function Value(gs: seq<Glyph>): string {
    seq(|gs|, i requires 0 <= i < |gs| => gs[i].c)
  }

  function Literal(gs: seq<Glyph>): string {
    "\"" + Spell(gs) + "\""
  }

  predicate QuoteFree(s: string) {
    forall i :: 0 <= i < |s| ==> s[i] != '"'
  }

  predicate MarkerFree(s: string) {
    forall j :: 0 <= j <= |s| ==> !At(s, j, MARKER)
  }

  // ---------- First occurrences ----------

  function Uuids(ms: seq<RunnerWindowMatch>): set<string> {
    set i | 0 <= i < |ms| :: ms[i].kwinUuid
  }

  /** The first match of every window id, in order. */
  function FirstOf(ms: seq<RunnerWindowMatch>): seq<RunnerWindowMatch>
    decreases |ms|
  {
    if ms == [] then []
    else
      var init, last := ms[..|ms| - 1], ms[|ms| - 1];
      FirstOf(init) + if last.kwinUuid in Uuids(init) then [] else [last]
  }

  /** The first matches of the ids not yet seen. */
  function Unseen(ms: seq<RunnerWindowMatch>, seen: set<string>): seq<RunnerWindowMatch>
    decreases |ms|
  {
    if ms == [] then []
    else if ms[0].kwinUuid in seen then Unseen(ms[1..], seen)
    else [ms[0]] + Unseen(ms[1..], seen + {ms[0].kwinUuid})
  }

  lemma UuidsLast(init: seq<RunnerWindowMatch>, last: RunnerWindowMatch)
    ensures Uuids(init + [last]) == Uuids(init) + {last.kwinUuid}
  {
    var ms := init + [last];
    forall x | x in Uuids(init) + {last.kwinUuid} ensures x in Uuids(ms) {
      if x in Uuids(init) {
        var i :| 0 <= i < |init| && init[i].kwinUuid == x;
        assert ms[i].kwinUuid == x;
      } else {
        assert ms[|init|].kwinUuid == x;
      }
    }
    forall x | x in Uuids(ms) ensures x in Uuids(init) + {last.kwinUuid} {
      var i :| 0 <= i < |ms| && ms[i].kwinUuid == x;
      if i < |init| { assert init[i].kwinUuid == x; }
    }
  }

  /** A set of the ids seen so far keeps exactly the first occurrences. */
  lemma {:induction false} SeenIsFirst(done: seq<RunnerWindowMatch>, rest: seq<RunnerWindowMatch>)
    ensures FirstOf(done) + Unseen(rest, Uuids(done)) == FirstOf(done + rest)
    decreases |rest|
  {
    hide Uuids, FirstOf;
    if rest == [] {
      assert done + rest == done;
      assert FirstOf(done) + [] == FirstOf(done);
    } else {
      var next := done + [rest[0]];
      UuidsLast(done, rest[0]);
      FirstOfLast(done, rest[0]);
      SeenIsFirst(next, rest[1..]);
      assert next + rest[1..] == done + rest;
      var later := Unseen(rest[1..], Uuids(next));
      if rest[0].kwinUuid in Uuids(done) {
        assert Uuids(next) == Uuids(done);
        assert FirstOf(done) + [] == FirstOf(done);
      } else {
        assert FirstOf(done) + ([rest[0]] + later) == (FirstOf(done) + [rest[0]]) + later;
      }
    }
  }

  lemma FirstOfLast(init: seq<RunnerWindowMatch>, last: RunnerWindowMatch)
    ensures FirstOf(init + [last]) == FirstOf(init) + if last.kwinUuid in Uuids(init) then [] else [last]
  {
    hide Uuids;
    assert (init + [last])[..|init|] == init;
  }

  lemma UnseenIsFirst(ms: seq<RunnerWindowMatch>)
    ensures Unseen(ms, {}) == FirstOf(ms)
  {
    assert Uuids([]) == {};
    SeenIsFirst([], ms);
    assert [] + ms == ms;
  }

  // ---------- What the scan takes for records ----------

  /** A marker behind a gap, and three quoted strings behind it; what stands in between them is
      free of quotes. */
  datatype Segment = Segment(
    gap: string, lead: string, id: seq<Glyph>, comma1: string, title: seq<Glyph>, comma2: string, icon: seq<Glyph>)
  {
    predicate Legal() {
      && MarkerFree(gap) && QuoteFree(lead) && QuoteFree(comma1) && QuoteFree(comma2)
      && LegalGlyphs(id) && LegalGlyphs(title) && LegalGlyphs(icon)
    }

    function Texts(): string {
      Literal(id) + (comma1 + (Literal(title) + (comma2 + Literal(icon))))
    }

    function Print(): string {
      gap + (MARKER + (lead + Texts()))
    }

    function Match(): RunnerWindowMatch {
      RunnerWindowMatch(NormalizeRunnerWindowId(Value(id)), Value(title), Value(icon))
    }
  }

  predicate LegalSegments(gs: seq<Segment>) {
    forall k :: 0 <= k < |gs| ==> gs[k].Legal()
  }

  function MatchesOf(gs: seq<Segment>): seq<RunnerWindowMatch> {
    if gs == [] then [] else [gs[0].Match()] + MatchesOf(gs[1..])
  }

  /** No marker from `i` on, or a first one without three quoted strings behind it. */
  predicate DeadAt(s: string, i: nat)
    requires i <= |s|
  {
    match Find(s, i, MARKER)
    case None => true
    case Some(m) => Fields(s, m + |MARKER|).None?
  }

  /** From `i` on the text is the segments, one behind the other, and nothing more to read. */
  predicate Listing(s: string, i: nat, gs: seq<Segment>)
    requires i <= |s|
    decreases |gs|
  {
    if gs == [] then DeadAt(s, i)
    else At(s, i, gs[0].Print()) && Listing(s, i + |gs[0].Print()|, gs[1..])
  }

  // ---------- Reading quoted text ----------

  lemma {:induction false} GlyphsRead(s: string, i: nat, gs: seq<Glyph>)
    requires LegalGlyphs(gs) && At(s, i, Spell(gs) + "\"")
    ensures Unquote(s, i, false) == Some((Value(gs), i + |Spell(gs)| + 1))
    decreases |gs|
  {
    if gs == [] {
      assert s[i + 0] == (Spell(gs) + "\"")[0];
      assert Value(gs) == "";
    } else {
      var first := if gs[0].Plain? then [gs[0].c] else ['\\', gs[0].c];
      assert Spell(gs) + "\"" == first + (Spell(gs[1..]) + "\"");
      AtParts(s, i, first, Spell(gs[1..]) + "\"");
      GlyphsRead(s, i + |first|, gs[1..]);
      assert s[i + 0] == first[0] && (gs[0].Escaped? ==> s[i + 1] == first[1]);
      assert Value(gs) == [gs[0].c] + Value(gs[1..]);
    }
  }

  /** A literal behind text without quotes is the next quoted string. */
  lemma LiteralRead(s: string, i: nat, lead: string, gs: seq<Glyph>)
    requires QuoteFree(lead) && LegalGlyphs(gs) && At(s, i, lead + Literal(gs))
    ensures Quoted(s, i) == Some((Value(gs), i + |lead| + |Literal(gs)|))
  {
    hide Unquote;
    var q := i + |lead|;
    AtParts(s, i, lead, Literal(gs));
    assert Literal(gs) == "\"" + (Spell(gs) + "\"");
    AtParts(s, q, "\"", Spell(gs) + "\"");
    GlyphsRead(s, q + 1, gs);
    forall j | i <= j < q ensures !At(s, j, "\"") {
      assert s[i + (j - i)] == lead[j - i];
      NotAt(s, j, "\"", 0);
    }
    FindIs(s, i, "\"", q);
  }

  lemma FindIs(s: string, i: nat, m: string, j: nat)
    requires i <= j <= |s| && At(s, j, m)
    requires forall k :: i <= k < j ==> !At(s, k, m)
    ensures Find(s, i, m) == Some(j)
  {
  }

  lemma TextsRead(s: string, i: nat, g: Segment)
    requires g.Legal() && At(s, i, g.lead + g.Texts())
    ensures Fields(s, i) == Some((Value(g.id), Value(g.title), Value(g.icon), i + |g.lead| + |g.Texts()|))
  {
    hide At, Literal, Quoted, MarkerFree, QuoteFree;
    var rest2 := g.comma2 + Literal(g.icon);
    var rest1 := g.comma1 + Literal(g.title) + rest2;
    assert g.lead + g.Texts() == (g.lead + Literal(g.id)) + rest1;
    AtParts(s, i, g.lead + Literal(g.id), rest1);
    LiteralRead(s, i, g.lead, g.id);
    var i1 := i + |g.lead| + |Literal(g.id)|;
    AtParts(s, i1, g.comma1 + Literal(g.title), rest2);
    LiteralRead(s, i1, g.comma1, g.title);
    var i2 := i1 + |g.comma1| + |Literal(g.title)|;
    LiteralRead(s, i2, g.comma2, g.icon);
  }

  // ---------- Finding the marker ----------

  /** The marker is the type of a match; only its first character is an opening parenthesis, and it
      has no comma. */
  lemma MarkerShape()
    ensures MARKER == "(sssida{sv})"
    ensures |MARKER| == 12 && MARKER[0] == '('
    ensures forall k :: 0 < k < |MARKER| ==> MARKER[k] != '('
    ensures forall k :: 0 <= k < |MARKER| ==> MARKER[k] != ','
  {
  }

  /** The marker is found behind a marker-free gap: it cannot overlap the gap. */
  lemma MarkerFound(s: string, i: nat, gap: string)
    requires MarkerFree(gap) && At(s, i, gap + MARKER)
    ensures Find(s, i, MARKER) == Some(i + |gap|)
  {
    hide MarkerFree, MARKER;
    var m := i + |gap|;
    AtParts(s, i, gap, MARKER);
    forall j | i <= j < m ensures !At(s, j, MARKER) {
      NotInGap(s, i, gap, j);
    }
    FindIs(s, i, MARKER, m);
  }

  lemma NotInGap(s: string, i: nat, gap: string, j: nat)
    requires MarkerFree(gap) && At(s, i, gap) && At(s, i + |gap|, MARKER) && i <= j < i + |gap|
    ensures !At(s, j, MARKER)
  {
    hide MARKER;
    MarkerShape();
    var m := i + |gap|;
    if j + |MARKER| <= m {
      NotAtInside(s, i, gap, j - i, MARKER);
    } else {
      assert s[m + 0] == MARKER[0];
      NotAt(s, j, MARKER, m - j);
    }
  }

  /** A marker-free text followed by a comma and marker-free text is marker-free. */
  lemma MarkerFreeJoin(a: string, b: string)
    requires MarkerFree(a) && MarkerFree(b) && b != "" && b[0] == ','
    ensures MarkerFree(a + b)
  {
    hide MARKER;
    MarkerShape();
    var t := a + b;
    PartsAt(a, b);
    forall j | 0 <= j <= |t| ensures !At(t, j, MARKER) {
      if j + |MARKER| <= |a| {
        NotAtInside(t, 0, a, j, MARKER);
      } else if j + |MARKER| > |t| {
        NotAt(t, j, MARKER, |MARKER| - 1);
      } else if j >= |a| {
        NotAtInside(t, |a|, b, j - |a|, MARKER);
      } else {
        NotAt(t, j, MARKER, |a| - j);
      }
    }
  }

  lemma PartsAt(a: string, b: string)
    ensures At(a + b, 0, a) && At(a + b, |a|, b)
  {
  }

  lemma NoParenthesisMarkerFree(s: string)
    requires forall i :: 0 <= i < |s| ==> s[i] != '('
    ensures MarkerFree(s)
  {
    hide MARKER;
    MarkerShape();
    forall j | 0 <= j <= |s| ensures !At(s, j, MARKER) {
      NotAt(s, j, MARKER, 0);
    }
  }

  // ---------- Every listing is scanned, and every text is a listing ----------

  /** One segment is read: its marker, its three texts, and the position behind them. */
  lemma SegmentScanned(s: string, i: nat, g: Segment)
    requires g.Legal() && At(s, i, g.Print())
    ensures Find(s, i, MARKER) == Some(i + |g.gap|)
    ensures Fields(s, i + |g.gap| + |MARKER|)
         == Some((Value(g.id), Value(g.title), Value(g.icon), i + |g.Print()|))
  {
    hide At, MARKER, MarkerFree, QuoteFree, Find, Fields, Segment.Texts;
    var text := g.lead + g.Texts();
    assert g.Print() == (g.gap + MARKER) + text;
    AtParts(s, i, g.gap + MARKER, text);
    MarkerFound(s, i, g.gap);
    TextsRead(s, i + |g.gap| + |MARKER|, g);
  }

  /** A listing is scanned to the first of its segments for every id not yet seen. */
  lemma {:induction false} ListingScanned(s: string, i: nat, gs: seq<Segment>, seen: set<string>)
    requires i <= |s| && LegalSegments(gs) && Listing(s, i, gs)
    ensures Scan(s, i, seen) == Unseen(MatchesOf(gs), seen)
    decreases |gs|
  {
    hide At, MARKER, Find, Fields, Segment.Print, Segment.Legal;
    if gs != [] {
      var g, rest := gs[0], gs[1..];
      SegmentScanned(s, i, g);
      var next, uuid := i + |g.Print()|, g.Match().kwinUuid;
      ListingScanned(s, next, rest, seen);
      ListingScanned(s, next, rest, seen + {uuid});
      assert MatchesOf(gs)[1..] == MatchesOf(rest);
    }
  }

  lemma {:induction false} GlyphsSpelled(s: string, i: nat) returns (gs: seq<Glyph>)
    requires i <= |s| && Unquote(s, i, false).Some?
    ensures LegalGlyphs(gs) && Value(gs) == Unquote(s, i, false).value.0
    ensures At(s, i, Spell(gs) + "\"") && Unquote(s, i, false).value.1 == i + |Spell(gs)| + 1
    decreases |s| - i
  {
    hide At, Spell, Value, LegalGlyphs;
    NoGlyphs();
    if s[i] == '"' {
      gs := [];
      OneQuote(s, i);
    } else {
      var escaped := s[i] == '\\';
      var first := if escaped then Escaped(s[i + 1]) else Plain(s[i]);
      var text := if escaped then s[i..i + 2] else s[i..i + 1];
      var rest := GlyphsSpelled(s, i + |text|);
      gs := [first] + rest;
      GlyphInFront(first, rest);
      SliceAt(s, i, i + |text|);
      JoinAt(s, i, text, Spell(rest) + "\"");
      assert Spell(gs) + "\"" == text + (Spell(rest) + "\"");
    }
  }

  lemma NoGlyphs()
    ensures LegalGlyphs([]) && Value([]) == "" && Spell([]) + "\"" == "\""
  {
  }

  lemma GlyphInFront(first: Glyph, rest: seq<Glyph>)
    requires LegalGlyphs(rest) && (first.Plain? ==> first.c != '"' && first.c != '\\')
    ensures LegalGlyphs([first] + rest) && Value([first] + rest) == [first.c] + Value(rest)
    ensures Spell([first] + rest) == (if first.Plain? then [first.c] else ['\\', first.c]) + Spell(rest)
  {
    assert ([first] + rest)[1..] == rest;
  }

  lemma LiteralSpelled(s: string, i: nat) returns (lead: string, gs: seq<Glyph>)
    requires i <= |s| && Quoted(s, i).Some?
    ensures QuoteFree(lead) && LegalGlyphs(gs) && Value(gs) == Quoted(s, i).value.0
    ensures At(s, i, lead + Literal(gs)) && Quoted(s, i).value.1 == i + |lead| + |Literal(gs)|
  {
    hide Unquote, Spell;
    var q := Find(s, i, "\"").value;
    lead := s[i..q];
    gs := GlyphsSpelled(s, q + 1);
    forall k | 0 <= k < |lead| ensures lead[k] != '"' {
      OneQuote(s, i + k);
    }
    assert Literal(gs) == "\"" + (Spell(gs) + "\"");
    JoinAt(s, q, "\"", Spell(gs) + "\"");
    JoinAt(s, i, lead, Literal(gs));
  }

  lemma OneQuote(s: string, i: nat)
    requires i < |s|
    ensures At(s, i, "\"") <==> s[i] == '"'
  {
    if At(s, i, "\"") { assert s[i + 0] == "\""[0]; }
  }

  lemma JoinAt(s: string, i: nat, t: string, u: string)
    requires At(s, i, t) && At(s, i + |t|, u)
    ensures At(s, i, t + u)
  {
    forall k | 0 <= k < |t + u| ensures s[i + k] == (t + u)[k] {
      if k >= |t| { assert s[i + |t| + (k - |t|)] == u[k - |t|]; }
    }
  }

  lemma TextsSpelled(s: string, i: nat, gap: string) returns (g: Segment)
    requires i <= |s| && Fields(s, i).Some? && MarkerFree(gap)
    ensures g.Legal() && g.gap == gap && At(s, i, g.lead + g.Texts())
    ensures Fields(s, i).value == (Value(g.id), Value(g.title), Value(g.icon), i + |g.lead| + |g.Texts()|)
  {
    hide At, Literal, Quoted, MarkerFree, QuoteFree, LegalGlyphs, Value;
    var lead, id := LiteralSpelled(s, i);
    var i1 := Quoted(s, i).value.1;
    var comma1, title := LiteralSpelled(s, i1);
    var i2 := Quoted(s, i1).value.1;
    var comma2, icon := LiteralSpelled(s, i2);
    g := Segment(gap, lead, id, comma1, title, comma2, icon);
    JoinAt(s, i1, comma1 + Literal(title), comma2 + Literal(icon));
    assert comma1 + Literal(title) + (comma2 + Literal(icon)) == comma1 + (Literal(title) + (comma2 + Literal(icon)));
    JoinAt(s, i, lead + Literal(id), comma1 + (Literal(title) + (comma2 + Literal(icon))));
    assert lead + g.Texts() == (lead + Literal(id)) + (comma1 + (Literal(title) + (comma2 + Literal(icon))));
  }

  lemma GapIsFree(s: string, i: nat, m: nat)
    requires i <= m <= |s| && forall j :: i <= j < m ==> !At(s, j, MARKER)
    ensures MarkerFree(s[i..m])
  {
    hide MARKER;
    MarkerShape();
    var gap := s[i..m];
    forall j | 0 <= j <= |gap| ensures !At(gap, j, MARKER) {
      if j + |MARKER| <= |gap| {
        assert !At(s, i + j, MARKER);
        var k :| 0 <= k < |MARKER| && s[i + j + k] != MARKER[k];
        assert gap[j + k] == s[i + j + k];
        NotAt(gap, j, MARKER, k);
      } else {
        NotAt(gap, j, MARKER, |MARKER| - 1);
      }
    }
  }

  /** Whatever the text, it is a listing of what the scan takes for records. */
  lemma {:induction false} ListingExists(s: string, i: nat) returns (gs: seq<Segment>)
    requires i <= |s|
    ensures LegalSegments(gs) && Listing(s, i, gs)
    decreases |s| - i
  {
    hide MARKER, Segment.Texts, Segment.Legal, At, Fields, MarkerFree;
    if DeadAt(s, i) {
      gs := [];
    } else {
      var m := Find(s, i, MARKER).value;
      GapIsFree(s, i, m);
      var g := TextsSpelled(s, m + |MARKER|, s[i..m]);
      SliceAt(s, i, m);
      JoinAt(s, m, MARKER, g.lead + g.Texts());
      JoinAt(s, i, g.gap, MARKER + (g.lead + g.Texts()));
      PrintFits(s, i, g);
      var rest := ListingExists(s, i + |g.Print()|);
      gs := [g] + rest;
      assert gs[1..] == rest;
    }
  }

  lemma SliceAt(s: string, i: nat, m: nat)
    requires i <= m <= |s|
    ensures At(s, i, s[i..m])
  {
  }

  lemma PrintFits(s: string, i: nat, g: Segment)
    requires At(s, i, g.Print())
    ensures i < i + |g.Print()| <= |s|
  {
  }

  /** The scan returns `ms` exactly for the texts that list segments whose first occurrences are
      `ms`; this settles every text. */
  lemma ScannedExactly(s: string, ms: seq<RunnerWindowMatch>)
    ensures Scan(s, 0, {}) == ms <==>
            exists gs :: LegalSegments(gs) && Listing(s, 0, gs) && FirstOf(MatchesOf(gs)) == ms
  {
    hide Listing, LegalSegments, Scan, FirstOf, MatchesOf;
    var gs := ListingExists(s, 0);
    ListingScanned(s, 0, gs, {});
    UnseenIsFirst(MatchesOf(gs));
    forall hs | LegalSegments(hs) && Listing(s, 0, hs) ensures FirstOf(MatchesOf(hs)) == Scan(s, 0, {}) {
      ListingScanned(s, 0, hs, {});
      UnseenIsFirst(MatchesOf(hs));
    }
  }

  // ---------- Printed lists ----------

  const OPENING: string := "[Argument: "
  const SEPARATOR: string := ", [Argument: "
  const HEADER: string := "[Argument: a"

  /** One printed window; `tail` is everything behind the icon: type, relevance and properties. */
  datatype Record = Record(id: seq<Glyph>, title: seq<Glyph>, icon: seq<Glyph>, tail: string) {
    predicate Legal() {
      LegalGlyphs(id) && LegalGlyphs(title) && LegalGlyphs(icon)
    }

    /** The record as a segment, behind a gap and its marker. */
    function Behind(gap: string, lead: string): Segment {
      Segment(gap, lead, id, ", ", title, ", ", icon)
    }

    function Texts(): string {
      Behind("", "").Texts()
    }

    function Match(): RunnerWindowMatch {
      Behind("", "").Match()
    }
  }

  /** What is printed from a record's tail on: the tail, then the other records, then the end. */
  function FromTail(tail: string, rest: seq<Record>): string
    decreases |rest|
  {
    if rest == [] then tail + "}]"
    else tail + (SEPARATOR + (MARKER + (" " + (rest[0].Texts() + FromTail(rest[0].tail, rest[1..])))))
  }

  /** The whole literal: a header holding the marker, then the records. */
  function Print(rs: seq<Record>): string {
    HEADER + (MARKER + (
    if rs == [] then " {}]"
    else (" {" + OPENING + MARKER + " ") + (rs[0].Texts() + FromTail(rs[0].tail, rs[1..]))))
  }

  predicate LegalRecords(rs: seq<Record>) {
    forall i :: 0 <= i < |rs| ==> rs[i].Legal()
  }

  function Matches(rs: seq<Record>): seq<RunnerWindowMatch> {
    if rs == [] then [] else [rs[0].Match()] + Matches(rs[1..])
  }

  /** The first record of every window id, in order. */
  function FirstOccurrences(rs: seq<Record>): seq<RunnerWindowMatch> {
    FirstOf(Matches(rs))
  }

  /** Where the first marker of a tail stands, or its end. */
  function MarkerIn(tail: string): (m: nat)
    ensures m <= |tail|
  {
    match Find(tail, 0, MARKER) case None => |tail| case Some(m) => m
  }

  /** No quote stands behind a marker: in particular any tail without a marker. */
  predicate Harmless(tail: string) {
    QuoteFree(tail[MarkerIn(tail)..])
  }

  // ---------- A printed list with harmless tails is recovered ----------

  /** The segment a record is read as behind a harmless tail: a marker in the tail takes the place
      of the record's own. */
  function ReadAs(tail: string, r: Record): Segment {
    var m := MarkerIn(tail);
    if m == |tail| then r.Behind(tail + SEPARATOR, " ")
    else r.Behind(tail[..m], tail[m..][|MARKER|..] + (SEPARATOR + (MARKER + " ")))
  }

  lemma TailParts(tail: string)
    ensures MarkerFree(tail[..MarkerIn(tail)])
    ensures MarkerIn(tail) == |tail| || At(tail, MarkerIn(tail), MARKER)
    ensures MarkerIn(tail) < |tail| ==>
            |tail[MarkerIn(tail)..]| >= |MARKER| && tail[MarkerIn(tail)..][..|MARKER|] == MARKER
    ensures MarkerIn(tail) == |tail| <==> MarkerFree(tail)
  {
    hide MARKER;
    MarkerShape();
    var m := MarkerIn(tail);
    GapIsFree(tail, 0, m);
    assert tail[0..m] == tail[..m] && tail[..|tail|] == tail;
    if m < |tail| {
      forall k | 0 <= k < |MARKER| ensures tail[m..][k] == MARKER[k] {
        assert tail[m + k] == MARKER[k];
      }
    }
  }

  lemma SeparatorShape()
    ensures MarkerFree(SEPARATOR) && SEPARATOR[0] == ',' && QuoteFree(SEPARATOR + (MARKER + " "))
    ensures |SEPARATOR| == 13
  {
    NoParenthesisMarkerFree(SEPARATOR);
  }

  lemma ReadAsLegal(tail: string, r: Record)
    requires Harmless(tail) && r.Legal()
    ensures ReadAs(tail, r).Legal() && ReadAs(tail, r).Match() == r.Match()
    ensures ReadAs(tail, r).Print() == tail + (SEPARATOR + (MARKER + (" " + r.Texts())))
  {
    hide MARKER, SEPARATOR, MarkerIn, MarkerFree;
    var m := MarkerIn(tail);
    TailParts(tail);
    SeparatorShape();
    if m == |tail| {
      MarkerFreeJoin(tail, SEPARATOR);
      assert tail + SEPARATOR + (MARKER + (" " + r.Texts())) == tail + (SEPARATOR + (MARKER + (" " + r.Texts())));
    } else {
      var behind := tail[m..][|MARKER|..];
      QuoteFreeJoin(tail[m..], behind);
      assert tail == tail[..m] + (MARKER + behind);
      assert tail[..m] + (MARKER + (behind + (SEPARATOR + (MARKER + " ")) + r.Texts()))
          == tail + (SEPARATOR + (MARKER + (" " + r.Texts())));
    }
  }

  lemma QuoteFreeJoin(whole: string, part: string)
    requires QuoteFree(whole) && |part| <= |whole| && part == whole[|whole| - |part|..]
    ensures QuoteFree(part) && QuoteFree(part + (SEPARATOR + (MARKER + " ")))
  {
    SeparatorShape();
  }

  /** The end of a list is not read as a record. */
  lemma EndIsDead(s: string, i: nat, tail: string)
    requires Harmless(tail) && At(s, i, tail + "}]") && i + |tail + "}]"| == |s|
    ensures DeadAt(s, i)
  {
    hide MARKER, MarkerIn, Find, At, Fields, MarkerFree, QuoteFree;
    TailParts(tail);
    var m := MarkerIn(tail);
    AtParts(s, i, tail, "}]");
    if m == |tail| {
      assert tail[..m] == tail;
      NoMarkerAtEnd(s, i, tail);
    } else {
      var behind := tail[m..];
      assert tail == tail[..m] + behind && behind == MARKER + behind[|MARKER|..];
      AtParts(s, i, tail[..m], behind);
      AtParts(s, i + m, MARKER, behind[|MARKER|..]);
      JoinAt(s, i, tail[..m], MARKER);
      MarkerFound(s, i, tail[..m]);
      NoQuoteBehind(s, i + m, behind);
      NoString(s, i + m + |MARKER|);
    }
  }

  lemma NoQuoteBehind(s: string, i: nat, t: string)
    requires QuoteFree(t) && At(s, i, t) && At(s, i + |t|, "}]") && i + |t| + 2 == |s|
    ensures forall k :: i <= k < |s| ==> s[k] != '"'
  {
    forall k | i <= k < |s| ensures s[k] != '"' {
      if k < i + |t| { assert s[i + (k - i)] == t[k - i]; }
      else { assert s[i + |t| + (k - i - |t|)] == "}]"[k - i - |t|]; }
    }
  }

  lemma NoMarkerAtEnd(s: string, i: nat, tail: string)
    requires MarkerFree(tail) && At(s, i, tail) && At(s, i + |tail|, "}]") && i + |tail| + 2 == |s|
    ensures Find(s, i, MARKER).None?
  {
    hide MARKER;
    MarkerShape();
    MarkerEnd();
    forall j | i <= j <= |s| ensures !At(s, j, MARKER) {
      var last := j + |MARKER| - 1;
      if j + |MARKER| <= i + |tail| {
        NotAtInside(s, i, tail, j - i, MARKER);
      } else {
        if last < |s| { assert s[i + |tail| + (last - i - |tail|)] == "}]"[last - i - |tail|]; }
        NotAt(s, j, MARKER, |MARKER| - 1);
      }
    }
  }

  lemma MarkerEnd()
    ensures MARKER[|MARKER| - 1] == ')'
  {
  }

  lemma NoString(s: string, i: nat)
    requires i <= |s| && forall k :: i <= k < |s| ==> s[k] != '"'
    ensures Fields(s, i).None?
  {
    hide Unquote;
    forall j | i <= j <= |s| ensures !At(s, j, "\"") { NotAt(s, j, "\"", 0); }
  }

  predicate AllHarmless(rs: seq<Record>) {
    forall i :: 0 <= i < |rs| ==> Harmless(rs[i].tail)
  }

  /** The segments the records behind a tail are read as. */
  function Segments(tail: string, rest: seq<Record>): seq<Segment>
    decreases |rest|
  {
    if rest == [] then [] else [ReadAs(tail, rest[0])] + Segments(rest[0].tail, rest[1..])
  }

  lemma {:induction false} TailListed(s: string, i: nat, tail: string, rest: seq<Record>)
    requires Harmless(tail) && LegalRecords(rest) && AllHarmless(rest)
    requires At(s, i, FromTail(tail, rest)) && i + |FromTail(tail, rest)| == |s|
    ensures Listing(s, i, Segments(tail, rest)) && LegalSegments(Segments(tail, rest))
    ensures MatchesOf(Segments(tail, rest)) == Matches(rest)
    decreases |rest|
  {
    hide At, MARKER, SEPARATOR, Harmless, ReadAs, DeadAt, Segment.Print, Segment.Legal, Segment.Match, Segment.Texts,
         Record.Legal, Record.Match, Record.Texts;
    if rest == [] {
      EndIsDead(s, i, tail);
    } else {
      var r, others := rest[0], rest[1..];
      var g := ReadAs(tail, r);
      ReadAsLegal(tail, r);
      var after := FromTail(r.tail, others);
      assert FromTail(tail, rest) == g.Print() + after;
      AtParts(s, i, g.Print(), after);
      TailListed(s, i + |g.Print()|, r.tail, others);
      assert Segments(tail, rest)[1..] == Segments(r.tail, others);
      assert Segments(tail, rest)[0] == g;
    }
  }

  lemma FirstRecord(s: string, rs: seq<Record>) returns (g: Segment)
    requires rs != [] && LegalRecords(rs) && s == Print(rs)
    ensures g.Legal() && g.Match() == rs[0].Match() && At(s, 0, g.Print())
    ensures At(s, |g.Print()|, FromTail(rs[0].tail, rs[1..])) && |g.Print()| + |FromTail(rs[0].tail, rs[1..])| == |s|
  {
    hide At, MARKER, OPENING, HEADER, Segment.Texts;
    HeaderFree();
    g := rs[0].Behind(HEADER, " {" + OPENING + MARKER + " ");
    var after := FromTail(rs[0].tail, rs[1..]);
    assert g.Texts() == rs[0].Texts() by { SameTexts(rs[0], g.gap, g.lead); }
    assert s == g.Print() + after;
    WholeAt(s);
    AtParts(s, 0, g.Print(), after);
  }

  lemma SameTexts(r: Record, gap: string, lead: string)
    ensures r.Behind(gap, lead).Texts() == r.Texts() && r.Behind(gap, lead).Match() == r.Match()
  {
  }

  lemma WholeAt(s: string)
    ensures At(s, 0, s)
  {
  }

  lemma HeaderFree()
    ensures MarkerFree(HEADER) && QuoteFree(" {" + OPENING + MARKER + " ") && QuoteFree(", ")
  {
    NoParenthesisMarkerFree(HEADER);
  }

  /** From any list of records, whatever their ids, titles and icons hold, the scan returns the
      first record of each window id, in order and with exact texts, provided that their tails are
      harmless. */
  lemma ListingRecovered(rs: seq<Record>)
    requires LegalRecords(rs) && AllHarmless(rs)
    ensures Scan(Print(rs), 0, {}) == FirstOccurrences(rs)
  {
    hide At, MARKER, Find, Fields, Harmless, Segments, FromTail, Segment.Print, Segment.Legal, Segment.Match,
         Record.Legal, Record.Match, DeadAt;
    var s := Print(rs);
    if rs == [] {
      EmptyListing();
    } else {
      var g := FirstRecord(s, rs);
      var gs := Segments(rs[0].tail, rs[1..]);
      TailListed(s, |g.Print()|, rs[0].tail, rs[1..]);
      var all := [g] + gs;
      assert all[1..] == gs;
      ListingScanned(s, 0, all, {});
      assert MatchesOf(all) == Matches(rs);
      UnseenIsFirst(Matches(rs));
    }
  }

  lemma EmptyListing()
    ensures Scan(Print([]), 0, {}) == []
  {
    var s := Print([]);
    assert QuoteFree(s);
    forall i | 0 <= i <= |s| ensures Fields(s, i).None? {
      NoString(s, i);
    }
  }

  // ---------- Where recovery fails ----------

  /** A list is recovered exactly where what it is read as has the same first occurrences. */
  lemma RecoveredWhere(rs: seq<Record>, gs: seq<Segment>)
    requires LegalSegments(gs) && Listing(Print(rs), 0, gs)
    ensures Scan(Print(rs), 0, {}) == FirstOccurrences(rs) <==> FirstOf(MatchesOf(gs)) == FirstOf(Matches(rs))
  {
    hide Print, Listing, LegalSegments, FirstOf, MatchesOf, Matches;
    ListingScanned(Print(rs), 0, gs, {});
    UnseenIsFirst(MatchesOf(gs));
  }

  /** A record spelled out in a tail is returned as a window of the list. */
  lemma TailTakenForRecord(r: Record, p: Record)
    requires r.Legal() && p.Legal() && r.tail == MARKER + (" " + p.Texts())
    requires r.Match().kwinUuid != p.Match().kwinUuid
    ensures Scan(Print([r]), 0, {}) == [r.Match(), p.Match()] != FirstOccurrences([r])
  {
    hide At, MARKER, Find, Fields, HEADER, Segment.Print, Segment.Texts, Segment.Legal, Segment.Match, Record.Legal,
         Record.Texts, Record.Match;
    var s := Print([r]);
    var g := FirstRecord(s, [r]);
    assert [r][1..] == [];
    var h := p.Behind("", " ");
    InTail(r, p);
    var i := |g.Print()|;
    assert FromTail(r.tail, []) == h.Print() + "}]";
    AtParts(s, i, h.Print(), "}]");
    NothingHarmless();
    assert "" + "}]" == "}]";
    EndIsDead(s, i + |h.Print()|, "");
    TwoListed(s, g, h);
    ListingScanned(s, 0, [g, h], {});
    TwoMatches(g, h, r);
  }

  lemma InTail(r: Record, p: Record)
    requires p.Legal() && r.tail == MARKER + (" " + p.Texts())
    ensures var h := p.Behind("", " ");
      h.Legal() && h.Match() == p.Match() && r.tail == h.Print()
  {
    hide MARKER, Segment.Texts;
    NoParenthesisMarkerFree("");
    SameTexts(p, "", " ");
    assert "" + r.tail == r.tail;
  }

  lemma NothingHarmless()
    ensures Harmless("")
  {
  }

  lemma TwoListed(s: string, g: Segment, h: Segment)
    requires At(s, 0, g.Print()) && At(s, |g.Print()|, h.Print())
    requires |g.Print()| + |h.Print()| <= |s| && DeadAt(s, |g.Print()| + |h.Print()|)
    ensures Listing(s, 0, [g, h])
  {
    hide At, DeadAt, Segment.Print;
    assert [g, h][1..] == [h] && [h][1..] == [];
    assert Listing(s, |g.Print()| + |h.Print()|, []);
    assert Listing(s, |g.Print()|, [h]);
  }

  lemma TwoMatches(g: Segment, h: Segment, r: Record)
    requires g.Match() == r.Match() && g.Match().kwinUuid != h.Match().kwinUuid
    ensures Unseen(MatchesOf([g, h]), {}) == [g.Match(), h.Match()]
    ensures FirstOccurrences([r]) == [r.Match()]
  {
    hide Segment.Match, Record.Match;
    var a, b := g.Match(), h.Match();
    assert [g, h][1..] == [h] && [h][1..] == [];
    assert MatchesOf([h]) == [b];
    assert MatchesOf([g, h]) == [a, b] && [a, b][1..] == [b] && [b][1..] == [];
    assert Unseen([b], {} + {a.kwinUuid}) == [b];
    assert [r][1..] == [] && Matches([]) == [] && Matches([r]) == [a];
    assert [a][..0] == [] && FirstOf([]) == [] && Uuids([]) == {};
    assert FirstOf([a]) == [a];
  }

  // ---------- Exactly which tails are recovered ----------

  /** Lists with this tail, and harmless ones beside it, are recovered whatever they hold. */
  ghost predicate AlwaysRecovered(tail: string) {
    forall rs :: LegalRecords(rs) && OnlyTail(rs, tail) ==> Scan(Print(rs), 0, {}) == FirstOccurrences(rs)
  }

  predicate OnlyTail(rs: seq<Record>, tail: string) {
    forall i :: 0 <= i < |rs| ==> rs[i].tail == tail || Harmless(rs[i].tail)
  }

  /** A closing quote that is not escaped ends the string at the latest. */
  lemma {:induction false} UnquoteEnds(s: string, i: nat, escaped: bool, e: nat)
    requires i <= e < |s| && s[e] == '"' && (if i == e then !escaped else s[e - 1] != '\\')
    requires Unquote(s, i, escaped).Some?
    ensures |Unquote(s, i, escaped).value.0| <= e - i
    decreases e - i
  {
    if i < e {
      if escaped {
        UnquoteEnds(s, i + 1, false, e);
      } else if s[i] == '\\' {
        UnquoteEnds(s, i + 1, true, e);
      } else if s[i] != '"' {
        UnquoteEnds(s, i + 1, false, e);
      }
    }
  }

  function Repeated(c: char, n: nat): seq<Glyph> {
    seq(n, i => Plain(c))
  }

  lemma RepeatedId(c: char, n: nat, tail: string)
    requires (c == 'a' || c == 'b') && n > 0
    ensures var r := Record(Repeated(c, n), [], [], tail);
      r.Legal() && |r.Match().kwinUuid| == n && r.Match().kwinUuid[0] == c
  {
    var v := Value(Repeated(c, n));
    assert v[0] == c != "0_"[0];
  }

  /** A tail that is not harmless loses a window of the list, or adds one: the record read from it
      has an id no longer than what stands between the quote and the next record's. */
  lemma HarmfulTail(tail: string) returns (r: Record, p: Record)
    requires !Harmless(tail)
    ensures r.Legal() && p.Legal() && r.tail == tail && p.tail == ""
    ensures Scan(Print([r, p]), 0, {}) != FirstOccurrences([r, p])
  {
    hide At, MARKER, SEPARATOR, Find, Fields, FromTail, Segment.Print, Segment.Legal, Record.Legal, Segment.Match,
         Record.Match, Record.Texts, MarkerIn, Harmless, Repeated, FirstOf, Matches, Scan;
    var n := |tail| + 64;
    r, p := Record(Repeated('a', n), [], [], tail), Record(Repeated('b', n), [], [], "");
    RepeatedId('a', n, tail);
    RepeatedId('b', n, "");
    var rs := [r, p];
    var s := Print(rs);
    assert rs[1..] == [p];
    var g := FirstRecord(s, rs);
    var i := |g.Print()|;
    SegmentScanned(s, 0, g);
    TwoOccurrences(r, p);
    ScanFirst(s, g);
    HarmfulRead(s, i, r, p, n, {g.Match().kwinUuid});
    var behind := Scan(s, i, {g.Match().kwinUuid});
    assert ([r.Match()] + behind)[1..] == behind && [r.Match(), p.Match()][1..] == [p.Match()];
  }

  lemma ScanFirst(s: string, g: Segment)
    requires |g.Print()| <= |s| && Find(s, 0, MARKER) == Some(|g.gap|)
    requires Fields(s, |g.gap| + |MARKER|) == Some((Value(g.id), Value(g.title), Value(g.icon), |g.Print()|))
    ensures Scan(s, 0, {}) == [g.Match()] + Scan(s, |g.Print()|, {g.Match().kwinUuid})
  {
    hide Find, Fields, MARKER, Segment.Print;
    assert {} + {g.Match().kwinUuid} == {g.Match().kwinUuid};
  }

  lemma TwoOccurrences(r: Record, p: Record)
    requires r.Match().kwinUuid != p.Match().kwinUuid
    ensures FirstOccurrences([r, p]) == [r.Match(), p.Match()]
  {
    hide Record.Match;
    var a, b := r.Match(), p.Match();
    assert [r, p][1..] == [p] && [p][1..] == [];
    assert Matches([p]) == [b] && Matches([r, p]) == [a, b];
    assert [a, b][..1] == [a] && [a][..0] == [] && Uuids([]) == {};
    assert FirstOf([a]) == [a] && Uuids([a]) == {a.kwinUuid} by { UuidsLast([], a); assert [] + [a] == [a]; }
  }

  /** Behind the first record, nothing is read, or a record with a short id. */
  lemma HarmfulRead(s: string, i: nat, r: Record, p: Record, n: nat, seen: set<string>)
    requires !Harmless(r.tail) && n == |r.tail| + 64 && |p.Match().kwinUuid| == n
    requires At(s, i, FromTail(r.tail, [p])) && i + |FromTail(r.tail, [p])| == |s|
    requires forall x :: x in seen ==> |x| == n
    ensures Scan(s, i, seen) != [p.Match()]
  {
    hide At, MARKER, SEPARATOR, Find, Fields, FromTail, Record.Match, Record.Texts, MarkerIn, Harmless;
    var m := HarmfulMarker(s, i, r.tail, p);
    var j := i + m + |MARKER|;
    if Fields(s, j).Some? {
      ShortId(s, j, i, r.tail, p);
      var (id, title, icon, next) := Fields(s, j).value;
      ShorterUuid(id);
      var uuid := NormalizeRunnerWindowId(id);
      assert |uuid| < n && uuid !in seen;
      assert Scan(s, i, seen)[0].kwinUuid == uuid;
    }
  }

  lemma ShorterUuid(id: string)
    ensures |NormalizeRunnerWindowId(id)| <= |id|
  {
  }

  /** The layout of the text from the tail on: the tail, then 26 characters without quote or
      backslash at their end, then the next record's opening quote. */
  lemma NextQuote(s: string, i: nat, tail: string, p: Record) returns (e: nat)
    requires At(s, i, FromTail(tail, [p])) && i + |FromTail(tail, [p])| == |s|
    ensures At(s, i, tail) && e == i + |tail| + 26 && e < |s| && s[e] == '"' && s[e - 1] == ' '
  {
    hide MARKER, At;
    MarkerShape();
    SeparatorShape();
    var rest := p.Texts() + FromTail(p.tail, []);
    assert [p][0] == p && [p][1..] == [];
    var lead := SEPARATOR + (MARKER + " ");
    assert FromTail(tail, [p]) == tail + (lead + rest);
    AtParts(s, i, tail, lead + rest);
    AtParts(s, i + |tail|, lead, rest);
    e := i + |tail| + 26;
    AtEnds(s, i + |tail|, lead, rest);
    TextsStart(p);
  }

  lemma AtEnds(s: string, i: nat, t: string, u: string)
    requires At(s, i, t) && At(s, i + |t|, u) && t != "" && u != ""
    ensures s[i + |t| - 1] == t[|t| - 1] && i + |t| < |s| && s[i + |t|] == u[0]
  {
    assert s[i + (|t| - 1)] == t[|t| - 1];
    assert s[i + |t| + 0] == u[0];
  }

  lemma TextsStart(p: Record)
    ensures p.Texts() != "" && p.Texts()[0] == '"'
  {
  }

  /** The first marker behind the first record is that of the tail. */
  lemma HarmfulMarker(s: string, i: nat, tail: string, p: Record) returns (m: nat)
    requires !Harmless(tail)
    requires At(s, i, FromTail(tail, [p])) && i + |FromTail(tail, [p])| == |s|
    ensures m == MarkerIn(tail) && m + |MARKER| <= |tail| && i + |tail| <= |s| && Find(s, i, MARKER) == Some(i + m)
  {
    hide At, MARKER, SEPARATOR, MarkerFree, FromTail, MarkerIn;
    var e := NextQuote(s, i, tail, p);
    m := MarkerIn(tail);
    TailParts(tail);
    MarkedTail(tail);
    assert tail == tail[..m] + tail[m..] && tail[m..] == MARKER + tail[m..][|MARKER|..];
    AtParts(s, i, tail[..m], tail[m..]);
    AtParts(s, i + m, MARKER, tail[m..][|MARKER|..]);
    JoinAt(s, i, tail[..m], MARKER);
    MarkerFound(s, i, tail[..m]);
  }

  lemma MarkedTail(tail: string)
    requires !Harmless(tail)
    ensures MarkerIn(tail) < |tail|
    ensures exists k :: MarkerIn(tail) + |MARKER| <= k < |tail| && tail[k] == '"'
  {
    hide MARKER;
    MarkerHasNoQuote();
    TailParts(tail);
    var m := MarkerIn(tail);
    var k :| 0 <= k < |tail[m..]| && tail[m..][k] == '"';
    assert tail[m + k] == '"';
    assert forall l :: 0 <= l < |MARKER| ==> tail[m..][l] == tail[m..][..|MARKER|][l];
  }

  lemma MarkerHasNoQuote()
    ensures forall k :: 0 <= k < |MARKER| ==> MARKER[k] != '"'
  {
  }

  /** The id read behind the tail's marker ends before the next record's id begins. */
  lemma ShortId(s: string, j: nat, i: nat, tail: string, p: Record)
    requires !Harmless(tail)
    requires At(s, i, FromTail(tail, [p])) && i + |FromTail(tail, [p])| == |s|
    requires j == i + MarkerIn(tail) + |MARKER| && j <= |s| && Fields(s, j).Some?
    ensures |Fields(s, j).value.0| < |tail| + 64
  {
    hide MARKER, SEPARATOR, FromTail, MarkerIn, Unquote;
    var e := NextQuote(s, i, tail, p);
    MarkedTail(tail);
    var k :| MarkerIn(tail) + |MARKER| <= k < |tail| && tail[k] == '"';
    assert s[i + k] == tail[k];
    OneQuote(s, i + k);
    var q := Find(s, j, "\"").value;
    assert q <= i + k;
    UnquoteEnds(s, q + 1, false, e);
  }

  /** A tail is recovered in every list exactly if no quote stands behind a marker in it. */
  lemma RecoveredExactly(tail: string)
    ensures AlwaysRecovered(tail) <==> Harmless(tail)
  {
    hide Harmless, LegalRecords, Print, Scan, FirstOccurrences, Record.Legal;
    if Harmless(tail) {
      forall rs | LegalRecords(rs) && OnlyTail(rs, tail) ensures Scan(Print(rs), 0, {}) == FirstOccurrences(rs) {
        ListingRecovered(rs);
      }
    } else {
      var r, p := HarmfulTail(tail);
      NothingHarmless();
      LegalPair(r, p);
      assert OnlyTail([r, p], tail);
    }
  }

  lemma LegalPair(r: Record, p: Record)
    requires r.Legal() && p.Legal()
    ensures LegalRecords([r, p])
  {
  }
}
