/**
 What any section of a support report is read as, with headings, geometries and the rule that the
 last line of a kind decides written out.
 */
module MonitorFields {
  import opened Outcome
  import opened RustText
  import opened KwinMonitors

  // ---------- Headings ----------

  predicate Framed(line: string, middle: string) {
    line == "Screen " + middle + ":"
  }

  predicate Ruled(line: string, start: string) {
    line == start + "======"
  }

  /** A heading is a text between "Screen " and a colon; a terminator ends in a rule. */
  lemma HeadingExactly(line: string)
    ensures IsHeader(line) <==> exists middle :: Framed(line, middle)
    ensures IsTerminator(line) <==> exists start :: Ruled(line, start)
  {
    if IsHeader(line) {
      assert line[6] == ' ' && line[|line| - 1] == ':' by { assert line[|line| - 1..] == ":"; }
      assert Framed(line, line[7..|line| - 1]);
    }
    if middle :| Framed(line, middle) { assert line[|line| - 1..] == ":"; }
    if IsTerminator(line) { assert Ruled(line, line[..|line| - 6]); }
    if start :| Ruled(line, start) { assert line[|line| - 6..] == "======"; }
  }

  function Repeated(s: string, n: nat): string {
    if n == 0 then "" else s + Repeated(s, n - 1)
  }

  /** A screen without a name is known by its heading, less the words "Screen " in front of it and
      the colons behind. */
  lemma HeadingNamed(k: nat, id: string, n: nat)
    requires !("Screen " <= id) && (id != "" ==> id[|id| - 1] != ':')
    ensures HeaderId(Repeated("Screen ", k) + id + Repeated(":", n)) == id
  {
    hide DropColons, DropScreens;
    ColonsDropped(Repeated("Screen ", k) + id, n);
    if id == "" { ScreensEnd(k); }
    assert var s := Repeated("Screen ", k) + id; s != "" ==> s[|s| - 1] != ':';
    NoColons(Repeated("Screen ", k) + id);
    ScreensDropped(k, id);
  }

  lemma {:induction false} ScreensEnd(k: nat)
    ensures var s := Repeated("Screen ", k); s != "" ==> s[|s| - 1] == ' '
  {
    if k > 1 { ScreensEnd(k - 1); }
  }

  lemma ColonDropped(s: string)
    ensures DropColons(s + ":") == DropColons(s)
  {
    var t := s + ":";
    assert t[|t| - 1..] == ":" && t[..|t| - 1] == s;
  }

  lemma {:induction false} ColonsDropped(s: string, n: nat)
    ensures DropColons(s + Repeated(":", n)) == DropColons(s)
    decreases n
  {
    hide DropColons;
    if n == 0 {
      assert s + "" == s;
    } else {
      ColonsDropped(s + ":", n - 1);
      assert s + Repeated(":", n) == (s + ":") + Repeated(":", n - 1);
      ColonDropped(s);
    }
  }

  lemma NoColonAtEnd(s: string)
    requires s != "" && s[|s| - 1] != ':'
    ensures !EndsWith(s, ":")
  {
    assert s[|s| - 1..] == [s[|s| - 1]];
    assert [s[|s| - 1]][0] != ":"[0];
  }

  lemma NoColons(s: string)
    requires s != "" ==> s[|s| - 1] != ':'
    ensures DropColons(s) == s
  {
    if s != "" {
      hide EndsWith;
      NoColonAtEnd(s);
    }
  }

  lemma ScreenDropped(s: string)
    ensures DropScreens("Screen " + s) == DropScreens(s)
  {
    var t := "Screen " + s;
    assert "Screen " <= t && t[7..] == s;
  }

  lemma RepeatedOnce(word: string, k: nat, s: string)
    ensures Repeated(word, k + 1) + s == word + (Repeated(word, k) + s)
  {
  }

  lemma {:induction false} ScreensDropped(k: nat, id: string)
    requires !("Screen " <= id)
    ensures DropScreens(Repeated("Screen ", k) + id) == id
  {
    if k == 0 {
      assert "" + id == id;
    } else {
      hide DropScreens;
      ScreensDropped(k - 1, id);
      RepeatedOnce("Screen ", k - 1, id);
      ScreenDropped(Repeated("Screen ", k - 1) + id);
    }
  }

  // ---------- Geometries ----------

  /** The text between white space is a number. */
  ghost predicate Reads(text: string, signed: bool, n: int) {
    Denotes(Codes(Trim(text)), signed, n)
  }

  /** `a,b,cxd`, split at the first comma, the comma after it, and the first x behind that. */
  predicate Parted(g: string, a: string, b: string, c: string, d: string) {
    g == a + "," + b + "," + c + "x" + d && ',' !in a && ',' !in b && 'x' !in c
  }

  lemma {:induction false} SplitAt(a: string, c: char, b: string)
    requires c !in a
    ensures SplitOnce(a + [c] + b, c) == Some((a, b))
    decreases |a|
  {
    var s := a + [c] + b;
    if a == "" {
      assert s[1..] == b;
    } else {
      SplitAt(a[1..], c, b);
      assert s[1..] == a[1..] + [c] + b;
      assert a == [a[0]] + a[1..];
    }
  }

  lemma {:induction false} SplitFirst(s: string, c: char)
    ensures SplitOnce(s, c).Some? ==> c !in SplitOnce(s, c).value.0
    decreases |s|
  {
    if s != "" && s[0] != c { SplitFirst(s[1..], c); }
  }

  lemma PartedSplits(g: string, a: string, b: string, c: string, d: string)
    requires Parted(g, a, b, c, d)
    ensures SplitOnce(g, ',') == Some((a, b + "," + c + "x" + d))
    ensures SplitOnce(b + "," + c + "x" + d, ',') == Some((b, c + "x" + d))
    ensures SplitOnce(c + "x" + d, 'x') == Some((c, d))
  {
    hide SplitOnce;
    assert g == a + [','] + (b + "," + c + "x" + d);
    assert b + "," + c + "x" + d == b + [','] + (c + "x" + d);
    assert c + "x" + d == c + ['x'] + d;
    SplitAt(a, ',', b + "," + c + "x" + d);
    SplitAt(b, ',', c + "x" + d);
    SplitAt(c, 'x', d);
  }

  lemma IntegerExactly(text: string, n: int, e: MonitorError)
    ensures -0x8000_0000 <= n < 0x8000_0000 ==> (ParseI32(text, e) == Ok(n) <==> Reads(text, true, n))
    ensures 0 <= n < 0x1_0000_0000 ==> (ParseU32(text, e) == Ok(n) <==> Reads(text, false, n))
  {
    hide Number, Denotes, Trim;
    NumberExactly(Codes(Trim(text)), true, n);
    NumberExactly(Codes(Trim(text)), false, n);
  }

  /** A geometry is read as four numbers if and only if it has four parts that denote them. */
  lemma GeometryExactly(g: string, x: i32, y: i32, w: u32, h: u32)
    ensures ParseGeometry(g) == Ok((x, y, w, h)) <==>
      exists a, b, c, d ::
        Parted(g, a, b, c, d) && Reads(a, true, x) && Reads(b, true, y) && Reads(c, false, w) && Reads(d, false, h)
  {
    hide SplitOnce, ParseI32, ParseU32, Reads;
    if ParseGeometry(g) == Ok((x, y, w, h)) {
      var a, rest := SplitOnce(g, ',').value.0, SplitOnce(g, ',').value.1;
      var b, size := SplitOnce(rest, ',').value.0, SplitOnce(rest, ',').value.1;
      var c, d := SplitOnce(size, 'x').value.0, SplitOnce(size, 'x').value.1;
      SplitFirst(g, ',');
      SplitFirst(rest, ',');
      SplitFirst(size, 'x');
      assert g == a + "," + (b + "," + (c + "x" + d)) == a + "," + b + "," + c + "x" + d;
      PartsExactly(a, b, c, d, x, y, w, h);
      assert Parted(g, a, b, c, d);
    }
    if a, b, c, d :|
      Parted(g, a, b, c, d) && Reads(a, true, x) && Reads(b, true, y) && Reads(c, false, w) && Reads(d, false, h) {
      PartedSplits(g, a, b, c, d);
      PartsExactly(a, b, c, d, x, y, w, h);
    }
  }

  lemma PartsExactly(a: string, b: string, c: string, d: string, x: i32, y: i32, w: u32, h: u32)
    ensures ParseI32(a, GeometryX(a)) == Ok(x) <==> Reads(a, true, x)
    ensures ParseI32(b, GeometryY(b)) == Ok(y) <==> Reads(b, true, y)
    ensures ParseU32(c, GeometryWidth(c)) == Ok(w) <==> Reads(c, false, w)
    ensures ParseU32(d, GeometryHeight(d)) == Ok(h) <==> Reads(d, false, h)
  {
    hide ParseI32, ParseU32, Reads;
    IntegerExactly(a, x, GeometryX(a));
    IntegerExactly(b, y, GeometryY(b));
    IntegerExactly(c, w, GeometryWidth(c));
    IntegerExactly(d, h, GeometryHeight(d));
  }

  // ---------- Sections ----------

  /** What stands behind the word on the last line that begins with the word. */
  function LastLabelled(body: seq<string>, word: string): Option<string>
    decreases |body|
  {
    if body == [] then None
    else if word <= body[|body| - 1] then Some(body[|body| - 1][|word|..])
    else LastLabelled(body[..|body| - 1], word)
  }

  /** A geometry or scale on the line can be read; every other line can be ignored. */
  predicate Readable(line: string, parse: ScaleParser) {
    && ("Geometry:" <= line ==> ParseGeometry(Trim(line[9..])).Ok?)
    && ("Scale:" <= line ==> parse(Trim(line[6..])).Some?)
  }

  predicate AllReadable(body: seq<string>, parse: ScaleParser) {
    forall k :: 0 <= k < |body| ==> Readable(body[k], parse)
  }

  /** The builder holds what the last line of each kind says, or what it held before. */
  predicate Holds(c: Builder, b: Builder, body: seq<string>, parse: ScaleParser) {
    && (match LastLabelled(body, "Name:")
        case None => c.name == b.name && c.id == b.id
        case Some(text) => c.name == Some(Trim(text)) && c.id == Some(Trim(text)))
    && (match LastLabelled(body, "Geometry:")
        case None => c.originX == b.originX && c.originY == b.originY && c.width == b.width && c.height == b.height
        case Some(text) =>
          && c.originX.Some? && c.originY.Some? && c.width.Some? && c.height.Some?
          && ParseGeometry(Trim(text)) == Ok((c.originX.value, c.originY.value, c.width.value, c.height.value)))
    && match LastLabelled(body, "Scale:")
       case None => c.scale == b.scale
       case Some(text) => c.scale.Some? && parse(Trim(text)) == c.scale
  }

  lemma {:induction false} ApplyLast(b: Builder, body: seq<string>, line: string, parse: ScaleParser)
    ensures ApplyBody(b, body + [line], parse) ==
      match ApplyBody(b, body, parse) { case Err(e) => Err(e) case Ok(c) => ApplyLine(c, line, parse) }
    decreases |body|
  {
    hide ApplyLine;
    var all := body + [line];
    if body == [] {
      assert all[0] == line && all[1..] == [];
    } else {
      assert all[0] == body[0] && all[1..] == body[1..] + [line];
      var applied := ApplyLine(b, body[0], parse);
      if applied.Ok? { ApplyLast(applied.value, body[1..], line, parse); }
    }
  }

  lemma LastLine(body: seq<string>, line: string, word: string)
    ensures LastLabelled(body + [line], word) ==
      if word <= line then Some(line[|word|..]) else LastLabelled(body, word)
  {
    assert (body + [line])[..|body|] == body;
  }

  lemma Labels(line: string)
    ensures !("Name:" <= line && "Geometry:" <= line)
    ensures !("Name:" <= line && "Scale:" <= line)
    ensures !("Geometry:" <= line && "Scale:" <= line)
  {
    if "Name:" <= line { assert line[0] == 'N'; }
    if "Geometry:" <= line { assert line[0] == 'G'; }
  }

  lemma LineHolds(b: Builder, c: Builder, body: seq<string>, line: string, parse: ScaleParser)
    requires Holds(c, b, body, parse)
    ensures ApplyLine(c, line, parse).Ok? <==> Readable(line, parse)
    ensures ApplyLine(c, line, parse).Ok? ==> Holds(ApplyLine(c, line, parse).value, b, body + [line], parse)
  {
    hide Trim, ParseGeometry, LastLabelled;
    Labels(line);
    LastLine(body, line, "Name:");
    LastLine(body, line, "Geometry:");
    LastLine(body, line, "Scale:");
    if "Geometry:" <= line && ParseGeometry(Trim(line[9..])).Ok? {
      var g := ParseGeometry(Trim(line[9..])).value;
      assert g == (g.0, g.1, g.2, g.3);
    }
  }

  lemma {:induction false} BodyHolds(b: Builder, body: seq<string>, parse: ScaleParser)
    ensures ApplyBody(b, body, parse).Ok? <==> AllReadable(body, parse)
    ensures ApplyBody(b, body, parse).Ok? ==> Holds(ApplyBody(b, body, parse).value, b, body, parse)
    decreases |body|
  {
    hide ApplyLine, Holds, Readable, ApplyBody;
    if body == [] {
      NoLines(b, parse);
    } else {
      var init, line := body[..|body| - 1], body[|body| - 1];
      assert body == init + [line];
      BodyHolds(b, init, parse);
      ApplyLast(b, init, line, parse);
      if ApplyBody(b, init, parse).Ok? { LineHolds(b, ApplyBody(b, init, parse).value, init, line, parse); }
    }
  }

  lemma NoLines(b: Builder, parse: ScaleParser)
    ensures ApplyBody(b, [], parse) == Ok(b) && Holds(b, b, [], parse)
  {
  }

  /** What the lines of a section say: the last name, or else the heading's; the last geometry; the
      last scale, or else 1; and the sizes these make. */
  predicate Describes(s: Section, parse: ScaleParser, m: MonitorInfo) {
    && AllReadable(s.body, parse)
    && (match LastLabelled(s.body, "Name:")
        case None => m.name == None && m.id == HeaderId(s.header)
        case Some(text) => m.name == Some(Trim(text)) && m.id == Trim(text))
    && (match LastLabelled(s.body, "Geometry:")
        case None => false
        case Some(text) =>
          ParseGeometry(Trim(text)) == Ok((m.logicalOriginX, m.logicalOriginY, m.logicalWidth, m.logicalHeight)))
    && (match LastLabelled(s.body, "Scale:")
        case None => m.scaleFactor == 1.0
        case Some(text) => parse(Trim(text)) == Some(m.scaleFactor))
    && SizedByScale(m)
  }

  /** A section is read as a monitor if and only if its lines describe that monitor. */
  lemma SectionExactly(s: Section, parse: ScaleParser, m: MonitorInfo)
    ensures BuildSection(s, parse) == Ok(m) <==> Describes(s, parse, m)
  {
    hide ApplyBody, AllReadable, Trim, ParseGeometry, LastLabelled, HeaderId, ScaledDimension, SizedByScale;
    var b := NEW_BUILDER.(id := Some(HeaderId(s.header)));
    BodyHolds(b, s.body, parse);
    SizesExactly(m);
  }

  lemma SizesExactly(m: MonitorInfo)
    ensures SizedByScale(m) <==>
      && m.physicalWidth == ScaledDimension(m.logicalWidth, m.scaleFactor)
      && m.physicalHeight == ScaledDimension(m.logicalHeight, m.scaleFactor)
  {
    hide ScaledDimension, NearestSize, Scaled;
    ScaledIsNearest(m.logicalWidth, m.scaleFactor, m.physicalWidth);
    ScaledIsNearest(m.logicalHeight, m.scaleFactor, m.physicalHeight);
  }

  /** A section fails for the first line that cannot be read, and without one for its geometry. */
  lemma SectionFails(s: Section, parse: ScaleParser, k: nat)
    requires k <= |s.body| && AllReadable(s.body[..k], parse)
    ensures k < |s.body| && "Geometry:" <= s.body[k] && ParseGeometry(Trim(s.body[k][9..])).Err? ==>
      BuildSection(s, parse) == Err(ParseGeometry(Trim(s.body[k][9..])).error)
    ensures k < |s.body| && "Scale:" <= s.body[k] && parse(Trim(s.body[k][6..])).None? ==>
      BuildSection(s, parse) == Err(InvalidScale(s.body[k][6..]))
    ensures k == |s.body| && LastLabelled(s.body, "Geometry:").None? ==>
      BuildSection(s, parse) == Err(MissingWidth(
        match LastLabelled(s.body, "Name:") { case None => HeaderId(s.header) case Some(text) => Trim(text) }))
  {
    hide AllReadable, Trim, ParseGeometry, LastLabelled, HeaderId, ApplyBody, ApplyLine;
    var b := NEW_BUILDER.(id := Some(HeaderId(s.header)));
    BodyHolds(b, s.body[..k], parse);
    if k < |s.body| {
      var line, c := s.body[k], ApplyBody(b, s.body[..k], parse).value;
      FirstFailure(b, s.body, k, parse);
      LineFails(c, line, parse);
    } else {
      assert s.body[..k] == s.body;
    }
  }

  lemma LineFails(c: Builder, line: string, parse: ScaleParser)
    ensures "Geometry:" <= line && ParseGeometry(Trim(line[9..])).Err? ==>
      ApplyLine(c, line, parse) == Err(ParseGeometry(Trim(line[9..])).error)
    ensures "Scale:" <= line && parse(Trim(line[6..])).None? ==>
      ApplyLine(c, line, parse) == Err(InvalidScale(line[6..]))
  {
    hide Trim, ParseGeometry;
    Labels(line);
  }

  lemma {:induction false} FirstFailure(b: Builder, body: seq<string>, k: nat, parse: ScaleParser)
    requires k < |body| && ApplyBody(b, body[..k], parse).Ok?
    ensures var applied := ApplyLine(ApplyBody(b, body[..k], parse).value, body[k], parse);
      applied.Err? ==> ApplyBody(b, body, parse) == applied
    decreases |body|
  {
    hide ApplyLine;
    if k == 0 {
      assert body[..k] == [];
    } else {
      assert body[..k][0] == body[0] && body[..k][1..] == body[1..][..k - 1];
      FirstFailure(ApplyLine(b, body[0], parse).value, body[1..], k - 1, parse);
    }
  }
}
