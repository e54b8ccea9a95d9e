/**
 Monitor reports as KWin prints them, and exactly when reading one back recovers its monitors.
 */
module MonitorListing {
  import opened Outcome
  import opened Utf8
  import opened Positions
  import opened RustText
  import opened KwinMonitors

  /** One screen of a report; the gaps are the lines the reader does not look at. */
  datatype Screen = Screen(
    header: string,
    name: string,
    x: i32,
    y: i32,
    width: u32,
    height: u32,
    scale: real,
    gap1: seq<string>,
    gap2: seq<string>,
    gap3: seq<string>,
    gap4: seq<string>
  ) {
    function Expected(): MonitorInfo {
      MonitorInfo(name, Some(name), ScaledDimension(width, scale), ScaledDimension(height, scale),
                  width, height, scale, x, y)
    }

    /** A name that survives: no white space at its ends, and not ending like a heading's rule. */
    predicate CleanName() {
      Trimmed(name) && !EndsWith(name, "======")
    }
  }

  /** How scales are printed; whatever it is, the parser reads it back. */
  type ScalePrinter = real -> string

  predicate Inverse(printScale: ScalePrinter, parse: ScaleParser, scale: real) {
    var text := printScale(scale);
    text != "" && Trimmed(text) && !EndsWith(text, "======") && parse(text) == Some(scale)
  }

  function AsString(s: Text): (t: string)
    requires forall i :: 0 <= i < |s| ==> s[i] < 0x80
    ensures |t| == |s|
  {
    seq(|s|, i requires 0 <= i < |s| => s[i] as char)
  }

  function IntText(n: int): string {
    AsString(SignedText(n))
  }

  function GeometryText(s: Screen): string {
    IntText(s.x) + ("," + (IntText(s.y) + ("," + (IntText(s.width) + ("x" + IntText(s.height))))))
  }

  function PrintScreen(s: Screen, printScale: ScalePrinter): seq<string> {
    [s.header] + (s.gap1 + (["Name: " + s.name] + (s.gap2 + (["Geometry: " + GeometryText(s)]
    + (s.gap3 + (["Scale: " + printScale(s.scale)] + s.gap4))))))
  }

  function PrintScreens(ss: seq<Screen>, printScale: ScalePrinter): seq<string> {
    if ss == [] then [] else PrintScreen(ss[0], printScale) + PrintScreens(ss[1..], printScale)
  }

  predicate Ignorable(line: string) {
    && !IsHeader(line) && !IsTerminator(line)
    && !("Name:" <= line) && !("Geometry:" <= line) && !("Scale:" <= line)
  }

  predicate AllIgnorable(lines: seq<string>) {
    forall i :: 0 <= i < |lines| ==> Ignorable(Trim(lines[i]))
  }

  predicate NoHeader(lines: seq<string>) {
    forall i :: 0 <= i < |lines| ==> !IsHeader(Trim(lines[i]))
  }

  predicate LegalScreen(s: Screen, printScale: ScalePrinter, parse: ScaleParser) {
    && IsHeader(Trim(s.header)) && Inverse(printScale, parse, s.scale)
    && AllIgnorable(s.gap1) && AllIgnorable(s.gap2) && AllIgnorable(s.gap3) && AllIgnorable(s.gap4)
  }

  predicate LegalScreens(ss: seq<Screen>, printScale: ScalePrinter, parse: ScaleParser) {
    forall i :: 0 <= i < |ss| ==> LegalScreen(ss[i], printScale, parse)
  }

  /** What follows the screens: nothing, or a heading's rule and other lines without a screen. */
  predicate LegalEnd(lines: seq<string>) {
    NoHeader(lines) && (lines != [] ==> IsTerminator(Trim(lines[0])))
  }

  // ---------- Texts of fields ----------

  lemma IntTextShape(n: int)
    ensures IntText(n) != "" && Codes(IntText(n)) == SignedText(n) && Trimmed(IntText(n))
    ensures forall i :: 0 <= i < |IntText(n)| ==> IntText(n)[i] != ',' && IntText(n)[i] != 'x'
    ensures !EndsWith(IntText(n), "=")
  {
    var s, t := SignedText(n), IntText(n);
    assert forall i :: 0 <= i < |t| ==> t[i] as int == s[i];
    assert Codes(t) == s;
  }

  lemma {:induction false} SplitAt(a: string, c: char, b: string)
    requires forall i :: 0 <= i < |a| ==> a[i] != c
    ensures SplitOnce(a + ([c] + b), c) == Some((a, b))
  {
    var s := a + ([c] + b);
    if a == "" {
      assert s == [c] + b && s[1..] == b;
    } else {
      SplitAt(a[1..], c, b);
      assert a == [a[0]] + a[1..];
      assert s[1..] == a[1..] + ([c] + b);
    }
  }

  lemma TrimLeadingBlank(s: string)
    requires Trimmed(s)
    ensures Trim(" " + s) == s
  {
    assert (" " + s)[1..] == s;
    assert TrimStart(" " + s) == TrimStart(s);
    TrimProperties(s);
  }

  lemma ReadInt(n: int, error: MonitorError)
    ensures -0x8000_0000 <= n < 0x8000_0000 ==> ParseI32(IntText(n), error) == Ok(n)
    ensures 0 <= n < 0x1_0000_0000 ==> ParseU32(IntText(n), error) == Ok(n)
  {
    hide Trim, IntText, SignedText;
    IntTextShape(n);
    TrimProperties(IntText(n));
    NumberRead(n);
  }

  lemma ReadGeometry(s: Screen)
    ensures ParseGeometry(GeometryText(s)) == Ok((s.x, s.y, s.width, s.height))
  {
    hide ParseI32, ParseU32, IntText, SplitOnce;
    IntTextShape(s.x);
    IntTextShape(s.y);
    IntTextShape(s.width);
    var size := IntText(s.width) + ("x" + IntText(s.height));
    SplitAt(IntText(s.x), ',', IntText(s.y) + ("," + size));
    SplitAt(IntText(s.y), ',', size);
    SplitAt(IntText(s.width), 'x', IntText(s.height));
    ReadInt(s.x, GeometryX(IntText(s.x)));
    ReadInt(s.y, GeometryY(IntText(s.y)));
    ReadInt(s.width, GeometryWidth(IntText(s.width)));
    ReadInt(s.height, GeometryHeight(IntText(s.height)));
  }

  lemma GeometryTextShape(s: Screen)
    ensures GeometryText(s) != "" && Trimmed(GeometryText(s)) && !EndsWith(GeometryText(s), "=")
  {
    hide IntText;
    IntTextShape(s.x);
    IntTextShape(s.height);
    var t := GeometryText(s);
    assert t[0] == IntText(s.x)[0] && t[|t| - 1] == IntText(s.height)[|IntText(s.height)| - 1];
  }

  /** A labelled line with a trimmed value is unchanged by trimming. */
  lemma LabelledLine(prefix: string, value: string)
    requires |prefix| >= 2 && !IsSpace(prefix[0]) && prefix[|prefix| - 1] == ' ' && value != "" && Trimmed(value)
    ensures Trim(prefix + value) == prefix + value && (prefix + value)[|prefix| - 1..] == " " + value
  {
    TrimProperties(prefix + value);
  }

  // ---------- Lines the reader sees ----------

  lemma EndsWithLonger(s: string, t: string)
    requires EndsWith(s, "======") && |t| >= 1 && EndsWith(s, t)
    ensures t[|t| - 1] == '='
  {
    assert s[|s| - |t|..][|t| - 1] == s[|s| - 1] && s[|s| - 6..][5] == s[|s| - 1];
  }

  /** What kind of line a label makes, and the value behind it. */
  lemma LabelKinds(value: string)
    ensures var line := "Name:" + value;
      "Name:" <= line && line[5..] == value && !("Screen " <= line)
    ensures var line := "Geometry:" + value;
      "Geometry:" <= line && line[9..] == value && !("Screen " <= line) && !("Name:" <= line)
    ensures var line := "Scale:" + value;
      "Scale:" <= line && line[6..] == value && !("Screen " <= line) && !("Name:" <= line) && !("Geometry:" <= line)
  {
    assert ("Scale:" + value)[2] == 'a' && ("Scale:" + value)[0] == 'S';
    assert ("Geometry:" + value)[0] == 'G' && ("Name:" + value)[0] == 'N';
  }

  lemma GeometryLine(s: Screen, b: Builder, parse: ScaleParser)
    ensures var line := Trim("Geometry: " + GeometryText(s));
      && !IsHeader(line) && !IsTerminator(line)
      && ApplyLine(b, line, parse) ==
         Ok(b.(originX := Some(s.x), originY := Some(s.y), width := Some(s.width), height := Some(s.height)))
  {
    hide GeometryText, ParseGeometry, Trim, IsTerminator, EndsWith;
    GeometryTextShape(s);
    LabelledLine("Geometry: ", GeometryText(s));
    var line := "Geometry: " + GeometryText(s);
    assert line == "Geometry:" + (" " + GeometryText(s));
    LabelKinds(" " + GeometryText(s));
    ReadGeometry(s);
    TrimLeadingBlank(GeometryText(s));
    LineEnd(line, GeometryText(s));
  }

  lemma LineEnd(line: string, value: string)
    requires value != "" && |line| >= |value| && line[|line| - |value|..] == value && !EndsWith(value, "=")
    ensures !IsTerminator(line)
  {
    assert line[|line| - 1] == value[|value| - 1];
    if IsTerminator(line) { EndsWithLonger(line, value[|value| - 1..]); }
  }

  lemma ScaleLine(s: Screen, b: Builder, printScale: ScalePrinter, parse: ScaleParser)
    requires Inverse(printScale, parse, s.scale)
    ensures var line := Trim("Scale: " + printScale(s.scale));
      && !IsHeader(line) && !IsTerminator(line)
      && ApplyLine(b, line, parse) == Ok(b.(scale := Some(s.scale)))
  {
    hide Trim;
    var text := printScale(s.scale);
    LabelledLine("Scale: ", text);
    TrimLeadingBlank(text);
    RuleOnlyInValue("Scale: ", text);
    assert "Scale: " + text == "Scale:" + (" " + text);
    LabelKinds(" " + text);
  }

  /** A rule at the end of a labelled line is at the end of its value. */
  lemma RuleOnlyInValue(prefix: string, value: string)
    requires prefix != "" && prefix[|prefix| - 1] == ' '
    ensures EndsWith(prefix + value, "======") <==> EndsWith(value, "======")
  {
    var line := prefix + value;
    if |value| >= 6 {
      assert line[|line| - 6..] == value[|value| - 6..];
    } else if |line| >= 6 {
      assert line[|line| - 6..][5 - |value|] == ' ';
    }
  }

  /** A clean name is read back as the monitor's name and id. */
  lemma CleanNameLine(name: string, b: Builder, parse: ScaleParser)
    requires Trimmed(name) && !EndsWith(name, "======")
    ensures var line := Trim("Name: " + name);
      && !IsHeader(line) && !IsTerminator(line)
      && ApplyLine(b, line, parse) == Ok(b.(name := Some(name), id := Some(name)))
  {
    hide Trim;
    if name == "" {
      BareName();
      LabelKinds("");
      assert "Name: " + name == "Name: " && "Name:" + "" == "Name:";
    } else {
      LabelledLine("Name: ", name);
      TrimLeadingBlank(name);
      RuleOnlyInValue("Name: ", name);
      assert "Name: " + name == "Name:" + (" " + name);
      LabelKinds(" " + name);
    }
  }

  lemma BareName()
    ensures Trim("Name: ") == "Name:" && Trim("") == "" && !EndsWith("Name:", "======")
  {
    assert "Name:" + " " == "Name: ";
    TrimTrailingBlank("Name:");
    TrimProperties("");
  }

  lemma TrimTrailingBlank(t: string)
    requires t != "" && Trimmed(t)
    ensures Trim(t + " ") == t
  {
    var s := t + " ";
    assert s[..|s| - 1] == t;
    TrimProperties(t);
  }

  /** Any other name ends the screen early, or comes back trimmed. */
  lemma UncleanNameLine(name: string, b: Builder, parse: ScaleParser)
    requires !(Trimmed(name) && !EndsWith(name, "======"))
    ensures var line := Trim("Name: " + name);
      && !IsHeader(line)
      && (IsTerminator(line) || exists other: string ::
            other != name && ApplyLine(b, line, parse) == Ok(b.(name := Some(other), id := Some(other))))
  {
    hide Trim, EndsWith;
    var line := Trim("Name: " + name);
    NameLineKept(name);
    if Trimmed(name) {
      RuledName(name);
    } else {
      var other := Trim(line[5..]);
      TrimProperties(line[5..]);
      assert ApplyLine(b, line, parse) == Ok(b.(name := Some(other), id := Some(other)));
    }
  }

  lemma RuledName(name: string)
    requires Trimmed(name) && EndsWith(name, "======")
    ensures IsTerminator(Trim("Name: " + name))
  {
    hide Trim;
    assert name != "";
    LabelledLine("Name: ", name);
    RuleOnlyInValue("Name: ", name);
  }

  lemma NameLineKept(name: string)
    ensures "Name:" <= Trim("Name: " + name) && !IsHeader(Trim("Name: " + name))
  {
    var raw := "Name: " + name;
    TrimKeepsStart(raw);
    var line := Trim(raw);
    assert raw[4] == ':';
    LineStart(raw, line);
  }

  lemma TrimKeepsStart(s: string)
    requires s != "" && !IsSpace(s[0])
    ensures Trim(s) <= s
    ensures forall i :: |Trim(s)| <= i < |s| ==> IsSpace(s[i])
  {
    assert TrimStart(s) == s;
  }

  lemma LineStart(raw: string, line: string)
    requires line <= raw && "Name: " <= raw && raw[4] == ':' && raw[0] == 'N'
    requires forall i :: |line| <= i < |raw| ==> IsSpace(raw[i])
    ensures "Name:" <= line && !IsHeader(line)
  {
    assert |line| >= 5;
    assert line[..5] == raw[..5] == "Name: "[..5] == "Name:";
    assert line[0] == raw[0];
  }

  // ---------- Reading a screen ----------

  lemma {:induction false} GapSkipped(lines: seq<string>, i: nat, gap: seq<string>, b: Builder, parse: ScaleParser)
    requires AllIgnorable(gap) && At(lines, i, TrimAll(gap))
    ensures Pass(lines, i, Some(b), parse) == Pass(lines, i + |gap|, Some(b), parse)
    decreases |gap|
  {
    hide IsHeader, IsTerminator, Trim, Finish, ApplyLine, At, TrimAll;
    if gap != [] {
      assert gap == [gap[0]] + gap[1..];
      AtTrimmed(lines, i, [gap[0]], gap[1..]);
      HeaderAt(lines, i, gap[0]);
      IgnorableKeeps(b, Trim(gap[0]), parse);
      GapSkipped(lines, i + 1, gap[1..], b, parse);
    }
  }

  lemma IgnorableKeeps(b: Builder, line: string, parse: ScaleParser)
    requires Ignorable(line)
    ensures !IsHeader(line) && !IsTerminator(line) && ApplyLine(b, line, parse) == Ok(b)
  {
  }

  /** One raw line that changes the builder, at its place among the trimmed lines. */
  lemma LineApplied(lines: seq<string>, i: nat, raw: string, b: Builder, c: Builder, parse: ScaleParser)
    requires At(lines, i, TrimAll([raw]))
    requires !IsHeader(Trim(raw)) && !IsTerminator(Trim(raw)) && ApplyLine(b, Trim(raw), parse) == Ok(c)
    ensures Pass(lines, i, Some(b), parse) == Pass(lines, i + 1, Some(c), parse)
  {
    hide ApplyLine, IsHeader, IsTerminator, Trim, Finish;
    assert lines[i + 0] == TrimAll([raw])[0];
  }

  lemma TrimAllConcat(a: seq<string>, b: seq<string>)
    ensures TrimAll(a + b) == TrimAll(a) + TrimAll(b)
  {
  }

  lemma AtTrimmed(lines: seq<string>, i: nat, a: seq<string>, b: seq<string>)
    requires At(lines, i, TrimAll(a + b))
    ensures At(lines, i, TrimAll(a)) && At(lines, i + |a|, TrimAll(b))
  {
    TrimAllConcat(a, b);
    AtParts(lines, i, TrimAll(a), TrimAll(b));
  }

  function Fields(s: Screen, printScale: ScalePrinter): seq<string> {
    s.gap2 + (["Geometry: " + GeometryText(s)] + (s.gap3 + (["Scale: " + printScale(s.scale)] + s.gap4)))
  }

  /** Behind the name, geometry and scale are read whatever stands between them. */
  lemma FieldsRead(lines: seq<string>, i: nat, s: Screen, b: Builder, printScale: ScalePrinter, parse: ScaleParser)
    requires LegalScreen(s, printScale, parse) && At(lines, i, TrimAll(Fields(s, printScale)))
    ensures Pass(lines, i, Some(b), parse) == Pass(lines, i + |Fields(s, printScale)|,
      Some(b.(originX := Some(s.x), originY := Some(s.y), width := Some(s.width), height := Some(s.height),
              scale := Some(s.scale))), parse)
  {
    hide Pass, ApplyLine, IsHeader, IsTerminator, Trim, GeometryText, At, TrimAll, AllIgnorable;
    var geometry, scale := ["Geometry: " + GeometryText(s)], ["Scale: " + printScale(s.scale)];
    var c := b.(originX := Some(s.x), originY := Some(s.y), width := Some(s.width), height := Some(s.height));
    var d := c.(scale := Some(s.scale));
    AtTrimmed(lines, i, s.gap2, geometry + (s.gap3 + (scale + s.gap4)));
    GapSkipped(lines, i, s.gap2, b, parse);
    var i1 := i + |s.gap2|;
    AtTrimmed(lines, i1, geometry, s.gap3 + (scale + s.gap4));
    GeometryLine(s, b, parse);
    LineApplied(lines, i1, geometry[0], b, c, parse);
    AtTrimmed(lines, i1 + 1, s.gap3, scale + s.gap4);
    GapSkipped(lines, i1 + 1, s.gap3, c, parse);
    var i2 := i1 + 1 + |s.gap3|;
    AtTrimmed(lines, i2, scale, s.gap4);
    ScaleLine(s, c, printScale, parse);
    LineApplied(lines, i2, scale[0], c, d, parse);
    GapSkipped(lines, i2 + 1, s.gap4, d, parse);
  }

  function Started(s: Screen): Builder {
    NEW_BUILDER.(id := Some(HeaderId(Trim(s.header))))
  }

  /** The header opens a screen, and the lines up to the name are skipped. */
  lemma HeaderRead(lines: seq<string>, i: nat, s: Screen, printScale: ScalePrinter, parse: ScaleParser) returns (k: nat)
    requires LegalScreen(s, printScale, parse) && At(lines, i, TrimAll(PrintScreen(s, printScale)))
    ensures i < |lines| && IsHeader(lines[i])
    ensures At(lines, k, TrimAll(["Name: " + s.name])) && k < |lines|
    ensures At(lines, k + 1, TrimAll(Fields(s, printScale)))
    ensures Pass(lines, i, None, parse) == Pass(lines, k, Some(Started(s)), parse)
    ensures i + |PrintScreen(s, printScale)| == k + 1 + |Fields(s, printScale)|
  {
    hide IsHeader, IsTerminator, Trim, At, AllIgnorable, NEW_BUILDER, Finish, Fields, ApplyLine, TrimAll, PrintScreen;
    FieldsShape(s, printScale);
    FourParts(lines, i, [s.header], s.gap1, ["Name: " + s.name], Fields(s, printScale));
    k := i + 1 + |s.gap1|;
    HeaderAt(lines, i, s.header);
    GapSkipped(lines, i + 1, s.gap1, Started(s), parse);
    HeaderAt(lines, k, "Name: " + s.name);
  }

  lemma FourParts(lines: seq<string>, i: nat, a: seq<string>, b: seq<string>, c: seq<string>, d: seq<string>)
    requires At(lines, i, TrimAll(a + (b + (c + d))))
    ensures At(lines, i, TrimAll(a)) && At(lines, i + |a|, TrimAll(b))
    ensures At(lines, i + |a| + |b|, TrimAll(c)) && At(lines, i + |a| + |b| + |c|, TrimAll(d))
  {
    hide *;
    AtTrimmed(lines, i, a, b + (c + d));
    AtTrimmed(lines, i + |a|, b, c + d);
    AtTrimmed(lines, i + |a| + |b|, c, d);
  }

  lemma FieldsShape(s: Screen, printScale: ScalePrinter)
    ensures PrintScreen(s, printScale) ==
      [s.header] + (s.gap1 + (["Name: " + s.name] + Fields(s, printScale)))
  {
  }

  lemma HeaderAt(lines: seq<string>, i: nat, raw: string)
    requires At(lines, i, TrimAll([raw]))
    ensures i < |lines| && lines[i] == Trim(raw)
  {
    assert lines[i + 0] == TrimAll([raw])[0];
  }

  /** A printed screen is read as its monitor exactly if its name is clean: any other name ends
      the screen before its geometry, which is an error, or comes back changed. */
  lemma ScreenRead(lines: seq<string>, i: nat, s: Screen, printScale: ScalePrinter, parse: ScaleParser)
    returns (b: Builder)
    requires LegalScreen(s, printScale, parse) && At(lines, i, TrimAll(PrintScreen(s, printScale)))
    ensures i < |lines| && IsHeader(lines[i]) && i + |PrintScreen(s, printScale)| <= |lines|
    ensures if s.CleanName() then
        && Pass(lines, i, None, parse) == Pass(lines, i + |PrintScreen(s, printScale)|, Some(b), parse)
        && Build(b) == Ok(s.Expected())
      else
        || Pass(lines, i, None, parse).Err?
        || (&& Pass(lines, i, None, parse) == Pass(lines, i + |PrintScreen(s, printScale)|, Some(b), parse)
            && Build(b).Ok? && Build(b).value != s.Expected())
  {
    hide Trim, IsHeader, IsTerminator, PrintScreen, Fields, TrimAll, LegalScreen, ApplyLine, NEW_BUILDER, EndsWith,
         Trimmed;
    var k := HeaderRead(lines, i, s, printScale, parse);
    var line := "Name: " + s.name;
    b := Started(s);
    FieldsInside(lines, k + 1, TrimAll(Fields(s, printScale)));
    if s.CleanName() {
      CleanNameLine(s.name, b, parse);
      b := NameRead(lines, k, s, s.name, printScale, parse);
    } else {
      UncleanNameLine(s.name, b, parse);
      if IsTerminator(Trim(line)) {
        StartedEmpty(s);
        EndedEarly(lines, k, line, b, parse);
      } else {
        var other: string :| other != s.name &&
          ApplyLine(b, Trim(line), parse) == Ok(b.(name := Some(other), id := Some(other)));
        b := NameRead(lines, k, s, other, printScale, parse);
      }
    }
  }

  lemma StartedEmpty(s: Screen)
    ensures Started(s).width.None?
  {
  }

  lemma FieldsInside(lines: seq<string>, i: nat, t: seq<string>)
    requires At(lines, i, t)
    ensures i + |t| <= |lines|
  {
  }

  lemma EndedEarly(lines: seq<string>, k: nat, raw: string, b: Builder, parse: ScaleParser)
    requires At(lines, k, TrimAll([raw])) && IsTerminator(Trim(raw)) && !IsHeader(Trim(raw)) && b.width.None?
    ensures Pass(lines, k, Some(b), parse).Err?
  {
    hide IsHeader, IsTerminator, Trim, ApplyLine;
    HeaderAt(lines, k, raw);
  }

  lemma NameRead(lines: seq<string>, k: nat, s: Screen, name: string, printScale: ScalePrinter, parse: ScaleParser)
    returns (d: Builder)
    requires LegalScreen(s, printScale, parse) && At(lines, k, TrimAll(["Name: " + s.name]))
    requires At(lines, k + 1, TrimAll(Fields(s, printScale)))
    requires var line := Trim("Name: " + s.name);
      !IsHeader(line) && !IsTerminator(line)
      && ApplyLine(Started(s), line, parse) == Ok(Started(s).(name := Some(name), id := Some(name)))
    ensures Pass(lines, k, Some(Started(s)), parse) == Pass(lines, k + 1 + |Fields(s, printScale)|, Some(d), parse)
    ensures Build(d) == Ok(s.Expected().(id := name, name := Some(name)))
  {
    hide Pass, ApplyLine, IsHeader, IsTerminator, Trim, Fields, TrimAll, LegalScreen, At, ScaledDimension;
    var c := Started(s).(name := Some(name), id := Some(name));
    LineApplied(lines, k, "Name: " + s.name, Started(s), c, parse);
    FieldsRead(lines, k + 1, s, c, printScale, parse);
    d := c.(originX := Some(s.x), originY := Some(s.y), width := Some(s.width), height := Some(s.height),
            scale := Some(s.scale));
  }

  // ---------- Reading a report ----------

  /** What a monitor shows of the screen printed; its physical size is the logical one times the
      scale. */
  predicate Shows(m: MonitorInfo, s: Screen) {
    && m.id == s.name && m.name == Some(s.name)
    && m.logicalOriginX == s.x && m.logicalOriginY == s.y
    && m.logicalWidth == s.width && m.logicalHeight == s.height && m.scaleFactor == s.scale
    && NearestSize(m.physicalWidth, Scaled(s.width, s.scale))
    && NearestSize(m.physicalHeight, Scaled(s.height, s.scale))
  }

  lemma ShowsExpected(m: MonitorInfo, s: Screen)
    ensures Shows(m, s) <==> m == s.Expected()
  {
    hide ScaledDimension, NearestSize, Scaled;
    ScaledIsNearest(s.width, s.scale, m.physicalWidth);
    ScaledIsNearest(s.height, s.scale, m.physicalHeight);
  }

  /** The reading gives one monitor per screen, in order, each showing its screen. */
  predicate Recovers(r: Outcomes, ss: seq<Screen>) {
    r.Ok? && |r.value| == |ss| && forall i :: 0 <= i < |ss| ==> Shows(r.value[i], ss[i])
  }

  lemma RecoversExpected(r: Outcomes, ss: seq<Screen>)
    ensures Recovers(r, ss) <==> r == Ok(AllExpected(ss))
  {
    hide Shows, Screen.Expected;
    if r.Ok? && |r.value| == |ss| {
      forall i | 0 <= i < |ss| ensures Shows(r.value[i], ss[i]) <==> r.value[i] == AllExpected(ss)[i] {
        ShowsExpected(r.value[i], ss[i]);
      }
      assert Recovers(r, ss) <==> r.value == AllExpected(ss);
    }
  }

  function AllExpected(ss: seq<Screen>): (ms: seq<MonitorInfo>)
    ensures |ms| == |ss|
  {
    seq(|ss|, i requires 0 <= i < |ss| => ss[i].Expected())
  }

  predicate AllClean(ss: seq<Screen>) {
    forall i :: 0 <= i < |ss| ==> ss[i].CleanName()
  }

  lemma {:induction false} NoScreenRead(lines: seq<string>, i: nat, parse: ScaleParser)
    requires i <= |lines| && forall k :: i <= k < |lines| ==> !IsHeader(lines[k])
    ensures Pass(lines, i, None, parse) == Ok([])
    decreases |lines| - i
  {
    if i < |lines| { NoScreenRead(lines, i + 1, parse); }
  }

  lemma {:induction false} ScreensRead(
    lines: seq<string>, i: nat, ss: seq<Screen>, end: seq<string>, printScale: ScalePrinter, parse: ScaleParser)
    requires LegalScreens(ss, printScale, parse) && LegalEnd(end)
    requires At(lines, i, TrimAll(PrintScreens(ss, printScale) + end))
    requires i + |PrintScreens(ss, printScale)| + |end| == |lines|
    ensures Pass(lines, i, None, parse) == Ok(AllExpected(ss)) <==> AllClean(ss)
    ensures i < |lines| ==> IsHeader(lines[i]) || IsTerminator(lines[i])
    decreases |ss|
  {
    hide Trim, IsHeader, IsTerminator, PrintScreen, LegalEnd, LegalScreen, Screen.CleanName, Screen.Expected, Pass,
         At, TrimAll, PrintScreens, AllExpected, AllClean, LegalScreens, Build, Front;
    if ss == [] {
      NoScreens(end, printScale);
      EndRead(lines, i, end, parse);
    } else {
      var s, rest := ss[0], ss[1..];
      FirstScreen(ss, end, printScale, parse);
      AtTrimmed(lines, i, PrintScreen(s, printScale), PrintScreens(rest, printScale) + end);
      var b := ScreenRead(lines, i, s, printScale, parse);
      var j := i + |PrintScreen(s, printScale)|;
      ScreensRead(lines, j, rest, end, printScale, parse);
      BodyOver(lines, j, b, parse);
      FrontMatches(Build(b), s.Expected(), Pass(lines, j, None, parse), AllExpected(rest));
    }
  }

  lemma NoScreens(end: seq<string>, printScale: ScalePrinter)
    ensures PrintScreens([], printScale) == [] && PrintScreens([], printScale) + end == end
    ensures AllExpected([]) == [] && AllClean([])
  {
  }

  lemma FirstScreen(ss: seq<Screen>, end: seq<string>, printScale: ScalePrinter, parse: ScaleParser)
    requires ss != []
    ensures PrintScreens(ss, printScale) + end
            == PrintScreen(ss[0], printScale) + (PrintScreens(ss[1..], printScale) + end)
    ensures |PrintScreens(ss, printScale)| == |PrintScreen(ss[0], printScale)| + |PrintScreens(ss[1..], printScale)|
    ensures AllExpected(ss) == [ss[0].Expected()] + AllExpected(ss[1..])
    ensures AllClean(ss) <==> ss[0].CleanName() && AllClean(ss[1..])
    ensures LegalScreens(ss, printScale, parse) ==>
            LegalScreen(ss[0], printScale, parse) && LegalScreens(ss[1..], printScale, parse)
  {
    hide Screen.CleanName, Screen.Expected, PrintScreen, LegalScreen;
    assert ss == [ss[0]] + ss[1..];
  }

  lemma FrontMatches(first: Result<MonitorInfo, MonitorError>, m: MonitorInfo, after: Outcomes, ms: seq<MonitorInfo>)
    ensures Front(first, after) == Ok([m] + ms) <==> first == Ok(m) && after == Ok(ms)
  {
    if first.Ok? && after.Ok? && Front(first, after) == Ok([m] + ms) {
      var all := [first.value] + after.value;
      assert all == [m] + ms;
      assert all[0] == m && all[1..] == after.value && ([m] + ms)[1..] == ms;
    }
  }

  lemma EndRead(lines: seq<string>, i: nat, end: seq<string>, parse: ScaleParser)
    requires LegalEnd(end) && At(lines, i, TrimAll(end)) && i + |end| == |lines|
    ensures Pass(lines, i, None, parse) == Ok([])
    ensures i < |lines| ==> IsTerminator(lines[i])
  {
    hide IsHeader, IsTerminator, Trim;
    forall k | i <= k < |lines| ensures !IsHeader(lines[k]) {
      assert lines[i + (k - i)] == TrimAll(end)[k - i];
    }
    NoScreenRead(lines, i, parse);
    if end != [] { assert lines[i + 0] == TrimAll(end)[0]; }
  }

  lemma {:induction false} PreambleSkipped(lines: seq<string>, i: nat, k: nat, parse: ScaleParser)
    requires i <= k <= |lines| && forall n :: i <= n < k ==> !IsHeader(lines[n])
    ensures Pass(lines, i, None, parse) == Pass(lines, k, None, parse)
    decreases k - i
  {
    if i < k { PreambleSkipped(lines, i + 1, k, parse); }
  }

  /** Reading a printed report gives back its monitors, with their ids, signed origins, sizes and
      scales, if and only if every name is trimmed and does not end in a heading's rule. */
  lemma ReportRecovered(
    preamble: seq<string>, ss: seq<Screen>, end: seq<string>, printScale: ScalePrinter, parse: ScaleParser)
    requires NoHeader(preamble) && LegalScreens(ss, printScale, parse) && LegalEnd(end)
    ensures Recovers(Pass(TrimAll(preamble + (PrintScreens(ss, printScale) + end)), 0, None, parse), ss)
            <==> AllClean(ss)
  {
    hide Recovers, AllExpected, AllClean, Pass, TrimAll, PrintScreens;
    ReportExpected(preamble, ss, end, printScale, parse);
    RecoversExpected(Pass(TrimAll(preamble + (PrintScreens(ss, printScale) + end)), 0, None, parse), ss);
  }

  lemma ReportExpected(
    preamble: seq<string>, ss: seq<Screen>, end: seq<string>, printScale: ScalePrinter, parse: ScaleParser)
    requires NoHeader(preamble) && LegalScreens(ss, printScale, parse) && LegalEnd(end)
    ensures Pass(TrimAll(preamble + (PrintScreens(ss, printScale) + end)), 0, None, parse) == Ok(AllExpected(ss))
            <==> AllClean(ss)
  {
    hide Pass, IsHeader, IsTerminator, Trim, PrintScreens, AllExpected, AllClean;
    var rest := PrintScreens(ss, printScale) + end;
    var lines := TrimAll(preamble + rest);
    WholeAt(lines);
    AtTrimmed(lines, 0, preamble, rest);
    forall n | 0 <= n < |preamble| ensures !IsHeader(lines[n]) {
      assert lines[0 + n] == TrimAll(preamble)[n];
    }
    PreambleSkipped(lines, 0, |preamble|, parse);
    ScreensRead(lines, |preamble|, ss, end, printScale, parse);
  }

  lemma WholeAt(lines: seq<string>)
    ensures At(lines, 0, lines)
  {
  }

  // ---------- The text of a report ----------

  function Join(lines: seq<string>): string {
    if lines == [] then "" else lines[0] + (['\n'] + Join(lines[1..]))
  }

  /** Lines without line breaks are recovered from the text they are joined to. */
  lemma {:induction false} LinesJoined(lines: seq<string>)
    requires forall i :: 0 <= i < |lines| ==> '\n' !in lines[i]
    ensures Lines(Join(lines)) == lines
  {
    if lines != [] {
      SplitAt(lines[0], '\n', Join(lines[1..]));
      LinesJoined(lines[1..]);
    }
  }

  predicate OneLine(s: string) {
    '\n' !in s
  }

  predicate OneLined(lines: seq<string>) {
    forall i :: 0 <= i < |lines| ==> OneLine(lines[i])
  }

  lemma OneLinedJoin(a: seq<string>, b: seq<string>)
    ensures OneLined(a + b) <==> OneLined(a) && OneLined(b)
  {
    hide OneLine;
    var t := a + b;
    assert forall i :: 0 <= i < |a| ==> t[i] == a[i];
    assert forall i :: 0 <= i < |b| ==> t[|a| + i] == b[i];
  }

  /** Every line printed for the screen is one, but perhaps that of its name. */
  predicate OneLinedBut(s: Screen, printScale: ScalePrinter) {
    && OneLine(s.header) && OneLine(printScale(s.scale))
    && OneLined(s.gap1) && OneLined(s.gap2) && OneLined(s.gap3) && OneLined(s.gap4)
  }

  lemma ScreenOneLined(s: Screen, printScale: ScalePrinter)
    requires OneLinedBut(s, printScale) && OneLine(s.name)
    ensures OneLined(PrintScreen(s, printScale))
  {
    hide OneLined, GeometryText;
    var scale := ["Scale: " + printScale(s.scale)];
    var geometry := ["Geometry: " + GeometryText(s)];
    var name := ["Name: " + s.name];
    GeometryOneLine(s);
    OneAlone("Scale: " + printScale(s.scale));
    OneAlone("Geometry: " + GeometryText(s));
    OneAlone("Name: " + s.name);
    OneAlone(s.header);
    OneLinedJoin(scale, s.gap4);
    OneLinedJoin(s.gap3, scale + s.gap4);
    OneLinedJoin(geometry, s.gap3 + (scale + s.gap4));
    OneLinedJoin(s.gap2, geometry + (s.gap3 + (scale + s.gap4)));
    OneLinedJoin(name, s.gap2 + (geometry + (s.gap3 + (scale + s.gap4))));
    OneLinedJoin(s.gap1, name + (s.gap2 + (geometry + (s.gap3 + (scale + s.gap4)))));
    OneLinedJoin([s.header], s.gap1 + (name + (s.gap2 + (geometry + (s.gap3 + (scale + s.gap4))))));
  }

  lemma OneAlone(line: string)
    ensures OneLined([line]) <==> OneLine(line)
  {
    assert [line][0] == line;
  }

  lemma GeometryOneLine(s: Screen)
    ensures OneLine(GeometryText(s))
  {
    hide IntText;
    IntOneLine(s.x);
    IntOneLine(s.y);
    IntOneLine(s.width);
    IntOneLine(s.height);
  }

  lemma IntOneLine(n: int)
    ensures OneLine(IntText(n))
  {
    var t, codes := IntText(n), SignedText(n);
    assert forall i :: 0 <= i < |t| ==> t[i] as int == codes[i];
  }

  predicate NamesOneLined(ss: seq<Screen>) {
    forall i :: 0 <= i < |ss| ==> OneLine(ss[i].name)
  }

  lemma {:induction false} ScreensOneLined(ss: seq<Screen>, printScale: ScalePrinter)
    requires NamesOneLined(ss) && forall i :: 0 <= i < |ss| ==> OneLinedBut(ss[i], printScale)
    ensures OneLined(PrintScreens(ss, printScale))
  {
    hide OneLinedBut, PrintScreen, OneLine, OneLined;
    if ss == [] {
      NoLines();
    } else {
      ScreenOneLined(ss[0], printScale);
      ScreensOneLined(ss[1..], printScale);
      OneLinedJoin(PrintScreen(ss[0], printScale), PrintScreens(ss[1..], printScale));
    }
  }

  lemma NoLines()
    ensures OneLined([])
  {
  }

  lemma {:induction false} SplitOneLine(text: string)
    ensures match SplitOnce(text, '\n') case None => OneLine(text) case Some(parts) => OneLine(parts.0)
  {
    if text != "" && text[0] != '\n' {
      SplitOneLine(text[1..]);
      assert text == [text[0]] + text[1..];
    }
  }

  /** No line of a text holds a line break, trimmed or not. */
  lemma {:induction false} LinesAreOne(text: string)
    ensures OneLined(Lines(text))
    decreases |text|
  {
    hide OneLine;
    SplitOneLine(text);
    match SplitOnce(text, '\n') {
      case None =>
      case Some((line, rest)) => LinesAreOne(rest);
    }
  }

  lemma TrimOneLine(s: string)
    requires OneLine(s)
    ensures OneLine(Trim(s))
  {
    hide TrimStart, TrimEnd;
    var t := TrimStart(s);
    forall c | c in t ensures c in s {
      var k :| 0 <= k < |t| && t[k] == c;
      assert s[|s| - |t| + k] == c;
    }
    assert forall c :: c in TrimEnd(t) ==> c in t;
  }

  /** A name built so far is one line. */
  predicate NamedInLine(current: Option<Builder>) {
    current.Some? && current.value.name.Some? ==> OneLine(current.value.name.value)
  }

  predicate NamesRead(r: Outcomes) {
    r.Ok? ==> forall i :: 0 <= i < |r.value| ==> r.value[i].name.Some? ==> OneLine(r.value[i].name.value)
  }

  lemma {:induction false} PassNames(lines: seq<string>, i: nat, current: Option<Builder>, parse: ScaleParser)
    requires i <= |lines| && OneLined(lines) && NamedInLine(current)
    ensures NamesRead(Pass(lines, i, current, parse))
    decreases |lines| - i
  {
    hide ApplyLine, IsHeader, IsTerminator, HeaderId, Build, OneLine;
    if current.Some? { BuiltName(current.value); }
    if i < |lines| {
      var started := Some(NEW_BUILDER.(id := Some(HeaderId(lines[i]))));
      PassNames(lines, i + 1, started, parse);
      PassNames(lines, i + 1, None, parse);
      if current.Some? {
        AppliedName(current.value, lines[i], parse);
        var applied := ApplyLine(current.value, lines[i], parse);
        if applied.Ok? { PassNames(lines, i + 1, Some(applied.value), parse); }
      }
    }
  }

  lemma BuiltName(b: Builder)
    ensures Build(b).Ok? ==> Build(b).value.name == b.name
  {
  }

  lemma AppliedName(b: Builder, line: string, parse: ScaleParser)
    requires OneLine(line) && NamedInLine(Some(b))
    ensures ApplyLine(b, line, parse).Ok? ==> NamedInLine(Some(ApplyLine(b, line, parse).value))
  {
    hide Trim;
    if "Name:" <= line { TrimOneLine(line[5..]); }
  }

  /** Reading the text of a printed report gives back its monitors if and only if every name is
      trimmed, does not end in a heading's rule, and stands on one line. */
  lemma TextRecovered(
    preamble: seq<string>, ss: seq<Screen>, end: seq<string>, printScale: ScalePrinter, parse: ScaleParser)
    requires NoHeader(preamble) && LegalScreens(ss, printScale, parse) && LegalEnd(end)
    requires OneLined(preamble) && OneLined(end) && forall i :: 0 <= i < |ss| ==> OneLinedBut(ss[i], printScale)
    ensures var lines := Lines(Join(preamble + (PrintScreens(ss, printScale) + end)));
      Recovers(Pass(TrimAll(lines), 0, None, parse), ss) <==> AllClean(ss) && NamesOneLined(ss)
  {
    hide Recovers, Pass, TrimAll, PrintScreens, AllExpected, AllClean, LegalScreens, NoHeader, LegalEnd, OneLine;
    hide Lines, Join, OneLinedBut;
    var lines := preamble + (PrintScreens(ss, printScale) + end);
    if NamesOneLined(ss) {
      ScreensOneLined(ss, printScale);
      OneLinedJoin(PrintScreens(ss, printScale), end);
      OneLinedJoin(preamble, PrintScreens(ss, printScale) + end);
      OneLineEach(lines);
      LinesJoined(lines);
      ReportRecovered(preamble, ss, end, printScale, parse);
    } else {
      RecoversExpected(Pass(TrimAll(Lines(Join(lines))), 0, None, parse), ss);
      LinesAreOne(Join(lines));
      TrimmedOneLined(Lines(Join(lines)));
      PassNames(TrimAll(Lines(Join(lines))), 0, None, parse);
      ExpectedNames(ss);
    }
  }

  lemma OneLineEach(lines: seq<string>)
    requires OneLined(lines)
    ensures forall i :: 0 <= i < |lines| ==> '\n' !in lines[i]
  {
  }

  lemma TrimmedOneLined(lines: seq<string>)
    requires OneLined(lines)
    ensures OneLined(TrimAll(lines))
  {
    hide OneLine, Trim;
    forall i | 0 <= i < |lines| ensures OneLine(TrimAll(lines)[i]) {
      TrimOneLine(lines[i]);
    }
  }

  lemma {:induction false} ExpectedNames(ss: seq<Screen>)
    ensures |AllExpected(ss)| == |ss|
    ensures forall i :: 0 <= i < |ss| ==> AllExpected(ss)[i].name == Some(ss[i].name)
  {
    if ss != [] { ExpectedNames(ss[1..]); }
  }
}
