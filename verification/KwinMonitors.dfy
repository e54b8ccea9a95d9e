/**
 The one-pass line machine that reads monitors from KWin's support information, the sections
 it amounts to, and the monitors it recovers from a printed report.
 */
module KwinMonitors {
  import opened Outcome
  import opened RustText

  datatype MonitorInfo = MonitorInfo(
    id: string,
    name: Option<string>,
    physicalWidth: u32,
    physicalHeight: u32,
    logicalWidth: u32,
    logicalHeight: u32,
    scaleFactor: real,
    logicalOriginX: i32,
    logicalOriginY: i32
  )

  datatype MonitorError =
    | InvalidGeometry(geometry: string)
    | GeometryX(text: string)
    | GeometryY(text: string)
    | GeometryWidth(text: string)
    | GeometryHeight(text: string)
    | InvalidScale(text: string)
    | MissingWidth(id: string)
    | MissingHeight(id: string)

  datatype Builder = Builder(
    id: Option<string>,
    name: Option<string>,
    originX: Option<i32>,
    originY: Option<i32>,
    width: Option<u32>,
    height: Option<u32>,
    scale: Option<real>
  )

  const NEW_BUILDER := Builder(None, None, None, None, None, None, None)

  /** How a decimal text reads as a floating-point number, if it does. */
  type ScaleParser = string -> Option<real>

  // ---------- Lines ----------

  predicate IsHeader(line: string) {
    "Screen " <= line && EndsWith(line, ":")
  }

  predicate IsTerminator(line: string) {
    EndsWith(line, "======")
  }

  function DropColons(s: string): string {
    if EndsWith(s, ":") then DropColons(s[..|s| - 1]) else s
  }

  function DropScreens(s: string): string {
    if "Screen " <= s then DropScreens(s[7..]) else s
  }

  function HeaderId(line: string): string {
    DropScreens(DropColons(line))
  }

  /** The text in front of the first `c` and the text behind it. */
  function SplitOnce(s: string, c: char): (r: Option<(string, string)>)
    ensures r.Some? ==> s == r.value.0 + [c] + r.value.1
  {
    if s == "" then None
    else if s[0] == c then Some(("", s[1..]))
    else
      match SplitOnce(s[1..], c)
      case None => None
      case Some((a, b)) => Some(([s[0]] + a, b))
  }

  function ParseI32(text: string, error: MonitorError): Result<i32, MonitorError> {
    match Number(Codes(Trim(text)), true)
    case Some(n) => if -0x8000_0000 <= n < 0x8000_0000 then Ok(n) else Err(error)
    case None => Err(error)
  }

  function ParseU32(text: string, error: MonitorError): Result<u32, MonitorError> {
    match Number(Codes(Trim(text)), false)
    case Some(n) => if 0 <= n < 0x1_0000_0000 then Ok(n) else Err(error)
    case None => Err(error)
  }

  function ParseGeometry(geometry: string): Result<(i32, i32, u32, u32), MonitorError> {
    match SplitOnce(geometry, ',')
    case None => Err(InvalidGeometry(geometry))
    case Some((origin, rest)) =>
      match SplitOnce(rest, ',')
      case None => Err(InvalidGeometry(geometry))
      case Some((originY, size)) =>
        match SplitOnce(size, 'x')
        case None => Err(InvalidGeometry(geometry))
        case Some((width, height)) =>
          var x :- ParseI32(origin, GeometryX(origin));
          var y :- ParseI32(originY, GeometryY(originY));
          var w :- ParseU32(width, GeometryWidth(width));
          var h :- ParseU32(height, GeometryHeight(height));
          Ok((x, y, w, h))
  }

  /** What one line inside a screen does to its builder. */
  function ApplyLine(b: Builder, line: string, parse: ScaleParser): Result<Builder, MonitorError> {
    if "Name:" <= line then
      var name := Trim(line[5..]);
      Ok(b.(name := Some(name), id := Some(name)))
    else if "Geometry:" <= line then
      var (x, y, w, h) :- ParseGeometry(Trim(line[9..]));
      Ok(b.(originX := Some(x), originY := Some(y), width := Some(w), height := Some(h)))
    else if "Scale:" <= line then
      match parse(Trim(line[6..]))
      case Some(scale) => Ok(b.(scale := Some(scale)))
      case None => Err(InvalidScale(line[6..]))
    else Ok(b)
  }

  // ---------- Building ----------

  /** Rounds half away from zero, at least 1, saturating at the largest 32-bit value. */
  function ScaledDimension(value: u32, scale: real): u32 {
    var product := value as real * scale;
    var rounded := if product >= 0.0 then (product + 0.5).Floor else -((0.5 - product).Floor);
    if rounded < 1 then 1 else if rounded > 0xFFFF_FFFF then 0xFFFF_FFFF else rounded
  }

  function Or<T>(o: Option<T>, default: T): T {
    if o.Some? then o.value else default
  }

  function Build(b: Builder): Result<MonitorInfo, MonitorError> {
    var id, scale := Or(b.id, "unknown"), Or(b.scale, 1.0);
    if b.width.None? then Err(MissingWidth(id))
    else if b.height.None? then Err(MissingHeight(id))
    else
      var w, h := b.width.value, b.height.value;
      Ok(MonitorInfo(id, b.name, ScaledDimension(w, scale), ScaledDimension(h, scale), w, h, scale,
                     Or(b.originX, 0), Or(b.originY, 0)))
  }

  // ---------- The batch specification ----------

  datatype Section = Section(header: string, body: seq<string>)

  /** The line belongs to the screen it stands in. */
  predicate IsBody(line: string) {
    !IsHeader(line) && !IsTerminator(line)
  }

  /** The lines of a screen end before the next header or terminator. */
  function BodyEnd(lines: seq<string>, i: nat): (j: nat)
    requires i <= |lines|
    ensures i <= j <= |lines|
    decreases |lines| - i
  {
    if i < |lines| && IsBody(lines[i]) then BodyEnd(lines, i + 1) else i
  }

  lemma {:induction false} BodyEndSays(lines: seq<string>, i: nat)
    requires i <= |lines|
    ensures forall k :: i <= k < BodyEnd(lines, i) ==> IsBody(lines[k])
    ensures BodyEnd(lines, i) < |lines| ==> !IsBody(lines[BodyEnd(lines, i)])
    decreases |lines| - i
  {
    hide IsBody;
    if i < |lines| && IsBody(lines[i]) { BodyEndSays(lines, i + 1); }
  }

  /** The screens from line `i` on; lines outside a screen belong to none. */
  function Sections(lines: seq<string>, i: nat): seq<Section>
    requires i <= |lines|
    decreases |lines| - i
  {
    if i == |lines| then []
    else if IsHeader(lines[i]) then
      var end := BodyEnd(lines, i + 1);
      [Section(lines[i], lines[i + 1..end])] + Sections(lines, end)
    else Sections(lines, i + 1)
  }

  /** The lines of a body in order: the last of equal fields wins, the first error stops. */
  function ApplyBody(b: Builder, body: seq<string>, parse: ScaleParser): Result<Builder, MonitorError>
    decreases |body|
  {
    if body == [] then Ok(b)
    else
      var c :- ApplyLine(b, body[0], parse);
      ApplyBody(c, body[1..], parse)
  }

  function BuildSection(s: Section, parse: ScaleParser): Result<MonitorInfo, MonitorError> {
    BuildApplied(ApplyBody(NEW_BUILDER.(id := Some(HeaderId(s.header))), s.body, parse))
  }

  function BuildApplied(r: Result<Builder, MonitorError>): Result<MonitorInfo, MonitorError> {
    match r
    case Err(e) => Err(e)
    case Ok(b) => Build(b)
  }

  /** Every section on its own, in order; the first section with an error decides. */
  function BuildAll(ss: seq<Section>, parse: ScaleParser): Result<seq<MonitorInfo>, MonitorError> {
    if ss == [] then Ok([])
    else
      var first :- BuildSection(ss[0], parse);
      var rest :- BuildAll(ss[1..], parse);
      Ok([first] + rest)
  }

  // ---------- The one-pass machine ----------

  type Outcomes = Result<seq<MonitorInfo>, MonitorError>

  function Prepend(ms: seq<MonitorInfo>, r: Outcomes): Outcomes {
    match r
    case Ok(rest) => Ok(ms + rest)
    case Err(e) => Err(e)
  }

  /** A finished screen in front of what follows. */
  function Finish(b: Builder, after: Outcomes): Outcomes {
    Front(Build(b), after)
  }

  function Front(first: Result<MonitorInfo, MonitorError>, after: Outcomes): Outcomes {
    match first
    case Err(e) => Err(e)
    case Ok(m) => Prepend([m], after)
  }

  /** What the machine returns from line `i` on, inside a screen being built or outside. */
  function Pass(lines: seq<string>, i: nat, current: Option<Builder>, parse: ScaleParser): Outcomes
    requires i <= |lines|
    decreases |lines| - i
  {
    if i == |lines| then
      if current.None? then Ok([]) else Finish(current.value, Ok([]))
    else if IsHeader(lines[i]) then
      var after := Pass(lines, i + 1, Some(NEW_BUILDER.(id := Some(HeaderId(lines[i])))), parse);
      if current.None? then after else Finish(current.value, after)
    else if current.None? then Pass(lines, i + 1, None, parse)
    else if IsTerminator(lines[i]) then Finish(current.value, Pass(lines, i + 1, None, parse))
    else
      match ApplyLine(current.value, lines[i], parse)
      case Err(e) => Err(e)
      case Ok(c) => Pass(lines, i + 1, Some(c), parse)
  }

  lemma PrependAppends(ms: seq<MonitorInfo>, m: MonitorInfo, r: Outcomes)
    ensures Prepend(ms, Prepend([m], r)) == Prepend(ms + [m], r)
    ensures Prepend([], r) == r
  {
    if r.Ok? {
      assert [] + r.value == r.value;
      assert ms + ([m] + r.value) == ms + [m] + r.value;
    }
  }

  /** The lines of a text; the text after the last line break is one if it is not empty. A
      carriage return before the break is white space to the trimming that follows. */
  function Lines(text: string): seq<string>
    decreases |text|
  {
    match SplitOnce(text, '\n')
    case None => if text == "" then [] else [text]
    case Some((line, rest)) => [line] + Lines(rest)
  }

  function TrimAll(lines: seq<string>): (trimmed: seq<string>)
    ensures |trimmed| == |lines|
    ensures forall i :: 0 <= i < |lines| ==> trimmed[i] == Trim(lines[i])
  {
    seq(|lines|, i requires 0 <= i < |lines| => Trim(lines[i]))
  }

  /** `padded` is `lines` with white space added at the ends of some lines. */
  predicate Padded(lines: seq<string>, padded: seq<string>, left: seq<string>, right: seq<string>) {
    && |padded| == |left| == |right| == |lines|
    && forall i :: 0 <= i < |lines| ==>
         AllWhite(left[i]) && AllWhite(right[i]) && padded[i] == left[i] + lines[i] + right[i]
  }

  /** Indentation and white space at the ends of lines change nothing in what a report is read as. */
  lemma PaddingIgnored(
    lines: seq<string>, padded: seq<string>, left: seq<string>, right: seq<string>, parse: ScaleParser)
    requires Padded(lines, padded, left, right)
    ensures Pass(TrimAll(padded), 0, None, parse) == Pass(TrimAll(lines), 0, None, parse)
  {
    hide Trim, Pass, AllSpace, AllWhite;
    forall i | 0 <= i < |lines| ensures Trim(padded[i]) == Trim(lines[i]) {
      WhiteExactly(left[i]);
      WhiteExactly(right[i]);
      TrimPadded(left[i], lines[i], right[i]);
    }
    assert TrimAll(padded) == TrimAll(lines);
  }

  /** The loop over the lines of a report, with its builder and its flag. */
  method ParseSupportInfoMonitors(supportInfo: string, parse: ScaleParser) returns (r: Outcomes)
    ensures r == Pass(TrimAll(Lines(supportInfo)), 0, None, parse)
  {
    hide Build, ApplyLine, HeaderId, NEW_BUILDER, IsHeader, IsTerminator, Trim, Lines;
    var rawLines := Lines(supportInfo);
    ghost var lines := TrimAll(rawLines);
    var monitors: seq<MonitorInfo> := [];
    var current := NEW_BUILDER;
    var inScreen := false;
    PrependNothing(Pass(lines, 0, None, parse));
    for i := 0 to |rawLines|
      invariant Pass(lines, 0, None, parse) ==
                Prepend(monitors, Pass(lines, i, if inScreen then Some(current) else None, parse))
    {
      var line := Trim(rawLines[i]);
      ghost var next := Some(NEW_BUILDER.(id := Some(HeaderId(line))));
      if IsHeader(line) {
        if inScreen {
          var built := Build(current);
          if built.Err? { return Err(built.error); }
          PrependAppends(monitors, built.value, Pass(lines, i + 1, next, parse));
          monitors := monitors + [built.value];
          current := NEW_BUILDER;
        } else {
          current := NEW_BUILDER;
        }
        current := current.(id := Some(HeaderId(line)));
        inScreen := true;
        continue;
      }
      if !inScreen {
        continue;
      }
      if line == "" {
        EmptyLine(current, parse);
        continue;
      }
      if IsTerminator(line) {
        var built := Build(current);
        if built.Err? { return Err(built.error); }
        PrependAppends(monitors, built.value, Pass(lines, i + 1, None, parse));
        monitors := monitors + [built.value];
        current := NEW_BUILDER;
        inScreen := false;
        continue;
      }
      var applied := ApplyLine(current, line, parse);
      if applied.Err? { return Err(applied.error); }
      current := applied.value;
    }
    if inScreen {
      var built := Build(current);
      if built.Err? { return Err(built.error); }
      PrependAppends(monitors, built.value, Ok([]));
      monitors := monitors + [built.value];
      assert monitors + [] == monitors;
    } else {
      assert monitors + [] == monitors;
    }
    r := Ok(monitors);
  }

  lemma EmptyLine(b: Builder, parse: ScaleParser)
    ensures !IsTerminator("") && ApplyLine(b, "", parse) == Ok(b)
  {
  }

  lemma PrependNothing(r: Outcomes)
    ensures Prepend([], r) == r
  {
    if r.Ok? { assert [] + r.value == r.value; }
  }

  // ---------- One pass is the batch ----------

  /** Inside a screen the machine applies the rest of the body, builds, and goes on behind it. */
  lemma {:induction false} PassBody(lines: seq<string>, i: nat, b: Builder, parse: ScaleParser)
    requires i <= |lines|
    ensures var end := BodyEnd(lines, i);
      Pass(lines, i, Some(b), parse) ==
      Front(BuildApplied(ApplyBody(b, lines[i..end], parse)), Pass(lines, end, None, parse))
    decreases |lines| - i
  {
    hide Build, ApplyLine, HeaderId, NEW_BUILDER, IsHeader, IsTerminator;
    var end := BodyEnd(lines, i);
    if i < end {
      assert lines[i..end] == [lines[i]] + lines[i + 1..end];
      var applied := ApplyLine(b, lines[i], parse);
      if applied.Ok? { PassBody(lines, i + 1, applied.value, parse); }
    } else {
      assert lines[i..end] == [];
      BodyOver(lines, i, b, parse);
    }
  }

  lemma BodyOver(lines: seq<string>, i: nat, b: Builder, parse: ScaleParser)
    requires i <= |lines| && (i < |lines| ==> IsHeader(lines[i]) || IsTerminator(lines[i]))
    ensures Pass(lines, i, Some(b), parse) == Finish(b, Pass(lines, i, None, parse))
  {
    hide Front, HeaderId, NEW_BUILDER;
  }

  /** The one-pass machine returns what building every section on its own returns, down to the
      first error. */
  lemma {:induction false} OnePassIsBatch(lines: seq<string>, i: nat, parse: ScaleParser)
    requires i <= |lines|
    ensures Pass(lines, i, None, parse) == BuildAll(Sections(lines, i), parse)
    decreases |lines| - i
  {
    hide Build, ApplyLine, HeaderId, NEW_BUILDER, IsHeader, IsTerminator, ApplyBody;
    if i < |lines| {
      if IsHeader(lines[i]) {
        var end := BodyEnd(lines, i + 1);
        PassBody(lines, i + 1, NEW_BUILDER.(id := Some(HeaderId(lines[i]))), parse);
        OnePassIsBatch(lines, end, parse);
        FirstSection(Section(lines[i], lines[i + 1..end]), Sections(lines, end), parse);
      } else {
        OnePassIsBatch(lines, i + 1, parse);
      }
    }
  }

  lemma FirstSection(s: Section, rest: seq<Section>, parse: ScaleParser)
    ensures BuildAll([s] + rest, parse) == Front(BuildSection(s, parse), BuildAll(rest, parse))
  {
    assert ([s] + rest)[1..] == rest;
  }

  // ---------- What every monitor read says ----------

  /** `p` is the whole number nearest to the product, the greater of two equally near; below 1 it is
      1, and beyond 32 bits the greatest of them. */
  predicate NearestSize(p: int, product: real) {
    if product < 1.0 then p == 1
    else if product > 4294967295.0 then p == 4294967295
    else -0.5 < p as real - product <= 0.5
  }

  function Scaled(value: u32, scale: real): real {
    value as real * scale
  }

  lemma ScaledIsNearest(value: u32, scale: real, p: u32)
    ensures NearestSize(p, Scaled(value, scale)) <==> p == ScaledDimension(value, scale)
  {
    var product := value as real * scale;
    if 1.0 <= product {
      var n := (product + 0.5).Floor;
      assert n as real <= product + 0.5 < n as real + 1.0;
    }
  }

  /** The physical size is the logical one times the scale. */
  predicate SizedByScale(m: MonitorInfo) {
    && NearestSize(m.physicalWidth, Scaled(m.logicalWidth, m.scaleFactor))
    && NearestSize(m.physicalHeight, Scaled(m.logicalHeight, m.scaleFactor))
  }

  lemma BuiltSized(b: Builder)
    ensures Build(b).Ok? ==> SizedByScale(Build(b).value)
  {
    hide ScaledDimension, NearestSize, Scaled;
    if Build(b).Ok? {
      var m := Build(b).value;
      ScaledIsNearest(m.logicalWidth, m.scaleFactor, m.physicalWidth);
      ScaledIsNearest(m.logicalHeight, m.scaleFactor, m.physicalHeight);
    }
  }

  predicate AllSized(r: Outcomes) {
    r.Ok? ==> forall i :: 0 <= i < |r.value| ==> SizedByScale(r.value[i])
  }

  /** Whatever the text: every monitor read from it has the physical size its logical size and its
      scale give. */
  lemma {:induction false} SizesRead(lines: seq<string>, i: nat, current: Option<Builder>, parse: ScaleParser)
    requires i <= |lines|
    ensures AllSized(Pass(lines, i, current, parse))
    decreases |lines| - i
  {
    hide ApplyLine, IsHeader, IsTerminator, HeaderId, Build, SizedByScale;
    if current.Some? { BuiltSized(current.value); }
    if i < |lines| {
      SizesRead(lines, i + 1, Some(NEW_BUILDER.(id := Some(HeaderId(lines[i])))), parse);
      SizesRead(lines, i + 1, None, parse);
      if current.Some? {
        var applied := ApplyLine(current.value, lines[i], parse);
        if applied.Ok? { SizesRead(lines, i + 1, Some(applied.value), parse); }
      }
    }
  }
}
