/**
 The input actions of the agent seat on one lane: methods that emit events in loops and return
 early where an action is refused, and the functions of the lane's value they compute.
 */
module SeatActions {
  import opened Outcome
  import opened SeatEvents

  // ---------- JSON, as QJsonValue shows it ----------

  datatype Json =
    | Undefined
    | Number(number: real)
    | Text(text: string)
    | List(items: seq<Json>)

  type Action = map<string, Json>

  function Value(a: Action, key: string): Json {
    if key in a then a[key] else Undefined
  }

  function ToString(j: Json): string {
    if j.Text? then j.text else ""
  }

  function ToArray(j: Json): seq<Json> {
    if j.List? then j.items else []
  }

  /** The 32-bit integer a JSON number denotes exactly, or the default. */
  function ToInt(j: Json, default: int): (n: int)
    ensures n == default || (j.Number? && j.number == n as real && -0x8000_0000 <= n < 0x8000_0000)
  {
    if j.Number? && j.number.Floor as real == j.number && -0x8000_0000 <= j.number.Floor < 0x8000_0000 then
      j.number.Floor
    else
      default
  }

  function ToReal(j: Json): real {
    if j.Number? then j.number else 0.0
  }

  // ---------- Lanes ----------

  const KEY_MAX: int := 0x2FF
  const BTN_LEFT: nat := 0x110
  const BTN_RIGHT: nat := 0x111
  const BTN_MIDDLE: nat := 0x112
  const MAX_COMBO_KEYS: nat := 8
  const MAX_CHORDS: nat := 8192
  const MAX_CHORD_KEYS: nat := 2

  datatype SeatError =
    | InvalidWindowId
    | WindowGone
    | NotNativeWayland
    | InvalidLaneId
    | KeymapUnavailable
    | KeymapStringFailed
    | XkbStateFailed
    | SurfaceUnavailable
    | OutsideTarget
    | ComboSize
    | ComboKeycode
    | SequenceSize
    | SequenceChord
    | SequenceKeycode
    | PointerNotFinite
    | InvalidClick
    | InvalidDrag
    | ZeroScroll
    | UnsupportedAction

  /** The value of a lane. `events` is everything its seat has sent. */
  datatype Lane = Lane(
    seatIndex: nat,
    target: Option<WindowId>,
    position: Point,
    xkbReady: bool,
    lastUsedMs: int,
    events: seq<SeatEvent>
  ) {
    function Emit(es: seq<SeatEvent>): Lane {
      this.(events := events + es)
    }

    /** The seat after everything the lane has sent. */
    function Seat(): Seat {
      Run(NEW_SEAT, events)
    }
  }

  /** What an action leaves: the lane, and the error it reports, if any. */
  datatype Attempt = Attempt(lane: Lane, error: Option<SeatError>)

  function Fail(l: Lane, e: SeatError): Attempt {
    Attempt(l, Some(e))
  }

  // ---------- What the actions compute ----------

  function GlobalPosition(w: Window, p: Point): Point {
    Point(w.topLeft.x + p.x, w.topLeft.y + p.y)
  }

  function BindEvents(w: Window, p: Point): seq<SeatEvent> {
    [KeyboardFocus(Some(w.id)), PointerEnter(w.id, GlobalPosition(w, p)), PointerFrame]
  }

  function Bind(l: Lane, w: Window, p: Point): Attempt {
    if !w.hasSurface then Fail(l, SurfaceUnavailable)
    else if !Inside(w, p) then Fail(l, OutsideTarget)
    else Attempt(l.Emit(BindEvents(w, p)).(target := Some(w.id), position := p), None)
  }

  /** Where input that names no position goes: the last bound position, or the middle. */
  function RestingPosition(l: Lane, w: Window): Point {
    if l.target == Some(w.id) then l.position else Point(w.width / 2.0, w.height / 2.0)
  }

  predicate ValidKeycode(j: Json) {
    0 < ToInt(j, -1) <= KEY_MAX
  }

  function Keycodes(items: seq<Json>): Option<seq<nat>> {
    if forall i :: 0 <= i < |items| ==> ValidKeycode(items[i]) then
      Some(seq(|items|, i requires 0 <= i < |items| => ToInt(items[i], -1)))
    else
      None
  }

  function KeyCombo(l: Lane, a: Action, w: Window): Attempt {
    var items := ToArray(Value(a, "keycodes"));
    if !l.xkbReady then Fail(l, KeymapUnavailable)
    else if items == [] || |items| > MAX_COMBO_KEYS then Fail(l, ComboSize)
    else
      var bound := Bind(l, w, RestingPosition(l, w));
      if bound.error.Some? then bound
      else
        match Keycodes(items)
        case None => Fail(bound.lane, ComboKeycode)
        case Some(codes) => Attempt(bound.lane.Emit(Chord(codes)), None)
  }

  function ChordOf(j: Json): Result<seq<nat>, SeatError> {
    var items := ToArray(j);
    if items == [] || |items| > MAX_CHORD_KEYS then Err(SequenceChord)
    else
      match Keycodes(items)
      case None => Err(SequenceKeycode)
      case Some(codes) => Ok(codes)
  }

  /** The events of the chords from the `i`-th on, up to the first invalid one, and its error. */
  function ChordsFrom(chords: seq<Json>, i: nat): (seq<SeatEvent>, Option<SeatError>)
    requires i <= |chords|
    decreases |chords| - i
  {
    if i == |chords| then ([], None)
    else
      match ChordOf(chords[i])
      case Err(e) => ([], Some(e))
      case Ok(codes) =>
        var (es, error) := ChordsFrom(chords, i + 1);
        (Chord(codes) + es, error)
  }

  function KeySequence(l: Lane, a: Action, w: Window): Attempt {
    var chords := ToArray(Value(a, "chords"));
    if !l.xkbReady then Fail(l, KeymapUnavailable)
    else if chords == [] || |chords| > MAX_CHORDS then Fail(l, SequenceSize)
    else
      var bound := Bind(l, w, RestingPosition(l, w));
      if bound.error.Some? then bound
      else
        var (es, error) := ChordsFrom(chords, 0);
        Attempt(bound.lane.Emit(es), error)
  }

  function PointerMove(l: Lane, a: Action, w: Window): Attempt {
    if !Value(a, "x").Number? || !Value(a, "y").Number? then Fail(l, PointerNotFinite)
    else Bind(l, w, Point(ToReal(Value(a, "x")), ToReal(Value(a, "y"))))
  }

  predicate ValidButton(button: int) {
    button == BTN_LEFT || button == BTN_MIDDLE || button == BTN_RIGHT
  }

  function PointerClick(l: Lane, a: Action, w: Window): Attempt {
    var moved := PointerMove(l, a, w);
    var button, clicks := ToInt(Value(a, "button"), -1), ToInt(Value(a, "clicks"), 0);
    if moved.error.Some? then moved
    else if !ValidButton(button) || clicks < 1 || clicks > 2 then Fail(moved.lane, InvalidClick)
    else Attempt(moved.lane.Emit(Clicks(button, clicks)), None)
  }

  function PointerDrag(l: Lane, a: Action, w: Window): Attempt {
    var fromX, fromY := Value(a, "from_x"), Value(a, "from_y");
    var toX, toY := Value(a, "to_x"), Value(a, "to_y");
    var button := ToInt(Value(a, "button"), -1);
    if !fromX.Number? || !fromY.Number? || !toX.Number? || !toY.Number? || !ValidButton(button) then
      Fail(l, InvalidDrag)
    else
      var start := Bind(l, w, Point(fromX.number, fromY.number));
      if start.error.Some? then start
      else
        var down := start.lane.Emit([Button(button, true), PointerFrame]);
        var moved := Bind(down, w, Point(toX.number, toY.number));
        Attempt(moved.lane.Emit([Button(button, false), PointerFrame]), moved.error)
  }

  function ScrollEvents(vertical: int, horizontal: int): seq<SeatEvent> {
    (if vertical != 0 then [Axis(true, vertical as real * 15.0, vertical * 120)] else [])
    + (if horizontal != 0 then [Axis(false, horizontal as real * 15.0, horizontal * 120)] else [])
    + [PointerFrame]
  }

  function PointerScroll(l: Lane, a: Action, w: Window): Attempt {
    var vertical, horizontal := ToInt(Value(a, "vertical"), 0), ToInt(Value(a, "horizontal"), 0);
    if vertical == 0 && horizontal == 0 then Fail(l, ZeroScroll)
    else
      var bound := Bind(l, w, RestingPosition(l, w));
      if bound.error.Some? then bound
      else Attempt(bound.lane.Emit(ScrollEvents(vertical, horizontal)), None)
  }

  function Perform(l: Lane, a: Action, w: Window): Attempt {
    var kind := ToString(Value(a, "action"));
    if kind == "key_combo" then KeyCombo(l, a, w)
    else if kind == "key_sequence" then KeySequence(l, a, w)
    else if kind == "pointer_move" then PointerMove(l, a, w)
    else if kind == "pointer_click" then PointerClick(l, a, w)
    else if kind == "pointer_drag" then PointerDrag(l, a, w)
    else if kind == "pointer_scroll" then PointerScroll(l, a, w)
    else Fail(l, UnsupportedAction)
  }

  /** Leaving a target: focus is dropped, nothing else changes. */
  function Clear(l: Lane): Lane {
    l.Emit([KeyboardFocus(None), PointerLeave, PointerFrame]).(target := None)
  }

  // ---------- The methods ----------

  class AgentLane {
    const seatIndex: nat
    var target: Option<WindowId>
    var position: Point
    var xkbReady: bool
    var lastUsedMs: int
    var events: seq<SeatEvent>

    constructor (seatIndex: nat)
      ensures View() == Lane(seatIndex, None, Point(0.0, 0.0), false, 0, [])
    {
      this.seatIndex := seatIndex;
      target := None;
      position := Point(0.0, 0.0);
      xkbReady := false;
      lastUsedMs := 0;
      events := [];
    }

    function View(): Lane
      reads this
    {
      Lane(seatIndex, target, position, xkbReady, lastUsedMs, events)
    }

    method Send(e: SeatEvent)
      modifies this`events
      ensures View() == old(View()).Emit([e])
    {
      events := events + [e];
    }
  }

  method BindTarget(lane: AgentLane, w: Window, p: Point) returns (error: Option<SeatError>)
    modifies lane
    ensures Attempt(lane.View(), error) == Bind(old(lane.View()), w, p)
  {
    if !w.hasSurface { return Some(SurfaceUnavailable); }
    if !Inside(w, p) { return Some(OutsideTarget); }
    lane.Send(KeyboardFocus(Some(w.id)));
    lane.Send(PointerEnter(w.id, GlobalPosition(w, p)));
    lane.Send(PointerFrame);
    assert old(lane.events) + BindEvents(w, p) == lane.events;
    lane.target := Some(w.id);
    lane.position := p;
    error := None;
  }

  method SendStroke(lane: AgentLane, code: nat, pressed: bool)
    modifies lane`events
    ensures lane.View() == old(lane.View()).Emit(Stroke(code, pressed))
  {
    lane.Send(Key(code, pressed));
    lane.Send(XkbKey(code + XKB_OFFSET, pressed));
    lane.Send(Modifiers);
    assert old(lane.events) + Stroke(code, pressed) == lane.events;
  }

  /** Collects keycodes, stopping at the first invalid one. */
  method CollectKeycodes(items: seq<Json>) returns (codes: Option<seq<nat>>)
    ensures codes == Keycodes(items)
  {
    var collected: seq<nat> := [];
    for i := 0 to |items|
      invariant |collected| == i
      invariant forall k :: 0 <= k < i ==> ValidKeycode(items[k]) && collected[k] == ToInt(items[k], -1)
    {
      var code := ToInt(items[i], -1);
      if code <= 0 || code > KEY_MAX {
        assert !ValidKeycode(items[i]);
        return None;
      }
      collected := collected + [code];
    }
    assert Keycodes(items).Some? && collected == Keycodes(items).value;
    codes := Some(collected);
  }

  /** Presses every key in order, then releases them in reverse. */
  method SendChord(lane: AgentLane, codes: seq<nat>)
    modifies lane`events
    ensures lane.View() == old(lane.View()).Emit(Chord(codes))
  {
    SendPresses(lane, codes);
    SendReleases(lane, codes);
    assert old(lane.events) + Presses(codes) + Releases(codes) == old(lane.events) + Chord(codes);
  }

  method SendPresses(lane: AgentLane, codes: seq<nat>)
    modifies lane`events
    ensures lane.View() == old(lane.View()).Emit(Presses(codes))
  {
    ghost var before := lane.events;
    assert codes[..0] == [] && before + [] == before;
    for i := 0 to |codes|
      invariant lane.events == before + Presses(codes[..i])
    {
      SendStroke(lane, codes[i], true);
      assert codes[..i + 1][..i] == codes[..i];
      assert before + Presses(codes[..i]) + Stroke(codes[i], true) == before + Presses(codes[..i + 1]);
    }
    assert codes[..|codes|] == codes;
  }

  method SendReleases(lane: AgentLane, codes: seq<nat>)
    modifies lane`events
    ensures lane.View() == old(lane.View()).Emit(Releases(codes))
  {
    ghost var before := lane.events;
    var i := |codes|;
    assert codes[..i] == codes;
    while i > 0
      invariant 0 <= i <= |codes|
      invariant lane.events + Releases(codes[..i]) == before + Releases(codes)
    {
      i := i - 1;
      ghost var here := lane.events;
      SendStroke(lane, codes[i], false);
      assert codes[..i + 1][..i] == codes[..i];
      assert here + Releases(codes[..i + 1]) == lane.events + Releases(codes[..i]);
    }
    assert codes[..0] == [] && lane.events + [] == lane.events;
  }

  method SendKeyCombo(a: Action, lane: AgentLane, w: Window) returns (error: Option<SeatError>)
    modifies lane
    ensures Attempt(lane.View(), error) == KeyCombo(old(lane.View()), a, w)
  {
    if !lane.xkbReady { return Some(KeymapUnavailable); }
    var items := ToArray(Value(a, "keycodes"));
    if items == [] || |items| > MAX_COMBO_KEYS { return Some(ComboSize); }
    error := BindTarget(lane, w, RestingPosition(lane.View(), w));
    if error.Some? { return; }
    var codes := CollectKeycodes(items);
    if codes.None? { return Some(ComboKeycode); }
    SendChord(lane, codes.value);
  }

  method SendKeySequence(a: Action, lane: AgentLane, w: Window) returns (error: Option<SeatError>)
    modifies lane
    ensures Attempt(lane.View(), error) == KeySequence(old(lane.View()), a, w)
  {
    if !lane.xkbReady { return Some(KeymapUnavailable); }
    var chords := ToArray(Value(a, "chords"));
    if chords == [] || |chords| > MAX_CHORDS { return Some(SequenceSize); }
    error := BindTarget(lane, w, RestingPosition(lane.View(), w));
    if error.Some? { return; }
    error := SendChords(chords, lane);
  }

  method SendChords(chords: seq<Json>, lane: AgentLane) returns (error: Option<SeatError>)
    modifies lane`events
    ensures (old(lane.View()).Emit(ChordsFrom(chords, 0).0), ChordsFrom(chords, 0).1) == (lane.View(), error)
  {
    hide Chord, Keycodes;
    ghost var before := lane.events;
    ghost var (all, failure) := ChordsFrom(chords, 0);
    for i := 0 to |chords|
      invariant before + all == lane.events + ChordsFrom(chords, i).0
      invariant failure == ChordsFrom(chords, i).1
    {
      var items := ToArray(chords[i]);
      if items == [] || |items| > MAX_CHORD_KEYS {
        assert lane.events + [] == lane.events;
        return Some(SequenceChord);
      }
      var codes := CollectKeycodes(items);
      if codes.None? {
        assert lane.events + [] == lane.events;
        return Some(SequenceKeycode);
      }
      ghost var here := lane.events;
      SendChord(lane, codes.value);
      assert here + (Chord(codes.value) + ChordsFrom(chords, i + 1).0) == lane.events + ChordsFrom(chords, i + 1).0;
    }
    assert lane.events + [] == lane.events;
    error := None;
  }

  method MovePointer(a: Action, lane: AgentLane, w: Window) returns (error: Option<SeatError>)
    modifies lane
    ensures Attempt(lane.View(), error) == PointerMove(old(lane.View()), a, w)
  {
    var x, y := Value(a, "x"), Value(a, "y");
    if !x.Number? || !y.Number? { return Some(PointerNotFinite); }
    error := BindTarget(lane, w, Point(ToReal(x), ToReal(y)));
  }

  method ClickPointer(a: Action, lane: AgentLane, w: Window) returns (error: Option<SeatError>)
    modifies lane
    ensures Attempt(lane.View(), error) == PointerClick(old(lane.View()), a, w)
  {
    error := MovePointer(a, lane, w);
    if error.Some? { return; }
    var button, clicks := ToInt(Value(a, "button"), -1), ToInt(Value(a, "clicks"), 0);
    if !ValidButton(button) || clicks < 1 || clicks > 2 { return Some(InvalidClick); }
    SendClicks(lane, button, clicks);
  }

  method SendClicks(lane: AgentLane, button: nat, clicks: nat)
    modifies lane`events
    ensures lane.View() == old(lane.View()).Emit(Clicks(button, clicks))
  {
    ghost var before := lane.events;
    assert before + [] == before;
    for click := 0 to clicks
      invariant lane.events == before + Clicks(button, click)
    {
      ghost var here := lane.events;
      SendButton(lane, button, true);
      SendButton(lane, button, false);
      assert lane.events == here + Click(button);
      assert before + Clicks(button, click) + Click(button) == before + Clicks(button, click + 1);
    }
  }

  method DragPointer(a: Action, lane: AgentLane, w: Window) returns (error: Option<SeatError>)
    modifies lane
    ensures Attempt(lane.View(), error) == PointerDrag(old(lane.View()), a, w)
  {
    var fromX, fromY := Value(a, "from_x"), Value(a, "from_y");
    var toX, toY := Value(a, "to_x"), Value(a, "to_y");
    var button := ToInt(Value(a, "button"), -1);
    if !fromX.Number? || !fromY.Number? || !toX.Number? || !toY.Number? || !ValidButton(button) {
      return Some(InvalidDrag);
    }
    error := BindTarget(lane, w, Point(fromX.number, fromY.number));
    if error.Some? { return; }
    SendButton(lane, button, true);
    error := BindTarget(lane, w, Point(toX.number, toY.number));
    if error.Some? {
      SendButton(lane, button, false);
      return;
    }
    SendButton(lane, button, false);
  }

  method SendButton(lane: AgentLane, button: nat, pressed: bool)
    modifies lane`events
    ensures lane.View() == old(lane.View()).Emit([Button(button, pressed), PointerFrame])
  {
    lane.Send(Button(button, pressed));
    lane.Send(PointerFrame);
    assert old(lane.events) + [Button(button, pressed), PointerFrame] == lane.events;
  }

  method ScrollPointer(a: Action, lane: AgentLane, w: Window) returns (error: Option<SeatError>)
    modifies lane
    ensures Attempt(lane.View(), error) == PointerScroll(old(lane.View()), a, w)
  {
    var vertical, horizontal := ToInt(Value(a, "vertical"), 0), ToInt(Value(a, "horizontal"), 0);
    if vertical == 0 && horizontal == 0 { return Some(ZeroScroll); }
    error := BindTarget(lane, w, RestingPosition(lane.View(), w));
    if error.Some? { return; }
    ghost var before := lane.events;
    if vertical != 0 {
      lane.Send(Axis(true, vertical as real * 15.0, vertical * 120));
    }
    if horizontal != 0 {
      lane.Send(Axis(false, horizontal as real * 15.0, horizontal * 120));
    }
    lane.Send(PointerFrame);
    assert lane.events == before + ScrollEvents(vertical, horizontal);
  }

  method ClearLaneTarget(lane: AgentLane)
    modifies lane
    ensures lane.View() == Clear(old(lane.View()))
  {
    lane.Send(KeyboardFocus(None));
    lane.Send(PointerLeave);
    lane.Send(PointerFrame);
    lane.target := None;
    assert old(lane.events) + [KeyboardFocus(None), PointerLeave, PointerFrame] == lane.events;
  }

  /** Dispatches on the action's kind. */
  method PerformAction(a: Action, lane: AgentLane, w: Window) returns (error: Option<SeatError>)
    modifies lane
    ensures Attempt(lane.View(), error) == Perform(old(lane.View()), a, w)
  {
    var kind := ToString(Value(a, "action"));
    if kind == "key_combo" {
      error := SendKeyCombo(a, lane, w);
    } else if kind == "key_sequence" {
      error := SendKeySequence(a, lane, w);
    } else if kind == "pointer_move" {
      error := MovePointer(a, lane, w);
    } else if kind == "pointer_click" {
      error := ClickPointer(a, lane, w);
    } else if kind == "pointer_drag" {
      error := DragPointer(a, lane, w);
    } else if kind == "pointer_scroll" {
      error := ScrollPointer(a, lane, w);
    } else {
      error := Some(UnsupportedAction);
    }
  }
}
