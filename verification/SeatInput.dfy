/**
 What the windows receive: the keys, buttons and wheel steps of an action, each with the window it
 arrives at and the point on the screen. Every action is stated over its own fields.
 */
module SeatInput {
  import opened Outcome
  import opened SeatEvents
  import opened SeatActions
  import opened SeatSafety

  datatype Input =
    | KeyAt(window: Option<WindowId>, code: nat, pressed: bool)
    | ButtonAt(window: Option<WindowId>, at: Point, button: nat, pressed: bool)
    | WheelAt(window: Option<WindowId>, at: Point, vertical: bool, delta: real, steps: int)

  function InputOf(s: Seat, e: SeatEvent): seq<Input> {
    match e
    case Key(c, pressed) => [KeyAt(s.keyboard, c, pressed)]
    case Button(b, pressed) => [ButtonAt(s.pointer, s.global, b, pressed)]
    case Axis(vertical, delta, steps) => [WheelAt(s.pointer, s.global, vertical, delta, steps)]
    case _ => []
  }

  /** What arrives while the seat sends `es`. */
  function Received(s: Seat, es: seq<SeatEvent>): seq<Input>
    decreases |es|
  {
    if es == [] then [] else InputOf(s, es[0]) + Received(Apply(s, es[0]), es[1..])
  }

  /** What arrives while a lane goes from `l` to `m`. */
  function Arrives(l: Lane, m: Lane): seq<Input>
    requires l.events <= m.events
  {
    Received(l.Seat(), m.events[|l.events|..])
  }

  lemma ReceivedHead(s: Seat, e: SeatEvent, es: seq<SeatEvent>)
    ensures Received(s, [e] + es) == InputOf(s, e) + Received(Apply(s, e), es)
  {
    assert ([e] + es)[1..] == es;
  }

  lemma ReceivedOne(s: Seat, e: SeatEvent)
    ensures Received(s, []) == [] && Received(s, [e]) == InputOf(s, e)
  {
  }

  lemma {:induction false} ReceivedConcat(s: Seat, a: seq<SeatEvent>, b: seq<SeatEvent>)
    ensures Received(s, a + b) == Received(s, a) + Received(Run(s, a), b)
    decreases |a|
  {
    hide Received, Run, Apply, InputOf;
    RunHead(s, a);
    if a == [] {
      assert a + b == b;
      ReceivedOne(s, PointerFrame);
    } else {
      var e, rest := a[0], a[1..];
      assert a == [e] + rest && a + b == [e] + (rest + b);
      ReceivedHead(s, e, rest);
      ReceivedHead(s, e, rest + b);
      ReceivedConcat(Apply(s, e), rest, b);
    }
  }

  lemma ArrivesMore(l: Lane, m: Lane, n: Lane, es: seq<SeatEvent>)
    requires l.events <= m.events && n.events == m.events + es
    ensures Arrives(l, n) == Arrives(l, m) + Received(m.Seat(), es)
  {
    hide Received, Run;
    var first := m.events[|l.events|..];
    assert m.events == l.events + first && n.events[|l.events|..] == first + es;
    RunConcat(NEW_SEAT, l.events, first);
    ReceivedConcat(l.Seat(), first, es);
  }

  // ---------- Points ----------

  /** A point of the client area, edges included; an area without extent has none, and a negative
      extent lies on the other side of the origin. */
  predicate InArea(w: Window, x: real, y: real) {
    && (if w.width > 0.0 then 0.0 <= x <= w.width else w.width <= x <= 0.0 && w.width != 0.0)
    && (if w.height > 0.0 then 0.0 <= y <= w.height else w.height <= y <= 0.0 && w.height != 0.0)
  }

  lemma InsideIsInArea(w: Window, p: Point)
    ensures Inside(w, p) <==> InArea(w, p.x, p.y)
  {
  }

  /** The point on the screen. */
  function OnScreen(w: Window, x: real, y: real): Point {
    Point(w.topLeft.x + x, w.topLeft.y + y)
  }

  /** The lane is bound to the window at this point of it: target, memory and seat agree. */
  predicate BoundAt(m: Lane, w: Window, x: real, y: real) {
    && m.target == Some(w.id) && m.position == Point(x, y)
    && m.Seat().keyboard == Some(w.id) && m.Seat().pointer == Some(w.id) && m.Seat().global == OnScreen(w, x, y)
  }

  /** Binding goes through exactly on a window with a surface, at a point of its area; it sends no
      input, and a refused binding changes nothing. */
  lemma BindSays(l: Lane, w: Window, p: Point)
    ensures var r := Bind(l, w, p);
      && l.events <= r.lane.events && Arrives(l, r.lane) == []
      && (r.error.None? <==> w.hasSurface && InArea(w, p.x, p.y))
      && (r.error.None? ==> BoundAt(r.lane, w, p.x, p.y))
      && (r.error.Some? ==> r.lane == l && r.error == Some(if w.hasSurface then OutsideTarget else SurfaceUnavailable))
  {
    hide Run, Received, Inside, InArea;
    InsideIsInArea(w, p);
    var r := Bind(l, w, p);
    if r.error.None? {
      BindRuns(l.Seat(), w, p);
      EmitRuns(l, BindEvents(w, p));
      BindQuiet(l.Seat(), w, p);
      assert r.lane.events[|l.events|..] == BindEvents(w, p);
    } else {
      assert l.events[|l.events|..] == [];
      ReceivedOne(l.Seat(), PointerFrame);
    }
  }

  lemma BindQuiet(s: Seat, w: Window, p: Point)
    ensures Received(s, BindEvents(w, p)) == []
  {
    hide Received, Apply, GlobalPosition;
    var e0, e1 := KeyboardFocus(Some(w.id)), PointerEnter(w.id, GlobalPosition(w, p));
    ReceivedOne(Apply(Apply(s, e0), e1), PointerFrame);
    ReceivedHead(Apply(s, e0), e1, [PointerFrame]);
    ReceivedHead(s, e0, [e1] + [PointerFrame]);
    assert BindEvents(w, p) == [e0] + ([e1] + [PointerFrame]);
  }

  // ---------- Moving and clicking ----------

  /** A move goes to the point its fields name. */
  lemma MoveSays(l: Lane, a: Action, w: Window)
    ensures var r, x, y := PointerMove(l, a, w), Value(a, "x"), Value(a, "y");
      && l.events <= r.lane.events && Arrives(l, r.lane) == []
      && (r.error.None? <==> x.Number? && y.Number? && w.hasSurface && InArea(w, x.number, y.number))
      && (r.error.None? ==> BoundAt(r.lane, w, x.number, y.number))
      && (r.error.Some? ==> r.lane == l)
  {
    hide Arrives, BoundAt, InArea, Bind;
    NothingArrives(l);
    BindSays(l, w, Point(ToReal(Value(a, "x")), ToReal(Value(a, "y"))));
  }

  lemma NothingArrives(l: Lane)
    ensures Arrives(l, l) == []
  {
    assert l.events[|l.events|..] == [];
  }

  /** A press and a release of the button at one point. */
  function ClickInputs(w: Window, at: Point, button: nat, clicks: nat): seq<Input> {
    if clicks == 0 then []
    else ClickInputs(w, at, button, clicks - 1)
         + [ButtonAt(Some(w.id), at, button, true), ButtonAt(Some(w.id), at, button, false)]
  }

  /** Left, right and middle, as Linux numbers them. */
  predicate MouseButton(n: int) {
    n == 272 || n == 273 || n == 274
  }

  /** A whole number the field holds. */
  predicate Holds(a: Action, key: string, n: int) {
    Value(a, key) == Number(n as real)
  }

  lemma HeldInt(a: Action, key: string, default: int, n: int)
    requires -0x8000_0000 <= n < 0x8000_0000 && n != default
    ensures ToInt(Value(a, key), default) == n <==> Holds(a, key, n)
  {
  }

  /** A click goes to its point, presses and releases its button once or twice there, and is refused
      before any input. */
  lemma ClickSays(l: Lane, a: Action, w: Window)
    ensures var r, x, y := PointerClick(l, a, w), Value(a, "x"), Value(a, "y");
      && l.events <= r.lane.events
      && (r.error.None? <==>
            && x.Number? && y.Number? && w.hasSurface && InArea(w, x.number, y.number)
            && MouseButton(ToInt(Value(a, "button"), -1)) && (Holds(a, "clicks", 1) || Holds(a, "clicks", 2)))
      && (r.error.None? ==>
            && BoundAt(r.lane, w, x.number, y.number)
            && Arrives(l, r.lane) == ClickInputs(w, OnScreen(w, x.number, y.number), ToInt(Value(a, "button"), -1),
                                                 ToInt(Value(a, "clicks"), 0)))
      && (r.error.Some? ==> Arrives(l, r.lane) == [])
  {
    hide Arrives, BoundAt, InArea, PointerMove, Clicks, ClickInputs;
    MoveSays(l, a, w);
    HeldInt(a, "clicks", 0, 1);
    HeldInt(a, "clicks", 0, 2);
    var r, m := PointerClick(l, a, w), PointerMove(l, a, w).lane;
    if r.error.None? {
      var button, clicks := ToInt(Value(a, "button"), -1), ToInt(Value(a, "clicks"), 0);
      Clicked(m, w, Value(a, "x").number, Value(a, "y").number, button, clicks);
      ArrivesMore(l, m, r.lane, Clicks(button, clicks));
    }
  }

  lemma {:induction false} Clicked(m: Lane, w: Window, x: real, y: real, button: nat, n: nat)
    requires BoundAt(m, w, x, y)
    ensures BoundAt(m.Emit(Clicks(button, n)), w, x, y)
    ensures m.Emit(Clicks(button, n)).Seat() == m.Seat()
    ensures Received(m.Seat(), Clicks(button, n)) == ClickInputs(w, OnScreen(w, x, y), button, n)
  {
    hide Run, Received, Click;
    EmitRuns(m, Clicks(button, n));
    if n == 0 {
      RunHead(m.Seat(), []);
      ReceivedOne(m.Seat(), PointerFrame);
    } else {
      Clicked(m, w, x, y, button, n - 1);
      EmitRuns(m, Clicks(button, n - 1));
      ClickReceived(m.Seat(), button);
      RunConcat(m.Seat(), Clicks(button, n - 1), Click(button));
      ReceivedConcat(m.Seat(), Clicks(button, n - 1), Click(button));
    }
  }

  lemma ClickReceived(s: Seat, button: nat)
    ensures Run(s, Click(button)) == s
    ensures Received(s, Click(button))
         == [ButtonAt(s.pointer, s.global, button, true), ButtonAt(s.pointer, s.global, button, false)]
  {
    hide Run, Received, Apply;
    PressReceived(s, button, true);
    var t := Run(s, [Button(button, true), PointerFrame]);
    PressReceived(t, button, false);
    PressRelease(s, button);
    assert Click(button) == [Button(button, true), PointerFrame] + [Button(button, false), PointerFrame];
    RunConcat(s, [Button(button, true), PointerFrame], [Button(button, false), PointerFrame]);
    ReceivedConcat(s, [Button(button, true), PointerFrame], [Button(button, false), PointerFrame]);
  }

  lemma PressRelease(s: Seat, button: nat)
    ensures var t := Apply(s, Button(button, true));
      Apply(t, Button(button, false)) == s && t.pointer == s.pointer && t.global == s.global
  {
    assert s.buttons + multiset{button} - multiset{button} == s.buttons;
  }

  lemma PressReceived(s: Seat, button: nat, pressed: bool)
    ensures var es := [Button(button, pressed), PointerFrame];
      && Run(s, es) == Apply(s, Button(button, pressed))
      && Received(s, es) == [ButtonAt(s.pointer, s.global, button, pressed)]
  {
    hide Run, Received;
    var e := Button(button, pressed);
    assert [e, PointerFrame] == [e] + [PointerFrame];
    ReceivedHead(s, e, [PointerFrame]);
    ReceivedOne(Apply(s, e), PointerFrame);
    RunHead(s, [e, PointerFrame]);
    RunHead(Apply(s, e), [PointerFrame]);
    RunHead(Apply(s, e), []);
    assert [e, PointerFrame][1..] == [PointerFrame] && [PointerFrame][1..] == [];
  }

  // ---------- Dragging ----------

  /** A drag presses its button at `from` and releases it at `to`, or at `from` where `to` is not in
      the window; it succeeds exactly where both points are, and sends nothing where `from` is not. */
  lemma DragSays(l: Lane, a: Action, w: Window)
    ensures var r, button := PointerDrag(l, a, w), ToInt(Value(a, "button"), -1);
      var fx, fy, tx, ty := Value(a, "from_x"), Value(a, "from_y"), Value(a, "to_x"), Value(a, "to_y");
      var named := fx.Number? && fy.Number? && tx.Number? && ty.Number? && MouseButton(button);
      var starts := named && w.hasSurface && InArea(w, fx.number, fy.number);
      var ends := starts && InArea(w, tx.number, ty.number);
      && l.events <= r.lane.events
      && (r.error.None? <==> ends)
      && (!starts ==> r.lane == l)
      && (starts ==>
            var x, y := if ends then tx.number else fx.number, if ends then ty.number else fy.number;
            && BoundAt(r.lane, w, x, y)
            && Arrives(l, r.lane) == [
                 ButtonAt(Some(w.id), OnScreen(w, fx.number, fy.number), button, true),
                 ButtonAt(Some(w.id), OnScreen(w, x, y), button, false)])
  {
    hide Arrives, BoundAt, InArea, Bind;
    var fx, fy, tx, ty := Value(a, "from_x"), Value(a, "from_y"), Value(a, "to_x"), Value(a, "to_y");
    var button := ToInt(Value(a, "button"), -1);
    if fx.Number? && fy.Number? && tx.Number? && ty.Number? && MouseButton(button) {
      BindSays(l, w, Point(fx.number, fy.number));
      var start := Bind(l, w, Point(fx.number, fy.number));
      if start.error.None? {
        var m := start.lane;
        Pressed(l, m, w, fx.number, fy.number, button, true);
        var down := m.Emit([Button(button, true), PointerFrame]);
        var to := Point(tx.number, ty.number);
        BindSays(down, w, to);
        var n := Bind(down, w, to).lane;
        ArrivesVia(l, down, n);
        var moved := Bind(down, w, to).error.None?;
        var x, y := if moved then tx.number else fx.number, if moved then ty.number else fy.number;
        Pressed(l, n, w, x, y, button, false);
      }
    }
  }

  lemma Pressed(l: Lane, m: Lane, w: Window, x: real, y: real, button: nat, pressed: bool)
    requires l.events <= m.events && BoundAt(m, w, x, y)
    ensures var n := m.Emit([Button(button, pressed), PointerFrame]);
      && l.events <= n.events && BoundAt(n, w, x, y)
      && Arrives(l, n) == Arrives(l, m) + [ButtonAt(Some(w.id), OnScreen(w, x, y), button, pressed)]
  {
    hide Arrives, Run, Received;
    var es := [Button(button, pressed), PointerFrame];
    PressReceived(m.Seat(), button, pressed);
    EmitRuns(m, es);
    ArrivesMore(l, m, m.Emit(es), es);
  }

  lemma ArrivesVia(l: Lane, m: Lane, n: Lane)
    requires l.events <= m.events <= n.events
    ensures Arrives(l, n) == Arrives(l, m) + Arrives(m, n)
  {
    hide Received, Run;
    var es := n.events[|m.events|..];
    assert n.events == m.events + es;
    ArrivesMore(l, m, n, es);
  }

  // ---------- Scrolling ----------

  /** Where input without a point goes: the lane's point on its window, or the middle of another. */
  function RestX(l: Lane, w: Window): real {
    if l.target == Some(w.id) then l.position.x else w.width / 2.0
  }

  function RestY(l: Lane, w: Window): real {
    if l.target == Some(w.id) then l.position.y else w.height / 2.0
  }

  /** Fifteen units and a hundred and twenty wheel steps for each notch. */
  function WheelInputs(w: Window, at: Point, vertical: int, horizontal: int): seq<Input> {
    (if vertical == 0 then [] else [WheelAt(Some(w.id), at, true, 15.0 * vertical as real, 120 * vertical)])
    + if horizontal == 0 then [] else [WheelAt(Some(w.id), at, false, 15.0 * horizontal as real, 120 * horizontal)]
  }

  lemma ScrollSays(l: Lane, a: Action, w: Window)
    ensures var r, x, y := PointerScroll(l, a, w), RestX(l, w), RestY(l, w);
      var vertical, horizontal := ToInt(Value(a, "vertical"), 0), ToInt(Value(a, "horizontal"), 0);
      && l.events <= r.lane.events
      && (r.error.None? <==> (vertical != 0 || horizontal != 0) && w.hasSurface && InArea(w, x, y))
      && (r.error.None? ==>
            && BoundAt(r.lane, w, x, y)
            && Arrives(l, r.lane) == WheelInputs(w, OnScreen(w, x, y), vertical, horizontal))
      && (r.error.Some? ==> r.lane == l)
  {
    hide Arrives, BoundAt, InArea, Bind, ScrollEvents, WheelInputs;
    var r, x, y := PointerScroll(l, a, w), RestX(l, w), RestY(l, w);
    var vertical, horizontal := ToInt(Value(a, "vertical"), 0), ToInt(Value(a, "horizontal"), 0);
    assert RestingPosition(l, w) == Point(x, y);
    BindSays(l, w, Point(x, y));
    if r.error.None? {
      var m := Bind(l, w, Point(x, y)).lane;
      Scrolled(m, w, x, y, vertical, horizontal);
      ArrivesMore(l, m, r.lane, ScrollEvents(vertical, horizontal));
    }
  }

  lemma Scrolled(m: Lane, w: Window, x: real, y: real, vertical: int, horizontal: int)
    requires BoundAt(m, w, x, y)
    ensures var es := ScrollEvents(vertical, horizontal);
      && BoundAt(m.Emit(es), w, x, y)
      && Received(m.Seat(), es) == WheelInputs(w, OnScreen(w, x, y), vertical, horizontal)
  {
    hide Run, Received;
    var s, es := m.Seat(), ScrollEvents(vertical, horizontal);
    EmitRuns(m, es);
    var v := Axis(true, vertical as real * 15.0, vertical * 120);
    var h := Axis(false, horizontal as real * 15.0, horizontal * 120);
    var tail := if horizontal != 0 then [h] + [PointerFrame] else [PointerFrame];
    assert es == if vertical != 0 then [v] + tail else tail;
    TailReceived(s, h, horizontal != 0);
    if vertical != 0 {
      ReceivedHead(s, v, tail);
      RunCons(s, v, tail, w);
    }
  }

  lemma TailReceived(s: Seat, h: SeatEvent, sends: bool)
    requires h.Axis?
    ensures var tail := if sends then [h] + [PointerFrame] else [PointerFrame];
      Run(s, tail) == s && Received(s, tail) == if sends then InputOf(s, h) else []
  {
    hide Run, Received;
    ReceivedOne(s, PointerFrame);
    RunHead(s, [PointerFrame]);
    RunHead(s, []);
    assert [PointerFrame][1..] == [];
    if sends {
      ReceivedHead(s, h, [PointerFrame]);
      RunHead(s, [h] + [PointerFrame]);
      assert ([h] + [PointerFrame])[1..] == [PointerFrame];
    }
  }

  // ---------- Keys ----------

  /** The JSON number of an evdev key. */
  predicate KeyNumber(j: Json, code: nat) {
    j == Number(code as real) && 1 <= code <= 767
  }

  predicate KeyNumbers(items: seq<Json>, codes: seq<nat>) {
    |codes| == |items| && forall i :: 0 <= i < |items| ==> KeyNumber(items[i], codes[i])
  }

  lemma KeycodeExactly(j: Json, code: nat)
    ensures ValidKeycode(j) && ToInt(j, -1) == code <==> KeyNumber(j, code)
  {
  }

  lemma KeycodesExactly(items: seq<Json>, codes: seq<nat>)
    ensures Keycodes(items) == Some(codes) <==> KeyNumbers(items, codes)
  {
    hide KeyNumber;
    if KeyNumbers(items, codes) {
      forall i | 0 <= i < |items| ensures ValidKeycode(items[i]) && ToInt(items[i], -1) == codes[i] {
        KeycodeExactly(items[i], codes[i]);
      }
      assert Keycodes(items).value == codes;
    }
    if Keycodes(items) == Some(codes) {
      forall i | 0 <= i < |items| ensures KeyNumber(items[i], codes[i]) {
        KeycodeExactly(items[i], codes[i]);
      }
    }
  }

  /** Every key goes down in order, and then up in reverse order. */
  function ChordInputs(window: Option<WindowId>, codes: seq<nat>): seq<Input> {
    var n := |codes|;
    seq(n, i requires 0 <= i < n => KeyAt(window, codes[i], true))
    + seq(n, i requires 0 <= i < n => KeyAt(window, codes[n - 1 - i], false))
  }

  lemma ChordInputsFirst(window: Option<WindowId>, code: nat, rest: seq<nat>)
    ensures ChordInputs(window, [code] + rest)
         == [KeyAt(window, code, true)] + ChordInputs(window, rest) + [KeyAt(window, code, false)]
  {
  }

  lemma StrokeReceived(s: Seat, code: nat, pressed: bool)
    ensures Received(s, Stroke(code, pressed)) == [KeyAt(s.keyboard, code, pressed)]
  {
    hide Received;
    var e0, e1 := Key(code, pressed), XkbKey(code + XKB_OFFSET, pressed);
    assert Stroke(code, pressed) == [e0] + ([e1] + [Modifiers]);
    ReceivedHead(s, e0, [e1] + [Modifiers]);
    ReceivedHead(Apply(s, e0), e1, [Modifiers]);
    ReceivedOne(Apply(Apply(s, e0), e1), Modifiers);
  }

  lemma {:induction false} ChordReceived(s: Seat, codes: seq<nat>, w: Window)
    requires s.FocusedOn(w)
    ensures Received(s, Chord(codes)) == ChordInputs(Some(w.id), codes) && Run(s, Chord(codes)) == s
    decreases |codes|
  {
    hide Received, Run, Stroke, Chord, ChordInputs, Safe;
    ChordNeutral(s, codes, w);
    if codes == [] {
      NoChord(s, Some(w.id));
    } else {
      var code, rest := codes[0], codes[1..];
      assert codes == [code] + rest;
      ChordFirst(code, rest);
      ChordInputsFirst(Some(w.id), code, rest);
      StrokeSafe(s, code, w);
      var t := Run(s, Stroke(code, true));
      ChordReceived(t, rest, w);
      StrokeReceived(s, code, true);
      StrokeReceived(t, code, false);
      ReceivedConcat(s, Stroke(code, true), Chord(rest));
      RunConcat(s, Stroke(code, true), Chord(rest));
      ReceivedConcat(s, Stroke(code, true) + Chord(rest), Stroke(code, false));
    }
  }

  lemma NoChord(s: Seat, window: Option<WindowId>)
    ensures Received(s, Chord([])) == [] == ChordInputs(window, [])
  {
    assert Chord([]) == [];
  }

  /** A combo presses the keys of its field on the window, in order, and releases them in reverse;
      where it is refused no key arrives. */
  lemma ComboSays(l: Lane, a: Action, w: Window, codes: seq<nat>)
    ensures var r, items := KeyCombo(l, a, w), ToArray(Value(a, "keycodes"));
      var bound := l.xkbReady && 1 <= |items| <= 8 && w.hasSurface && InArea(w, RestX(l, w), RestY(l, w));
      && l.events <= r.lane.events
      && (r.error.None? <==> bound && Keycodes(items).Some?)
      && (bound ==> BoundAt(r.lane, w, RestX(l, w), RestY(l, w)))
      && (!bound ==> r.lane == l)
      && (r.error.None? && KeyNumbers(items, codes) ==> Arrives(l, r.lane) == ChordInputs(Some(w.id), codes))
      && (r.error.Some? ==> Arrives(l, r.lane) == [])
  {
    hide Arrives, BoundAt, InArea, Bind, Chord, ChordInputs, Keycodes, KeyNumbers;
    var r, items := KeyCombo(l, a, w), ToArray(Value(a, "keycodes"));
    var p := RestingPosition(l, w);
    assert p == Point(RestX(l, w), RestY(l, w));
    BindSays(l, w, p);
    NothingArrives(l);
    KeycodesExactly(items, codes);
    if r.error.None? {
      var m, sent := Bind(l, w, p).lane, Keycodes(items).value;
      BoundFocused(m, w, p.x, p.y);
      ChordReceived(m.Seat(), sent, w);
      KeysSent(l, m, w, p.x, p.y, Chord(sent), ChordInputs(Some(w.id), sent));
    }
  }

  lemma BoundFocused(m: Lane, w: Window, x: real, y: real)
    requires BoundAt(m, w, x, y) && InArea(w, x, y)
    ensures m.Seat().FocusedOn(w)
  {
    hide Run;
    InsideIsInArea(w, Point(x, y));
    assert m.Seat().global.x - w.topLeft.x == x && m.Seat().global.y - w.topLeft.y == y;
  }

  /** Events that leave the seat as it was leave the lane bound. */
  lemma KeysSent(l: Lane, m: Lane, w: Window, x: real, y: real, es: seq<SeatEvent>, inputs: seq<Input>)
    requires l.events <= m.events && BoundAt(m, w, x, y) && Arrives(l, m) == []
    requires Run(m.Seat(), es) == m.Seat() && Received(m.Seat(), es) == inputs
    ensures BoundAt(m.Emit(es), w, x, y) && l.events <= m.Emit(es).events && Arrives(l, m.Emit(es)) == inputs
  {
    hide Run, Received, Arrives;
    EmitRuns(m, es);
    ArrivesMore(l, m, m.Emit(es), es);
  }

  /** The keys of one chord of a sequence: one or two. */
  predicate ChordNumbers(j: Json, codes: seq<nat>) {
    j.List? && 1 <= |j.items| <= 2 && KeyNumbers(j.items, codes)
  }

  lemma ChordOfExactly(j: Json, codes: seq<nat>)
    ensures ChordOf(j) == Ok(codes) <==> ChordNumbers(j, codes)
  {
    hide Keycodes, KeyNumbers;
    KeycodesExactly(ToArray(j), codes);
  }

  function AllChordInputs(window: Option<WindowId>, chords: seq<seq<nat>>): seq<Input> {
    if chords == [] then [] else ChordInputs(window, chords[0]) + AllChordInputs(window, chords[1..])
  }

  lemma {:induction false} BlocksReceived(s: Seat, chords: seq<seq<nat>>, w: Window)
    requires s.FocusedOn(w)
    ensures Received(s, ChordBlocks(chords)) == AllChordInputs(Some(w.id), chords) && Run(s, ChordBlocks(chords)) == s
    decreases |chords|
  {
    hide Received, Run, Chord, ChordInputs;
    if chords == [] {
      RunHead(s, []);
      ReceivedOne(s, PointerFrame);
    } else {
      ChordReceived(s, chords[0], w);
      BlocksReceived(s, chords[1..], w);
      ReceivedConcat(s, Chord(chords[0]), ChordBlocks(chords[1..]));
      RunConcat(s, Chord(chords[0]), ChordBlocks(chords[1..]));
    }
  }

  /** A sequence types its chords one after the other, up to the first that is none of one or two
      keys, and is refused exactly where there is such a one or the window cannot be bound. */
  lemma SequenceSays(l: Lane, a: Action, w: Window) returns (typed: seq<seq<nat>>)
    ensures var r, chords := KeySequence(l, a, w), ToArray(Value(a, "chords"));
      var bound := l.xkbReady && 1 <= |chords| <= 8192 && w.hasSurface && InArea(w, RestX(l, w), RestY(l, w));
      && l.events <= r.lane.events
      && |typed| <= |chords| && (forall k :: 0 <= k < |typed| ==> ChordNumbers(chords[k], typed[k]))
      && (r.error.None? <==> bound && |typed| == |chords|)
      && (bound ==> BoundAt(r.lane, w, RestX(l, w), RestY(l, w)))
      && (bound ==> Arrives(l, r.lane) == AllChordInputs(Some(w.id), typed))
      && (bound && |typed| < |chords| ==> forall codes :: !ChordNumbers(chords[|typed|], codes))
      && (!bound ==> r.lane == l)
  {
    hide Arrives, BoundAt, InArea, Bind, ChordOf, ChordNumbers, ChordBlocks, AllChordInputs, ChordsFrom;
    var r, chords := KeySequence(l, a, w), ToArray(Value(a, "chords"));
    var p := RestingPosition(l, w);
    assert p == Point(RestX(l, w), RestY(l, w));
    BindSays(l, w, p);
    NothingArrives(l);
    typed := SequencePrefix(chords, 0);
    forall k | 0 <= k < |typed| ensures ChordNumbers(chords[k], typed[k]) {
      assert ChordOf(chords[0 + k]) == Ok(typed[k]);
      ChordOfExactly(chords[k], typed[k]);
    }
    if |typed| < |chords| {
      forall codes ensures !ChordNumbers(chords[|typed|], codes) { ChordOfExactly(chords[|typed|], codes); }
    }
    if l.xkbReady && chords != [] && |chords| <= MAX_CHORDS && Bind(l, w, p).error.None? {
      var m := Bind(l, w, p).lane;
      BoundFocused(m, w, p.x, p.y);
      BlocksReceived(m.Seat(), typed, w);
      KeysSent(l, m, w, p.x, p.y, ChordBlocks(typed), AllChordInputs(Some(w.id), typed));
    }
  }

  // ---------- The six kinds ----------

  const KINDS: set<string> := {
    "key_combo", "key_sequence", "pointer_move", "pointer_click", "pointer_drag", "pointer_scroll" }

  /** The kind is what the action's field says; without a known one nothing is sent. */
  lemma KindsSay(l: Lane, a: Action, w: Window)
    ensures var r, kind := Perform(l, a, w), Value(a, "action");
      && (kind == Text("key_combo") ==> r == KeyCombo(l, a, w))
      && (kind == Text("key_sequence") ==> r == KeySequence(l, a, w))
      && (kind == Text("pointer_move") ==> r == PointerMove(l, a, w))
      && (kind == Text("pointer_click") ==> r == PointerClick(l, a, w))
      && (kind == Text("pointer_drag") ==> r == PointerDrag(l, a, w))
      && (kind == Text("pointer_scroll") ==> r == PointerScroll(l, a, w))
      && (!(kind.Text? && kind.text in KINDS) ==> r == Attempt(l, Some(UnsupportedAction)))
  {
    hide KeyCombo, KeySequence, PointerMove, PointerClick, PointerDrag, PointerScroll;
  }

  /** A field read as an integer: the whole number of 32 bits it holds, or else the default. */
  lemma IntegerField(j: Json, default: int, n: int)
    requires -0x8000_0000 <= n < 0x8000_0000
    ensures j == Number(n as real) ==> ToInt(j, default) == n
    ensures ToInt(j, default) == n ==> n == default || j == Number(n as real)
  {
  }
}
