/**
 The events an agent seat sends, and what a Wayland seat makes of them: focus, pointer position,
 and the keys and buttons held. `Safe` is the monitor a trace of events is judged by.
 */
module SeatEvents {
  import opened Outcome

  type WindowId = nat

  datatype Point = Point(x: real, y: real)

  /** A window as the compositor shows it; the client area excludes server-side decorations. */
  datatype Window = Window(
    id: WindowId,
    isInternal: bool,
    hasSurface: bool,
    topLeft: Point,
    width: real,
    height: real
  )

  datatype SeatEvent =
    | KeyboardFocus(focus: Option<WindowId>)
    | PointerEnter(window: WindowId, global: Point)
    | PointerLeave
    | PointerFrame
    | Key(code: nat, pressed: bool)
    | XkbKey(xkbCode: nat, down: bool)
    | Modifiers
    | Button(button: nat, pressed: bool)
    | Axis(vertical: bool, delta: real, discrete: int)

  datatype Seat = Seat(
    keyboard: Option<WindowId>,
    pointer: Option<WindowId>,
    global: Point,
    keys: multiset<nat>,
    xkb: multiset<nat>,
    buttons: multiset<nat>
  ) {
    /** Nothing is held: no key, no key in the xkb state, no button. */
    predicate Idle() {
      keys == multiset{} && xkb == multiset{} && buttons == multiset{}
    }

    predicate FocusedOn(w: Window) {
      && keyboard == Some(w.id) && pointer == Some(w.id)
      && Inside(w, Point(global.x - w.topLeft.x, global.y - w.topLeft.y))
    }
  }

  const NEW_SEAT := Seat(None, None, Point(0.0, 0.0), multiset{}, multiset{}, multiset{})

  predicate Between(p: real, extent: real) {
    extent != 0.0 && (if extent < 0.0 then extent <= p <= 0.0 else 0.0 <= p <= extent)
  }

  /** The window-local rectangle holds `p`: edges included, empty rectangles hold nothing. */
  predicate Inside(w: Window, p: Point) {
    Between(p.x, w.width) && Between(p.y, w.height)
  }

  function Apply(s: Seat, e: SeatEvent): Seat {
    match e
    case KeyboardFocus(f) => s.(keyboard := f)
    case PointerEnter(w, g) => s.(pointer := Some(w), global := g)
    case PointerLeave => s.(pointer := None)
    case Key(c, true) => s.(keys := s.keys + multiset{c})
    case Key(c, false) => s.(keys := s.keys - multiset{c})
    case XkbKey(c, true) => s.(xkb := s.xkb + multiset{c})
    case XkbKey(c, false) => s.(xkb := s.xkb - multiset{c})
    case Button(b, true) => s.(buttons := s.buttons + multiset{b})
    case Button(b, false) => s.(buttons := s.buttons - multiset{b})
    case PointerFrame => s
    case Modifiers => s
    case Axis(_, _, _) => s
  }

  function Run(s: Seat, es: seq<SeatEvent>): Seat
    decreases |es|
  {
    if es == [] then s else Run(Apply(s, es[0]), es[1..])
  }

  /** The event may be sent in an action on `w`: input only while the seat is on the window, and
      only what is held may be released. */
  predicate Legal(s: Seat, e: SeatEvent, w: Window) {
    match e
    case Key(c, pressed) => s.FocusedOn(w) && (pressed || c in s.keys)
    case XkbKey(c, down) => s.FocusedOn(w) && (down || c in s.xkb)
    case Button(b, pressed) => s.FocusedOn(w) && (pressed || b in s.buttons)
    case Axis(_, _, _) => s.FocusedOn(w)
    case KeyboardFocus(f) => f == Some(w.id)
    case PointerEnter(i, _) => i == w.id
    case PointerLeave => false
    case PointerFrame => true
    case Modifiers => true
  }

  predicate Safe(s: Seat, es: seq<SeatEvent>, w: Window)
    decreases |es|
  {
    es == [] || (Legal(s, es[0], w) && Safe(Apply(s, es[0]), es[1..], w))
  }

  lemma RunCons(s: Seat, e: SeatEvent, es: seq<SeatEvent>, w: Window)
    ensures Run(s, [e] + es) == Run(Apply(s, e), es)
    ensures Safe(s, [e] + es, w) <==> Legal(s, e, w) && Safe(Apply(s, e), es, w)
    ensures Run(s, []) == s && Safe(s, [], w)
  {
    assert ([e] + es)[1..] == es;
  }

  lemma {:induction false} RunConcat(s: Seat, a: seq<SeatEvent>, b: seq<SeatEvent>)
    ensures Run(s, a + b) == Run(Run(s, a), b)
    decreases |a|
  {
    hide Apply, Run, NEW_SEAT;
    RunHead(s, a);
    RunHead(s, a + b);
    if a == [] {
      assert a + b == b;
    } else {
      RunConcat(Apply(s, a[0]), a[1..], b);
      assert (a + b)[1..] == a[1..] + b;
    }
  }

  lemma RunHead(s: Seat, es: seq<SeatEvent>)
    ensures Run(s, es) == if es == [] then s else Run(Apply(s, es[0]), es[1..])
  {
    hide Apply, NEW_SEAT;
  }

  lemma {:induction false} SafeConcat(s: Seat, a: seq<SeatEvent>, b: seq<SeatEvent>, w: Window)
    ensures Safe(s, a + b, w) <==> Safe(s, a, w) && Safe(Run(s, a), b, w)
    decreases |a|
  {
    if a == [] {
      assert a + b == b;
    } else {
      SafeConcat(Apply(s, a[0]), a[1..], b, w);
      assert (a + b)[1..] == a[1..] + b;
    }
  }

  /** `es` is safe on `w` from `s`, and leaves the seat focused on `w` with nothing new held. */
  predicate Neutral(s: Seat, es: seq<SeatEvent>, w: Window) {
    Safe(s, es, w) && Run(s, es) == s
  }

  lemma NeutralConcat(s: Seat, a: seq<SeatEvent>, b: seq<SeatEvent>, w: Window)
    requires Neutral(s, a, w) && Neutral(s, b, w)
    ensures Neutral(s, a + b, w)
  {
    RunConcat(s, a, b);
    SafeConcat(s, a, b, w);
  }

  /** A press and its release around a neutral middle. */
  lemma NeutralBracket(s: Seat, open: seq<SeatEvent>, middle: seq<SeatEvent>, close: seq<SeatEvent>, w: Window)
    requires Safe(s, open, w) && Neutral(Run(s, open), middle, w)
    requires Safe(Run(s, open), close, w) && Run(Run(s, open), close) == s
    ensures Neutral(s, open + middle + close, w)
  {
    RunConcat(s, open, middle);
    SafeConcat(s, open, middle, w);
    RunConcat(s, open + middle, close);
    SafeConcat(s, open + middle, close, w);
  }

  // ---------- The blocks actions are made of ----------

  const XKB_OFFSET: nat := 8

  function Stroke(code: nat, pressed: bool): seq<SeatEvent> {
    [Key(code, pressed), XkbKey(code + XKB_OFFSET, pressed), Modifiers]
  }

  function Presses(codes: seq<nat>): seq<SeatEvent> {
    if codes == [] then [] else Presses(codes[..|codes| - 1]) + Stroke(codes[|codes| - 1], true)
  }

  /** Releases in reverse: the key pressed last is released first. */
  function Releases(codes: seq<nat>): seq<SeatEvent> {
    if codes == [] then [] else Stroke(codes[|codes| - 1], false) + Releases(codes[..|codes| - 1])
  }

  function Chord(codes: seq<nat>): seq<SeatEvent> {
    Presses(codes) + Releases(codes)
  }

  function Click(button: nat): seq<SeatEvent> {
    [Button(button, true), PointerFrame, Button(button, false), PointerFrame]
  }

  function Clicks(button: nat, n: nat): seq<SeatEvent> {
    if n == 0 then [] else Clicks(button, n - 1) + Click(button)
  }

  lemma StrokeSafe(s: Seat, code: nat, w: Window)
    requires s.FocusedOn(w)
    ensures Safe(s, Stroke(code, true), w)
    ensures var t := Run(s, Stroke(code, true));
      t.FocusedOn(w) && Safe(t, Stroke(code, false), w) && Run(t, Stroke(code, false)) == s
  {
    hide Run, Safe, Seat.FocusedOn, Stroke, Apply, Legal;
    StrokeRun(s, code, true, w);
    var t := Run(s, Stroke(code, true));
    StrokeLegal(s, code, true, w);
    HeldThenReleased(s, code, t);
    SameFocus(s, t, w);
    StrokeRun(t, code, false, w);
    StrokeLegal(t, code, false, w);
  }

  lemma StrokeLegal(s: Seat, code: nat, pressed: bool, w: Window)
    requires s.FocusedOn(w) && (pressed || (code in s.keys && code + XKB_OFFSET in s.xkb))
    ensures Legal(s, Key(code, pressed), w)
    ensures Legal(Apply(s, Key(code, pressed)), XkbKey(code + XKB_OFFSET, pressed), w)
  {
    hide Inside;
  }

  lemma HeldThenReleased(s: Seat, code: nat, t: Seat)
    requires t == Apply(Apply(s, Key(code, true)), XkbKey(code + XKB_OFFSET, true))
    ensures t.keyboard == s.keyboard && t.pointer == s.pointer && t.global == s.global
    ensures code in t.keys && code + XKB_OFFSET in t.xkb
    ensures Apply(Apply(t, Key(code, false)), XkbKey(code + XKB_OFFSET, false)) == s
  {
    assert t.keys - multiset{code} == s.keys && t.xkb - multiset{code + XKB_OFFSET} == s.xkb;
  }

  lemma SameFocus(s: Seat, t: Seat, w: Window)
    requires t.keyboard == s.keyboard && t.pointer == s.pointer && t.global == s.global
    ensures t.FocusedOn(w) == s.FocusedOn(w)
  {
  }

  lemma StrokeRun(s: Seat, code: nat, pressed: bool, w: Window)
    ensures Run(s, Stroke(code, pressed)) == Apply(Apply(s, Key(code, pressed)), XkbKey(code + 8, pressed))
    ensures Safe(s, Stroke(code, pressed), w) <==>
            && Legal(s, Key(code, pressed), w)
            && Legal(Apply(s, Key(code, pressed)), XkbKey(code + XKB_OFFSET, pressed), w)
  {
    hide Run, Safe, Inside, Seat.FocusedOn;
    var key, xkb := Key(code, pressed), XkbKey(code + XKB_OFFSET, pressed);
    var t := Apply(Apply(s, key), xkb);
    RunCons(t, Modifiers, [], w);
    assert [Modifiers] + [] == [Modifiers];
    RunCons(Apply(s, key), xkb, [Modifiers], w);
    RunCons(s, key, [xkb] + [Modifiers], w);
    assert Stroke(code, pressed) == [key] + ([xkb] + [Modifiers]);
  }

  /** A chord is a first key's stroke around the chord of the others. */
  lemma {:induction false} PressesFirst(code: nat, rest: seq<nat>)
    ensures Presses([code] + rest) == Stroke(code, true) + Presses(rest)
    ensures Releases([code] + rest) == Releases(rest) + Stroke(code, false)
    decreases |rest|
  {
    var all := [code] + rest;
    if rest == [] {
      assert all[..|all| - 1] == [];
    } else {
      var init := rest[..|rest| - 1];
      assert all[..|all| - 1] == [code] + init;
      PressesFirst(code, init);
    }
  }

  /** A chord on a focused seat is safe and lets go of every key it pressed. */
  lemma {:induction false} ChordNeutral(s: Seat, codes: seq<nat>, w: Window)
    requires s.FocusedOn(w)
    ensures Neutral(s, Chord(codes), w)
    decreases |codes|
  {
    hide Run, Safe, Neutral, Stroke, Presses, Releases, Chord, Seat.FocusedOn;
    if codes == [] {
      EmptyChord(s, w);
    } else {
      var code, rest := codes[0], codes[1..];
      assert codes == [code] + rest;
      ChordFirst(code, rest);
      StrokeSafe(s, code, w);
      ChordNeutral(Run(s, Stroke(code, true)), rest, w);
      NeutralBracket(s, Stroke(code, true), Chord(rest), Stroke(code, false), w);
    }
  }

  lemma EmptyChord(s: Seat, w: Window)
    ensures Neutral(s, Chord([]), w)
  {
    hide Apply, Legal;
    assert Chord([]) == [];
  }

  lemma ChordFirst(code: nat, rest: seq<nat>)
    ensures Chord([code] + rest) == Stroke(code, true) + Chord(rest) + Stroke(code, false)
  {
    hide Presses, Releases, Stroke;
    PressesFirst(code, rest);
  }

  lemma ButtonSafe(s: Seat, button: nat, w: Window)
    requires s.FocusedOn(w)
    ensures Safe(s, [Button(button, true), PointerFrame], w)
    ensures Run(s, [Button(button, true), PointerFrame]) == s.(buttons := s.buttons + multiset{button})
    ensures button in s.buttons ==> Safe(s, [Button(button, false), PointerFrame], w)
    ensures Run(s, [Button(button, false), PointerFrame]) == s.(buttons := s.buttons - multiset{button})
  {
    var down, up := [Button(button, true), PointerFrame], [Button(button, false), PointerFrame];
    hide Run, Safe;
    RunCons(Apply(s, down[0]), PointerFrame, [], w);
    RunCons(Apply(s, up[0]), PointerFrame, [], w);
    assert [PointerFrame] + [] == [PointerFrame];
    RunCons(s, down[0], [PointerFrame], w);
    RunCons(s, up[0], [PointerFrame], w);
    assert down == [down[0]] + [PointerFrame] && up == [up[0]] + [PointerFrame];
  }

  lemma ClickNeutral(s: Seat, button: nat, w: Window)
    requires s.FocusedOn(w)
    ensures Neutral(s, Click(button), w)
  {
    var down, up := [Button(button, true), PointerFrame], [Button(button, false), PointerFrame];
    ButtonSafe(s, button, w);
    ButtonSafe(Run(s, down), button, w);
    assert s.buttons + multiset{button} - multiset{button} == s.buttons;
    assert Click(button) == down + [] + up;
    NeutralBracket(s, down, [], up, w);
  }

  lemma {:induction false} ClicksNeutral(s: Seat, button: nat, n: nat, w: Window)
    requires s.FocusedOn(w)
    ensures Neutral(s, Clicks(button, n), w)
  {
    if n > 0 {
      ClicksNeutral(s, button, n - 1, w);
      ClickNeutral(s, button, w);
      NeutralConcat(s, Clicks(button, n - 1), Click(button), w);
    }
  }
}
