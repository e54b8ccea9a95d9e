/**
 What every input action keeps, on every exit path: input goes to the requested window only, at
 the position last bound inside it, and no key or button stays held.
 */
module SeatSafety {
  import opened Outcome
  import opened SeatEvents
  import opened SeatActions

  predicate SameHeld(s: Seat, t: Seat) {
    t.keys == s.keys && t.xkb == s.xkb && t.buttons == s.buttons
  }

  /** `m` is `l` after an action on `w`: only safe events were added, nothing new is held, and a
      lane that changed is bound to `w` at a position inside it. */
  predicate Clean(l: Lane, m: Lane, w: Window) {
    && |l.events| <= |m.events| && m.events[..|l.events|] == l.events
    && Safe(l.Seat(), m.events[|l.events|..], w)
    && SameHeld(l.Seat(), m.Seat())
    && m.seatIndex == l.seatIndex && m.xkbReady == l.xkbReady && m.lastUsedMs == l.lastUsedMs
    && (m != l ==> BoundTo(m, w))
  }

  predicate BoundTo(m: Lane, w: Window) {
    m.target == Some(w.id) && Inside(w, m.position) && m.Seat().FocusedOn(w)
  }

  lemma CleanSelf(l: Lane, w: Window)
    ensures Clean(l, l, w)
  {
  }

  lemma EmitRuns(l: Lane, es: seq<SeatEvent>)
    ensures l.Emit(es).Seat() == Run(l.Seat(), es)
  {
    RunConcat(NEW_SEAT, l.events, es);
  }

  /** Safe events after a clean start keep it clean. */
  lemma CleanEmit(l: Lane, m: Lane, es: seq<SeatEvent>, w: Window)
    requires Clean(l, m, w) && Safe(m.Seat(), es, w)
    requires SameHeld(m.Seat(), Run(m.Seat(), es)) && BoundTo(m, w) && Run(m.Seat(), es).FocusedOn(w)
    ensures Clean(l, m.Emit(es), w) && BoundTo(m.Emit(es), w)
  {
    var n := m.Emit(es);
    var first := m.events[|l.events|..];
    assert n.events[|l.events|..] == first + es;
    assert l.events + first == m.events;
    RunConcat(NEW_SEAT, l.events, first);
    SafeConcat(l.Seat(), first, es, w);
    EmitRuns(m, es);
  }

  lemma CleanNeutral(l: Lane, m: Lane, es: seq<SeatEvent>, w: Window)
    requires Clean(l, m, w) && BoundTo(m, w) && Neutral(m.Seat(), es, w)
    ensures Clean(l, m.Emit(es), w) && BoundTo(m.Emit(es), w)
  {
    CleanEmit(l, m, es, w);
  }

  lemma BindRuns(s: Seat, w: Window, p: Point)
    requires Inside(w, p)
    ensures Safe(s, BindEvents(w, p), w)
    ensures Run(s, BindEvents(w, p)) ==
      s.(keyboard := Some(w.id), pointer := Some(w.id), global := GlobalPosition(w, p))
    ensures Run(s, BindEvents(w, p)).FocusedOn(w)
  {
    var s1 := s.(keyboard := Some(w.id));
    var s2 := s1.(pointer := Some(w.id), global := GlobalPosition(w, p));
    assert Point(s2.global.x - w.topLeft.x, s2.global.y - w.topLeft.y) == p;
    BindSteps(s, s1, s2, w, p);
  }

  lemma BindSteps(s: Seat, s1: Seat, s2: Seat, w: Window, p: Point)
    requires s1 == Apply(s, KeyboardFocus(Some(w.id))) && s2 == Apply(s1, PointerEnter(w.id, GlobalPosition(w, p)))
    ensures Safe(s, BindEvents(w, p), w) && Run(s, BindEvents(w, p)) == s2
  {
    hide Run, Safe, Inside, GlobalPosition;
    var e0, e1 := KeyboardFocus(Some(w.id)), PointerEnter(w.id, GlobalPosition(w, p));
    RunCons(s2, PointerFrame, [], w);
    assert [PointerFrame] + [] == [PointerFrame];
    RunCons(s1, e1, [PointerFrame], w);
    RunCons(s, e0, [e1] + [PointerFrame], w);
    assert BindEvents(w, p) == [e0] + ([e1] + [PointerFrame]);
  }

  /** Binding is clean, and where it succeeds the lane is bound. */
  lemma BindClean(l: Lane, m: Lane, w: Window, p: Point)
    requires Clean(l, m, w)
    ensures Clean(l, Bind(m, w, p).lane, w)
    ensures Bind(m, w, p).error.None? ==> BoundTo(Bind(m, w, p).lane, w)
  {
    if w.hasSurface && Inside(w, p) {
      var es := BindEvents(w, p);
      var n := m.Emit(es);
      BindRuns(m.Seat(), w, p);
      EmitRuns(m, es);
      var first := m.events[|l.events|..];
      assert n.events[|l.events|..] == first + es;
      assert l.events + first == m.events;
      RunConcat(NEW_SEAT, l.events, first);
      SafeConcat(l.Seat(), first, es, w);
    }
  }

  lemma {:induction false} ChordsNeutral(s: Seat, chords: seq<Json>, i: nat, w: Window)
    requires i <= |chords| && s.FocusedOn(w)
    ensures Neutral(s, ChordsFrom(chords, i).0, w)
    decreases |chords| - i
  {
    if i < |chords| && ChordOf(chords[i]).Ok? {
      ChordNeutral(s, ChordOf(chords[i]).value, w);
      ChordsNeutral(s, chords, i + 1, w);
      NeutralConcat(s, Chord(ChordOf(chords[i]).value), ChordsFrom(chords, i + 1).0, w);
    }
  }

  lemma AxisSafe(s: Seat, vertical: int, horizontal: int, w: Window)
    requires s.FocusedOn(w)
    ensures Neutral(s, ScrollEvents(vertical, horizontal), w)
  {
    hide Run, Safe, Seat.FocusedOn;
    var v := Axis(true, vertical as real * 15.0, vertical * 120);
    var h := Axis(false, horizontal as real * 15.0, horizontal * 120);
    RunCons(s, PointerFrame, [], w);
    assert [PointerFrame] + [] == [PointerFrame];
    RunCons(s, h, [PointerFrame], w);
    RunCons(s, v, [PointerFrame], w);
    RunCons(s, v, [h] + [PointerFrame], w);
    assert ScrollEvents(vertical, horizontal) ==
      if vertical != 0 && horizontal != 0 then [v] + ([h] + [PointerFrame])
      else if vertical != 0 then [v] + [PointerFrame]
      else if horizontal != 0 then [h] + [PointerFrame]
      else [PointerFrame];
  }

  lemma KeyComboClean(l: Lane, a: Action, w: Window)
    ensures Clean(l, KeyCombo(l, a, w).lane, w)
  {
    hide Clean, BoundTo, Bind, Chord, Keycodes;
    CleanSelf(l, w);
    BindClean(l, l, w, RestingPosition(l, w));
    var m := Bind(l, w, RestingPosition(l, w)).lane;
    var codes := Keycodes(ToArray(Value(a, "keycodes")));
    if Bind(l, w, RestingPosition(l, w)).error.None? && codes.Some? {
      BoundFocus(m, w);
      ChordNeutral(m.Seat(), codes.value, w);
      CleanNeutral(l, m, Chord(codes.value), w);
    }
  }

  lemma BoundFocus(m: Lane, w: Window)
    requires BoundTo(m, w)
    ensures m.Seat().FocusedOn(w)
  {
  }

  lemma KeySequenceClean(l: Lane, a: Action, w: Window)
    ensures Clean(l, KeySequence(l, a, w).lane, w)
  {
    hide Clean, BoundTo, Bind, ChordsFrom;
    CleanSelf(l, w);
    BindClean(l, l, w, RestingPosition(l, w));
    var m := Bind(l, w, RestingPosition(l, w)).lane;
    var chords := ToArray(Value(a, "chords"));
    if Bind(l, w, RestingPosition(l, w)).error.None? {
      BoundFocus(m, w);
      ChordsNeutral(m.Seat(), chords, 0, w);
      CleanNeutral(l, m, ChordsFrom(chords, 0).0, w);
    }
  }

  lemma PointerMoveClean(l: Lane, a: Action, w: Window)
    ensures Clean(l, PointerMove(l, a, w).lane, w)
    ensures PointerMove(l, a, w).error.None? ==> BoundTo(PointerMove(l, a, w).lane, w)
  {
    hide Clean, BoundTo, Bind;
    CleanSelf(l, w);
    BindClean(l, l, w, Point(ToReal(Value(a, "x")), ToReal(Value(a, "y"))));
  }

  lemma PointerClickClean(l: Lane, a: Action, w: Window)
    ensures Clean(l, PointerClick(l, a, w).lane, w)
  {
    hide Clean, BoundTo, PointerMove, Clicks;
    PointerMoveClean(l, a, w);
    var m := PointerMove(l, a, w).lane;
    var button, clicks := ToInt(Value(a, "button"), -1), ToInt(Value(a, "clicks"), 0);
    if PointerMove(l, a, w).error.None? && ValidButton(button) && clicks > 0 {
      BoundFocus(m, w);
      ClicksNeutral(m.Seat(), button, clicks, w);
      CleanNeutral(l, m, Clicks(button, clicks), w);
    }
  }

  lemma PointerScrollClean(l: Lane, a: Action, w: Window)
    ensures Clean(l, PointerScroll(l, a, w).lane, w)
  {
    hide Clean, BoundTo, Bind, ScrollEvents;
    CleanSelf(l, w);
    BindClean(l, l, w, RestingPosition(l, w));
    var m := Bind(l, w, RestingPosition(l, w)).lane;
    var vertical, horizontal := ToInt(Value(a, "vertical"), 0), ToInt(Value(a, "horizontal"), 0);
    if Bind(l, w, RestingPosition(l, w)).error.None? {
      BoundFocus(m, w);
      AxisSafe(m.Seat(), vertical, horizontal, w);
      CleanNeutral(l, m, ScrollEvents(vertical, horizontal), w);
    }
  }

  // ---------- Dragging holds a button across a second bind ----------

  function Release(button: nat): seq<SeatEvent> {
    [Button(button, false), PointerFrame]
  }

  /** The button goes down, the pointer is bound again or is refused, and the button comes up. */
  lemma DragEvents(s: Seat, button: nat, to: Point, moves: bool, w: Window)
    requires s.FocusedOn(w) && (moves ==> Inside(w, to))
    ensures var moved := if moves then BindEvents(w, to) else [];
      var es := [Button(button, true), PointerFrame] + moved + Release(button);
      && Safe(s, es, w) && SameHeld(s, Run(s, es)) && Run(s, es).FocusedOn(w)
      && Run(s, es) == if moves then Run(s, BindEvents(w, to)) else s
  {
    hide Run, Safe, Inside, Seat.FocusedOn, BindEvents;
    var down := [Button(button, true), PointerFrame];
    var moved := if moves then BindEvents(w, to) else [];
    ButtonSafe(s, button, w);
    var s1 := Run(s, down);
    SameFocus(s, s1, w);
    RunCons(s1, PointerFrame, [], w);
    if moves { BindRuns(s1, w, to); BindRuns(s, w, to); }
    var s2 := Run(s1, moved);
    ButtonSafe(s2, button, w);
    var s3 := Run(s2, Release(button));
    assert s1.buttons - multiset{button} == s.buttons;
    SameFocus(s2, s3, w);
    RunConcat(s, down, moved);
    SafeConcat(s, down, moved, w);
    RunConcat(s, down + moved, Release(button));
    SafeConcat(s, down + moved, Release(button), w);
  }

  lemma PointerDragClean(l: Lane, a: Action, w: Window)
    ensures Clean(l, PointerDrag(l, a, w).lane, w)
  {
    hide Clean, BoundTo, Seat.FocusedOn, Run, Safe, Inside, BindEvents;
    var fromX, fromY := Value(a, "from_x"), Value(a, "from_y");
    var toX, toY := Value(a, "to_x"), Value(a, "to_y");
    var button := ToInt(Value(a, "button"), -1);
    CleanSelf(l, w);
    if fromX.Number? && fromY.Number? && toX.Number? && toY.Number? && ValidButton(button) {
      var from, to := Point(fromX.number, fromY.number), Point(toX.number, toY.number);
      BindClean(l, l, w, from);
      if Bind(l, w, from).error.None? {
        DragClean(l, Bind(l, w, from).lane, button, to, w);
      }
    }
  }

  lemma DragClean(l: Lane, m: Lane, button: nat, to: Point, w: Window)
    requires Clean(l, m, w) && BoundTo(m, w)
    ensures Clean(l, Bind(m.Emit([Button(button, true), PointerFrame]), w, to).lane.Emit(Release(button)), w)
  {
    hide Run, Safe, Clean, Inside, Seat.FocusedOn, BindEvents, Release, Bind;
    var down := [Button(button, true), PointerFrame];
    var moves := w.hasSurface && Inside(w, to);
    var moved := if moves then BindEvents(w, to) else [];
    var n := Bind(m.Emit(down), w, to).lane.Emit(Release(button));
    var es := down + moved + Release(button);
    DragEvents(m.Seat(), button, to, moves, w);
    CleanEmit(l, m, es, w);
    DragTrace(m, down, Release(button), to, w);
    CleanBound(l, m.Emit(es), n, w);
  }

  /** The lane after a drag: all its events, and bound where the second binding went through. */
  lemma DragTrace(m: Lane, down: seq<SeatEvent>, up: seq<SeatEvent>, to: Point, w: Window)
    requires m.target == Some(w.id)
    ensures var moves := w.hasSurface && Inside(w, to);
      Bind(m.Emit(down), w, to).lane.Emit(up) ==
        m.Emit(down + (if moves then BindEvents(w, to) else []) + up)
         .(target := Some(w.id), position := if moves then to else m.position)
  {
    hide Inside, BindEvents;
    var moved := if w.hasSurface && Inside(w, to) then BindEvents(w, to) else [];
    assert m.events + down + moved + up == m.events + (down + moved + up);
    assert m.events + down + [] == m.events + down;
  }

  /** Cleanness looks at the events and the bound position only. */
  lemma CleanBound(l: Lane, m: Lane, n: Lane, w: Window)
    requires Clean(l, m, w) && BoundTo(m, w)
    requires n == m.(target := Some(w.id), position := n.position) && Inside(w, n.position)
    ensures Clean(l, n, w)
  {
  }

  // ---------- Main results ----------

  /** Whatever the action and whether it succeeds: only safe events, nothing held afterwards. */
  lemma ActionClean(l: Lane, a: Action, w: Window)
    ensures Clean(l, Perform(l, a, w).lane, w)
    ensures l.Seat().Idle() ==> Perform(l, a, w).lane.Seat().Idle()
  {
    hide Safe, Run, BoundTo, KeyCombo, KeySequence, PointerMove, PointerClick, PointerDrag, PointerScroll;
    CleanSelf(l, w);
    KeyComboClean(l, a, w);
    KeySequenceClean(l, a, w);
    PointerMoveClean(l, a, w);
    PointerClickClean(l, a, w);
    PointerDragClean(l, a, w);
    PointerScrollClean(l, a, w);
  }

  /** Dropping the focus holds nothing and leaves the seat on no window. */
  lemma ClearIdle(l: Lane)
    ensures l.Seat().Idle() ==> Clear(l).Seat().Idle()
    ensures Clear(l).Seat().keyboard == None && Clear(l).Seat().pointer == None
  {
    hide Run;
    var es := [KeyboardFocus(None), PointerLeave, PointerFrame];
    EmitRuns(l, es);
    var w := Window(0, false, false, Point(0.0, 0.0), 0.0, 0.0);
    var s := l.Seat();
    RunCons(s, KeyboardFocus(None), [PointerLeave] + [PointerFrame], w);
    RunCons(Apply(s, KeyboardFocus(None)), PointerLeave, [PointerFrame], w);
    RunCons(Apply(Apply(s, KeyboardFocus(None)), PointerLeave), PointerFrame, [], w);
    assert es == [KeyboardFocus(None)] + ([PointerLeave] + [PointerFrame]) && [PointerFrame] + [] == [PointerFrame];
    assert Clear(l).Seat() == l.Emit(es).Seat();
  }

  /** The key events of a trace. */
  function Keys(es: seq<SeatEvent>): seq<SeatEvent> {
    if es == [] then [] else KeyPart(es[0]) + Keys(es[1..])
  }

  function KeyPart(e: SeatEvent): seq<SeatEvent> {
    if e.Key? then [e] else []
  }

  lemma {:induction false} KeysConcat(a: seq<SeatEvent>, b: seq<SeatEvent>)
    ensures Keys(a + b) == Keys(a) + Keys(b)
  {
    hide Keys;
    if a == [] {
      assert a + b == b;
      NoKeys();
    } else {
      KeysConcat(a[1..], b);
      assert (a + b)[1..] == a[1..] + b;
      KeysFirst(a);
      KeysFirst(a + b);
      assert KeyPart(a[0]) + (Keys(a[1..]) + Keys(b)) == KeyPart(a[0]) + Keys(a[1..]) + Keys(b);
    }
  }

  lemma NoKeys()
    ensures Keys([]) == []
  {
  }

  lemma KeysFirst(es: seq<SeatEvent>)
    requires es != []
    ensures Keys(es) == KeyPart(es[0]) + Keys(es[1..])
  {
  }

  lemma StrokeKeys(code: nat, pressed: bool)
    ensures Keys(Stroke(code, pressed)) == [Key(code, pressed)]
  {
    var es := Stroke(code, pressed);
    assert es[1..] == [XkbKey(code + XKB_OFFSET, pressed), Modifiers];
    assert es[1..][1..] == [Modifiers] && [Modifiers][1..] == [];
    assert Keys([Modifiers]) == [];
  }

  lemma NoChordKeys()
    ensures Keys(Chord([])) == []
  {
  }

  /** A chord presses its keys in order and then releases them in exactly the reverse order. */
  lemma {:induction false} ChordKeys(codes: seq<nat>, i: nat)
    requires i < |codes|
    ensures |Keys(Chord(codes))| == 2 * |codes|
    ensures Keys(Chord(codes))[i] == Key(codes[i], true)
    ensures Keys(Chord(codes))[2 * |codes| - 1 - i] == Key(codes[i], false)
    decreases |codes|
  {
    hide Stroke, Presses, Releases;
    var code, rest := codes[0], codes[1..];
    assert codes == [code] + rest;
    PressesFirst(code, rest);
    assert Chord(codes) == Stroke(code, true) + Chord(rest) + Stroke(code, false);
    KeysConcat(Stroke(code, true) + Chord(rest), Stroke(code, false));
    KeysConcat(Stroke(code, true), Chord(rest));
    StrokeKeys(code, true);
    StrokeKeys(code, false);
    assert Keys(Chord(codes)) == [Key(code, true)] + Keys(Chord(rest)) + [Key(code, false)];
    if rest == [] {
      NoChordKeys();
    } else {
      ChordKeys(rest, if i > 0 then i - 1 else 0);
    }
  }

  function ChordBlocks(chords: seq<seq<nat>>): seq<SeatEvent> {
    if chords == [] then [] else Chord(chords[0]) + ChordBlocks(chords[1..])
  }

  /** A key sequence sends exactly the blocks of its chords up to the first invalid one. */
  lemma {:induction false} SequencePrefix(chords: seq<Json>, i: nat) returns (valid: seq<seq<nat>>)
    requires i <= |chords|
    ensures ChordsFrom(chords, i).0 == ChordBlocks(valid)
    ensures i + |valid| <= |chords|
    ensures forall k :: 0 <= k < |valid| ==> ChordOf(chords[i + k]) == Ok(valid[k])
    ensures match ChordsFrom(chords, i).1
      case None => i + |valid| == |chords|
      case Some(e) => i + |valid| < |chords| && ChordOf(chords[i + |valid|]) == Err(e)
    decreases |chords| - i
  {
    hide ChordOf, Chord;
    valid := [];
    if i < |chords| && ChordOf(chords[i]).Ok? {
      var rest := SequencePrefix(chords, i + 1);
      valid := [ChordOf(chords[i]).value] + rest;
      assert valid[1..] == rest;
      forall k | 0 <= k < |valid| ensures ChordOf(chords[i + k]) == Ok(valid[k]) {
        if k > 0 { assert ChordOf(chords[i + 1 + (k - 1)]) == Ok(rest[k - 1]); }
      }
    }
  }

  /** When a key combo goes through: on a lane bound to the window, only while the remembered
      pointer position still lies inside it; on any other lane, wherever the window has an area. */
  lemma KeyComboAccepted(l: Lane, a: Action, w: Window)
    ensures var items := ToArray(Value(a, "keycodes"));
      KeyCombo(l, a, w).error.None? <==>
        && l.xkbReady && 1 <= |items| <= MAX_COMBO_KEYS && w.hasSurface
        && (forall i :: 0 <= i < |items| ==> ValidKeycode(items[i]))
        && (if l.target == Some(w.id) then Inside(w, l.position) else w.width != 0.0 && w.height != 0.0)
  {
  }
}
