/**
 The activity publisher: every input event asks for one report, motion and scrolling at most once
 in 20 ms per class, provenance and window. Proves that no event goes unreported for 20 ms, how
 often a report can be sent, and which window the end of a touch is reported for.
 */
module ActivityThrottle {
  import opened Outcome
  import opened Positions

  const POINTER_PUBLISH_INTERVAL_MS: int := 20
  const DESKTOP_TARGET: string := "desktop"

  datatype Device = Device(name: string, sysPath: string)

  /** `window` is the id of the window the compositor finds for the event, if any. */
  datatype InputEvent =
    | PointerMotion(device: Option<Device>, window: Option<string>)
    | PointerButton(device: Option<Device>, window: Option<string>)
    | PointerAxis(device: Option<Device>, window: Option<string>)
    | KeyboardKey(device: Option<Device>, window: Option<string>)
    | TouchDown(id: int, window: Option<string>)
    | TouchMotion(id: int, window: Option<string>)
    | TouchUp(id: int)

  /** What an event asks `publish` for. */
  datatype Target = Target(eventClass: string, provenance: string, window: string)

  datatype Report = Report(target: Target, monotonicMs: int)

  /** An event and the monotonic time it comes at. */
  datatype Tick = Tick(now: int, event: InputEvent)

  datatype State = State(lastPublished: map<string, int>, touchTargets: map<int, string>, sent: seq<Report>)

  // ---------- Provenance ----------

  /** Simple case folding of the characters that can fold to a letter of "seatgeist ". */
  function Fold(c: char): char {
    if 'A' <= c <= 'Z' then c + 32 as char else if c == '\U{017F}' then 's' else c
  }

  predicate StartsWithFolded(s: string, prefix: string) {
    |prefix| <= |s| && forall k :: 0 <= k < |prefix| ==> Fold(s[k]) == Fold(prefix[k])
  }

  function ProvenanceFor(device: Option<Device>): string {
    match device
    case None => "unknown"
    case Some(d) =>
      if StartsWithFolded(d.name, "Seatgeist ") || StartsWithFolded(d.name, "Seatgeist Virtual ") then
        "seatgeist_injected"
      else if d.sysPath == "" || Contains(d.sysPath, "/virtual/") then "unknown"
      else "trusted_physical"
  }

  // ---------- One event ----------

  function WindowId(window: Option<string>): string {
    if window.Some? then window.value else DESKTOP_TARGET
  }

  predicate Throttled(e: InputEvent) {
    e.PointerMotion? || e.PointerAxis? || e.TouchMotion?
  }

  function TargetOf(touchTargets: map<int, string>, e: InputEvent): Target {
    match e
    case PointerMotion(d, w) => Target("pointer", ProvenanceFor(d), WindowId(w))
    case PointerButton(d, w) => Target("pointer", ProvenanceFor(d), WindowId(w))
    case PointerAxis(d, w) => Target("pointer", ProvenanceFor(d), WindowId(w))
    case KeyboardKey(d, w) => Target("keyboard", ProvenanceFor(d), WindowId(w))
    case TouchDown(_, w) => Target("touch", "unknown", WindowId(w))
    case TouchMotion(_, w) => Target("touch", "unknown", WindowId(w))
    case TouchUp(id) =>
      Target("touch", "unknown",
             if id in touchTargets && touchTargets[id] != "" then touchTargets[id] else DESKTOP_TARGET)
  }

  function Track(touchTargets: map<int, string>, e: InputEvent): map<int, string> {
    match e
    case TouchDown(id, w) => touchTargets[id := WindowId(w)]
    case TouchMotion(id, w) => touchTargets[id := WindowId(w)]
    case TouchUp(id) => touchTargets - {id}
    case _ => touchTargets
  }

  /** The key of the throttle map: the three parts joined by colons. */
  function Key(t: Target): string {
    t.eventClass + ":" + t.provenance + ":" + t.window
  }

  predicate Passes(lastPublished: map<string, int>, t: Target, now: int, throttle: bool) {
    !(throttle && Key(t) in lastPublished && now - lastPublished[Key(t)] < POINTER_PUBLISH_INTERVAL_MS)
  }

  function Publish(s: State, t: Target, now: int, throttle: bool): State {
    if Passes(s.lastPublished, t, now, throttle)
    then s.(lastPublished := s.lastPublished[Key(t) := now], sent := s.sent + [Report(t, now)])
    else s
  }

  function Handle(s: State, tick: Tick): State {
    Publish(s.(touchTargets := Track(s.touchTargets, tick.event)),
            TargetOf(s.touchTargets, tick.event), tick.now, Throttled(tick.event))
  }

  // ---------- Runs ----------

  /** The state after the first `n` events. */
  function StateAt(run: seq<Tick>, n: nat): State
    requires n <= |run|
  {
    if n == 0 then State(map[], map[], []) else Handle(StateAt(run, n - 1), run[n - 1])
  }

  function Asked(run: seq<Tick>, i: nat): Target
    requires i < |run|
  {
    TargetOf(StateAt(run, i).touchTargets, run[i].event)
  }

  predicate Sent(run: seq<Tick>, i: nat)
    requires i < |run|
  {
    Passes(StateAt(run, i).lastPublished, Asked(run, i), run[i].now, Throttled(run[i].event))
  }

  predicate Monotonic(run: seq<Tick>) {
    forall i, j :: 0 <= i < j < |run| ==> run[i].now <= run[j].now
  }

  // ---------- What an event is reported as ----------

  /** The name begins with "Seatgeist " in capitals or small letters, a long s among them. */
  predicate NamedSeatgeist(name: string) {
    |name| >= 10 && forall k :: 0 <= k < 10 ==> LetterOf(name[k], k)
  }

  predicate VirtualAt(path: string, i: nat) {
    i + 9 <= |path| && path[i..i + 9] == "/virtual/"
  }

  /** A physical device has a path, below no virtual directory, and another name. */
  predicate Physical(d: Device) {
    !NamedSeatgeist(d.name) && d.sysPath != "" && forall i :: 0 <= i <= |d.sysPath| ==> !VirtualAt(d.sysPath, i)
  }

  /** What the device says of the event: whose it is, or that this cannot be told. */
  predicate Provenance(device: Option<Device>, provenance: string) {
    && (provenance == "seatgeist_injected" <==> device.Some? && NamedSeatgeist(device.value.name))
    && (provenance == "trusted_physical" <==> device.Some? && Physical(device.value))
    && provenance in {"seatgeist_injected", "trusted_physical", "unknown"}
  }

  lemma FoldedTo(c: char)
    ensures Fold(c) == 's' <==> c in {'S', 's', '\U{017F}'}
    ensures Fold(c) == 'e' <==> c in {'E', 'e'}
    ensures Fold(c) == 'a' <==> c in {'A', 'a'}
    ensures Fold(c) == 't' <==> c in {'T', 't'}
    ensures Fold(c) == 'g' <==> c in {'G', 'g'}
    ensures Fold(c) == 'i' <==> c in {'I', 'i'}
    ensures Fold(c) == ' ' <==> c == ' '
  {
  }

  lemma NameStarts(name: string)
    ensures StartsWithFolded(name, "Seatgeist ") <==> NamedSeatgeist(name)
    ensures StartsWithFolded(name, "Seatgeist Virtual ") ==> NamedSeatgeist(name)
  {
    if |name| >= 10 {
      forall k | 0 <= k < 10
        ensures Fold(name[k]) == Fold("Seatgeist "[k]) <==> LetterOf(name[k], k)
        ensures "Seatgeist "[k] == "Seatgeist Virtual "[k]
      {
        FoldedTo(name[k]);
        FoldedTo("Seatgeist "[k]);
      }
    }
  }

  /** `c` is a form of the letter at position `k` of "Seatgeist ". */
  predicate LetterOf(c: char, k: nat)
    requires k < 10
  {
    match k
    case 0 => c in {'S', 's', '\U{017F}'}
    case 1 => c in {'E', 'e'}
    case 2 => c in {'A', 'a'}
    case 3 => c in {'T', 't'}
    case 4 => c in {'G', 'g'}
    case 5 => c in {'E', 'e'}
    case 6 => c in {'I', 'i'}
    case 7 => c in {'S', 's', '\U{017F}'}
    case 8 => c in {'T', 't'}
    case _ => c == ' '
  }

  lemma ProvenanceExactly(device: Option<Device>)
    ensures Provenance(device, ProvenanceFor(device))
  {
    hide StartsWithFolded, NamedSeatgeist;
    if device.Some? {
      NameStarts(device.value.name);
      VirtualExactly(device.value.sysPath);
    }
  }

  lemma VirtualExactly(path: string)
    ensures Contains(path, "/virtual/") <==> exists i :: 0 <= i <= |path| && VirtualAt(path, i)
  {
    forall i | 0 <= i <= |path| ensures At(path, i, "/virtual/") <==> VirtualAt(path, i) {
      if At(path, i, "/virtual/") {
        assert path[i..i + 9] == "/virtual/";
      }
      if VirtualAt(path, i) {
        var cut := path[i..i + 9];
        assert forall k :: 0 <= k < 9 ==> cut[k] == path[i + k];
      }
    }
  }

  /** What an event is reported as: its device class, where it comes from, and the window found for
      it, or the desktop; a touch comes from no known device. */
  lemma AskedExactly(run: seq<Tick>, i: nat)
    requires i < |run|
    ensures var e, t := run[i].event, Asked(run, i);
      if e.TouchDown? || e.TouchMotion? || e.TouchUp? then
        && t.eventClass == "touch" && t.provenance == "unknown"
        && (!e.TouchUp? ==> t.window == if e.window.Some? then e.window.value else "desktop")
      else
        && t.eventClass == (if e.KeyboardKey? then "keyboard" else "pointer")
        && Provenance(e.device, t.provenance)
        && t.window == if e.window.Some? then e.window.value else "desktop"
  {
    hide StateAt, Provenance, ProvenanceFor;
    var e := run[i].event;
    if !(e.TouchDown? || e.TouchMotion? || e.TouchUp?) { ProvenanceExactly(e.device); }
  }

  // ---------- The key names its target ----------

  lemma SplitAtColon(a: string, b: string, c: string, d: string)
    requires a + ":" + b == c + ":" + d
    requires ':' !in a && ':' !in c
    ensures a == c && b == d
  {
    var s, t := a + ":" + b, c + ":" + d;
    assert s[|a|] == ':' && t[|c|] == ':';
    assert |a| == |c|;
    assert a == s[..|a|] == t[..|c|] == c;
    assert b == s[|a| + 1..] == t[|c| + 1..] == d;
  }

  lemma NoColons(touchTargets: map<int, string>, e: InputEvent)
    ensures ':' !in TargetOf(touchTargets, e).eventClass
    ensures ':' !in TargetOf(touchTargets, e).provenance
  {
    hide Contains, StartsWithFolded, ProvenanceFor;
    assert ':' !in "pointer" && ':' !in "keyboard" && ':' !in "touch" && ':' !in "unknown";
    match e {
      case PointerMotion(d, _) => NoColonInProvenance(d);
      case PointerButton(d, _) => NoColonInProvenance(d);
      case PointerAxis(d, _) => NoColonInProvenance(d);
      case KeyboardKey(d, _) => NoColonInProvenance(d);
      case _ =>
    }
  }

  lemma NoColonInProvenance(device: Option<Device>)
    ensures ':' !in ProvenanceFor(device)
  {
    hide Contains, StartsWithFolded, Fold;
    assert ':' !in "unknown" && ':' !in "seatgeist_injected" && ':' !in "trusted_physical";
  }

  /** Two events share a throttle key exactly when they share class, provenance and window,
      whatever colons the window id holds. */
  lemma KeyInjective(m: map<int, string>, d: InputEvent, n: map<int, string>, e: InputEvent)
    ensures Key(TargetOf(m, d)) == Key(TargetOf(n, e)) <==> TargetOf(m, d) == TargetOf(n, e)
  {
    hide TargetOf;
    var t, u := TargetOf(m, d), TargetOf(n, e);
    NoColons(m, d);
    NoColons(n, e);
    if Key(t) == Key(u) {
      assert Key(t) == t.eventClass + ":" + (t.provenance + ":" + t.window);
      assert Key(u) == u.eventClass + ":" + (u.provenance + ":" + u.window);
      SplitAtColon(t.eventClass, t.provenance + ":" + t.window, u.eventClass, u.provenance + ":" + u.window);
      SplitAtColon(t.provenance, t.window, u.provenance, u.window);
    }
  }

  // ---------- The throttle map against the history ----------

  /** The map holds the time of the last report for a target, and nothing for one not reported. */
  lemma {:induction false} LastReport(run: seq<Tick>, n: nat, i: nat) returns (j: nat)
    requires n <= i < |run|
    ensures var last, key := StateAt(run, n).lastPublished, Key(Asked(run, i));
      && (key in last <==> j < n)
      && (j < n ==> Sent(run, j) && Asked(run, j) == Asked(run, i) && last[key] == run[j].now)
      && (forall m :: (if j < n then j < m else 0 <= m) && m < n && Sent(run, m) ==> Asked(run, m) != Asked(run, i))
    decreases n
  {
    hide TargetOf, Key, Passes, Track;
    if n == 0 {
      j := 0;
    } else {
      KeyInjective(StateAt(run, n - 1).touchTargets, run[n - 1].event, StateAt(run, i).touchTargets, run[i].event);
      var k := LastReport(run, n - 1, i);
      j := if Sent(run, n - 1) && Asked(run, n - 1) == Asked(run, i) then n - 1
           else if k < n - 1 then k else n;
    }
  }

  /** A button, a key and the ends of a touch are always reported; motion and scrolling exactly
      when no event of the last 20 ms was reported for the same class, provenance and window. */
  lemma ReportedExactly(run: seq<Tick>, i: nat)
    requires Monotonic(run) && i < |run|
    ensures Sent(run, i) <==>
            || run[i].event.PointerButton? || run[i].event.KeyboardKey?
            || run[i].event.TouchDown? || run[i].event.TouchUp?
            || forall j :: 0 <= j < i && Sent(run, j) && Asked(run, j) == Asked(run, i)
                 ==> run[i].now - run[j].now >= 20
  {
    hide TargetOf, StateAt, Key;
    var k := LastReport(run, i, i);
    forall j | 0 <= j < i && Sent(run, j) && Asked(run, j) == Asked(run, i)
      ensures k < i && run[j].now <= run[k].now
    {
    }
  }

  /** Every event at time t is covered by a report of its class, provenance and window, sent in
      the 20 ms up to t, and that report is among the messages sent so far. */
  lemma Covered(run: seq<Tick>, i: nat) returns (j: nat)
    requires Monotonic(run) && i < |run|
    ensures j <= i && Sent(run, j) && Asked(run, j) == Asked(run, i)
    ensures run[i].now - 20 < run[j].now <= run[i].now
    ensures Report(Asked(run, i), run[j].now) in StateAt(run, i + 1).sent
  {
    j := i;
    if !Sent(run, i) {
      var k :| 0 <= k < i && Sent(run, k) && Asked(run, k) == Asked(run, i)
        && run[i].now - run[k].now < POINTER_PUBLISH_INTERVAL_MS by { ReportedExactly(run, i); }
      j := k;
    }
    SentStays(run, j, i + 1);
  }

  lemma {:induction false} SentStays(run: seq<Tick>, j: nat, n: nat)
    requires j < n <= |run| && Sent(run, j)
    ensures Report(Asked(run, j), run[j].now) in StateAt(run, n).sent
    decreases n
  {
    hide TargetOf, Key, Track, Passes;
    if j < n - 1 { SentStays(run, j, n - 1); }
  }

  /** Conversely every message sent reports an event of the run. */
  lemma {:induction false} SentFrom(run: seq<Tick>, n: nat, k: nat) returns (j: nat)
    requires n <= |run| && k < |StateAt(run, n).sent|
    ensures j < n && Sent(run, j) && StateAt(run, n).sent[k] == Report(Asked(run, j), run[j].now)
    decreases n
  {
    hide TargetOf, Key, Track, Passes;
    if k < |StateAt(run, n - 1).sent| { j := SentFrom(run, n - 1, k); } else { j := n - 1; }
  }

  // ---------- How often ----------

  /** How many of the first `n` events are throttled, reported for `t`, and fall in [a, b]. */
  function Reports(run: seq<Tick>, n: nat, t: Target, a: int, b: int): nat
    requires n <= |run|
  {
    if n == 0 then 0
    else Reports(run, n - 1, t, a, b) + (if ReportsNow(run, n - 1, t, a, b) then 1 else 0)
  }

  predicate ReportsNow(run: seq<Tick>, i: nat, t: Target, a: int, b: int)
    requires i < |run|
  {
    Throttled(run[i].event) && Sent(run, i) && Asked(run, i) == t && a <= run[i].now <= b
  }

  /** Where none of the first `n` reports falls in (c, b], the window may end at c. */
  lemma {:induction false} ShorterWindow(run: seq<Tick>, n: nat, t: Target, a: int, b: int, c: int)
    requires n <= |run| && c <= b
    requires forall j :: 0 <= j < n && Sent(run, j) && Asked(run, j) == t ==> run[j].now <= c
    ensures Reports(run, n, t, a, b) == Reports(run, n, t, a, c)
    ensures c < a ==> Reports(run, n, t, a, c) == 0
    decreases n
  {
    hide Sent, Asked;
    if n > 0 { ShorterWindow(run, n - 1, t, a, b, c); }
  }

  /** Any interval of b - a ms holds at most (b - a) / 20 + 1 throttled reports for one class,
      provenance and window. */
  lemma {:induction false} RateBound(run: seq<Tick>, n: nat, t: Target, a: int, b: int)
    requires Monotonic(run) && n <= |run| && a <= b
    ensures Reports(run, n, t, a, b) <= (b - a) / 20 + 1
    decreases n
  {
    hide Sent, Asked;
    if n == 0 {
    } else if ReportsNow(run, n - 1, t, a, b) {
      ReportedExactly(run, n - 1);
      var c := run[n - 1].now - POINTER_PUBLISH_INTERVAL_MS;
      ShorterWindow(run, n - 1, t, a, b, c);
      if a <= c { RateBound(run, n - 1, t, a, c); }
    } else {
      RateBound(run, n - 1, t, a, b);
    }
  }

  // ---------- Touches ----------

  predicate Concerns(e: InputEvent, id: int) {
    (e.TouchDown? || e.TouchMotion? || e.TouchUp?) && e.id == id
  }

  /** The window held for a contact is that of the last event of the contact, none after its end. */
  lemma {:induction false} ContactWindow(run: seq<Tick>, j: nat, n: nat, id: int)
    requires j < n <= |run| && Concerns(run[j].event, id)
    requires forall m :: j < m < n ==> !Concerns(run[m].event, id)
    ensures var held := StateAt(run, n).touchTargets;
      if run[j].event.TouchUp? then id !in held
      else id in held && held[id] == WindowId(run[j].event.window)
    decreases n
  {
    hide TargetOf, Key, Passes, WindowId;
    if j < n - 1 { ContactWindow(run, j, n - 1, id); }
  }

  lemma {:induction false} NoContact(run: seq<Tick>, n: nat, id: int)
    requires n <= |run| && forall m :: 0 <= m < n ==> !Concerns(run[m].event, id)
    ensures id !in StateAt(run, n).touchTargets
    decreases n
  {
    hide TargetOf, Key, Passes, WindowId;
    if n > 0 { NoContact(run, n - 1, id); }
  }

  /** The last event of contact `id` before `i`, or `i` where there is none. */
  lemma {:induction false} LastContact(run: seq<Tick>, n: nat, id: int) returns (j: nat)
    requires n <= |run|
    ensures j <= n && (j < n ==> Concerns(run[j].event, id))
    ensures forall m :: (if j < n then j < m else 0 <= m) && m < n ==> !Concerns(run[m].event, id)
    decreases n
  {
    if n == 0 {
      j := 0;
    } else if Concerns(run[n - 1].event, id) {
      j := n - 1;
    } else {
      var k := LastContact(run, n - 1, id);
      j := if k < n - 1 then k else n;
    }
  }

  /** The end of a touch is always reported at once, for the window of the contact's latest down
      or motion; for the desktop where the contact had ended, was never seen, or has no name. */
  lemma TouchEnd(run: seq<Tick>, i: nat, j: nat)
    requires i < |run| && run[i].event.TouchUp? && j <= i
    requires j < i ==> Concerns(run[j].event, run[i].event.id)
    requires forall m :: (if j < i then j < m else 0 <= m) && m < i ==> !Concerns(run[m].event, run[i].event.id)
    ensures StateAt(run, i + 1).sent == StateAt(run, i).sent + [Report(Asked(run, i), run[i].now)]
    ensures Asked(run, i) == Target("touch", "unknown",
              if j < i && !run[j].event.TouchUp? && WindowId(run[j].event.window) != ""
              then WindowId(run[j].event.window) else DESKTOP_TARGET)
    ensures run[i].event.id !in StateAt(run, i + 1).touchTargets
  {
    hide WindowId, Key;
    if j < i { ContactWindow(run, j, i, run[i].event.id); } else { NoContact(run, i, run[i].event.id); }
  }

  // ---------- The plugin ----------

  class ActivityPlugin {
    var lastPublished: map<string, int>
    var touchTargets: map<int, string>
    /** The `UpdateInputActivity` calls made so far. */
    var sent: seq<Report>

    function View(): State
      reads this
    {
      State(lastPublished, touchTargets, sent)
    }

    constructor ()
      ensures View() == StateAt([], 0)
    {
      lastPublished, touchTargets, sent := map[], map[], [];
    }

    method PublishActivity(eventClass: string, device: Option<Device>, windowId: string, throttle: bool, now: int)
      modifies this`lastPublished, this`sent
      ensures View() == Publish(old(View()), Target(eventClass, ProvenanceFor(device), windowId), now, throttle)
    {
      var provenance := ProvenanceFor(device);
      var throttleKey := eventClass + ":" + provenance + ":" + windowId;
      if throttle && throttleKey in lastPublished
         && now - lastPublished[throttleKey] < POINTER_PUBLISH_INTERVAL_MS {
        return;
      }
      lastPublished := lastPublished[throttleKey := now];
      sent := sent + [Report(Target(eventClass, provenance, windowId), now)];
    }

    /** One input event, handled as its handler does. */
    method HandleEvent(tick: Tick)
      modifies this
      ensures View() == Handle(old(View()), tick)
    {
      hide Publish, Contains, StartsWithFolded;
      match tick.event {
        case PointerMotion(d, w) => PublishActivity("pointer", d, WindowId(w), true, tick.now);
        case PointerButton(d, w) => PublishActivity("pointer", d, WindowId(w), false, tick.now);
        case PointerAxis(d, w) => PublishActivity("pointer", d, WindowId(w), true, tick.now);
        case KeyboardKey(d, w) => PublishActivity("keyboard", d, WindowId(w), false, tick.now);
        case TouchDown(id, w) =>
          touchTargets := touchTargets[id := WindowId(w)];
          PublishActivity("touch", None, WindowId(w), false, tick.now);
        case TouchMotion(id, w) =>
          touchTargets := touchTargets[id := WindowId(w)];
          PublishActivity("touch", None, WindowId(w), true, tick.now);
        case TouchUp(id) =>
          var windowId := if id in touchTargets then touchTargets[id] else "";
          touchTargets := touchTargets - {id};
          if windowId == "" {
            windowId := DESKTOP_TARGET;
          }
          PublishActivity("touch", None, windowId, false, tick.now);
      }
    }
  }
}
