/**
 The KWin ABI watch: each check compares the installed plugins with KWin and notifies the user
 once per state of affairs, remembering in a state file what it has already said. Proves when a
 notification is attempted over any run of checks that share the file.
 */
module NotificationDedup {
  import opened Outcome

  // ---------- Inspecting the plugins ----------

  /** A file as the check finds it; `abi` is the version its pattern extracts, if any. */
  datatype AbiFile = Missing | Unreadable | Readable(abi: Option<string>)

  datatype PluginReport = PluginReport(name: string, status: string, pluginAbi: Option<string>)

  datatype AbiReport = AbiReport(status: string, requiredAbi: Option<string>, pluginAbi: Option<string>,
                                 plugins: seq<PluginReport>)

  function InspectPlugin(name: string, plugin: AbiFile, requiredAbi: string, required: bool): PluginReport {
    match plugin
    case Missing => PluginReport(name, if required then "missing_plugin" else "not_installed", None)
    case Unreadable => PluginReport(name, "unreadable_plugin", None)
    case Readable(None) => PluginReport(name, "invalid_plugin", None)
    case Readable(Some(abi)) =>
      PluginReport(name, if abi == requiredAbi then "current" else "rebuild_required", Some(abi))
  }

  /** Nothing to do about the plugin: it matches, or is an optional one that is absent. */
  predicate UpToDate(plugin: AbiFile, requiredAbi: string, required: bool) {
    plugin == Readable(Some(requiredAbi)) || (plugin.Missing? && !required)
  }

  predicate Actionable(report: PluginReport) {
    report.status != "current" && report.status != "not_installed"
  }

  /** Each status of a plugin says what was found of it. */
  lemma PluginSays(name: string, plugin: AbiFile, requiredAbi: string, required: bool)
    ensures var report := InspectPlugin(name, plugin, requiredAbi, required);
      && report.name == name && report.pluginAbi == (if plugin.Readable? then plugin.abi else None)
      && (report.status == "current" <==> plugin == Readable(Some(requiredAbi)))
      && (report.status == "rebuild_required" <==>
            plugin.Readable? && plugin.abi.Some? && plugin.abi.value != requiredAbi)
      && (report.status == "invalid_plugin" <==> plugin.Readable? && plugin.abi.None?)
      && (report.status == "unreadable_plugin" <==> plugin.Unreadable?)
      && (report.status == "missing_plugin" <==> plugin.Missing? && required)
      && (report.status == "not_installed" <==> plugin.Missing? && !required)
  {
  }

  /** The status is current exactly when the header names an ABI, the activity plugin has it, and
      the agent-seat plugin has it too or is not asked for or not installed. */
  method InspectAbis(header: AbiFile, plugin: AbiFile, agentSeat: Option<AbiFile>) returns (report: AbiReport)
    ensures report.status == "current" <==>
      && header.Readable? && header.abi.Some?
      && UpToDate(plugin, header.abi.value, true)
      && (agentSeat.Some? ==> UpToDate(agentSeat.value, header.abi.value, false))
    ensures report.requiredAbi == if header.Readable? then header.abi else None
    ensures report.requiredAbi.Some? ==>
      report.pluginAbi == (if plugin.Readable? then plugin.abi else None)
    ensures report.requiredAbi.None? ==>
      report.pluginAbi.None? && report.status == if header.Missing? then "missing_header"
                                                 else if header.Unreadable? then "unreadable_header"
                                                 else "invalid_header"
    ensures report.plugins ==
      if report.requiredAbi.None? then []
      else [InspectPlugin("activity", plugin, report.requiredAbi.value, true)]
           + if agentSeat.None? then []
             else [InspectPlugin("agent-seat", agentSeat.value, report.requiredAbi.value, false)]
    ensures report.requiredAbi.Some? && report.status != "current" ==>
      var first := if UpToDate(plugin, report.requiredAbi.value, true) then |report.plugins| - 1 else 0;
      report.status == report.plugins[first].status
  {
    match header {
      case Missing => return AbiReport("missing_header", None, None, []);
      case Unreadable => return AbiReport("unreadable_header", None, None, []);
      case Readable(None) => return AbiReport("invalid_header", None, None, []);
      case Readable(Some(requiredAbi)) =>
        var reports := [InspectPlugin("activity", plugin, requiredAbi, true)];
        if agentSeat.Some? {
          reports := reports + [InspectPlugin("agent-seat", agentSeat.value, requiredAbi, false)];
        }
        var status := if Actionable(reports[0]) then reports[0].status
                      else if |reports| > 1 && Actionable(reports[1]) then reports[1].status
                      else "current";
        report := AbiReport(status, Some(requiredAbi), reports[0].pluginAbi, reports);
    }
  }

  // ---------- One check ----------

  datatype RuntimeReport = RuntimeReport(
    status: string, runningAbi: Option<string>, loadedPlugins: seq<string>, activityTrusted: Option<bool>,
    configuredInput: Option<string>, implementedInput: Option<string>, nextStep: string)

  /** The runtime report is part of it only where the runtime is checked. */
  datatype Fingerprint = Fingerprint(bootId: string, report: AbiReport, runtime: Option<RuntimeReport>)

  /** What a state file says; a fingerprint that is none of ours matches no check. */
  datatype Stored = Stored(fingerprint: Option<Fingerprint>, notified: bool)

  /** One run of the check; `delivered` is what sending a notification would give. */
  datatype Check = Check(report: AbiReport, runtime: RuntimeReport, checkOnly: bool, runtimeCheck: bool,
                         bootId: string, delivered: bool)

  datatype Result = Result(attempted: bool, sent: bool, suppressed: bool)

  function FingerprintOf(c: Check): Fingerprint {
    Fingerprint(c.bootId, c.report, if c.runtimeCheck then Some(c.runtime) else None)
  }

  predicate NeedsNotification(c: Check) {
    c.report.status != "current" || (c.runtimeCheck && c.runtime.status != "ready")
  }

  predicate AlreadyNotified(previous: Stored, c: Check) {
    previous.fingerprint == Some(FingerprintOf(c)) && previous.notified
  }

  function Run(previous: Stored, c: Check): (Stored, Result) {
    if c.checkOnly then (previous, Result(false, false, false))
    else
      var needs, already := NeedsNotification(c), AlreadyNotified(previous, c);
      var attempted := needs && !already;
      var sent := attempted && c.delivered;
      (Stored(Some(FingerprintOf(c)), needs && (sent || already)), Result(attempted, sent, needs && already))
  }

  /** The state file as the checks rewrite it. */
  class AbiWatch {
    var stored: Stored

    constructor (stored: Stored)
      ensures this.stored == stored
    {
      this.stored := stored;
    }

    method RunCheck(c: Check) returns (r: Result)
      modifies this
      ensures (stored, r) == Run(old(stored), c)
    {
      r := Result(false, false, false);
      if c.checkOnly {
        return;
      }
      var fingerprint := FingerprintOf(c);
      var needs := NeedsNotification(c);
      var already := stored.fingerprint == Some(fingerprint) && stored.notified;
      var sent, attempted := false, false;
      if needs && !already {
        attempted := true;
        sent := c.delivered;
      }
      stored := Stored(Some(fingerprint), needs && (sent || already));
      r := Result(attempted, sent, needs && already);
    }
  }

  // ---------- Runs over a shared state file ----------

  function StateAt(initial: Stored, run: seq<Check>, n: nat): Stored
    requires n <= |run|
  {
    if n == 0 then initial else Run(StateAt(initial, run, n - 1), run[n - 1]).0
  }

  function ResultAt(initial: Stored, run: seq<Check>, i: nat): Result
    requires i < |run|
  {
    Run(StateAt(initial, run, i), run[i]).1
  }

  /** Every check from `j` up to `n` that is not check-only has the fingerprint. */
  predicate SameBlock(run: seq<Check>, j: nat, n: nat, fingerprint: Fingerprint)
    requires n <= |run|
  {
    forall k :: j <= k < n && !run[k].checkOnly ==> FingerprintOf(run[k]) == fingerprint
  }

  /** The user has been told, in the block of equal fingerprints that reaches up to `n`. */
  ghost predicate ToldInBlock(initial: Stored, run: seq<Check>, n: nat, fingerprint: Fingerprint)
    requires n <= |run|
  {
    || (initial == Stored(Some(fingerprint), true) && SameBlock(run, 0, n, fingerprint))
    || exists j :: 0 <= j < n && ResultAt(initial, run, j).sent && SameBlock(run, j, n, fingerprint)
  }

  /** A fingerprint settles whether there is anything to notify. */
  lemma NeedsByFingerprint(c: Check, d: Check)
    requires FingerprintOf(c) == FingerprintOf(d)
    ensures NeedsNotification(c) == NeedsNotification(d)
  {
  }

  lemma BlockGrows(run: seq<Check>, j: nat, n: nat, fingerprint: Fingerprint)
    requires 0 < n <= |run|
    ensures SameBlock(run, j, n, fingerprint) <==>
            SameBlock(run, j, n - 1, fingerprint)
              && (n - 1 < j || run[n - 1].checkOnly || FingerprintOf(run[n - 1]) == fingerprint)
  {
  }

  /** What the file remembers: a need noted as told of is one told of in the current block. */
  lemma {:induction false} FileRemembers(initial: Stored, run: seq<Check>, n: nat, c: Check)
    requires n <= |run| && NeedsNotification(c)
    ensures AlreadyNotified(StateAt(initial, run, n), c) <==> ToldInBlock(initial, run, n, FingerprintOf(c))
    decreases n
  {
    hide FingerprintOf, NeedsNotification, SameBlock;
    var mark := FingerprintOf(c);
    if n == 0 {
      BlockEmpty(run, mark);
    } else {
      FileRemembers(initial, run, n - 1, c);
      var last := run[n - 1];
      BlockGrows(run, 0, n, mark);
      BlockGrows(run, n - 1, n, mark);
      BlockEmptyAt(run, n - 1, mark);
      forall j | 0 <= j < n - 1
        ensures SameBlock(run, j, n, mark) <==>
                SameBlock(run, j, n - 1, mark) && (last.checkOnly || FingerprintOf(last) == mark)
      {
        BlockGrows(run, j, n, mark);
      }
      ToldNext(initial, run, n, mark);
      if FingerprintOf(last) == mark { NeedsByFingerprint(last, c); }
    }
  }

  lemma BlockEmpty(run: seq<Check>, fingerprint: Fingerprint)
    ensures SameBlock(run, 0, 0, fingerprint)
  {
  }

  lemma BlockEmptyAt(run: seq<Check>, n: nat, fingerprint: Fingerprint)
    requires n <= |run|
    ensures SameBlock(run, n, n, fingerprint)
  {
  }

  lemma ToldNext(initial: Stored, run: seq<Check>, n: nat, mark: Fingerprint)
    requires 0 < n <= |run|
    ensures ToldInBlock(initial, run, n, mark) <==>
      && (run[n - 1].checkOnly || FingerprintOf(run[n - 1]) == mark)
      && (ToldInBlock(initial, run, n - 1, mark) || ResultAt(initial, run, n - 1).sent)
  {
    hide FingerprintOf, SameBlock, ResultAt;
    BlockGrows(run, 0, n, mark);
    BlockGrows(run, n - 1, n, mark);
    BlockEmptyAt(run, n - 1, mark);
    if ResultAt(initial, run, n - 1).sent && SameBlock(run, n - 1, n, mark) {
      assert ToldInBlock(initial, run, n, mark);
    }
    if ToldInBlock(initial, run, n, mark) {
      if !(initial == Stored(Some(mark), true) && SameBlock(run, 0, n, mark)) {
        var j :| 0 <= j < n && ResultAt(initial, run, j).sent && SameBlock(run, j, n, mark);
        BlockGrows(run, j, n, mark);
      }
    }
    if ToldInBlock(initial, run, n - 1, mark) && (run[n - 1].checkOnly || FingerprintOf(run[n - 1]) == mark) {
      if !(initial == Stored(Some(mark), true) && SameBlock(run, 0, n - 1, mark)) {
        var j :| 0 <= j < n - 1 && ResultAt(initial, run, j).sent && SameBlock(run, j, n - 1, mark);
        BlockGrows(run, j, n, mark);
      }
    }
  }

  /** A notification is attempted exactly where one is needed and the user has not been told in
      the current block of equal fingerprints; it is suppressed where they have been. So a failed
      attempt is repeated, and a change of any part of the fingerprint starts over. */
  lemma AttemptedExactly(initial: Stored, run: seq<Check>, i: nat)
    requires i < |run|
    ensures var told := ToldInBlock(initial, run, i, FingerprintOf(run[i]));
      var r := ResultAt(initial, run, i);
      && (r.attempted <==> !run[i].checkOnly && NeedsNotification(run[i]) && !told)
      && (r.suppressed <==> !run[i].checkOnly && NeedsNotification(run[i]) && told)
      && (r.sent <==> r.attempted && run[i].delivered)
  {
    hide NeedsNotification, ToldInBlock, AlreadyNotified;
    if NeedsNotification(run[i]) { FileRemembers(initial, run, i, run[i]); }
  }

  /** A block of equal fingerprints holds at most one notification sent. */
  lemma OncePerBlock(initial: Stored, run: seq<Check>, j: nat, i: nat)
    requires j < i < |run| && ResultAt(initial, run, j).sent
    requires SameBlock(run, j, i, FingerprintOf(run[i]))
    ensures !ResultAt(initial, run, i).attempted && !ResultAt(initial, run, i).sent
  {
    hide NeedsNotification, SameBlock;
    AttemptedExactly(initial, run, i);
    assert ToldInBlock(initial, run, i, FingerprintOf(run[i]));
  }

  // ---------- The fingerprint, written out ----------

  /** Two checks find the same state of affairs: the same boot, the same plugins and KWin header, and
      the same session where both look at the session, as both or neither must. */
  predicate SameAffairs(c: Check, d: Check) {
    && c.bootId == d.bootId && c.report == d.report
    && c.runtimeCheck == d.runtimeCheck && (c.runtimeCheck ==> c.runtime == d.runtime)
  }

  /** The file was written by a check that found the same. */
  predicate Recorded(stored: Stored, c: Check) {
    && stored.fingerprint.Some?
    && stored.fingerprint.value.bootId == c.bootId && stored.fingerprint.value.report == c.report
    && match stored.fingerprint.value.runtime
       case None => !c.runtimeCheck
       case Some(runtime) => c.runtimeCheck && runtime == c.runtime
  }

  /** There is something to tell: an ABI that does not fit, or a session that is not ready. */
  predicate Wrong(c: Check) {
    !(c.report.status == "current" && (c.runtimeCheck ==> c.runtime.status == "ready"))
  }

  predicate SameUpTo(run: seq<Check>, j: nat, i: nat)
    requires i < |run|
  {
    forall k :: j <= k < i && !run[k].checkOnly ==> SameAffairs(run[k], run[i])
  }

  /** The user has been told what check `i` finds, and nothing else was found since. */
  ghost predicate ToldBefore(initial: Stored, run: seq<Check>, i: nat)
    requires i < |run|
  {
    || (initial.notified && Recorded(initial, run[i]) && SameUpTo(run, 0, i))
    || exists j :: 0 <= j < i && ResultAt(initial, run, j).sent && SameUpTo(run, j, i)
  }

  lemma SameFingerprint(c: Check, d: Check)
    ensures FingerprintOf(c) == FingerprintOf(d) <==> SameAffairs(c, d)
  {
  }

  lemma SameBlockIs(run: seq<Check>, j: nat, i: nat)
    requires i < |run|
    ensures SameBlock(run, j, i, FingerprintOf(run[i])) <==> SameUpTo(run, j, i)
  {
    hide FingerprintOf, SameAffairs;
    forall k | 0 <= k < i ensures FingerprintOf(run[k]) == FingerprintOf(run[i]) <==> SameAffairs(run[k], run[i]) {
      SameFingerprint(run[k], run[i]);
    }
  }

  lemma ToldIs(initial: Stored, run: seq<Check>, i: nat)
    requires i < |run|
    ensures ToldInBlock(initial, run, i, FingerprintOf(run[i])) <==> ToldBefore(initial, run, i)
  {
    hide SameBlock, SameUpTo, ResultAt;
    var mark := FingerprintOf(run[i]);
    forall j | 0 <= j <= i ensures SameBlock(run, j, i, mark) <==> SameUpTo(run, j, i) { SameBlockIs(run, j, i); }
    assert initial == Stored(Some(mark), true) <==> initial.notified && Recorded(initial, run[i]);
  }

  /** A check notifies exactly where something is wrong and the user has not been told it before:
      it is told once per state of affairs, again after a failed attempt, again once anything else
      was found in between, and again after a reboot. */
  lemma NotifiedExactly(initial: Stored, run: seq<Check>, i: nat)
    requires i < |run|
    ensures var c, r := run[i], ResultAt(initial, run, i);
      && (r.attempted <==> !c.checkOnly && Wrong(c) && !ToldBefore(initial, run, i))
      && (r.suppressed <==> !c.checkOnly && Wrong(c) && ToldBefore(initial, run, i))
      && (r.sent <==> r.attempted && c.delivered)
  {
    hide ToldInBlock, ToldBefore, ResultAt;
    AttemptedExactly(initial, run, i);
    ToldIs(initial, run, i);
  }

  /** Whatever was told before a check that found something else, a reboot say, is told again. */
  lemma ToldAgain(initial: Stored, run: seq<Check>, k: nat, i: nat)
    requires k < i < |run| && !run[k].checkOnly && !SameAffairs(run[k], run[i])
    requires forall j :: k < j < i ==> !ResultAt(initial, run, j).sent
    ensures ResultAt(initial, run, i).attempted <==> !run[i].checkOnly && Wrong(run[i])
  {
    hide ResultAt, SameAffairs, Recorded, Wrong;
    NotifiedExactly(initial, run, i);
    forall j | 0 <= j <= k ensures !SameUpTo(run, j, i) { }
  }

  // ---------- Check-only runs leave no trace ----------

  function Kept(run: seq<Check>): seq<Check>
    decreases |run|
  {
    if run == [] then []
    else
      var last := run[|run| - 1];
      Kept(run[..|run| - 1]) + if last.checkOnly then [] else [last]
  }

  /** The state after a run, and the results of its checks that were not check-only. */
  function Results(initial: Stored, run: seq<Check>): (Stored, seq<Result>)
    decreases |run|
  {
    if run == [] then (initial, [])
    else
      var last := run[|run| - 1];
      var (before, results) := Results(initial, run[..|run| - 1]);
      var (after, result) := Run(before, last);
      (after, results + if last.checkOnly then [] else [result])
  }

  /** Leaving the check-only runs out changes no other result, nor the file. */
  lemma {:induction false} CheckOnlyIsNeutral(initial: Stored, run: seq<Check>)
    ensures Results(initial, Kept(run)) == Results(initial, run)
    decreases |run|
  {
    hide NeedsNotification, AlreadyNotified;
    if run != [] {
      var last, rest := run[|run| - 1], run[..|run| - 1];
      CheckOnlyIsNeutral(initial, rest);
      if last.checkOnly {
        assert Kept(rest) + [] == Kept(rest);
        var (before, results) := Results(initial, rest);
        assert results + [] == results;
      } else {
        assert Kept(run)[..|Kept(run)| - 1] == Kept(rest);
      }
    }
  }
}
