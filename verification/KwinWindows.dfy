/**
 The scan for window records in KWin's runner matches, printed in qdbus literal form, and the
 window ids it deals in. The header of the list holds the record marker too; the scan is still
 proved to return exactly the windows that were printed.
 */
module KwinWindows {
  import opened Outcome
  import opened Positions
  import opened RustText

  const MARKER: string := "(sssida{sv})"

  datatype RunnerWindowMatch = RunnerWindowMatch(kwinUuid: string, title: string, iconName: string)

  // ---------- What the loops compute ----------

  /** The first position from `i` on where `m` stands. */
  function Find(s: string, i: nat, m: string): (r: Option<nat>)
    requires i <= |s|
    ensures r.Some? ==> i <= r.value && At(s, r.value, m)
    ensures r.Some? ==> forall j :: i <= j < r.value ==> !At(s, j, m)
    ensures r.None? ==> forall j :: i <= j <= |s| ==> !At(s, j, m)
    decreases |s| - i
  {
    if At(s, i, m) then Some(i) else if i == |s| then None else Find(s, i + 1, m)
  }

  type Reading = Option<(string, nat)>

  function Push(prefix: string, r: Reading): Reading {
    match r
    case Some((value, next)) => Some((prefix + value, next))
    case None => None
  }

  /** The rest of a quoted string from `i` on, and the position after its closing quote. */
  function Unquote(s: string, i: nat, escaped: bool): (r: Reading)
    requires i <= |s|
    ensures r.Some? ==> i < r.value.1 <= |s|
    decreases |s| - i
  {
    if i == |s| then None
    else if escaped then Push([s[i]], Unquote(s, i + 1, false))
    else if s[i] == '\\' then Unquote(s, i + 1, true)
    else if s[i] == '"' then Some(("", i + 1))
    else Push([s[i]], Unquote(s, i + 1, false))
  }

  /** The next quoted string from `i` on. */
  function Quoted(s: string, i: nat): (r: Reading)
    requires i <= |s|
    ensures r.Some? ==> i < r.value.1 <= |s|
  {
    match Find(s, i, "\"")
    case None => None
    case Some(q) => Unquote(s, q + 1, false)
  }

  /** Three quoted strings in a row: id, title and icon. */
  function Fields(s: string, i: nat): (r: Option<(string, string, string, nat)>)
    requires i <= |s|
    ensures r.Some? ==> i < r.value.3 <= |s|
  {
    match Quoted(s, i)
    case None => None
    case Some((id, i1)) =>
      match Quoted(s, i1)
      case None => None
      case Some((title, i2)) =>
        match Quoted(s, i2)
        case None => None
        case Some((icon, i3)) => Some((id, title, icon, i3))
  }

  function NormalizeRunnerWindowId(runnerId: string): string {
    if "0_" <= runnerId then runnerId[2..] else runnerId
  }

  function Scan(s: string, i: nat, seen: set<string>): seq<RunnerWindowMatch>
    requires i <= |s|
    decreases |s| - i
  {
    match Find(s, i, MARKER)
    case None => []
    case Some(m) =>
      match Fields(s, m + |MARKER|)
      case None => []
      case Some((id, title, icon, next)) =>
        var uuid := NormalizeRunnerWindowId(id);
        if uuid in seen then Scan(s, next, seen)
        else [RunnerWindowMatch(uuid, title, icon)] + Scan(s, next, seen + {uuid})
  }

  // ---------- The loops ----------

  lemma PushAppends(value: string, c: char, r: Reading)
    ensures Push(value, Push([c], r)) == Push(value + [c], r)
    ensures Push([], r) == r
  {
    if r.Some? {
      assert value + ([c] + r.value.0) == value + [c] + r.value.0;
      assert [] + r.value.0 == r.value.0;
    }
  }

  method ParseQuoted(s: string, i: nat) returns (r: Reading)
    requires i <= |s|
    ensures r == Quoted(s, i)
  {
    var start := Find(s, i, "\"");
    if start.None? {
      return None;
    }
    var value := "";
    var escaped := false;
    ghost var whole := Unquote(s, start.value + 1, false);
    PushAppends(value, '"', whole);
    for k := start.value + 1 to |s|
      invariant whole == Push(value, Unquote(s, k, escaped))
    {
      PushAppends(value, s[k], Unquote(s, k + 1, false));
      if escaped {
        value := value + [s[k]];
        escaped := false;
        continue;
      }
      if s[k] == '\\' {
        escaped := true;
        continue;
      }
      if s[k] == '"' {
        assert value + "" == value;
        return Some((value, k + 1));
      }
      value := value + [s[k]];
    }
    r := None;
  }

  /** Reads id, title and icon, giving up at the first that is missing. */
  method ParseFields(s: string, i: nat) returns (r: Option<(string, string, string, nat)>)
    requires i <= |s|
    ensures r == Fields(s, i)
  {
    var id := ParseQuoted(s, i);
    if id.None? { return None; }
    var title := ParseQuoted(s, id.value.1);
    if title.None? { return None; }
    var icon := ParseQuoted(s, title.value.1);
    if icon.None? { return None; }
    r := Some((id.value.0, title.value.0, icon.value.0, icon.value.1));
  }

  method ParseWindowsRunnerMatches(s: string) returns (matches: seq<RunnerWindowMatch>)
    ensures matches == Scan(s, 0, {})
  {
    hide Fields;
    matches := [];
    var seen: set<string> := {};
    var rest := 0;
    while true
      invariant rest <= |s|
      invariant Scan(s, 0, {}) == matches + Scan(s, rest, seen)
      decreases |s| - rest
    {
      var index := Find(s, rest, MARKER);
      if index.None? {
        break;
      }
      var after := index.value + |MARKER|;
      var fields := ParseFields(s, after);
      if fields.None? {
        break;
      }
      var (id, title, icon, next) := fields.value;
      rest := next;
      var uuid := NormalizeRunnerWindowId(id);
      if uuid in seen {
        continue;
      }
      seen := seen + {uuid};
      var found := [RunnerWindowMatch(uuid, title, icon)];
      assert matches + (found + Scan(s, rest, seen)) == matches + found + Scan(s, rest, seen);
      matches := matches + found;
    }
    assert matches + [] == matches;
  }

  // ---------- Window ids ----------

  datatype IdError = EmptyWindowId

  function RunnerMatchId(windowId: string): Result<string, IdError> {
    var trimmed := Trim(windowId);
    if trimmed == "" then Err(EmptyWindowId)
    else if "0_" <= trimmed then Ok(trimmed)
    else if trimmed[0] == '{' && trimmed[|trimmed| - 1] == '}' then Ok("0_" + trimmed)
    else Ok("0_{" + trimmed + "}")
  }

  predicate Braced(s: string) {
    |s| >= 2 && s[0] == '{' && s[|s| - 1] == '}'
  }

  /** Focusing a listed window asks the runner for the very id it listed exactly when that id has
      the form `0_{...}`; any other id, such as one without the prefix, comes back changed. */
  lemma IdRoundTrip(runnerId: string)
    ensures RunnerMatchId(NormalizeRunnerWindowId(runnerId)) == Ok(runnerId) <==>
            "0_" <= runnerId && Braced(runnerId[2..])
  {
    hide Trim, IsSpace;
    var id := NormalizeRunnerWindowId(runnerId);
    TrimProperties(id);
    if "0_" <= runnerId {
      assert runnerId == "0_" + id;
      if Braced(id) {
        BracedTrimmed(id);
      } else if RunnerMatchId(id) == Ok(runnerId) {
        NotFramed(Trim(id), id);
      }
    } else {
      Prefixed(Trim(id));
    }
  }

  /** The id asked for: what stands between the white space, in braces and behind `0_` wherever
      these are not there already. */
  lemma MatchIdExactly(left: string, core: string, right: string)
    requires AllWhite(left) && AllWhite(right) && Trimmed(core)
    ensures RunnerMatchId(left + core + right) ==
      if core == "" then Err(EmptyWindowId)
      else if |core| >= 2 && core[0] == '0' && core[1] == '_' then Ok(core)
      else if Braced(core) then Ok("0_" + core)
      else Ok("0_{" + core + "}")
  {
    hide Trim, AllWhite, Trimmed;
    WhiteExactly(left);
    WhiteExactly(right);
    TrimIs(left, core, right);
    assert "0_" <= core <==> |core| >= 2 && core[0] == '0' && core[1] == '_';
  }

  lemma Prefixed(s: string)
    ensures "0_" <= "0_" + s && "0_" <= "0_{" + s + "}"
  {
  }

  lemma BracedTrimmed(s: string)
    requires Braced(s)
    ensures Trimmed(s)
  {
  }

  lemma NotFramed(trimmed: string, id: string)
    requires |trimmed| <= |id| && !Braced(id)
    ensures "0_{" + trimmed + "}" != "0_" + id
    ensures Braced(trimmed) ==> "0_" + trimmed != "0_" + id
  {
    assert ("0_{" + trimmed + "}")[2..] == "{" + trimmed + "}" && ("0_" + id)[2..] == id;
    if "0_" + trimmed == "0_" + id {
      assert trimmed == ("0_" + trimmed)[2..] && id == ("0_" + id)[2..];
    }
  }
}
