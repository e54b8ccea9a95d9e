# Seatgeist: verified models

Seatgeist lets a program operate a KDE desktop: a daemon reads the accessibility tree, lists windows and
monitors, injects input through a KWin plugin on a seat of its own, reports the user's activity through another
plugin, and is accepted for release by evaluation runs that leave evidence files. This project models the parts of
it that parse text, keep state or hold a protocol, and proves what they are there for.

- **AT-SPI cache replies** (`CacheTokenizer`, `CacheGrammar`, `CacheReply`, `CacheRoundTrip`, `CacheErrors`). The
  reply of a bulk cache query arrives as text in the D-Bus signature `a((so)(so)(so)iiassusau)`. The tokenizer is
  proved to accept exactly one grammar, the cursor parser to accept exactly the encodings of record lists, printing to
  be undone by parsing whatever white space follows, and no accepted token list to be a proper prefix of another, and
  every error to be the one of the first token or lexeme that does not fit. Text is bytes; UTF-8 validity is that of
  section 4 of RFC 3629, which is shown to be what encodes Unicode scalar values (`Utf8`).
- **The agent seat** (`SeatEvents`, `SeatActions`, `SeatSafety`, `SeatInput`, `LanePool`, `LaneLru`, `SeatProtocol`,
  `SeatLru`, `SeatPlugin`). Every agent has a lane, a Wayland seat of its own, out of at most four. A lane is modelled
  with the trace of all events its seat sent. No exit path of any action leaves a key or a button held or sends input
  outside the requested window, and what the window receives is told from the action's fields alone; over every
  interleaving of timers, replies, owner changes and destroyed windows at most one call is outstanding, calls go out
  whenever one is due, and every action is completed once with its own outcome; when the live lanes are those of the
  lane ids granted most recently is settled for every run.
- **KWin's texts** (`KwinWindows`, `WindowListing`, `KwinMonitors`, `MonitorFields`, `MonitorListing`). The window
  list is scanned for a marker that its own header contains as well; what every text is read as is characterised, and
  the windows of a list are recovered for all its ids, titles and icons exactly if its tails are harmless. The
  one-pass monitor reader equals a reader that splits the report into sections first, reads every section as what its
  last name, geometry and scale say, gives every monitor the whole physical size nearest to its scaled logical one,
  and recovers a printed report exactly when every monitor's name is trimmed, stands on one line and does not look
  like a heading.
- **The activity publisher** (`ActivityThrottle`): no event goes uncovered for 20 ms, how often a report can be sent,
  and as what each event is reported: injected, physical or unknown, and for which window.
- **Evaluation runs** (`EvalJson`, `CaptureChecks`, `CaptureLog`, `RetainedCaptureRun`, `CaptureRestoreRun`,
  `CaptureLifecycleRun`, `CaptureAnswers`, `AcceptanceValidators`, `AcceptanceFields`, `AcceptanceBundle`,
  `AcceptanceRuns`, `CooperativeRun`). Wherever an exception strikes, a run closes exactly the session it opened; it
  passes exactly on a transcript of answers that is spelled out field by field, every frame of the one session opened;
  evidence that says it passed satisfies the validator it is judged by; a bundle is made exactly of valid, recent,
  close and matching artifacts, which is where the runs got the right answers, and the journal of the cooperative one
  is such as it should be. The CLI, the operator, the clock and the file system are arbitrary answers; an exception
  that no script catches is among them.
- **The rest**: the notification of the ABI watch over runs that share a state file (`NotificationDedup`), the byte
  stream of the plugin tree digest (`PluginDigest`), the readiness cache against its call history (`ReadinessCache`),
  and the metrics over a journal of tool calls, counted entry by entry (`JournalMetrics`, `JournalCounts`).

Objects that change are classes (`CacheReply.Cursor`, `SeatActions.AgentLane`, `SeatPlugin.Plugin`,
`ActivityThrottle.ActivityPlugin`, `NotificationDedup.AbiWatch`, `ReadinessCache.Cache`), loops are loops, and each
is proved to compute a function of its value that the lemmas are about.

## What the proofs turned up

- The tokenizer takes a backslash in front of a digit for a plain escape unless two more digits follow, and then
  rejects digit triples that are no octal byte (`CacheGrammar.EscapedDigitAccepted`). Its UTF-8 check of words
  cannot fail on a string (`CacheGrammar.WordsAreValid`).
- A new lane that cannot be initialised still costs the oldest lane (`LanePool.RefusedButEvicted`).
- Requests that share a millisecond are not told apart by age: the smallest key goes, even where another lane was
  requested before it (`LaneLru.TwoTied`). The pool is least recently used over a run if and only if at every
  eviction the lane used first has the smallest key of its millisecond (`LaneLru.LruExactly`, and
  `SeatLru.LiveLanesExactly` for the whole plugin).
- A key combo on a lane bound to its window is refused once the window has shrunk so that the remembered pointer
  position lies outside (`SeatSafety.KeyComboAccepted`).
- Only ids of the form `0_{...}` survive normalising and asking for the window again (`KwinWindows.IdRoundTrip`).
- A window record whose tail spells out another record is returned as two windows
  (`WindowListing.TailTakenForRecord`). A tail leaves every list it stands in intact if and only if no quote stands
  behind a marker in it (`WindowListing.RecoveredExactly`).
- A monitor whose name ends in `======` ends its own section (`MonitorListing.ReportRecovered`).
- The first capture-restore phase leaves evidence whose status reads `prepared` although it did not finish: exactly
  where the first answer that is not as it should be raises what the phase does not catch, an interrupt say, and
  whatever was opened is shown closed. The second phase refuses it all the same
  (`CaptureRestoreRun.PrepareRestoreEval`, `CaptureRestoreRun.ReadsPreparedTooOften`).
- A plugin below a directory named `__pycache__` is hashed as empty, since all parts of the absolute path are
  looked at (`PluginDigest.HashedAsEmpty`). Digests tell all trees apart by their files if and only if neither root
  stands below such a directory (`PluginDigest.ComparesFilesExactly`).
- Sticky actions without an action id pass the verification budget unverified
  (`JournalMetrics.IdlessActionPasses`); without such actions the budget says what its name says
  (`JournalMetrics.BudgetMeansVerified`).

## Model

| member | source | states |
|---|---|---|
| CacheTokenizer.ReadQuoted | crates/seatgeist-atspi/src/cache.rs:155-197 | the inner loop reads exactly the quoted string the specification reads from that position, with the same first error |
| CacheTokenizer.Tokenize | crates/seatgeist-atspi/src/cache.rs:133-199 | the nested index loops end and give the tokens of the whole input or the first error |
| CacheGrammar.LayoutRead | crates/seatgeist-atspi/src/cache.rs:133-199 | every legal spelling of a token list, with any white space and any choice of raw, escaped or octal bytes, tokenizes to that list |
| CacheGrammar.LayoutExists | crates/seatgeist-atspi/src/cache.rs:133-199 | whatever tokenizes is a legal spelling of the tokens returned |
| CacheGrammar.Recognized | crates/seatgeist-atspi/src/cache.rs:133-199 | both directions together: a text gives a token list if and only if it is a legal spelling of it, white space being the bytes 9, 10, 12, 13 and 32 |
| CacheGrammar.OctalSpelling | crates/seatgeist-atspi/src/cache.rs:170-179 | every byte can be spelled as a three-digit octal escape |
| CacheGrammar.EscapedDigitAccepted | crates/seatgeist-atspi/src/cache.rs:165-184 | in front of any legal rest of a string an escaped digit is taken as that digit where two more digits do not follow; where they do and the three are no octal byte, it is an error |
| CacheGrammar.WordsAreValid | crates/seatgeist-atspi/src/cache.rs:149-150 | on a valid UTF-8 input the error for a word that is not UTF-8 never occurs |
| Utf8.ValidExactly | crates/seatgeist-atspi/src/cache.rs:149-150 | bytes are valid UTF-8 if and only if they encode a list of Unicode scalar values |
| CacheReply.Cursor.Next | crates/seatgeist-atspi/src/cache.rs:84-91 | a read returns the token under the index and advances by one, or fails at the end and stays |
| CacheReply.Cursor.TakeWord | crates/seatgeist-atspi/src/cache.rs:93-98 | only an unquoted token is taken, and the index moves past whatever token was there |
| CacheReply.Cursor.TakeQuoted | crates/seatgeist-atspi/src/cache.rs:100-105 | only a quoted token is taken |
| CacheReply.Cursor.TakeUsize | crates/seatgeist-atspi/src/cache.rs:107-111 | counts are decimal words within 64 bits, an optional plus in front |
| CacheReply.Cursor.TakeI32 | crates/seatgeist-atspi/src/cache.rs:113-117 | integers are signed decimal words within 32 bits |
| CacheReply.Cursor.TakeU32 | crates/seatgeist-atspi/src/cache.rs:119-123 | integers are decimal words within 32 bits |
| CacheReply.Cursor.TakeObjectRef | crates/seatgeist-atspi/src/cache.rs:125-130 | a reference is a quoted service and a quoted path |
| CacheReply.Cursor.TakeHead | crates/seatgeist-atspi/src/cache.rs:39-43 | three references and two integers are read, of which node and parent are kept |
| CacheReply.Cursor.TakeQuoteds | crates/seatgeist-atspi/src/cache.rs:44-48 | the loop reads exactly the declared number of strings, or stops at the first that is none |
| CacheReply.Cursor.TakeU32s | crates/seatgeist-atspi/src/cache.rs:52-56 | the loop reads exactly the declared number of integers, or stops at the first that is none |
| CacheReply.Cursor.TakeRecord | crates/seatgeist-atspi/src/cache.rs:38-63 | one record's fields are read in order and the index ends behind them |
| CacheReply.ParseItems | crates/seatgeist-atspi/src/cache.rs:24-68 | the loops over items, interfaces and states give the items of the reply, or the error the specification gives |
| CacheRoundTrip.AcceptedTokens | crates/seatgeist-atspi/src/cache.rs:25-68 | a token list is accepted with some items if and only if it encodes records that show them |
| CacheRoundTrip.AcceptedReplies | crates/seatgeist-atspi/src/cache.rs:24-68 | a text is accepted with some items if and only if it lays out tokens that encode records that show them |
| CacheRoundTrip.ExactConsumption | crates/seatgeist-atspi/src/cache.rs:31-68 | a success returns exactly the declared number of items and uses every token |
| CacheRoundTrip.PrefixFree | crates/seatgeist-atspi/src/cache.rs:64-68 | no accepted token list is a proper prefix of another |
| CacheRoundTrip.RoundTrip | crates/seatgeist-atspi/src/cache.rs:24-68 | printing up to 65536 records and parsing the text, with any tabs, line feeds, form feeds, carriage returns and spaces behind it, returns their visible fields in order, whatever the fields not kept were |
| RustText.NumberExactly | crates/seatgeist-atspi/src/cache.rs:107-123 | a text is read as a number if and only if it is the decimal numeral of it, zeros in front, a plus before it, or a minus where signs are read |
| CacheErrors.FirstMisfit | crates/seatgeist-atspi/src/cache.rs:38-63 | where a token list departs from an encoding of records, at a token that is missing or encodes no value of the field there, parsing fails with the error for that field, whatever follows |
| CacheErrors.CutOrContinued | crates/seatgeist-atspi/src/cache.rs:64-91 | an accepted reply cut anywhere is truncated, and one that goes on has trailing tokens |
| CacheErrors.HeaderErrors | crates/seatgeist-atspi/src/cache.rs:25-37 | another signature, a count that is none, and a count beyond 65536 each have their error |
| CacheErrors.BadString | crates/seatgeist-atspi/src/cache.rs:155-197 | behind any legal lexemes, a string without an end, with a backslash at the end, with three digits that are no octal byte, or of bytes that are no UTF-8, each give their error |
| CacheErrors.BadWord | crates/seatgeist-atspi/src/cache.rs:144-151 | behind any legal lexemes, a word that is no UTF-8 gives the error for words |
| SeatEvents.ChordNeutral | kwin/seatgeist-agent-seat/agentseatplugin.cpp:381-399 | a chord on a focused seat releases every key it pressed, in the seat and in the xkb state, and changes no focus |
| SeatActions.AgentLane.constructor | kwin/seatgeist-agent-seat/agentseatplugin.h:37-43 | a new lane has no target, sent nothing and holds nothing |
| SeatActions.BindTarget | kwin/seatgeist-agent-seat/agentseatplugin.cpp:316-346 | the lane is bound to the window exactly where the position lies in its client area, and is unchanged otherwise |
| SeatActions.CollectKeycodes | kwin/seatgeist-agent-seat/agentseatplugin.cpp:372-380 | the codes are taken in order, or none at the first that is no evdev key |
| SeatActions.SendChord | kwin/seatgeist-agent-seat/agentseatplugin.cpp:381-399 | the two loops send exactly the chord: presses in order, releases in reverse, the xkb state along with each |
| SeatActions.SendKeyCombo | kwin/seatgeist-agent-seat/agentseatplugin.cpp:348-401 | the loops and early returns leave the lane and give the error of the combo's specification |
| SeatActions.SendKeySequence | kwin/seatgeist-agent-seat/agentseatplugin.cpp:403-463 | chords are sent one by one up to the first invalid one |
| SeatActions.SendChords | kwin/seatgeist-agent-seat/agentseatplugin.cpp:427-461 | the loop over the chords stops at the first invalid one, having sent those before it |
| SeatActions.MovePointer | kwin/seatgeist-agent-seat/agentseatplugin.cpp:465-483 | a move is a binding at finite coordinates, or an error without an event |
| SeatActions.ClickPointer | kwin/seatgeist-agent-seat/agentseatplugin.cpp:485-514 | the pointer moves before button and count are checked; then every click is a press and a release |
| SeatActions.DragPointer | kwin/seatgeist-agent-seat/agentseatplugin.cpp:516-554 | where the second binding is refused the button is still released |
| SeatActions.ScrollPointer | kwin/seatgeist-agent-seat/agentseatplugin.cpp:556-593 | one axis event per axis with a delta, after binding |
| SeatActions.ClearLaneTarget | kwin/seatgeist-agent-seat/agentseatplugin.cpp:628-637 | the focus is dropped and the target forgotten |
| SeatActions.PerformAction | kwin/seatgeist-agent-seat/agentseatplugin.cpp:202-218 | the six kinds are told apart by name, and any other is an error without an event |
| SeatSafety.ActionClean | kwin/seatgeist-agent-seat/agentseatplugin.cpp:348-593 | every action, whether it succeeds or fails, sends input only while the seat is on the requested window inside its client area, releases only what is held, and holds nothing it did not hold before |
| SeatSafety.ClearIdle | kwin/seatgeist-agent-seat/agentseatplugin.cpp:628-637 | clearing a lane holds nothing and leaves the seat on no window |
| SeatSafety.BindRuns | kwin/seatgeist-agent-seat/agentseatplugin.cpp:335-342 | binding leaves keyboard and pointer on the window, at a point inside its client area |
| SeatSafety.DragEvents | kwin/seatgeist-agent-seat/agentseatplugin.cpp:536-553 | a drag's events are safe and balanced whether or not the second binding happens |
| SeatSafety.ChordKeys | kwin/seatgeist-agent-seat/agentseatplugin.cpp:381-399 | a chord presses its keys in order and releases them in exactly the reverse order |
| SeatSafety.SequencePrefix | kwin/seatgeist-agent-seat/agentseatplugin.cpp:427-461 | a sequence that fails has sent exactly the blocks of its longest valid prefix, and fails for the chord after it |
| SeatSafety.KeyComboAccepted | kwin/seatgeist-agent-seat/agentseatplugin.cpp:354-380 | a combo succeeds if and only if its keys are valid and the remembered position, or the middle of the window, lies inside |
| SeatInput.BindSays | kwin/seatgeist-agent-seat/agentseatplugin.cpp:316-346 | a binding succeeds exactly on a window with a surface at a point of its area, and then target, remembered point and seat agree; otherwise nothing changes |
| SeatInput.MoveSays | kwin/seatgeist-agent-seat/agentseatplugin.cpp:465-483 | a move goes to the point of its fields, and is refused exactly where they are no numbers or name no point of the window |
| SeatInput.ClickSays | kwin/seatgeist-agent-seat/agentseatplugin.cpp:485-514 | the window receives one or two presses and releases of the button named, at the point named, or no button event at all; the pointer has moved wherever the point lies inside |
| SeatInput.DragSays | kwin/seatgeist-agent-seat/agentseatplugin.cpp:516-554 | a drag presses its button at `from` and releases it at `to` where that lies inside, else at `from`; the lane ends at the point of the release; it succeeds exactly where both points lie inside, and sends nothing where `from` does not |
| SeatInput.ScrollSays | kwin/seatgeist-agent-seat/agentseatplugin.cpp:556-593 | a scroll turns each wheel by its delta, at the lane's own point on the window or in the middle of another |
| SeatInput.ComboSays | kwin/seatgeist-agent-seat/agentseatplugin.cpp:348-401 | the window receives the keys of the field in order and then their releases in reverse, or nothing |
| SeatInput.SequenceSays | kwin/seatgeist-agent-seat/agentseatplugin.cpp:403-463 | the chords typed are the longest valid prefix of those of the field, one after the other |
| SeatInput.KindsSay | kwin/seatgeist-agent-seat/agentseatplugin.cpp:202-218 | what is done is what the field names; an unknown kind sends nothing |
| LanePool.LaneForValid | kwin/seatgeist-agent-seat/agentseatplugin.cpp:243-278 | every request keeps at most four lanes with distinct seat numbers that no destroyed lane ever had; a granted one is resident and stamped |
| LanePool.OthersUntouched | kwin/seatgeist-agent-seat/agentseatplugin.cpp:257-269 | a request changes no other lane but the one it evicts, which no other was used before |
| LanePool.RefusedButEvicted | kwin/seatgeist-agent-seat/agentseatplugin.cpp:257-273 | a full pool loses a lane to a refused request exactly where the id is new and its lane cannot be initialised |
| LanePool.OldestExists | kwin/seatgeist-agent-seat/agentseatplugin.cpp:258-263 | the minimum over the map exists: the earliest use, and among equals the first key |
| LanePool.OldestUnique | kwin/seatgeist-agent-seat/agentseatplugin.cpp:258-263 | ties in the clock are settled by the order of the keys |
| LaneLru.RunTracks | kwin/seatgeist-agent-seat/agentseatplugin.cpp:243-278 | over any run of granted requests whose evictions are in order each resident lane carries the time of its last request, and the residents are the last four distinct ids |
| LaneLru.LeastRecentlyUsed | kwin/seatgeist-agent-seat/agentseatplugin.cpp:243-278 | where evictions are in order, as they are at increasing times, the residents are exactly the last four distinct lane ids requested |
| LaneLru.LruExactly | kwin/seatgeist-agent-seat/agentseatplugin.cpp:243-278 | over every run on a clock that does not go back, the residents are the last four distinct ids all along if and only if at every eviction the id requested first has the smallest key of those last used in its millisecond |
| LaneLru.IncreasingInOrder | kwin/seatgeist-agent-seat/agentseatplugin.cpp:258-263 | at increasing times every eviction is in order |
| LaneLru.EvictNewest | kwin/seatgeist-agent-seat/agentseatplugin.cpp:257-269 | an eviction leaves the last ids but one if and only if the tie, if any, is broken for the lane used first |
| LaneLru.LaneForNewest | kwin/seatgeist-agent-seat/agentseatplugin.cpp:243-278 | a request keeps the residents the most recently granted ids with their last use, itself included where it is granted, and also where it is refused and cost a lane; exactly if, where it evicts, the tie is broken for the lane used first |
| LaneLru.TieEvictsByKey | kwin/seatgeist-agent-seat/agentseatplugin.cpp:257-269 | of five distinct ids the fifth evicts the smallest key among those requested in the first millisecond, and the run is least recently used if and only if that is the key requested first |
| LaneLru.TwoTied | kwin/seatgeist-agent-seat/agentseatplugin.cpp:258-263 | five requests of which only the first two share a millisecond: the second one's lane goes and the first one's stays |
| SeatProtocol.StepProtocol | kwin/seatgeist-agent-seat/agentseatplugin.cpp:79-220 | every step keeps at most one outstanding call, counts it by the flag, and completes exactly the action received, with the outcome of acting on the pool as it was |
| SeatProtocol.StepLanes | kwin/seatgeist-agent-seat/agentseatplugin.cpp:79-278 | every step leaves nothing held on any lane, live or destroyed, and the pool valid |
| SeatProtocol.EveryRun | kwin/seatgeist-agent-seat/agentseatplugin.cpp:79-220 | over every interleaving of ticks, re-arms, replies, owner changes and windows destroyed: one call in flight at most, as many calls made as ticks and re-arms found the service there and every earlier call answered, the messages sent told from the steps, one completion per action with an id, in order and with the outcome of that action on the pool it met, and quiet lanes |
| SeatProtocol.TickCalls | kwin/seatgeist-agent-seat/agentseatplugin.cpp:144-159 | a tick or re-arm makes a call, and raises the flag, if and only if the service is there and no call is in flight |
| SeatProtocol.RunSends | kwin/seatgeist-agent-seat/agentseatplugin.cpp:79-180 | over every run, registrations, calls and completions are sent exactly where the steps call for them; flags, timer and re-arms follow from the steps |
| SeatProtocol.StepsThatFollow | kwin/seatgeist-agent-seat/agentseatplugin.cpp:144-180 | after any run a tick can follow while the service is there, a re-arm where one was started, a reply where a call has none |
| SeatProtocol.ServiceGone | kwin/seatgeist-agent-seat/agentseatplugin.cpp:79-91 | losing the service takes every lane off its window and changes nothing else of it; gaining it leaves the lanes alone |
| SeatProtocol.WindowForgotten | kwin/seatgeist-agent-seat/agentseatplugin.h:37-43 | a window destroyed is no lane's target any more, and nothing else changes |
| SeatProtocol.ActionTargeted | kwin/seatgeist-agent-seat/agentseatplugin.cpp:182-220 | an action sends input to the requested window on the requested lane only |
| SeatProtocol.ActSays | kwin/seatgeist-agent-seat/agentseatplugin.cpp:182-241 | an action is carried out on a native window that is there and on a lane that can be had, and is refused for the first of these that fails, with nothing done after it |
| SeatLru.LiveLanes | kwin/seatgeist-agent-seat/agentseatplugin.cpp:79-278 | after any run of the plugin whose evictions are in order, with refused requests, owner changes and destroyed windows in between, the live lanes are those of as many of the most recently granted lane ids, four at most |
| SeatLru.LiveLanesExactly | kwin/seatgeist-agent-seat/agentseatplugin.cpp:79-278 | over every run of the plugin on a clock that does not go back, the live lanes are the most recently granted ones all along if and only if every step that evicts a lane finds the tie broken for the lane used first |
| SeatLru.IncreasingRunInOrder | kwin/seatgeist-agent-seat/agentseatplugin.cpp:258-263 | a run whose granted requests come at increasing times is in order |
| SeatLru.LiveLanesWhenReady | kwin/seatgeist-agent-seat/agentseatplugin.cpp:79-278 | where lanes can always be initialised and the requests made are in order, the live lanes after any run are those of the last four distinct lane ids asked for, or of all ids while there are fewer |
| SeatPlugin.Plugin.constructor | kwin/seatgeist-agent-seat/agentseatplugin.cpp:62-103 | the plugin starts without lanes and without a call, registered and polling if the service is there |
| SeatPlugin.Plugin.PollDaemon | kwin/seatgeist-agent-seat/agentseatplugin.cpp:144-159 | a call is made only without one in flight and with the service there |
| SeatPlugin.Plugin.FindOldest | kwin/seatgeist-agent-seat/agentseatplugin.cpp:258-263 | the scan over the map finds the lane used longest ago |
| SeatPlugin.Plugin.EvictOldest | kwin/seatgeist-agent-seat/agentseatplugin.cpp:258-268 | the lane evicted is cleared before it is destroyed |
| SeatPlugin.Plugin.InitializeLane | kwin/seatgeist-agent-seat/agentseatplugin.cpp:280-314 | a seat number is spent even where a later step fails |
| SeatPlugin.Plugin.LaneForId | kwin/seatgeist-agent-seat/agentseatplugin.cpp:243-278 | the map of lanes changes in place as the pool's specification says, and the lane returned is the one in the map |
| SeatPlugin.Plugin.EnsureRoom | kwin/seatgeist-agent-seat/agentseatplugin.cpp:257-269 | only a full pool loses a lane, and only its oldest |
| SeatPlugin.Plugin.AdmitLane | kwin/seatgeist-agent-seat/agentseatplugin.cpp:270-277 | a lane enters the map stamped, and only after it was initialised |
| SeatPlugin.Plugin.ActOnLane | kwin/seatgeist-agent-seat/agentseatplugin.cpp:188-218 | window first, lane second, action third: an error of one leaves the later ones undone |
| SeatPlugin.Plugin.ExecuteAction | kwin/seatgeist-agent-seat/agentseatplugin.cpp:182-220 | an action with an id is completed once with its outcome; one without an id does nothing |
| SeatPlugin.Plugin.HandlePendingAction | kwin/seatgeist-agent-seat/agentseatplugin.cpp:161-180 | the flag is down before the action runs, and only an error reply is not re-armed |
| SeatPlugin.Plugin.OwnerChanged | kwin/seatgeist-agent-seat/agentseatplugin.cpp:79-91 | losing the service stops the timer and clears every lane; gaining it registers and starts it |
| SeatPlugin.Plugin.ClearEveryTarget | kwin/seatgeist-agent-seat/agentseatplugin.cpp:83-86 | every lane of the map is cleared, each once |
| KwinWindows.ParseQuoted | crates/seatgeist-kwin/src/lib.rs:170-191 | the character loop returns the next quoted string and the position behind it |
| KwinWindows.ParseFields | crates/seatgeist-kwin/src/lib.rs:138-144 | three quoted strings in a row, or none |
| KwinWindows.ParseWindowsRunnerMatches | crates/seatgeist-kwin/src/lib.rs:130-157 | the marker loop with its set of seen ids ends and gives the matches of the specification |
| KwinWindows.IdRoundTrip | crates/seatgeist-kwin/src/lib.rs:193-214 | asking for a listed window asks for the id it was listed under if and only if that id has the form `0_{...}` |
| KwinWindows.MatchIdExactly | crates/seatgeist-kwin/src/lib.rs:200-215 | the id asked for is the text between the white space, with braces and `0_` put in front of it wherever they are not there |
| WindowListing.LiteralRead | crates/seatgeist-kwin/src/lib.rs:170-191 | a printed string, whatever quotes and backslashes it holds, is read back |
| WindowListing.SegmentScanned | crates/seatgeist-kwin/src/lib.rs:134-147 | behind a gap without a marker the next marker is found, and exactly the three texts behind it are read |
| WindowListing.ListingExists | crates/seatgeist-kwin/src/lib.rs:130-157 | every text, printed by KWin or not, is a sequence of records behind marker-free gaps and an end that holds none |
| WindowListing.ScannedExactly | crates/seatgeist-kwin/src/lib.rs:130-157 | for every text, the scan returns some matches if and only if they are the first record of every id in a reading of the text as such a sequence |
| WindowListing.ListingRecovered | crates/seatgeist-kwin/src/lib.rs:130-157 | any printed list, whatever its ids, titles and icons hold, is scanned to the first record of every window id, in order and with exact texts, although its header holds the marker, provided that no tail has a quote behind a marker |
| WindowListing.RecoveredWhere | crates/seatgeist-kwin/src/lib.rs:130-157 | a printed list with any tails is recovered if and only if the records it is read as have the same first occurrences as its own |
| WindowListing.TailTakenForRecord | crates/seatgeist-kwin/src/lib.rs:134-157 | a record spelled out in the tail of another is returned as a window of the list |
| WindowListing.HarmfulTail | crates/seatgeist-kwin/src/lib.rs:134-157 | for every tail with a quote behind a marker there is a list of two records that is not recovered |
| WindowListing.RecoveredExactly | crates/seatgeist-kwin/src/lib.rs:130-157 | a tail leaves every list it stands in recovered if and only if no quote stands behind a marker in it |
| KwinMonitors.ParseSupportInfoMonitors | crates/seatgeist-kwin/src/lib.rs:290-349 | the loop with its builder and its flag gives what the one-pass machine gives on the trimmed lines |
| KwinMonitors.PaddingIgnored | crates/seatgeist-kwin/src/lib.rs:295-296 | a report is read the same whatever white space its lines are indented by or end in |
| KwinMonitors.OnePassIsBatch | crates/seatgeist-kwin/src/lib.rs:290-349 | the one-pass machine returns what splitting into sections and building each returns, down to the first error |
| KwinMonitors.BodyEndSays | crates/seatgeist-kwin/src/lib.rs:297-330 | a section ends at the first heading or terminator behind it, and no line within it is one |
| KwinMonitors.SizesRead | crates/seatgeist-kwin/src/lib.rs:395-423 | every monitor read from any report has the whole sizes nearest to its logical ones times its scale, halves away from zero, within 1 and 4294967295 |
| MonitorFields.HeadingExactly | crates/seatgeist-kwin/src/lib.rs:297-330 | a heading is a text between "Screen " and a colon, a terminator a text that ends in six equals signs |
| MonitorFields.HeadingNamed | crates/seatgeist-kwin/src/lib.rs:297-312 | a screen without a name is known by its heading without the words and colons around it |
| MonitorFields.GeometryExactly | crates/seatgeist-kwin/src/lib.rs:351-382 | a geometry is read as four numbers if and only if it has the form `a,b,cxd` and its parts denote them, white space aside |
| MonitorFields.SectionExactly | crates/seatgeist-kwin/src/lib.rs:332-419 | a section is read as a monitor if and only if all its geometries and scales can be read and the monitor has the last name, or else the heading's, the last geometry, the last scale, or else 1, and the sizes these make |
| MonitorFields.SectionFails | crates/seatgeist-kwin/src/lib.rs:332-419 | a section fails for its first geometry or scale that cannot be read, and without a geometry for its missing width |
| MonitorListing.ReadGeometry | crates/seatgeist-kwin/src/lib.rs:351-382 | a printed geometry, with signed origins, is read back |
| MonitorListing.ReportRecovered | crates/seatgeist-kwin/src/lib.rs:290-423 | a printed report gives its monitors back, with the physical sizes nearest to the scaled ones, if and only if every name is trimmed and does not end in a heading's rule |
| MonitorListing.LinesJoined | crates/seatgeist-kwin/src/lib.rs:295-296 | a report's lines are recovered from its text |
| MonitorListing.TextRecovered | crates/seatgeist-kwin/src/lib.rs:290-423 | the text of a printed report gives its monitors back, with those sizes, if and only if every name is trimmed, does not end in a heading's rule, and stands on one line |
| ActivityThrottle.KeyInjective | kwin/seatgeist-activity/activityplugin.cpp:93-94 | two events share a throttle key exactly where they share class, provenance and window, colons in window ids or not |
| ActivityThrottle.LastReport | kwin/seatgeist-activity/activityplugin.cpp:95-99 | the throttle map holds the time of the last report for each target, and nothing else |
| ActivityThrottle.ReportedExactly | kwin/seatgeist-activity/activityplugin.cpp:95-99 | buttons, keys and the ends of touches are always reported; motion and scrolling if and only if nothing was reported for their target in the last 20 ms |
| ActivityThrottle.Covered | kwin/seatgeist-activity/activityplugin.cpp:85-112 | every event at t is covered by a report of its class, provenance and window sent in (t - 20, t] |
| ActivityThrottle.SentFrom | kwin/seatgeist-activity/activityplugin.cpp:101-111 | every report sent is that of an event of the run |
| ActivityThrottle.RateBound | kwin/seatgeist-activity/activityplugin.cpp:95-99 | an interval of b - a ms holds at most (b - a) / 20 + 1 throttled reports for a target |
| ActivityThrottle.TouchEnd | kwin/seatgeist-activity/activityplugin.cpp:158-179 | the end of a touch is reported at once for the window of the contact's latest down or motion, else for the desktop, and the contact is forgotten |
| ActivityThrottle.ProvenanceExactly | kwin/seatgeist-activity/activityplugin.cpp:68-83 | a device is injected exactly where its name begins with "Seatgeist " in any case; without that it is physical exactly where it has a path, below no virtual directory; everything else is unknown |
| ActivityThrottle.AskedExactly | kwin/seatgeist-activity/activityplugin.cpp:126-179 | an event is reported under its own class, with its device's provenance, none for touches, and for the window found for it or the desktop |
| ActivityThrottle.ActivityPlugin.PublishActivity | kwin/seatgeist-activity/activityplugin.cpp:85-112 | map and messages change together or not at all |
| ActivityThrottle.ActivityPlugin.HandleEvent | kwin/seatgeist-activity/activityplugin.cpp:126-179 | the seven handlers ask for the class, window and throttling of their event |
| EvalJson.ResponseData | scripts/computer_use_eval.py:21-28 | a response has data exactly where its type is the expected one and no error |
| CaptureChecks.ValidateOpenSession | scripts/retained_capture_eval.py:76-109 | a session is accepted exactly where it is active, of the backend, source type and window asked for, without occlusion and with sound ids, and it is then the one that clean-up would close |
| CaptureChecks.ReadDimensions | scripts/retained_capture_eval.py:152-157 | all four dimensions are positive integers, or none is taken |
| CaptureChecks.ValidateFrame | scripts/retained_capture_eval.py:112-184 | the checks and the loop accept exactly the frames the specification accepts, with their evidence |
| CaptureChecks.FrameSays | scripts/retained_capture_eval.py:136-184 | a fresh frame of a wait has another revision than the one waited past and was written where it was asked for; a snapshot's frame is fresh |
| CaptureChecks.SanitizedMonitorLayout | scripts/retained_capture_eval.py:209-268 | all monitors are sound, or there is no layout; its flags say whether any origin is negative or not zero |
| CaptureAnswers.OpenedExactly | scripts/retained_capture_eval.py:76-109 | an open is accepted if and only if its answer shows the session active on the window asked for, over PipeWire, without occlusion, and names it |
| CaptureAnswers.FrameExactly | scripts/retained_capture_eval.py:112-184 | a frame is accepted if and only if its response shows a complete PipeWire frame of the session asked about, of sequence 1 or more and positive sizes within the bound, in the file and directory of the run, and of another revision than the one waited past; the evidence kept is what it shows |
| CaptureAnswers.LayoutExactly | scripts/retained_capture_eval.py:209-268 | a layout is accepted if and only if every monitor in the answer is sound and, where that is asked for, there are two with one off the origin; what is kept are their geometries and whether any origin is negative or not zero |
| CaptureLog.CheckNoneActive | scripts/retained_capture_eval.py:62-65 | a run goes on only where a status shows no session active or being opened |
| CaptureLog.OpenCapture | scripts/retained-capture-eval.py:114-130 | the session to clean up is known as soon as an answer reports it, whatever validation says |
| CaptureLog.CaptureFrame | scripts/retained-capture-eval.py:133-154 | one CLI call, and a validated frame of the session |
| CaptureLog.CloseOpened | scripts/capture_restore_phases.py:54-75 | the session opened is closed once, and closed is what the answer says |
| RetainedCaptureRun.BeginCapture | scripts/retained-capture-eval.py:104-156 | up to the first frame, what was opened is known wherever an exception strikes, and none strikes exactly where the answers are as they should be |
| RetainedCaptureRun.SampleScenarios | scripts/retained-capture-eval.py:158-209 | one entry per scenario in order, each fresh frame with another revision than the last one seen; all of them pass exactly where the operator skips none, every frame is fresh and every verdict is yes |
| RetainedCaptureRun.CaptureBody | scripts/retained-capture-eval.py:103-209 | a body that ends without an exception leaves a session, one portal open, a layout, a first frame and an entry per scenario |
| RetainedCaptureRun.RunCaptureEval | scripts/retained-capture-eval.py:64-252 | wherever an exception strikes, exactly the session opened is closed, once; a run passes if and only if all eight scenarios were asked for and every answer, from the layout to the close, is as it should be; passed evidence satisfies the retained validator, the multi-output one if and only if that was asked for, and its revisions all move on |
| RetainedCaptureRun.PassedIsValid | scripts/cooperative_acceptance.py:56-105 | what a passed run writes is what both validators look for |
| CaptureAnswers.RetainedExactly | scripts/retained-capture-eval.py:64-252 | a retained run passes if and only if its answers are the transcript of one session: none active, a layout, the open, a frame of it, a new frame and a yes for each of the eight scenarios, and its close |
| CaptureRestoreRun.RequireDaemonRestart | scripts/capture_restore_eval.py:36-49 | a restart is proven if and only if both socket identities are complete and differ |
| CaptureRestoreRun.RestartAcceptanceComplete | scripts/capture_restore_eval.py:103-128 | acceptance is given if and only if the restart is proven, both sessions closed, no chooser shown, the restore file replaced, the frame fresh and the references equal |
| CaptureRestoreRun.OpenWithFrame | scripts/capture_restore_phases.py:158-167 | an open with its restore reference and a fresh frame, or the session to clean up |
| CaptureRestoreRun.PrepareBody | scripts/capture_restore_phases.py:151-175 | the prepare evidence is complete or absent, and when a failure is one the phase does not catch |
| CaptureRestoreRun.PrepareRestoreEval | scripts/capture_restore_phases.py:124-184 | the session opened is closed once; the evidence is fit for the second phase exactly where every answer is as it should be; its status reads prepared exactly there and where the first answer that is not raises what the phase does not catch while whatever was opened is closed |
| CaptureRestoreRun.ReadsPreparedTooOften | scripts/capture_restore_phases.py:124-184 | every good phase reads prepared, and an interrupt of the first CLI call reads prepared without being one |
| CaptureRestoreRun.CheckResume | scripts/capture_restore_phases.py:194-207 | a capture is opened if and only if evidence, workspace, socket and restore file all fit and no session is active |
| CaptureRestoreRun.ResumeBody | scripts/capture_restore_phases.py:217-254 | no exception strikes exactly where the window opens with the same reference, no chooser and a replaced restore file |
| CaptureRestoreRun.ResumeAccepted | scripts/capture_restore_eval.py:103-128 | a second phase without an exception is accepted exactly where its session was closed |
| CaptureRestoreRun.ResumeRestoreEval | scripts/capture_restore_phases.py:187-272 | the session opened is closed once; it passes if and only if the evidence may be resumed and every answer is as it should be; passed evidence satisfies its validator and stands for a restarted daemon, a rotated restore file, an equal reference and no chooser; no evidence it writes can be resumed |
| CaptureRestoreRun.RunRestoreEval | scripts/capture_restore_phases.py:124-272 | the second phase on what the first one stored: it passes if and only if every answer in both worlds is as it should be, the second finding the workspace, target and restore file of the first, another daemon and the same reference; each phase closes exactly what it opened |
| CaptureAnswers.RestoreExactly | scripts/capture_restore_phases.py:124-272 | both phases pass if and only if their answers are a transcript of a session each, every frame its own, on one window and with one restore reference, the socket and the restore file replaced in between |
| CaptureLifecycleRun.BeginLifecycle | scripts/capture-lifecycle-eval.py:102-156 | what was opened is known wherever an exception strikes, and nothing counts as the portal's closure yet |
| CaptureLifecycleRun.PollOnce | scripts/capture-lifecycle-eval.py:160-169 | a poll sees the closure, keeps the polling going, or fails |
| CaptureLifecycleRun.PollUntilClosed | scripts/capture-lifecycle-eval.py:158-171 | polling ends with the portal's closure seen at the first poll that shows the session inactive, or with a failure where no poll in time shows it |
| CaptureLifecycleRun.ProbeStaleSession | scripts/capture-lifecycle-eval.py:173-198 | the probe passes exactly where the CLI refused the stale session for a reason that says so and left no file |
| CaptureLifecycleRun.LifecycleBody | scripts/capture-lifecycle-eval.py:102-198 | no exception strikes exactly where every answer is as it should be, and then the evidence holds all that acceptance asks for |
| CaptureLifecycleRun.OneClosure | scripts/capture-lifecycle-eval.py:165-168 | the portal's closure is seen at one poll at most |
| CaptureLifecycleRun.CloseUnlessEnded | scripts/capture-lifecycle-eval.py:203-218 | the client closes exactly where the portal's closure was not seen, and the evidence says so |
| CaptureLifecycleRun.RunLifecycleEval | scripts/capture-lifecycle-eval.py:67-227 | nothing is closed once the portal's closure was seen, else the session opened is, once; a run passes if and only if a share is opened, its closure seen in time and its id refused afterwards; passed evidence satisfies its validator |
| CaptureAnswers.RevocationExactly | scripts/capture-lifecycle-eval.py:67-227 | a run passes if and only if its answers are a transcript of one session: opened, shown, seen closed by the portal at one poll before the deadline, and refused afterwards |
| AcceptanceBundle.EvidenceInterval | scripts/cooperative_acceptance_bundle.py:33-50 | an interval is read from the run's two times, or from the filters of a baseline report: integers and no booleans, not before the epoch and in order; where they are not, there is none |
| AcceptanceFields.AcceptedExactly | scripts/cooperative_acceptance.py:56-175 | each validator takes an artifact if and only if its fields are there with the values written out, the eight scenarios of a retained run each among them |
| AcceptanceFields.WorkspaceExactly | scripts/cooperative_acceptance_bundle.py:53-71 | a workspace revision is an object with hashes of 40 and 64 digits and a flag, which are what is kept of it |
| AcceptanceBundle.RunFitsExactly | scripts/cooperative_acceptance_bundle.py:96-125 | the evidence of a capture run is a genuine and recent artifact exactly where its spec takes it, its file is small enough, its workspace the expected one, and its times ordered and recent |
| AcceptanceBundle.Summarize | scripts/cooperative_acceptance_bundle.py:96-125 | the loop goes through exactly where every artifact fits its spec, with starts, ends and summaries in the order of the specs |
| AcceptanceBundle.SpanOfExtremes | scripts/cooperative_acceptance_bundle.py:126-129 | the extremes lie within the span exactly where every pair of artifacts does |
| AcceptanceBundle.BuildBundle | scripts/cooperative_acceptance_bundle.py:74-140 | a bundle is made if and only if there is one artifact per spec, each valid, of the expected workspace and ended between now less the age and five minutes from now, and no artifact ends more than the span after another starts |
| AcceptanceFields.BundledExactly | scripts/cooperative_acceptance_bundle.py:74-140 | the same terms written out field by field: each artifact's kind, version, workspace, times, size and what its validator asks for |
| AcceptanceRuns.RecordCaptures | scripts/cooperative_acceptance_bundle.py:96-125 | the capture evals are run and their evidence stored: each artifact fits the bundle if and only if every answer to its run was as it should be and the run was recent and on the workspace expected |
| AcceptanceRuns.BundleRuns | scripts/cooperative_acceptance_bundle.py:74-140 | from the runs to the bundle: one is made if and only if all four capture runs were good and recent, the other artifacts fit, and all lie within the span |
| CooperativeRun.AcceptedJournals | scripts/cooperative_acceptance.py:176-198 | the baseline report on a journal is taken if and only if the journal has at least twenty sticky actions, as many restored focuses and as many activity checks, each successful action with an id verified and checked, one portal prompt, no polling, and no failure but expected ones |
| CooperativeRun.FitsExactly | scripts/cooperative_acceptance_bundle.py:33-125 | its artifact fits the bundle if and only if, besides, it is small enough, of the workspace expected, and asked for between two times in order of which the later is recent |
| NotificationDedup.InspectAbis | scripts/kwin-activity-abi-watch.py:175-224 | the status is current exactly where header, activity plugin and agent-seat plugin, if asked for and installed, agree |
| NotificationDedup.PluginSays | scripts/kwin-activity-abi-watch.py:210-224 | each status of a plugin says what was found of its file |
| NotificationDedup.AbiWatch.RunCheck | scripts/kwin-activity-abi-watch.py:327-388 | the state file is rewritten by every check but a check-only one |
| NotificationDedup.NeedsByFingerprint | scripts/kwin-activity-abi-watch.py:357-361 | equal fingerprints need attention alike |
| NotificationDedup.FileRemembers | scripts/kwin-activity-abi-watch.py:360-387 | the file says notified for a check that needs attention exactly where the user was told in the current block of equal fingerprints |
| NotificationDedup.AttemptedExactly | scripts/kwin-activity-abi-watch.py:361-377 | an attempt is made if and only if attention is needed and no earlier check of the block succeeded, whatever the file said at first |
| NotificationDedup.OncePerBlock | scripts/kwin-activity-abi-watch.py:362-384 | a block holds at most one notification sent |
| NotificationDedup.NotifiedExactly | scripts/kwin-activity-abi-watch.py:317-387 | a check notifies if and only if a plugin or the session it looks at is not as it should be, and the user was not told it before by a check since which every check found the same boot, plugins and session |
| NotificationDedup.ToldAgain | scripts/kwin-activity-abi-watch.py:317-387 | whatever was told before a check that found something else, after a reboot say, is told again |
| NotificationDedup.CheckOnlyIsNeutral | scripts/kwin-activity-abi-watch.py:353-354 | leaving out the check-only runs changes no other outcome, nor the file |
| PluginDigest.PosixInjective | scripts/check-local-codex-install.py:157 | a relative path is determined by its text |
| PluginDigest.OneListing | scripts/check-local-codex-install.py:146-152 | a set of files has one sorted listing |
| PluginDigest.PathLessExactly | scripts/check-local-codex-install.py:146-152 | paths are listed in the order of their parts, and these by their bytes: the first difference decides |
| PluginDigest.FrameSays | scripts/check-local-codex-install.py:158-161 | a frame is the length in eight bytes, the most significant first, and the text |
| PluginDigest.StreamInjective | scripts/check-local-codex-install.py:154-162 | length framing makes the stream of a file list determine the list |
| PluginDigest.CollectFiles | scripts/check-local-codex-install.py:146-152 | the files listed are exactly those that count, sorted, whatever order the walk found them in |
| PluginDigest.PluginTreeDigest | scripts/check-local-codex-install.py:142-165 | there is a digest exactly where the root is a directory and every file that counts is regular and readable |
| PluginDigest.DigestsAgree | scripts/check-local-codex-install.py:142-165 | below roots without a `__pycache__` part two trees are hashed alike if and only if they hold the same files with the same contents, caches aside; a tree below a root with one passes for an empty tree |
| PluginDigest.ContentsBelow | scripts/check-local-codex-install.py:146-152 | the files that count are the tree's own files that count, unless the root has a part `__pycache__`: they are then the same exactly where there are none |
| PluginDigest.OwnAreContents | scripts/check-local-codex-install.py:146-152 | the files that count in a tree are those without a part `__pycache__` whose names do not end in `.pyc` or `.pyo` behind something else |
| PluginDigest.ComparesFilesExactly | scripts/check-local-codex-install.py:142-165 | comparing digests below two roots is right for all trees if and only if neither root has a part `__pycache__` |
| PluginDigest.HashedAsEmpty | scripts/check-local-codex-install.py:150 | one file below such a root is hashed like no file at all |
| PluginDigest.CacheRootCountsNothing | scripts/check-local-codex-install.py:150 | below a directory named `__pycache__` every tree is hashed as empty |
| PluginDigest.MatchesExactly | scripts/check-local-codex-install.py:168-218 | the installed plugin passes if and only if it validates and holds the source's own files, where neither stands below a directory named `__pycache__`; one that does passes for a plugin without files |
| ReadinessCache.Cache.Read | crates/seatgeist-mcp/src/readiness.rs:48-62 | a read that finds a stale entry drops it; one that cannot read the identity leaves it |
| ReadinessCache.Cache.Write | crates/seatgeist-mcp/src/readiness.rs:64-76 | a store replaces the entry, unless the identity cannot be read |
| ReadinessCache.Cache.Clear | crates/seatgeist-mcp/src/readiness.rs:78-85 | nothing is left |
| ReadinessCache.EntryIsLatest | crates/seatgeist-mcp/src/readiness.rs:47-85 | an entry is what the latest store stored |
| ReadinessCache.GetExactly | crates/seatgeist-mcp/src/readiness.rs:48-62 | a read returns a value if and only if the latest store or invalidation stored it under the identity read now, at most thirty seconds ago, and every read since saw that identity |
| ReadinessCache.StaysDropped | crates/seatgeist-mcp/src/readiness.rs:57-60 | a dropped entry does not come back without a store |
| JournalMetrics.ExpectedByCategory | scripts/computer-use-baseline.py:57-69 | the kinds of expected outcomes are those of five failure categories and of no other |
| JournalMetrics.CountMethods | scripts/computer-use-baseline.py:231-248 | the loop over the entries counts requests and failures under each method |
| JournalMetrics.TallyTotal | scripts/computer-use-baseline.py:222-253 | a counter's values sum to the entries counted, whatever they are counted by |
| JournalMetrics.OrderIndependent | scripts/computer-use-baseline.py:256-447 | metrics and budgets are the same for every order of the journal, under every filter |
| JournalMetrics.FailuresConserved | scripts/computer-use-baseline.py:298-299 | requests per method, and failures per method, kind and category, sum to the requests and the failures |
| JournalMetrics.ReliabilityConserved | scripts/computer-use-baseline.py:345-353 | the reliability failures are the failures less those of the five expected categories, and the rates lie in [0, 1] |
| JournalCounts.CountsExactly | scripts/computer-use-baseline.py:256-424 | every count of the report is the number of journal entries that meet a condition on their fields |
| JournalCounts.RatesExactly | scripts/computer-use-baseline.py:345-385 | each rate is its failures over what they are counted among, the reliability rate over the requests less the expected outcomes, or 0 over nothing |
| JournalCounts.BudgetsExactly | scripts/computer-use-baseline.py:354-446 | there is a report exactly where an entry is selected; each budget holds exactly where the entries it speaks of do not occur, are few enough, or are all checked |
| JournalCounts.CountersExactly | scripts/computer-use-baseline.py:222-253 | each counter holds a name exactly where an entry is counted under it, and how many are |
| JournalCounts.DurationExactly | scripts/computer-use-baseline.py:314-319 | the duration reaches from the earliest time of a selected entry to the latest |
| JournalCounts.KindRead | scripts/computer-use-baseline.py:167-172 | a failure has the kind its summary names behind "error kind=" and before a colon |
| JournalCounts.KindReadOnly | scripts/computer-use-baseline.py:167-172 | any other failure is unclassified |
| JournalCounts.CategoryExactly | scripts/computer-use-baseline.py:179-203 | each of the eighteen named kinds falls into its category, and any other into the last one |
| JournalMetrics.StickyVerifiedExactly | scripts/computer-use-baseline.py:320-361 | the verification budget is met if and only if there are sticky actions and each successful one with an id has a successful focus check |
| JournalMetrics.BudgetMeansVerified | scripts/computer-use-baseline.py:320-361 | there are sticky actions and every successful one is verified, if and only if the report meets the budget and none of them is without an id |
| JournalMetrics.IdlessActionPasses | scripts/computer-use-baseline.py:333-361 | a report on any lone successful sticky action without an id, under any filter that selects it, meets the budget although that action is unverified |

## Left out

- D-Bus, the KWin, Wayland and xkb calls, subprocesses, sockets, file metadata and atomic file replacement are answers
  from outside, or events appended to a trace.
- SeatActions.ScrollPointer: the discrete step is the integer product of the delta and 120; the C++ product of two
  `int` overflows for deltas beyond 17895697 either way, and what it gives then is not modelled.
- Seat timestamps, key repeat settings and modifier masks are not part of the trace; the plugin's destructor and
  `clearLanes` are not modelled.
- A poisoned lock of the readiness cache, which needs a panic while it is held.
- Allocation: a count too large to reserve room for makes `Vec::with_capacity` panic before anything is read; the model
  reads on and fails for want of tokens.
- Floating point is real arithmetic: `scaled_dimension`, `ratio` (which rounds to six digits before it is compared) and
  pointer coordinates; infinities and NaN are left out, and parsing a scale is a parameter of the monitor reader.
- The order of lane ids is that of their characters; Qt compares UTF-16 code units, which differs beyond the basic plane.
- `parse_get_window_info`, window enrichment and the choice among D-Bus commands in the KWin crate only add lookups.
- JSON texts, UTF-8 decoding of files and the texts of error messages are not modelled; JSON values are compared by
  structure, save where Python's `1 == 1.0 == True` decides a check on a number.
- Trimming, lower-casing and hashing in the eval scripts: the operator's answers come stripped and in lower case, error
  messages in lower case, and the hash of a window id is a parameter.
- The redaction of ids in lifecycle errors, and the instruction texts shown to the operator.
- A poll loop ends by the clock; the model takes the number of polls that start before the deadline, whatever it is.
- `target-reopen-eval.py` and `background-semantic-eval.py`: only their validators are modelled.
- Unhashable or otherwise odd JSON values that make a Python script raise `TypeError` where it looks up a set.
- File names that are not UTF-8, and files of 2^64 bytes or more, on which the digest raises.
- SHA-256: digests are compared as the streams they hash. No claim is made for `workspace_revision`, which frames paths
  but not contents.
- The sorted listing of the counters in a baseline report; the model keeps the counters themselves.
- The policy engine, focus leases, bridge script, PipeWire encoding, role tables, request mapping, installers and
  release checks are not part of this model.
