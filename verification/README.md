# Excel active-editing timer, modelled in Dafny

The Excel add-in measures how long a workbook has actually been edited. Each open
workbook has a `WorkbookTimers` object that holds four things:

- the persisted total, `elapsedTime`;
- the active time of the current save session, `sessionElapsedTime`;
- the stopwatch reading at the last confirmed change, `lastChangeTimeSpan`;
- a stopwatch.

Every sheet change confirms the time since the previous change. The one exception is a
gap longer than the idle timeout: then the user is asked whether the gap counts. If not,
the time up to the previous change is folded into the session and the stopwatch restarts.
On save the session and the mark are folded into the total, and the total is written back
into the workbook's "ElapsedTime" document property. The add-in keeps these timers in a
dictionary keyed by the workbook's full name. Blacklisted workbooks (the name is compared
case-insensitively) and workbooks in Excel's startup folder are never tracked.

The model is functional:

- Durations are TimeSpan tick counts (`nat`; 10,000,000 ticks per second).
- The stopwatch is `Running(startedAt) | Stopped(frozen)`, read against an explicit clock
  `now` that never goes backwards.
- Every timer operation is a pure function from a timer to a timer.
- The registry is a `map<string, WorkbookTimers>`, and each event handler is a pure
  function over it.
- Excel is replaced by values. A `Workbook` record carries the name, path, full name and
  the optional stored property. The startup path is a parameter.
- The idle prompt is modal, and the stopwatch keeps running while it is open. The user's
  reply is an `Answer(yes, delay)`: what was chosen, and how many ticks the prompt stayed
  open. A handler that shows the prompt updates the timer when the prompt closes, and it
  reports that moment as `doneAt`. A save runs `SaveSession` at that same moment.

Files:

- `wrappers.dfy`: `Option`.
- `stopwatch.dfy`: `Stopwatches`.
- `workbook_timers.dfy`: `Timers`, the per-workbook state machine.
- `timer_trace.dfy`: `TimerTraces`, runs of timer operations.
- `time_format.dfy`: `TimeFormat`, the `m:ss` display and a parser for it.
- `add_in_config.dfy`: `AddInConfig`, the idle timeout and the lower-cased blacklist.
- `this_add_in.dfy`: `ThisAddIn`, the registry and its handlers.
- `add_in_events.dfy`: `AddInEvents`, properties across several events.

The invariant every timer keeps is `Timers.Valid`: the mark is never ahead of the
stopwatch reading. The model also proves a bound the code only implies. Let
`Timers.Ceiling` be the total plus the session plus the current stopwatch reading.
No operation raises it, and it grows at most as fast as the clock. So no saved total
ever exceeds the seed plus the wall-clock time since the workbook was opened.

Four behaviours of the code worth knowing:

- There is no re-keying on save-as. Nothing in `ThisAddIn.cs` moves an entry when a
  workbook's full name changes.
- Asking for the display of an untracked workbook fails in the code, because the dictionary
  lookup throws. The model returns `None`.
- Opening an already tracked workbook replaces its timer without stopping the old one.
- The persisted total grows only on save, never when an idle gap is resolved.

## Model

| member | source | states |
|---|---|---|
| Stopwatches.Elapsed | EditingTimer/WorkbookTimers.cs:32-53 | a running stopwatch has counted every tick since it started; a stopped one shows the reading it stopped at |
| Stopwatches.StartNew | EditingTimer/WorkbookTimers.cs:25-26 | a new, started stopwatch is running, reads zero now and then counts with the clock |
| Stopwatches.Restart | EditingTimer/WorkbookTimers.cs:63 | a restarted stopwatch reads zero now and then counts with the clock |
| Stopwatches.Stop | EditingTimer/WorkbookTimers.cs:71 | a stopped stopwatch reads the value it had when stopped at every later time |
| Timers.New | EditingTimer/WorkbookTimers.cs:20-27 | a new timer's total (what `GetElapsedTime` returns) is the seed; session and mark are zero; the stopwatch is running and reads zero; the invariant holds and the ceiling equals the seed |
| Timers.SaveChangeTime | EditingTimer/WorkbookTimers.cs:30-33 | only the mark changes: total, session and stopwatch are kept; the whole idle gap is added to the pending active time; afterwards the gap is zero |
| Timers.SaveLastChangeAndReset | EditingTimer/WorkbookTimers.cs:36-41 | the mark moves into the session, the mark becomes zero and the stopwatch restarts at zero; pending active time and the total are unchanged, so the idle gap is dropped |
| Timers.CompareTo | EditingTimer/WorkbookTimers.cs:47 | `TimeSpan.CompareTo` is negative exactly when the first span is shorter and zero exactly when they are equal |
| Timers.IdleTimeGreaterThan | EditingTimer/WorkbookTimers.cs:44-48 | true if and only if the time since the last change is strictly greater than the threshold |
| Timers.ElapsedSinceLastChange | EditingTimer/WorkbookTimers.cs:51-54 | the gap is non-negative, at most the stopwatch reading, and mark plus gap equals the reading |
| Timers.SaveSession | EditingTimer/WorkbookTimers.cs:56-67 | the returned total is the old total plus session plus mark, never less than the old total, and is the timer's new total; session and mark are zero and the stopwatch restarts |
| Timers.Close | EditingTimer/WorkbookTimers.cs:69-72 | total and pending time are kept and the stopwatch reading, and with it the idle gap, is frozen for all later times |
| Timers.ValidAdvances | EditingTimer/WorkbookTimers.cs:51-54 | the mark stays behind the stopwatch as the clock advances, and the ceiling grows at most by the time that passed |
| TimerTraces.Step | EditingTimer/WorkbookTimers.cs:30-72 | each operation keeps the invariant and does not raise the ceiling; only a save reports a value, which is the new total and no less than the old one; every other operation keeps the total |
| TimerTraces.Replay | EditingTimer/WorkbookTimers.cs:30-77 | over any chronological run the saved totals never decrease; each is at least the starting total and at most the starting ceiling plus elapsed wall time; there is one per save; the final total is the last saved one |
| TimerTraces.FreshTimerNeverOvercounts | EditingTimer/WorkbookTimers.cs:20-67 | from a newly opened timer every saved total lies between the seed and the seed plus the wall-clock time that passed |
| AddInConfig.ScalarPrefix | EditingTimer/ThisAddIn.cs:75-81 | the blacklist loop takes the scalar entries in order and stops at the first entry that is not a scalar |
| AddInConfig.LoadConfig | EditingTimer/ThisAddIn.cs:42-81 | with no usable file the configuration is the default (120-second timeout, empty blacklist); a file's timeout replaces the default only when present; the blacklist holds exactly the lower-cased names of the scalar entries before the first non-scalar one, and is empty when the key is missing or not a sequence |
| AddInConfig.LowerChar | EditingTimer/ThisAddIn.cs:117 | upper-case ASCII letters map to their lower-case forms and every other character is unchanged; the result is never upper case |
| AddInConfig.Lower | EditingTimer/ThisAddIn.cs:117 | lower-casing keeps the length and lower-cases every character |
| AddInConfig.LoadBlacklist | EditingTimer/ThisAddIn.cs:77 | the loaded blacklist holds exactly the lower-cased configured names, and all of them are lower-case |
| AddInConfig.IsBlacklisted | EditingTimer/ThisAddIn.cs:117 | a match means some listed name equals the workbook name ignoring case; with a lower-cased blacklist, as loaded, every such name matches |
| AddInConfig.LowerIdempotent | EditingTimer/ThisAddIn.cs:77 | lower-casing an already lower-cased name changes nothing |
| AddInConfig.LowerEqualIffSameIgnoringCase | EditingTimer/ThisAddIn.cs:117 | two names are equal after lower-casing exactly when they match character by character ignoring case |
| AddInConfig.BlacklistIgnoresCase | EditingTimer/ThisAddIn.cs:117 | a workbook name is blacklisted exactly when some configured name matches it ignoring case |
| ThisAddIn.Ignored | EditingTimer/ThisAddIn.cs:117 | a workbook in the startup folder is always ignored; an ignored one is in the startup folder or matches a listed name ignoring case, and with a lower-cased blacklist that is exactly the condition |
| ThisAddIn.RegistryAdvances | EditingTimer/ThisAddIn.cs:20 | every tracked timer keeps its invariant and keeps running as the clock advances |
| ThisAddIn.StoredSeed | EditingTimer/ThisAddIn.cs:119-133 | the seed is the stored property when present and zero otherwise |
| ThisAddIn.WorkbookOpenOrNew | EditingTimer/ThisAddIn.cs:114-146 | an ignored workbook leaves registry and workbook unchanged; otherwise the key set gains exactly the full name, its entry is a fresh timer seeded with the stored value or 0 (replacing any earlier one), a missing property is created as 0 and now agrees with the timer, and all other entries are kept |
| ThisAddIn.ChangeTimer | EditingTimer/ThisAddIn.cs:158-186 | within the timeout the change is confirmed at once; past it the timer is updated when the prompt closes: "yes" counts the gap up to that moment, the prompt's own time included, and "no" keeps only the time up to the last change and restarts the stopwatch at that moment; the total is kept, the gap is zero when the handler returns, and the ceiling grows at most by the time the prompt was open |
| ThisAddIn.WorkbookChangeHandler | EditingTimer/ThisAddIn.cs:153-187 | untracked workbooks are a no-op that returns at once; otherwise only that entry changes, by the change logic, and the handler returns when the change logic does; no total changes and the key set is kept |
| ThisAddIn.WorkbookSaveHandler | EditingTimer/ThisAddIn.cs:199-213 | untracked workbooks are a no-op; otherwise the change logic runs first and the session is saved when it returns; the stored property becomes the new total, which is the old total plus the pending time after the change logic, at least the old total and at most the ceiling plus the time the prompt was open; nothing stays pending; other entries are kept |
| ThisAddIn.BeforeCloseHandler | EditingTimer/ThisAddIn.cs:220-228 | exactly the closing key leaves the registry and every other entry is kept; an untracked key is a no-op; the invariant is kept |
| ThisAddIn.GetElapsedTimeDisplay | EditingTimer/ThisAddIn.cs:230-237 | there is a display exactly when the workbook is tracked; it reads back as the truncated total minutes and the seconds component of the stored total, and its minutes field has no leading zero |
| TimeFormat.WholeSeconds | EditingTimer/ThisAddIn.cs:236 | the whole seconds of a span are the seconds it has fully run |
| TimeFormat.TotalMinutes | EditingTimer/ThisAddIn.cs:235 | `Math.Truncate(TotalMinutes)` is the number of minutes the span has fully run |
| TimeFormat.MinutesComponent | EditingTimer/ThisAddIn.cs:235 | `TimeSpan.Minutes` is below 60, differs from the total minutes by whole hours, and is zero exactly when the total minutes are a multiple of 60 |
| TimeFormat.SecondsComponent | EditingTimer/ThisAddIn.cs:236 | the seconds component is below 60, and the whole seconds are 60 times the total minutes plus this component |
| TimeFormat.NatToString | EditingTimer/ThisAddIn.cs:235 | a whole number renders as a non-empty digit string with no leading zero |
| TimeFormat.ParseNatToString | EditingTimer/ThisAddIn.cs:235 | reading back a rendered number gives the number |
| TimeFormat.TwoDigits | EditingTimer/ThisAddIn.cs:236 | the seconds field is exactly two digits and reads back as the seconds value |
| TimeFormat.FormatAsWritten | EditingTimer/ThisAddIn.cs:234-236 | the display as written reads back as the total minutes when the minutes component is non-zero and 0 otherwise, with the seconds component; the minutes field has no leading zero, so a zero is the single character "0" |
| TimeFormat.Format | EditingTimer/ThisAddIn.cs:234-236 | the corrected display reads back as the truncated total minutes and the seconds component, and its minutes field has no leading zero |
| TimeFormat.FormatDeterminesWholeSeconds | EditingTimer/ThisAddIn.cs:234-236 | two spans have the same corrected display exactly when they have the same number of whole seconds |
| TimeFormat.AsWrittenAgreesWithFormat | EditingTimer/ThisAddIn.cs:235 | the display as written equals the corrected one exactly when the minutes component is non-zero or the span is under a minute |
| TimeFormat.FiveMinutesNineSeconds | EditingTimer/ThisAddIn.cs:234-236 | 309 seconds display as "5:09" |
| TimeFormat.OneHourShowsZeroAsWritten | EditingTimer/ThisAddIn.cs:235 | one hour displays as "0:00" as written, the same as zero, where "60:00" is meant |
| AddInEvents.AnswerIgnoredWhenActive | EditingTimer/ThisAddIn.cs:160-186 | when the gap is within the timeout the user's answer makes no difference and the handler returns at once |
| AddInEvents.DeclinedGapRestartsWhenPromptCloses | EditingTimer/ThisAddIn.cs:171-180 | after "no" the pending time is unchanged and the next gap is counted from the moment the prompt closed |
| AddInEvents.IgnoredWorkbookNeverTracked | EditingTimer/ThisAddIn.cs:117 | opening a blacklisted or startup-folder workbook never makes it tracked |
| AddInEvents.CloseThenReopen | EditingTimer/ThisAddIn.cs:136-145 | after close and reopen the entry is a fresh timer from the stored value, independent of the closed one |
| AddInEvents.GapGrowsWithClock | EditingTimer/WorkbookTimers.cs:51-54 | with the stopwatch running, the idle gap grows exactly with the clock |
| AddInEvents.IdleGapCountedOnlyIfConfirmed | EditingTimer/ThisAddIn.cs:160-212 | open, change, then save after a gap: within the timeout the stored total grows by the gap; past it, "yes" adds the gap plus the time the prompt stayed open and "no" adds nothing; the save returns when the prompt closes |
| AddInEvents.FiveMinuteGapWithDefaultTimeout | EditingTimer/ThisAddIn.cs:43-186 | with the default 120-second timeout, a 300-second gap counts only after "yes", together with the time the prompt stayed open |
| AddInEvents.Dispatch | EditingTimer/ThisAddIn.cs:148-228 | every handler keeps the registry invariant at the moment it returns, keeps every entry it is not about, and adds no other key |
| AddInEvents.Run | EditingTimer/ThisAddIn.cs:114-228 | over any run of events, each delivered after the previous handler returned, the run ends no earlier than the waits add up to and the invariant holds then; workbooks no event names keep their timers exactly; every tracked key was tracked before or named by some event |

## Left out

- `LoadConfig` (EditingTimer/ThisAddIn.cs:37-82) reads a YAML file. The file I/O and the YAML parsing are left out. `AddInConfig.LoadConfig` starts from what parsing yields, as an `AddInConfig.ConfigFile`, or from `None` when the directory or the file is missing or the YAML has a semantic error, the three cases the code catches. Any other parse error, an empty document, a root node that is not a mapping, a timeout that is not a number and a null blacklist entry all throw in the code; these are not modelled.
- Excel event subscription, the startup loop over open workbooks, and the VSTO startup code (EditingTimer/ThisAddIn.cs:84-108, 266-270) are host wiring. `AddInEvents.Run` stands for the events they deliver. Excel cannot raise an event while the modal prompt is open, so each event comes after the previous handler has returned.
- `CustomDocumentPropertiesContain` and the reads and writes of the "ElapsedTime" property (EditingTimer/ThisAddIn.cs:122-133, 212, 247-258) are host calls. They become the `elapsedTimeProperty` field of `Workbook`. The model does not cover a property deleted while the workbook is open, where the code's write on save would fail.
- `ThisAddIn.StoredSeed`: the stored property is taken to be non-negative. The code reads any number, and a negative stored value (EditingTimer/ThisAddIn.cs:124, EditingTimer/WorkbookTimers.cs:22) would start the timer from a negative total, which could then be saved back negative. The model cannot express that.
- `AddInConfig.LoadConfig`: the idle timeout is taken to be non-negative. With a negative `IdleTimeout` in the file, `IdleTimeGreaterThan` (EditingTimer/WorkbookTimers.cs:46-47) is true even for a zero gap, so every change would show the prompt. The model cannot express that.
- `MessageBox.Show` and the message text (EditingTimer/ThisAddIn.cs:164-171) are UI. They become `ThisAddIn.Answer`: which button was chosen, and after how long.
- EditingTimer/ExposedFunctions.cs is COM-visible logging around the handlers. It calls two handlers that `ThisAddIn.cs` does not define, so it adds no behaviour.
- Floating point is left out and durations are integer ticks throughout. This covers the seconds-as-`double` seed and return value (`TimeSpan.FromSeconds`, `TotalSeconds`), the `double` idle timeout, and the `double` `TotalMinutes`. So the stored property is in ticks rather than seconds, and millisecond rounding is not modelled.
- TimeSpan's 64-bit tick range and its overflow are not modelled: durations are unbounded.
- `AddInConfig.LowerChar`: lower-cases only ASCII letters. The culture-sensitive Unicode rules of `ToLower` are not modelled.
- `Timers.GetElapsedTime` is a plain accessor and has no contract of its own. What it returns is stated in the rows for `Timers.New` and `Timers.SaveSession`.
- `AddInConfig.DefaultConfig` is a constant. Its values are stated by `AddInConfig.LoadConfig`, which falls back to it.
- `ThisAddIn.BeforeCloseHandler`: the `Close` call on the timer being removed is not visible once the timer is discarded, so the model just drops it. What `Close` does is stated by `Timers.Close`.
- `ThisAddIn.GetElapsedTimeDisplay`: returns `None` where the code throws `KeyNotFoundException`. It formats with the corrected `TimeFormat.Format`, not as written (see Findings).
- The elapsed time shown in the idle prompt (`m\:ss`, EditingTimer/ThisAddIn.cs:164) is UI text and is not modelled.

## Findings

| source | as written | input that shows it | evidently intended | confidence | as-written member | corrected member |
|---|---|---|---|---|---|---|
| EditingTimer/ThisAddIn.cs:235 | prints the total minutes only when `TimeSpan.Minutes` (the minutes component, total minutes mod 60) is positive, otherwise "0" | a total of 3600 seconds displays "0:00", the same as zero (`TimeFormat.OneHourShowsZeroAsWritten`); 3630 seconds displays "0:30" | the truncated total minutes for every total, so one hour displays "60:00" | high; not executed | TimeFormat.FormatAsWritten | TimeFormat.Format |
