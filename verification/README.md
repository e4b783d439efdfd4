# A verified model of the daemon's hard core

This project models parts of a daemon that runs coding agents, pairs machines with each
other and shows what an agent wants to do on approval cards. It covers the mechanisms
that are fast, crash-prone or concurrent, each beside a much simpler specification:

- **Hiding paths in approval text.** `HidePaths` is the range-narrowing scan with its
  comparison budget, against "leftmost, longest form that stands as a whole path".
  `SameSpellings` is the bounded closure under two-way prefix rewriting, against the
  least closed set. `PathKeys` and `PathHider` are the pruned right-to-left search for
  the start of a hidden path, against trying every start. `FileLine` is the printer of a
  card's file sentence and its ambiguous reader.
- **State that survives crashes.** `EmergencyStops` is the emergency-stop journal with
  its recovery driver; `JsonText` and `ReadFields` are the reader of its records.
  `AuditLog` is the retention log with its cached counts under caller rollbacks.
  `LogRecord` and `DaemonLog` are the rotating log, cut off at any point.
  `CredentialRace` is first creation of the daemon credential by hard link.
- **Pairing two daemons.** `DeviceRegistry` is the target's tables, `FleetRegistry` the
  source's, and `Pairing` the protocol between them with lost answers, late deliveries,
  expiring claims, restarts, heartbeats and outsiders. `CliLock` is the command line's
  lock file and compare-and-swap. `PairingSource` ties the protocol's source side to
  `FleetRegistry`.
- **Interpreters.** `ShellText` splits a command line, `ShellSpelling` says which texts
  mean which parts, `Execution` expands package scripts into a numbered tree, and
  `Utf8Parts` splits text under competing cut rules.
- **Shared.** `Wrappers` and `Utf16` hold what several modules use.
- **Accounting.** `UsageTally` says which usage reports count and how they add up;
  `CodexUsage` is the class of linked turn tables that counts them.

`dafny verify dfyconfig.toml` checks all of it. A SQLite transaction is one atomic
change, SHA-256 is injective, a socket is a set of messages delivered late, repeatedly or
never, and a file is a sequence of bytes. Code that works by changing state is a class
or a method with loops, proved against functions or relations; protocols are relations
between states, and their theorems speak of every run.

Four results differ from what the code's comments or a first reading suggest:

- `HidePaths`: the budget is looked at after a comparison is spent, but not after the last
  comparison of a lone candidate that fails. So a text that costs exactly one comparison
  more than the budget is shown in full exactly when its last comparison is such a one
  (`HidePaths.HidePaths`; `HidePaths.OneOverBothWays` gives texts for both cases).
- `Utf8Parts`: the split is right for every limit of at least 4 and for no smaller one
  (`Utf8Parts.SmallLimitStalls` gives the text).
- `Pairing`: a target that pairs at once, without a claim, retires the working credential
  while the source still shows its row as healthy (`Pairing.DirectPairingOutdatesRow`). In
  every undisturbed run a healthy row's credential works exactly when no such pairing has
  replaced it (`Pairing.HealthyRowWorks`), and the promise is back from the next greeting
  on (`Pairing.GreetedSincePairingWorks`).
- `FileLine`: a line whose paths hold none of the sentence's wording has one reading,
  except for the link name "in the session worktree" (`FileLine.OneReading`).

## Model

| member | source | states |
|---|---|---|
| HidePaths.HidePaths | apps/daemon/src/file-target-affects.ts:341-399 | for every text and list of forms the scan shows the text with a mark for each of the leftmost, longest whole-path occurrences of a form if that can be afforded, and else only the mark; affordable means a cost within the budget of four million, or one over when the last comparison is a lone mismatch |
| HidePaths.HideWithin | apps/daemon/src/file-target-affects.ts:353-398 | the same for every budget |
| HidePaths.OneOverBothWays | apps/daemon/src/file-target-affects.ts:376-385 | with the form "ax" and a budget of one, every text of "a" and another unit is one over, and is hidden whole exactly when that unit is "x" |
| HidePaths.SpansStand | apps/daemon/src/file-target-affects.ts:300-307 | every replaced span is a form that starts and ends as a whole path, and no longer form stands there |
| HidePaths.OccurrenceHidden | apps/daemon/src/file-target-affects.ts:331-340 | every whole-path occurrence of a form on a code-point boundary starts within a replaced span |
| HidePaths.WholeIs | apps/daemon/src/file-target-affects.ts:266-307 | what counts as a whole path, in the text's own characters: no letter, digit, "_", "." or "-" before it, no letter, digit, "_" or "-" after it, no dot and then a letter or digit after it, and no surrogate pair cut |
| HidePaths.SpansLeftmostLongest | apps/daemon/src/file-target-affects.ts:331-399 | each replaced span is such an occurrence and the longest from its start, and every such occurrence starts within a span |
| HidePaths.LeftmostLongestUnique | apps/daemon/src/file-target-affects.ts:331-399 | only one list of spans has these properties |
| HidePaths.RenderMarks | apps/daemon/src/file-target-affects.ts:388-398 | each span is shown as its mark, at the place that what is before it fixes |
| HidePaths.RenderKeeps | apps/daemon/src/file-target-affects.ts:388-398 | every unit outside the spans is shown, at the place that what is before it fixes |
| HidePaths.RenderLength | apps/daemon/src/file-target-affects.ts:388-398 | nothing else is shown |
| HidePaths.SpansOrdered | apps/daemon/src/file-target-affects.ts:388-398 | replaced spans are in order and disjoint, so all other units are kept in order |
| HidePaths.LongestIsLongest | apps/daemon/src/file-target-affects.ts:388-394 | the length chosen at a place is at least that of every form that stands there |
| HidePaths.NextBoundary | apps/daemon/src/file-target-affects.ts:276-298 | the scan moves from code-point boundary to code-point boundary and skips none |
| HidePaths.FirstFrom | apps/daemon/src/file-target-affects.ts:309-320 | the binary search splits a sorted range at the unit, in at most the rounded-up logarithm of comparisons |
| HidePaths.StartingRanges | apps/daemon/src/file-target-affects.ts:342-352 | each first unit maps to exactly the range of sorted forms that begin with it |
| HidePaths.MatchesAt | apps/daemon/src/file-target-affects.ts:364-387 | narrowing a range unit by unit finds the lengths of exactly the forms at a place, spends the cost function's value, and runs out exactly when that exceeds what is left and is not one over with an unchecked last comparison |
| HidePaths.PlaceAt | apps/daemon/src/file-target-affects.ts:358-396 | one place: the longest whole form there, and exhaustion by the same condition |
| HidePaths.RangeCost | apps/daemon/src/file-target-affects.ts:376-386 | a step over a range costs one comparison for a lone form and twice the logarithm otherwise, whatever the array looks like |
| SameSpellings.SameSpellings | apps/daemon/src/file-target-affects.ts:142-165 | terminates; every spelling is in every set that has the seeds and is closed under swapping the sides of a pair; complete exactly when such a set of at most 32 paths, or of no more than the seeds, exists, and then the result is one, hence the least |
| SameSpellings.ClosedIs | apps/daemon/src/file-target-affects.ts:146-158 | the rules tried are exactly the swaps of a path, or of the start it lies below, in both directions of every pair |
| SameSpellings.ExpandPath | apps/daemon/src/file-target-affects.ts:150-162 | one path's rewrites: all of them are found, or the closure is proved too large |
| SameSpellings.TooMany | apps/daemon/src/file-target-affects.ts:139-141 | a spelling too many means that every closed set is larger than the bound and the seeds |
| SameSpellings.LeastForAbsolute | apps/daemon/src/file-target-affects.ts:125-138 | with absolute pairs, what every closed set holds is what every set holds that has the seeds and swaps both sides of every pair in absolute paths |
| SameSpellings.SpellingsKeepPlaces | apps/daemon/src/file-target-affects.ts:125-138 | if each pair names one place twice, every spelling names the place of a seed |
| PathKeys.CollapseParts | apps/daemon/src/credential-stores.ts:114-125 | the stack loop computes the path with its ".." applied |
| PathKeys.ReadKeys | apps/daemon/src/credential-stores.ts:138-143 | the keys read are the non-empty ones of the path as written and with ".." applied |
| PathKeys.KeysExactly | apps/daemon/src/credential-stores.ts:138-143 | the keys of a path are those of the text it reads as, with or without ".." applied |
| PathKeys.HomeKeys | apps/daemon/src/credential-stores.ts:138-143 | "~" and "~/p" have exactly the keys of the home directory and of p in it, for every home and p; "~name" is not rewritten |
| PathKeys.OneComponent | apps/daemon/src/credential-stores.ts:114-125 | a text without slashes is one component, and none if it is empty or "." |
| PathKeys.CollapseCancels | apps/daemon/src/credential-stores.ts:114-125 | a ".." takes away the name right before it, wherever the two stand |
| PathKeys.CollapseDone | apps/daemon/src/credential-stores.ts:114-125 | with no name right before a "..", a path stays as it is |
| PathKeys.NamingExactly | apps/daemon/src/approval-path-text.ts:247-260 | a candidate names a hidden path as written when one of its readings is a key as it stands, and not at all when no reading has any key |
| PathKeys.RootedNaming | apps/daemon/src/approval-path-text.ts:247-260 | a text that starts with neither a slash nor "~" names nothing rooted, and one that starts with "/" nothing that is not |
| PathKeys.ComponentsJoin | apps/daemon/src/credential-stores.ts:114-125 | the components of a path joined by a separator are the components of both sides |
| PathKeys.CollapseOver | apps/daemon/src/credential-stores.ts:114-125 | what a tail's ".." do not reach stays, and the number of names is known from the tail alone |
| PathKeys.CollapseKeepsNames | apps/daemon/src/credential-stores.ts:138-143 | prepending components never removes names the tail leaves |
| PathKeys.UnescapeJoin | apps/daemon/src/approval-path-text.ts:250-260 | reading with escapes removed distributes over a slash |
| PathKeys.UnescapeSpelling | apps/daemon/src/approval-path-text.ts:250-260 | reading without escapes gives back what was written, whichever characters are escaped |
| PathHider.StartFor | apps/daemon/src/approval-path-text.ts:326-335 | the budget runs out exactly when the steps of the search and the naming do not fit in it; otherwise the start is the first admissible one that names a key as written, else the last that names one with ".." applied, as if every start had been tried |
| PathHider.FindStart | apps/daemon/src/approval-path-text.ts:229-335 | the same from the hidden paths themselves, over the bounds, pieces and starts that the keys and the text determine; with no keys nothing is spent and nothing found |
| PathHider.PreparedUnique | apps/daemon/src/approval-path-text.ts:240-281 | the keys and the text determine the bounds, the pieces and the starts the search is given, and so its steps |
| PathHider.ReadPaths | apps/daemon/src/approval-path-text.ts:229-239 | the keys are those of the paths that are not empty, hidden already or too long, and a path too long hides every text |
| PathHider.HiddenKeysAre | apps/daemon/src/approval-path-text.ts:229-239 | the keys hidden are exactly those of the paths that count, read with "~" as the home directory |
| PathHider.BoundsUnique | apps/daemon/src/approval-path-text.ts:240-245 | the bounds, and so the steps, are determined by the keys |
| PathHider.CandidateStarts | apps/daemon/src/approval-path-text.ts:297-324 | returns exactly the starts that the pruned search keeps, oldest first, misses none that names a key, and runs out exactly when its steps do not fit |
| PathHider.PieceStarts | apps/daemon/src/approval-path-text.ts:306-317 | within one component, every skipped start names nothing, the kept ones passed the cheap test, and it runs out exactly when one step for each start looked at does not fit |
| PathHider.TooManyNames | apps/daemon/src/approval-path-text.ts:297-322 | once more names remain than any key has, no start further left names a key |
| PathHider.UnknownFirst | apps/daemon/src/approval-path-text.ts:282-295 | a first component that no key holds names nothing, as written or unescaped |
| PathHider.SkippedStart | apps/daemon/src/approval-path-text.ts:282-317 | a start skipped for its first component names no key |
| PathHider.StopSearch | apps/daemon/src/approval-path-text.ts:305-323 | stopping early leaves the search as complete as running to the left end |
| PathHider.EstimateStep | apps/daemon/src/approval-path-text.ts:181-194 | the running counts of names and ".." bound the real path through every further component |
| PathHider.SlashComponents | apps/daemon/src/approval-path-text.ts:196-211 | the pieces are exactly the maximal runs without a slash |
| PathHider.ReadBounds | apps/daemon/src/approval-path-text.ts:240-245 | the components, the longest component and the largest count are exactly those of the keys |
| PathHider.Work.Spend | apps/daemon/src/approval-path-text.ts:58-76 | the budget is exhausted exactly when a spend passes the limit |
| FileLine.FileLineReadings | apps/daemon/src/approval-facts.ts:207-227 | exactly the lines with non-empty paths that are written as this text, each once |
| FileLine.IndexOf | apps/daemon/src/approval-facts.ts:216-221 | the first place from an index on where a text stands, or none |
| FileLine.OneReading | apps/daemon/src/approval-facts.ts:203-223 | a line whose paths hold none of the wording has no other reading, except the one link name, which has exactly one other |
| FileLine.AmbiguousLink | apps/daemon/src/approval-facts.ts:190-201 | the excepted link line is also an inside line |
| FileLine.SavedFilePaths | apps/daemon/src/approval-facts.ts:463-490 | whatever line a text was written for decides what is read back; named paths are the ones it was written from |
| FileLine.RenderedSays | apps/daemon/src/approval-facts.ts:186-201 | the printer writes exactly the three sentences |
| FileLine.JudgedExactly | apps/daemon/src/approval-facts.ts:463-490 | what is read back, from the line a text was written for: nothing when a path holds wording of the sentences, was shortened or escaped, or is not shown as it stands; that it is hidden; or its paths, the link before the file |
| EmergencyStops.NextKeepsInv | apps/daemon/src/emergency-stop-intents.ts:308-523 | every journal step keeps: the stops of every row read are staged or saved, a row read in part has its copy, and what is due to be cleared may be |
| EmergencyStops.RunInv | apps/daemon/src/emergency-stop-intents.ts:308-523 | the invariant holds in every state of every run with crashes and restarts |
| EmergencyStops.StopNotLost | apps/daemon/src/emergency-stop-intents.ts:245-278 | in every run a readable row is still in the journal, or its stops are in the saved workspace and it has its copy if it was read only in part |
| EmergencyStops.ReachesLosesNothing | apps/daemon/src/emergency-stop-intents.ts:245-278 | between the ends of any run every row is still there, or its stops are saved, or it was unreadable and has its copy; what was saved or copied stays |
| EmergencyStops.ReadableRowLeavesInFinishRound | apps/daemon/src/emergency-stop-intents.ts:424-457 | a readable row leaves only in a finish of a round, and only if this recovery staged the same row id and identity with keep false |
| EmergencyStops.UnreadableRowKeepsCopy | apps/daemon/src/emergency-stop-intents.ts:500-523 | an unreadable row that left has its quarantine copy |
| EmergencyStops.QuarantineKept | apps/daemon/src/emergency-stop-intents.ts:500-523 | no quarantine copy is ever lost |
| EmergencyStops.DueWasStaged | apps/daemon/src/emergency-stop-intents.ts:383-402 | a row due for clearing was staged since recovery began |
| EmergencyStops.Page | apps/daemon/src/emergency-stop-intents.ts:308-320 | a page holds the least row ids above the cursor, in order, up to the limit |
| EmergencyStops.Journal.Pending | apps/daemon/src/emergency-stop-intents.ts:308-347 | a pass handles every row up to its cursor: read, set aside with a copy, or listed before |
| EmergencyStops.Journal.Quarantine | apps/daemon/src/emergency-stop-intents.ts:500-523 | copying and moving are one step; a row moves only if it is still the same row |
| EmergencyStops.Journal.StagePass | apps/daemon/src/emergency-stop-intents.ts:383-402 | staging lists exactly the rows read, once each, with their lines and stops |
| EmergencyStops.Journal.FinishRoundRows | apps/daemon/src/emergency-stop-intents.ts:424-457 | the clear loop terminates and removes due rows only while they are unchanged |
| EmergencyStops.Journal.ClearDue | apps/daemon/src/emergency-stop-intents.ts:430-452 | clearing a due row shrinks the set of due rows by exactly that row |
| EmergencyStops.Journal.EndRecovery | apps/daemon/src/emergency-stop-intents.ts:458-476 | recovery ends with true only if every remaining row was read |
| EmergencyStops.Journal.Unread | apps/daemon/src/emergency-stop-intents.ts:477-499 | true exactly when some journal row is not listed |
| EmergencyStops.Journal.RecoverRound | apps/daemon/src/server.ts:13448-13552 | a round is a run of the transactions, so it clears no row whose stops are not saved, disturbed or not; undisturbed, it reads every row |
| EmergencyStops.Journal.Recover | apps/daemon/src/server.ts:13434-13447 | recovery is a run of the transactions and loses no stop, disturbed or not; done means that every stop the journal names is in the saved workspace; undisturbed, it finishes and leaves only rows that overflow |
| EmergencyStops.Journal.SaveAndClear | apps/daemon/src/server.ts:13458-13472 | the save comes before the clears: what is cleared has its stops in the saved workspace |
| EmergencyStops.Journal.ReadPass | apps/daemon/src/server.ts:13452-13457 | a pass is a run of the transactions that lists what it read with the stops it acts on |
| ReadFields.ReadText | apps/daemon/src/emergency-stop-intents.ts:98-158 | every well-formed text, with any blanks, escapes and nesting, is consumed exactly and read whole down to the third level, with every value of each repeated key in order, and agrees with ordinary parsing |
| ReadFields.Reader.ReadValue | apps/daemon/src/emergency-stop-intents.ts:121-158 | one value is consumed to its last unit and read as its tree at that depth |
| ReadFields.Reader.SkipContainer | apps/daemon/src/emergency-stop-intents.ts:111-120 | a deeper container is skipped exactly to its matching bracket, whatever its strings hold |
| ReadFields.Reader.ReadEntries | apps/daemon/src/emergency-stop-intents.ts:127-152 | every entry of a container is read, in order, keeping all values of a repeated key |
| ReadFields.StringEndPrinted | apps/daemon/src/emergency-stop-intents.ts:101-105 | the end of a string is found through every escape |
| ReadFields.SkipValue | apps/daemon/src/emergency-stop-intents.ts:111-120 | skipping over a whole value leaves the bracket depth as it was |
| JsonText.ReadAgrees | apps/daemon/src/emergency-stop-intents.ts:87-97 | keeping the last value of each key gives what ordinary parsing gives, down to the depth read |
| JsonText.ReadAll | apps/daemon/src/emergency-stop-intents.ts:87-97 | each element is read, and for each name every value it is given, in order; a container below the third level is skipped |
| JsonText.PrintedExample | apps/daemon/src/emergency-stop-intents.ts:98-158 | the text of a value with every kind of token, character by character |
| JsonText.FieldAgrees | apps/daemon/src/emergency-stop-intents.ts:87-97 | a key is present exactly when it has values, and its last value is the parsed one |
| JsonText.DecodePrinted | apps/daemon/src/emergency-stop-intents.ts:98-105 | decoding a written string gives the string back, for every choice of escapes |
| JsonText.HexIs | apps/daemon/src/emergency-stop-intents.ts:98-105 | four hex digits of either case stand for the unit they write |
| AuditLog.CountIsExact | apps/daemon/src/audit-log.ts:71-84 | whenever the cached count is trusted it is the real number of rows of that class |
| AuditLog.AppendKeepsNewest | apps/daemon/src/audit-log.ts:135-218 | an append leaves exactly the newest rows of its class up to the maximum, and the other class as it was |
| AuditLog.AppendExactly | apps/daemon/src/audit-log.ts:135-218 | row by row: an append adds its row and drops only the rows of its class that have a full class of newer ones |
| AuditLog.AppendFails | apps/daemon/src/audit-log.ts:135-218 | an append that fails, or whose id is there already, changes no table |
| AuditLog.StepKeepsInv | apps/daemon/src/audit-log.ts:135-227 | appends, failed appends, begin, savepoint, rollback and commit keep the cache invariant |
| AuditLog.RunKeepsInv | apps/daemon/src/audit-log.ts:135-227 | it holds after every sequence of them |
| AuditLog.EveryRunPrunesExactly | apps/daemon/src/audit-log.ts:135-227 | after every run the count used is exact, and the next append prunes exactly |
| AuditLog.SqliteAuditLog.Append | apps/daemon/src/audit-log.ts:135-218 | the method does what the step function says, failures undone whole |
| AuditLog.SqliteAuditLog.TrustedCount | apps/daemon/src/audit-log.ts:154-163 | the cached count is used only while the last appended row is still there |
| AuditLog.SqliteAuditLog.RetainedCount | apps/daemon/src/audit-log.ts:219-227 | counts the table once and remembers it |
| AuditLog.PagesShowAll | apps/daemon/src/audit-log.ts:229-242 | following cursors page by page shows every matching row once, newest first |
| AuditLog.BelowExactly | apps/daemon/src/audit-log.ts:271-325 | the list shown is the matching rows below the cursor, newest first |
| AuditLog.BelowCursor | apps/daemon/src/audit-log.ts:271-325 | the rows below a page's last row are exactly the rest |
| LogRecord.Fit | apps/daemon/src/daemon-logs.ts:165-177 | the binary search finds the longest cut that fits the byte limit |
| LogRecord.PrefixesAreCuts | apps/daemon/src/daemon-logs.ts:148-151 | the prefixes tried are exactly the texts cut where no pair is parted |
| LogRecord.BytesAreWritten | apps/daemon/src/daemon-logs.ts:153-182 | the size counted is that of the serialised text in UTF-8, byte by byte |
| LogRecord.EncodeRecord | apps/daemon/src/daemon-logs.ts:153-182 | the record is within the limit; it is cut only if it must be, context first, and each part is the longest that fits among the cuts that part no surrogate pair |
| LogRecord.PrefixMonotone | apps/daemon/src/daemon-logs.ts:148-151 | a longer cut never encodes to fewer bytes, although cuts avoid half characters |
| DaemonLog.RotatingDaemonLog.Append | apps/daemon/src/daemon-logs.ts:33-72 | with a crash anywhere, what is kept is a suffix of the old plus at most the new record; archives move, and the oldest is dropped, only when the record does not fit; undisturbed, the record is written |
| DaemonLog.RotatingDaemonLog.MakeRoom | apps/daemon/src/daemon-logs.ts:39-55 | opening, repairing and rotating leave room for the record, and lose only the oldest archive |
| DaemonLog.RotatingDaemonLog.Rotate | apps/daemon/src/daemon-logs.ts:44-55 | renames shift the archives in order, none lands on a present file, and only the oldest is lost |
| DaemonLog.RotatingDaemonLog.RepairTail | apps/daemon/src/daemon-logs.ts:123-141 | a torn last line is cut off and nothing else |
| DaemonLog.RotatingDaemonLog.WriteRecord | apps/daemon/src/daemon-logs.ts:56-71 | a record is written whole, or a failed write is truncated, or a crash leaves a torn tail |
| DaemonLog.RotatingDaemonLog.ReadableIsKept | apps/daemon/src/daemon-logs.ts:33-72 | the complete lines from oldest archive to active file are a suffix of the completely written records |
| DaemonLog.RotatingDaemonLog.Reopen | apps/daemon/src/daemon-logs.ts:23-31 | a daemon that starts on the files another left, with its limits or wider ones, has the same records and torn tail |
| DaemonLog.Lives | apps/daemon/src/daemon-logs.ts:23-72 | over any number of daemons on the same files, each stopped anywhere, the readable lines are a suffix of the records completely written, those are in order among the records given, and all of them when nothing is disturbed |
| DaemonLog.FlattenRename | apps/daemon/src/daemon-logs.ts:49-52 | a rename to the next free name does not change the order of what is read |
| CredentialRace.NextKeeps | apps/daemon/src/credentials.ts:18-110 | every step of any initialiser keeps: the path is absent or holds one whole token that nobody writes |
| CredentialRace.NeverReplaced | apps/daemon/src/credentials.ts:72-83 | in every run, once the path holds a token it holds that token, whole and valid, ever after |
| CredentialRace.AllReturnTheSame | apps/daemon/src/credentials.ts:36-110 | every initialiser that returns, whenever, returns the token at the path |
| CredentialRace.TrimmedWhole | apps/daemon/src/credentials.ts:18-34 | reading a whole file gives its token |
| DeviceRegistry.StepKeepsInv | apps/daemon/src/device-registry.ts:238-403 | never two unrevoked credentials for one machine, no token twice, one pending claim a machine, tables within their limits |
| DeviceRegistry.RetiredOnlyByReplacement | apps/daemon/src/device-registry.ts:238-349 | a working machine credential ends only by an explicit revoke or rotate of it, or in the transaction that activates its replacement |
| DeviceRegistry.RowStays | apps/daemon/src/device-registry.ts:238-403 | no device row is deleted or given to another machine, and its token changes only when it is rotated |
| DeviceRegistry.ConfirmTwice | apps/daemon/src/device-registry.ts:320-349 | a repeated confirm at any later time gives the same device and changes none |
| DeviceRegistry.ConfirmGrants | apps/daemon/src/device-registry.ts:323-349 | a granted confirm leaves the token working for the machine |
| DeviceRegistry.ConfirmExactly | apps/daemon/src/device-registry.ts:323-349 | row by row: a confirm answers the device that works under the token, else activates the claim that has time left if there is room, else answers nothing; a claim past its time is never granted and none is left |
| DeviceRegistry.ClaimExactly | apps/daemon/src/device-registry.ts:296-318 | a claim expires 300000 ms later, takes the place of the machine's own, and clears those past their time |
| DeviceRegistry.PairExactly | apps/daemon/src/device-registry.ts:238-293 | a pairing takes the place of all the machine held, devices and claims; another client's takes nobody's |
| DeviceRegistry.RotateRevokeExactly | apps/daemon/src/device-registry.ts:379-403 | rotation and revocation change one device and nothing else |
| DeviceRegistry.GrantedInTime | apps/daemon/src/device-registry.ts:296-349 | in every run a confirm grants a token that does not work yet only less than 300000 ms after a claim of it for that machine |
| DeviceRegistry.SqliteDeviceRegistry.PairDevice | apps/daemon/src/device-registry.ts:238-293 | revoke and insert are one; a refusal leaves everything as it was |
| DeviceRegistry.SqliteDeviceRegistry.ClaimDevice | apps/daemon/src/device-registry.ts:296-318 | a claim replaces this machine's and the expired claims and touches no device |
| DeviceRegistry.SqliteDeviceRegistry.ConfirmClaim | apps/daemon/src/device-registry.ts:323-349 | answers the active device, activates the pending one, or answers nothing |
| DeviceRegistry.SqliteDeviceRegistry.Verify | apps/daemon/src/device-registry.ts:351-363 | the one device a token authenticates as, or none |
| DeviceRegistry.SqliteDeviceRegistry.RotateToken | apps/daemon/src/device-registry.ts:379-390 | only an unrevoked device gets a new token |
| DeviceRegistry.SqliteDeviceRegistry.RevokeDevice | apps/daemon/src/device-registry.ts:392-403 | exactly that device is revoked |
| FleetRegistry.StepKeepsInv | apps/daemon/src/fleet-registry.ts:141-433 | at most one unfinished operation a machine and at most 128 admitted machines through every call, whatever rows are damaged |
| FleetRegistry.RunKeepsInv | apps/daemon/src/fleet-registry.ts:141-433 | the same in every state of every run |
| FleetRegistry.HeartbeatExact | apps/daemon/src/fleet-registry.ts:334-358 | a heartbeat counts exactly when it speaks about the current row with no operation pending; otherwise nothing changes |
| FleetRegistry.RecordExactly | apps/daemon/src/fleet-registry.ts:141-149 | local facts are written, without a credential, exactly when there is room; damaged rows met are quarantined |
| FleetRegistry.StageExactly | apps/daemon/src/fleet-registry.ts:266-276 | an operation is staged unless its machine has one; an enrollment needs room, a forget never does |
| FleetRegistry.CompleteExactly | apps/daemon/src/fleet-registry.ts:278-290 | the enrollment staged with this digest is published with its own contact time |
| FleetRegistry.EndExactly | apps/daemon/src/fleet-registry.ts:292-332 | an abort marks the old row, a completed forget removes it, and only the operation named goes |
| FleetRegistry.ReturnsOnlyByEnrollment | apps/daemon/src/fleet-registry.ts:334-348 | in every run a machine not in the table comes back only by `record` or a completed enrollment |
| FleetRegistry.QuarantineLasts | apps/daemon/src/fleet-registry.ts:418-430 | a quarantined row is lifted only by the same two calls or removed by a completed forget |
| FleetRegistry.SqliteFleetRegistry.ValidRows | apps/daemon/src/fleet-registry.ts:397-433 | the scan quarantines exactly the damaged rows it meets and answers the valid ones |
| FleetRegistry.SqliteFleetRegistry.RequireSpace | apps/daemon/src/fleet-registry.ts:369-376 | after a full scan, whether the machine is admitted or there is room |
| FleetRegistry.SqliteFleetRegistry.RecordFacts | apps/daemon/src/fleet-registry.ts:141-149 | writes the row without a digest, or leaves the tables as they were |
| FleetRegistry.SqliteFleetRegistry.StageOperation | apps/daemon/src/fleet-registry.ts:266-276 | stages unless the machine has an operation or an enrollment finds no room |
| FleetRegistry.SqliteFleetRegistry.CompleteEnrollment | apps/daemon/src/fleet-registry.ts:278-290 | promotion and journal removal are one, and only for the staged digest |
| FleetRegistry.SqliteFleetRegistry.AbortEnrollment | apps/daemon/src/fleet-registry.ts:292-303 | the old facts stay, marked as needing a pairing |
| FleetRegistry.SqliteFleetRegistry.FinishForget | apps/daemon/src/fleet-registry.ts:324-332 | row and operation go together |
| FleetRegistry.SqliteFleetRegistry.RefreshAuthenticated | apps/daemon/src/fleet-registry.ts:334-348 | writes only the current row of that digest |
| FleetRegistry.SqliteFleetRegistry.RecordFailure | apps/daemon/src/fleet-registry.ts:350-358 | marks only the current row of that digest |
| Pairing.NextKeepsInv | apps/daemon/src/fleet-enrollment.ts:152-355 | every step of source, target, network and outsiders keeps the protocol's invariant |
| Pairing.RunKeepsInv | apps/daemon/src/fleet-enrollment.ts:152-355 | it holds in every state of every run |
| Pairing.PublishedAfterReadBack | apps/daemon/src/fleet-enrollment.ts:230-252 | a published row carries the digest of a token the target answered for, and that the source then read back from its keychain |
| Pairing.HealthyRowWorks | apps/daemon/src/fleet-enrollment.ts:195-269 | as long as no outsider changes the pair's credential, a row shown as healthy stands for a credential in the keychain, and it works at the target exactly when no pairing without a claim has replaced it |
| Pairing.ReplacedByPairing | apps/daemon/src/device-registry.ts:253-263 | the replaced tokens are exactly those the target gave out before some granted pairing without a claim |
| Pairing.GreetedSincePairingWorks | apps/daemon/src/fleet-enrollment.ts:222-252 | a healthy row whose token the target greeted, in an enrollment or a heartbeat, after the last pairing without a claim stands for a credential that works |
| Pairing.ReplacedRowIsFound | apps/daemon/src/fleet-registry.ts:350-358 | a heartbeat that dials under a replaced token is refused and the row is no longer shown as healthy |
| Pairing.NoStrandedKey | apps/daemon/src/fleet-enrollment.ts:195-269 | as long as nobody else changes the keychain, a stored key belongs to the row or to the unfinished enrollment, whatever happens at the target |
| Pairing.LostAnswerIsRepeated | apps/daemon/src/device-registry.ts:320-332 | after a confirm whose answer was lost, asking again at any time is granted and names the device that works, or answers nothing exactly when a pairing without a claim has replaced the token |
| Pairing.SameDeviceAgain | apps/daemon/src/device-registry.ts:320-332 | in every undisturbed run a repeated confirm yields the device that the first one granted, or nothing once a pairing without a claim has replaced it |
| Pairing.DirectPairingOutdatesRow | apps/daemon/src/device-registry.ts:253-263 | why replaced tokens are excepted: a granted pairing without a claim retires a healthy row's credential before anything is staged, whether or not its answer arrives |
| Pairing.WorksUntilRetired | apps/daemon/src/device-registry.ts:335-349 | in every run a working credential ends only by an outsider's explicit act, a revoke the source sent for it, or the call that activates its replacement |
| Pairing.OneCredential | apps/daemon/src/device-registry.ts:253-263 | the target never holds two working tokens for one source |
| Pairing.GrantedInTime | apps/daemon/src/device-registry.ts:296-349 | in every run of the protocol a delivered confirm makes a token work only less than five minutes after a claim of it |
| Pairing.PairingCompletes | apps/daemon/src/fleet-enrollment.ts:152-252 | from any idle state, when the target grants the claim and the confirm and nothing is lost, the steps lead to a published healthy row for a stored credential that works |
| Pairing.DirectPairingCompletes | apps/daemon/src/fleet-enrollment.ts:152-252 | the same for a target that pairs without a claim, and the new row's token is not a replaced one |
| Pairing.PairFrame | apps/daemon/src/device-registry.ts:253-263 | a granted pairing without a claim leaves its token the only one of the source that works, and no claim of the source |
| Pairing.ConfirmFrame | apps/daemon/src/device-registry.ts:323-349 | what a confirm does to every token of the source: working, bound and pending |
| PairingSource.StageIsSeen | apps/daemon/src/fleet-registry.ts:247-276 | seen at one machine, staging succeeds only when the protocol may stage, and leaves its journal entry |
| PairingSource.CompleteIsSeen | apps/daemon/src/fleet-registry.ts:278-290 | the protocol's completion is the registry's: the entry goes and the row is published healthy |
| PairingSource.OtherDigestRefused | apps/daemon/src/fleet-registry.ts:278-290 | any other digest completes nothing |
| PairingSource.AbortIsSeen | apps/daemon/src/fleet-registry.ts:292-303 | the protocol's abort is the registry's: the row stays, no longer healthy |
| PairingSource.ForgetIsSeen | apps/daemon/src/fleet-registry.ts:324-332 | the protocol's end of a forget is the registry's |
| PairingSource.HeartbeatIsSeen | apps/daemon/src/fleet-registry.ts:334-358 | a heartbeat's success and failure are graded as the registry's two calls do |
| PairingSource.OthersNotSeen | apps/daemon/src/fleet-registry.ts:141-433 | no call about another machine is seen |
| CliLock.RunKeeps | apps/cli/src/credentials.ts:134-193 | in every run the stored document is the logged writes applied one after the other |
| CliLock.NeverBoth | apps/cli/src/credentials.ts:134-158 | two processes are never between lock and unlock at once, even after one died there |
| CliLock.SwapReplacedWhatItExpected | apps/cli/src/relay-pin.ts:23-40 | each successful swap found exactly the pin it expected and left its replacement on the same record |
| CliLock.WriteChangesOnlyItsEndpoint | apps/cli/src/credentials.ts:160-193 | no write loses another endpoint's record |
| CliLock.ToldIsLogged | apps/cli/src/relay-pin.ts:28-38 | a caller told true has its write in the log |
| ShellText.ParseCommand | apps/daemon/src/execution-resolution.ts:145-241 | the character loop computes the scan function |
| ShellText.ParsedWhole | apps/daemon/src/execution-resolution.ts:156-166 | a parse has a part, every part a command, and only the first no operator |
| ShellSpelling.SpellingParsed | apps/daemon/src/execution-resolution.ts:145-241 | every spelling of given parts with quotes, escapes, operators and blanks, trailing ones included, is read as exactly those parts, unless it begins a part with a command that changes the shell |
| ShellSpelling.ParsedSpelling | apps/daemon/src/execution-resolution.ts:145-241 | the converse: whatever the parser accepts is the text of some good line with that meaning |
| ShellSpelling.CharactersAre | apps/daemon/src/execution-resolution.ts:66-76 | the blanks, and the characters that stand for themselves |
| ShellSpelling.ForbiddenIs | apps/daemon/src/execution-resolution.ts:77-79 | the lines refused for what they do: a part that assigns a variable or is a command that changes the shell, in any letter case |
| ShellSpelling.ReadableIs | apps/daemon/src/execution-resolution.ts:145-146 | the lines refused unread: empty, over 8192 characters, or with a line break or a NUL |
| Execution.CanonicalMeans | apps/daemon/src/execution-resolution.ts:243-285 | the canonical spelling is the same invocation and needs no forwarded arguments to be read |
| Execution.ResolveShell | apps/daemon/src/execution-resolution.ts:355-450 | terminates for every manifest; it resolves exactly when every script reached resolves within eight levels and 64 entries, whatever the order; the failure reason is that of the first failure; every entry shows its whole text with, for each invocation, its pre, main and post scripts in order |
| Execution.InvocationShapes | apps/daemon/src/execution-resolution.ts:243-285 | the commands read as invocations, and those that run no script, such as "npm test" and "pnpm install" |
| Execution.ScriptNameIs | apps/daemon/src/execution-resolution.ts:243-285 | a script name is letters, digits and ":._-", with a letter or digit at both ends |
| Execution.FinishedShown | apps/daemon/src/execution-resolution.ts:376-433 | each part of a finished entry is shown: a command that runs no script as read, or an invocation in one spelling over exactly its pre, main and post scripts, in that order and with its arguments |
| Execution.EntryExact | apps/daemon/src/execution-resolution.ts:369-439 | an expansion goes through exactly when everything below it resolves and fits, and uses exactly that many entries |
| Execution.Resolver.Expand | apps/daemon/src/execution-resolution.ts:369-439 | expanding an entry finishes it and every entry it adds, within depth and cap, and changes no other |
| Execution.Resolver.AddScript | apps/daemon/src/execution-resolution.ts:411-436 | a script becomes the next entry, listed last in the part that runs it |
| Execution.ListedOnce | apps/daemon/src/execution-resolution.ts:419-433 | each entry but the first is listed exactly once, by an entry before it |
| Execution.NoInvocationTwice | apps/daemon/src/execution-resolution.ts:384-389 | no manager and script pair repeats along a path from the request |
| Execution.FinishedParts | apps/daemon/src/execution-resolution.ts:376-433 | each part shows a canonical invocation with exactly its pre, main and post scripts, or a command that runs none |
| UsageTally.TallyIsTotal | apps/daemon/src/codex-usage.ts:123-131 | the running sum never exceeds the bucketwise total, and is the total while that is a safe integer |
| UsageTally.TallyGrows | apps/daemon/src/codex-usage.ts:123-131 | another receipt never lowers a bucket |
| UsageTally.TallyBalanced | apps/daemon/src/codex-usage.ts:20-32 | every sum keeps input + output + reasoning = total and cached at most input |
| UsageTally.RememberAppend | apps/daemon/src/codex-usage.ts:112-131 | what a turn remembers after one more receipt is the tally over the distinct receipts within the cap |
| UsageTally.ReplayCountsNothing | apps/daemon/src/codex-usage.ts:116-118 | a replay, whatever usage it claims, counts for nothing |
| UsageTally.Expenditure | apps/daemon/src/codex-usage.ts:20-32 | exactly the reports that add up and have no cache writes count, with every counter kept and reasoning split off the output |
| CodexUsage.SumIsTotal | apps/daemon/src/codex-usage.ts:96-132 | in every reachable state a turn's sum is the total of the distinct receipts credited to it or its children, while that is safe |
| CodexUsage.PublishSound | apps/daemon/src/codex-usage.ts:178-186 | publishing keeps the log orderly: after a sum every observation of that turn is a sum, and no bucket goes down |
| CodexUsage.ObservationIs | apps/daemon/src/codex-usage.ts:178-186 | what an observation carries: the sum once there is one; before any raw receipt the largest snapshot, at once or at the end; else the context alone |
| CodexUsage.SnapshotsAre | apps/daemon/src/codex-usage.ts:134-150 | after any snapshots the fallback is the first of the largest that add up, the context is the last good one, and nothing else changed |
| CodexUsage.EvictSound | apps/daemon/src/codex-usage.ts:159-165 | evicting a turn with the children it lists keeps all links |
| CodexUsage.Accounting.Receipt | apps/daemon/src/codex-usage.ts:96-132 | credits exactly the live turn or the child's root, and publishes exactly when the receipt counted |
| CodexUsage.Accounting.ReceiptMessage | apps/daemon/src/codex-usage.ts:96-111 | the same for a message as it comes in; one without usable identities changes nothing |
| CodexUsage.Accounting.SnapshotMessage | apps/daemon/src/codex-usage.ts:134-150 | only a live turn's context and largest fallback change, and it is published |
| CodexUsage.Accounting.Started | apps/daemon/src/codex-usage.ts:71-94 | an expected turn becomes active if there is room, another the child of the one eligible root it names, a known identity nothing |
| CodexUsage.Accounting.FindRoot | apps/daemon/src/codex-usage.ts:78-85 | the only turn with that turn id, or none when there is none or several |
| CodexUsage.Accounting.Complete | apps/daemon/src/codex-usage.ts:152-167 | publishes, seals last, and when full evicts the oldest with exactly its children |
| CodexUsage.Accounting.Archived | apps/daemon/src/codex-usage.ts:62-66 | completes every live turn of the thread and no other: each is observed a last time, once, and the sealed turns are the newest, unchanged |
| CodexUsage.Accounting.Clear | apps/daemon/src/codex-usage.ts:169-176 | exactly one last observation of each live turn, then nothing is left |
| Utf8Parts.Utf8PartsOf | apps/daemon/src/codex.ts:168-185 | the parts are valid text, non-empty, within the limit, cut at code points, split no escaped tag, and join to the input; each ends after the last line end in its second half, or else at the last code point within reach, but before a tag that would be cut |
| Utf8Parts.PartEndGood | apps/daemon/src/codex.ts:171-181 | every turn of the loop makes progress to a good place |
| Utf8Parts.CutUtf8 | apps/daemon/src/codex.ts:173-175 | valid UTF-8 (section 4 of RFC 3629) cut at a boundary is valid on both sides |
| Utf8Parts.EncodedIsUtf8 | apps/daemon/src/codex.ts:169 | the encoding (section 3 of RFC 3629) of every sequence of scalar values is accepted as text |
| Utf8Parts.Utf8IsEncoded | apps/daemon/src/codex.ts:169 | and nothing else is |
| Utf8Parts.PartEndRule | apps/daemon/src/codex.ts:171-181 | where a part ends, in the bytes themselves |
| Utf8Parts.SmallLimitStalls | apps/daemon/src/codex.ts:173-175 | below a limit of 4 a four-byte code point stalls the loop |

## Left out

- HidePaths: the letter and digit test is a parameter.
- PathHider.StartFor: `comparable` (normalisation and case folding) is the identity, and grapheme boundaries are a parameter.
- PathHider: `literalSpans`, the anchors and loose forms, `replaced`, and decoding of shell words around the search; the search itself is covered for every text, backslashes included.
- PathKeys: paths with `/` and backslash separators as on POSIX; drive letters are not modelled.
- SameSpellings: paths are character sequences; `isAbsolute` is a leading slash.
- EmergencyStops: what a record reads as (its schema and bounds) is a parameter; `recovering` and `stagedLines` only read.
- ReadFields.ReadText: the texts are the well-formed ones; malformed text, which the original refuses with an error, is not read by the model.
- AuditLog: actor columns, text sanitising and the export format.
- LogRecord: the text is already redacted, and the record's framing and time stamp take a fixed number of bytes.
- DaemonLog: permission and ownership checks of files.
- DeviceRegistry: labels, channel keys, timestamps for display, renaming, and row decoding.
- FleetRegistry: the display snapshot and its 512-entry limit, and parsing of stored facts: a row is damaged or not.
- Pairing: one source and one target machine; deadlines are the freedom to stop at any step; the index of known machines is not modelled.
- CliLock: the keychain backend, which stores one record an endpoint under the same lock; publishing the file is one atomic step.
- CredentialRace: a legacy writer that leaves an empty file, directory permissions, and the wording of errors.
- ShellText: lengths count characters, and lower-casing is that of ASCII.
- Execution: scripts are a map, so a script named like a property every JavaScript object inherits ("constructor") is missing here, where the code finds the inherited value.
- Execution.ResolveShell: the redactor is two predicates; reading the manifest, the working directory and the final digest are outside.
- CodexUsage: a shared turn object is referred to by its identity; the order in which `archived` and `clear` visit live turns is left open; warnings are not modelled.
- CodexUsage.Accounting.Receipt: takes identities that passed the string check, as do the snapshot and completion messages; `ReceiptMessage` adds that check.
- FileLine.SavedFilePaths: how a path is shown is a parameter.
- The Claude, ACP and embedded-server adapters, the JSON-RPC transport, `codexGlobsExcept`, secret classification, filesystem walks and deadlines, sockets and keychain workers, configuration, the command line's rendering, and SQL migrations.
