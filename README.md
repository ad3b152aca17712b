# rc_zoho: call processing, reporting and administration, in Dafny

rc_zoho links a RingCentral telephone account to a Zoho CRM account. It has
four parts, each modelled here:

- **Missed calls** (`missed_calls.py`). Each missed call from a known caller
  to a listed extension is turned into a note on an existing lead, or into a
  new lead. New leads are handed out to the configured lead owners in turn.
- **Accepted calls** (`accepted_calls.py`). Accepted calls get their
  recordings downloaded, with an exponential back-off on rate limits, and
  attached to the lead unless that recording is already there.
- **E-mail report** (`utils/email_report.py`). This reads a script's log
  file, extracts its counters and last entries, and composes the report
  e-mail.
- **Admin tool** (`unified_admin.py`). A desktop tool that edits the lead
  owner list and the extension list. It also validates the scheduler form,
  parses recipient fields, merges saved credentials and keeps only active CRM
  users.

The model is written in the source's own form:

- **Pure helpers** are datatypes and functions, with lemmas about them.
- **Loops** in the source become methods with loop invariants. Each is proved
  equal to a specification function, and the properties are proved as lemmas
  about that function.
- **The two admin tabs** are classes. Their methods update the fields in
  place.

The project has one module per file:

- `Wrappers`: Option and Result.
- `Text`: strip, split, join, lower-casing and `int()`.
- `Clock`: calendar, `strftime` and `strptime` layouts, and hour arithmetic.
- `Records`: the JSON records as the scripts read them.
- `Common`: `get_date_range`.
- `MissedCalls`.
- `AcceptedCalls`.
- `EmailReport`.
- `AdminHelpers`.
- `AdminExtensions`.
- `AdminOwners`.

Everything outside the process is a parameter of the model:

- **HTTP replies**: a reply value, or a function from attempt number to reply.
- **The clock**: `now`.
- **Files**: their text, or an absent/broken marker.
- **Message-box answers**: a boolean.

## Model

| member | source | states |
|---|---|---|
| Common.GetDateRange | common.py:188-201 | Both bounds given and non-empty: they are returned untouched. Otherwise the end reads back as `now`, the start reads back as a time exactly `hours_back` hours earlier (24 when `hours_back` is missing or 0), and an overflow is the only error. |
| Common.OneBoundIgnored | common.py:190-191 | A single given bound is ignored: the result is the computed window. |
| Common.DefaultIsTwentyFourHours | common.py:193-201 | `hours_back` of None or 0 gives the same window as 24. |
| Common.NegativeHoursInvertWindow | common.py:193-196 | A negative `hours_back` is accepted and puts the start after the end. |
| Clock.AddHours | common.py:195 | Adding hours gives a valid date whose seconds count moved by exactly that many hours, or fails exactly when the result would fall outside years 1 to 9999 (before year 1, or after 9999; `get_date_range` reaches past 9999 only through a negative `hours_back`, since it subtracts). |
| Clock.FromToSeconds | common.py:195 | Converting a valid date to seconds and back is the identity. |
| Clock.ParseFormat | common.py:196 | A valid date printed as "%Y-%m-%d %H:%M:%S" parses back to itself. |
| Clock.FormatLayout | missed_calls.py:191 | The printed timestamp has 19 characters, with its separators at fixed positions. |
| Clock.FormatCompactLayout | accepted_calls.py:287 | The "%Y%m%d_%H%M%S" form has 15 characters, with '_' at position 8. |
| Clock.Pad2Digits | unified_admin.py:1749-1759 | A two-digit field is two digits that read back as the number. |
| Text.ParseIntOfString | unified_admin.py:1956 | `int()` of a printed integer gives the integer back. |
| Text.SplitJoin | unified_admin.py:2331-2332 | Splitting comma-joined comma-free pieces gives the pieces back. |
| Text.JoinSplit | unified_admin.py:2331-2332 | Joining the pieces of a split gives the text back. |
| MissedCalls.LoadExtensions | missed_calls.py:373-397 | A missing or malformed file gives no ids and no names. Otherwise it gives the listed ids and the id-to-name map. |
| MissedCalls.ExtensionIdsMembership | missed_calls.py:386 | An id is listed exactly when some entry has a truthy id whose text it is. |
| MissedCalls.ExtensionNamesKeys | missed_calls.py:387-388 | The name map has a key exactly for the entries that have both an id and a name. |
| MissedCalls.ExtensionNamesLastWins | missed_calls.py:387-388 | For duplicate ids, the last named entry's name is kept. |
| MissedCalls.NamedIdsAreListed | missed_calls.py:386-388 | Every key of the name map is also a listed id. |
| MissedCalls.CallTime | missed_calls.py:187-198 | The note time is the call's start time when it parses, and `now` otherwise. |
| MissedCalls.LeadActions | missed_calls.py:185-229 | A lead found by the function's own phone search gets exactly one note, on that lead. No lead found creates one lead, and only outside a dry run. A create always comes first. The creation note is stated by `LeadActionsAfterCreate`. |
| MissedCalls.LeadActionsAfterCreate | missed_calls.py:219-226 | With no lead found, a dry run issues nothing. A live run creates the lead. It then posts "New lead created from missed call received on <call time>." on the new lead exactly when the create returned an id. |
| MissedCalls.CreateOrUpdateLead | missed_calls.py:171-229 | A caller without a number does nothing. With a number, a missing `to` side raises; otherwise the requests are exactly the lead actions for that call. A dry run never creates a lead. |
| MissedCalls.NumericExtensionIdIsUnknownSource | missed_calls.py:180 | A numeric `to` extension id is never found in the string-keyed name map, so the lead source falls back to the default. |
| MissedCalls.Classify | missed_calls.py:451-461 | A call is kept exactly when it has a from-number, a `to` side and a listed extension. It fails exactly when it has a from-number but no `to` side. |
| MissedCalls.KeptIndicesSpec | missed_calls.py:447-461 | The kept positions are exactly the calls classified Keep, in increasing order. |
| MissedCalls.HandleRecord | missed_calls.py:449-478 | Handling one record gives the same progress or failure as the one-record step function. |
| MissedCalls.ProcessMissedCalls | missed_calls.py:431-488 | The loop returns what the specification function gives: no call logs, an exception at the first failing record, or the final statistics and handled calls. |
| MissedCalls.RunStopsAtFailure | missed_calls.py:457-461 | Once a record raises, processing stops there with that failure. |
| MissedCalls.NoCallsNoStats | missed_calls.py:433-435 | Processing ends with "no call logs" exactly when there are no calls. |
| MissedCalls.StatsAddUp | missed_calls.py:438-478 | Total is the number of calls, processed plus skipped is the total, and existing plus new leads is processed. |
| MissedCalls.ProcessedAreKept | missed_calls.py:447-478 | After a full run, every call with a number had a `to` side. A call is handled exactly when it has a number and a listed extension, and the handled calls keep their order. |
| MissedCalls.RoundRobinOwners | missed_calls.py:474 | The k-th handled call goes to owner k mod the number of owners. |
| MissedCalls.ExistingFollowsSearch | missed_calls.py:467-471 | A handled call counts as existing exactly when the loop's own phone search found a lead. |
| MissedCalls.CountedExistingButCreated | missed_calls.py:185-478 | The two phone searches are independent: a call counted as existing still gets a new lead when the second search finds nothing. |
| MissedCalls.DryRunCreatesNoLead | missed_calls.py:477-478 | A dry run issues no create-lead action. |
| MissedCalls.DryRunStillPostsNote | missed_calls.py:200-204 | As written, a dry run still posts a note on a found lead. |
| MissedCalls.LeadActionsIntended | missed_calls.py:501-502 | Corrected: a dry run issues no request at all, and a live run issues the written ones. |
| MissedCalls.LeadActionsIntendedDropsDryRunNotes | missed_calls.py:200-229 | In a dry run, the written requests are only notes, present exactly when a lead was found, and the corrected ones are none. |
| MissedCalls.DryRunSameRun | missed_calls.py:447-478 | After any number of records, a dry run and a live run both continue or both raise the same failure at the same record, with the same counters. |
| MissedCalls.DryRunSameStats | missed_calls.py:438-485 | A dry run finishes exactly when a live run does, with the same statistics. |
| MissedCalls.RunBalanced | missed_calls.py:447-478 | At every prefix, the counters match the calls handled so far and the owner assignment is round robin. |
| AcceptedCalls.GetRecordingContent | accepted_calls.py:166-203 | The retry loop returns what the specification function gives for the same replies. |
| AcceptedCalls.FetchContract | accepted_calls.py:176-203 | With a token: one to five requests. Every request but the last was rate limited. A recording comes back exactly when the last answer was 200, with that answer's content and type. There is one sleep per rate limit, the k-th lasting 2^k seconds. Giving up before the fifth request means the last answer was not a rate limit. |
| AcceptedCalls.FetchLoopRequests | accepted_calls.py:180-200 | Resumed after rate-limited answers, the loop stays within five requests. Every answer but the last was a rate limit, and a recording comes back exactly when the last answer was 200. |
| AcceptedCalls.FetchLoopSleeps | accepted_calls.py:189-192 | One sleep per rate-limited answer, the k-th lasting 2^k seconds. |
| AcceptedCalls.GaveUpStopsOnlyWhenNotRateLimited | accepted_calls.py:193-203 | The loop ends early only on a reply that is not a rate limit. |
| AcceptedCalls.NoTokenNoRequest | accepted_calls.py:168-169 | Without an access token, no request is made. |
| AcceptedCalls.FiveRateLimits | accepted_calls.py:176-203 | Five rate limits in a row give up after five requests and 31 seconds of sleeping. |
| AcceptedCalls.IsRecordingAlreadyAttached | accepted_calls.py:243-268 | The scan returns what the specification function gives for the listing. |
| AcceptedCalls.ScanSpecMeaning | accepted_calls.py:256-261 | Attached exactly when some file name before the first null name contains the recording id. |
| AcceptedCalls.AttachedBySubstring | accepted_calls.py:256-264 | With a 200 listing free of nulls: attached exactly when some name contains the id. |
| AcceptedCalls.FailedListingNotAttached | accepted_calls.py:262-268 | A non-200 or failed listing counts as not attached. |
| AcceptedCalls.Subtype | accepted_calls.py:295 | A missing content type is an error. A found subtype contains no '/'. Which piece is found is stated by `SubtypeAfterFirstSlash`. |
| AcceptedCalls.SubtypeAfterFirstSlash | accepted_calls.py:295 | For any content type with a '/', the subtype is the text after the first '/' up to the next '/' or the end. |
| AcceptedCalls.SubtypeOfContentType | accepted_calls.py:295 | "kind/subtype" yields the subtype. |
| AcceptedCalls.ContentTypeWithoutSlashRaises | accepted_calls.py:295 | A content type without '/' raises. |
| AcceptedCalls.FileNameFromContentType | accepted_calls.py:287-295 | The attachment name is the compact call time, then "_recording_", then the id, '.', and the subtype. |
| AcceptedCalls.AttachDecision | accepted_calls.py:270-323 | No recording id gives the "No recording was available" note. Already attached: skipped. Given up or empty content gives the "could not be retrieved" note. Otherwise the file is named from the call time, id and subtype. The upload is accepted exactly on status 200, 201 or 202. Any other status, or an upload exception, gives the "Failed to attach" note with that status or that message and does not raise. Each note's text is stated. A download without a token raises `DownloadWithoutToken`, and a bad content type raises the error the subtype gives: `NoContentType` or `NoSubtype`. |
| AcceptedCalls.AttachRecordingToLead | accepted_calls.py:270-323 | Downloads happen only for a recording that is not yet attached. The outcome is the decision function's. |
| AcceptedCalls.ProcessAcceptedCalls | accepted_calls.py:422-447 | The loop returns what the specification function gives: nothing to process without calls, an error at the first kept call when there are no owners, else the round-robin assignments. |
| AcceptedCalls.AcceptedIndicesSpec | accepted_calls.py:433-441 | The handled positions are exactly the accepted calls to listed extensions, in increasing order. |
| AcceptedCalls.AcceptedIndicesGrow | accepted_calls.py:429-441 | Looking at more calls only extends the handled list. |
| AcceptedCalls.FirstAcceptedIndex | accepted_calls.py:429-444 | The first handled call is the first accepted one. |
| AcceptedCalls.AcceptedRoundRobin | accepted_calls.py:429-447 | The k-th handled call is accepted, to a listed extension, and goes to owner k mod the number of owners. |
| AcceptedCalls.RoundRobin | accepted_calls.py:444 | Assignment k pairs the k-th index with owner k mod the number of owners. |
| EmailReport.ValidateScriptType | utils/email_report.py:55-57 | Accepted exactly when the lower-cased name is one of the two script names; the stored name is the lower-cased one. |
| EmailReport.ScriptNameValidates | utils/email_report.py:55-57 | Any letter case of a script name validates to that script. |
| EmailReport.StoredNameValidates | utils/email_report.py:55-57 | A stored script name validates again to the same script. |
| EmailReport.ResolveRecipients | utils/email_report.py:64-120 | The caller's non-empty list wins. A loaded config gives its entry for the script. Otherwise the default list is used. |
| EmailReport.ResolveSmtp | utils/email_report.py:68-118 | An override wins. Otherwise a loaded config gives its own settings, or the defaults when it has none. A missing or broken config gives the defaults. |
| EmailReport.NewReporter | utils/email_report.py:44-76 | Construction fails exactly on an invalid script type. It keeps the lower-cased type, the dry-run flag and the hours back, with the resolved recipients and SMTP settings. |
| EmailReport.RecipientPrecedence | utils/email_report.py:64-120 | A missing or broken file gives the default list. A loaded file without a recipients section gives none. Given recipients ignore the file. |
| EmailReport.DigitRun | utils/email_report.py:214-220 | `\d+` matches the maximal run of digits. |
| EmailReport.SearchFromPosition | utils/email_report.py:253-285 | A found capture is the one at the leftmost matching position. |
| EmailReport.SearchFromNone | utils/email_report.py:253-285 | No capture found means the pattern matches nowhere. |
| EmailReport.CounterIsFirstMatch | utils/email_report.py:253-285 | A counter is the value of the leftmost match, and 0 when there is none. |
| EmailReport.ParenthesisBranchUnreachable | utils/email_report.py:265-273 | The '(' test never fires, because the capture is digits only. |
| EmailReport.DryRunLineCapture | utils/email_report.py:217 | On the dry-run summary line, the pattern captures "0". |
| EmailReport.DryRunLineUnmarked | utils/email_report.py:221-229 | The dry-run summary line does not contain the dry-run marker. |
| EmailReport.DryRunLineNotFlagged | utils/email_report.py:265-273 | As written, the dry-run summary line reads as 0 new leads and no dry run. |
| EmailReport.NewLeadsIntended | utils/email_report.py:265-273 | The corrected reading gives 0 or the first-match count. |
| EmailReport.NewLeadsIntendedFlagsDryRun | utils/email_report.py:265-273 | The corrected reading flags the dry-run line and agrees with the original on plain lines. |
| EmailReport.LastEntries | utils/email_report.py:292 | Keeps min(n, 50) entries, the latest ones. |
| EmailReport.LogLinesMembership | utils/email_report.py:288-291 | A line is kept exactly when it has an INFO, WARNING or ERROR marker. |
| EmailReport.LogEntriesKept | utils/email_report.py:288-292 | At most 50 entries, all of them when there are few enough, the latest in log order, each marked and from the file. |
| EmailReport.ParseLogFile | utils/email_report.py:186-298 | No path or no file gives no statistics. A file that cannot be read gives the initial statistics, all counters 0 and no entries. Otherwise it gives the counters, the dry-run flag and the entries the specification function computes. |
| EmailReport.DryRunFlagFromMarkerOnly | utils/email_report.py:221-273 | The new-leads counter reads like the others. Only the marker line sets the dry-run flag. |
| EmailReport.ClassOf | utils/email_report.py:495-502 | An entry's class is a warning if it has the warning marker, else an error if it has the error marker, else info. |
| EmailReport.GenerateReport | utils/email_report.py:300-311 | No statistics gives no report. Otherwise it gives the title and every entry in order, with its class. |
| EmailReport.SendEmailReport | utils/email_report.py:527-564 | A message is composed exactly when the report exists, there are recipients and the SMTP settings are complete. It is addressed to the recipients from the configured sender, under the report subject. A missing report, no recipients and incomplete SMTP settings are told apart, each exactly in its own case and in that order. |
| EmailReport.SubjectMarksDryRun | utils/email_report.py:553-559 | The subject ends in " (DRY RUN)" exactly in dry-run mode. |
| EmailReport.ConfigWithoutEntryStopsSending | utils/email_report.py:533-536 | A config file without an entry for the script stops sending for lack of recipients. |
| AdminHelpers.KeptRecipientsWellFormed | unified_admin.py:2331-2332 | Every kept piece is non-empty, stripped and comma-free. |
| AdminHelpers.ParsedRecipientsWellFormed | unified_admin.py:2331-2332 | Every parsed recipient is well formed. |
| AdminHelpers.KeptWellFormed | unified_admin.py:2331-2332 | Well-formed pieces pass the filter unchanged. |
| AdminHelpers.RecipientsRoundTrip | unified_admin.py:2331-2332 | Parsing well-formed recipients joined with commas gives them back. |
| AdminHelpers.EmptyFieldNoRecipients | unified_admin.py:2331-2332 | An empty field gives no recipients. |
| AdminHelpers.BlankPiecesDropped | unified_admin.py:2331-2332 | Blank pieces are dropped. |
| AdminHelpers.GenerateBatchFile | unified_admin.py:1947-1989 | A batch name is produced exactly when a script is chosen, hours back is a positive integer, a day is ticked, custom recipients are not blank and the script is known. The name is `run_<script>_<HH><MM>.bat`. |
| AdminHelpers.BatchNameEncodesTime | unified_admin.py:1989 | The name starts "run_" and the script, ends ".bat", and its HHMM digits read back as the hour and minute. |
| AdminHelpers.HoursBackRejected | unified_admin.py:1955-1961 | A zero, negative or unparsable hours-back is refused. |
| AdminHelpers.MergeCredentials | unified_admin.py:106-113 | The saved keys are the old, the new and "timestamp". New values win, other old values stay, and the timestamp is the save time. |
| AdminHelpers.MergeIdempotent | unified_admin.py:109-113 | Saving the same credentials twice at the same time stores the same map. |
| AdminHelpers.LaterSaveWins | unified_admin.py:109-113 | A later save overrides the keys it carries and keeps the others. |
| AdminHelpers.ActiveUsersMembership | unified_admin.py:317 | Exactly the users whose status is "active" are kept. |
| AdminHelpers.ActiveUsersOfActive | unified_admin.py:317 | A list of active users is kept unchanged. |
| AdminHelpers.ActiveUsersIdempotent | unified_admin.py:317 | Filtering twice is filtering once. |
| AdminExtensions.ExtensionsTab.constructor | unified_admin.py:709-728 | The tab starts with the stored extensions listed and the unconfigured queues offered. |
| AdminExtensions.ExtensionsTab.LoadAvailableQueues | unified_admin.py:808-825 | Offers exactly the fetched queues whose id is not configured; nothing else changes. |
| AdminExtensions.ExtensionsTab.LoadExistingExtensions | unified_admin.py:827-836 | Lists the configured extensions; nothing else changes. |
| AdminExtensions.ExtensionsTab.AddSelectedQueues | unified_admin.py:838-865 | Appends the selected queues that are not yet configured. When something was added, both lists are redrawn; otherwise nothing changes. |
| AdminExtensions.ExtensionsTab.ChosenRows | unified_admin.py:875-879 | The chosen rows are the selected positions of the list. |
| AdminExtensions.ExtensionsTab.RemoveSelectedExtensions | unified_admin.py:867-887 | Without a selection nothing changes. Otherwise every configured extension whose id was chosen is removed, and the lists are redrawn. |
| AdminExtensions.UnconfiguredMembership | unified_admin.py:815-825 | A queue is offered exactly when it was fetched and its id is not configured. |
| AdminExtensions.AddQueuesKeepsPrefix | unified_admin.py:838-865 | Adding keeps the existing extensions as a prefix. |
| AdminExtensions.AddQueuesKeepsIdsUnique | unified_admin.py:855-858 | Adding keeps extension ids unique. |
| AdminExtensions.AddQueuesFromSelection | unified_admin.py:846-858 | Every added extension comes from a selected row and has an id that was not configured before. |
| AdminExtensions.KeepOthersMembership | unified_admin.py:883 | The filter keeps exactly the extensions whose id is not in the set. |
| AdminExtensions.WithoutIdOfKeepOthers | unified_admin.py:882-883 | Removing ids one by one is the same as one filter on the union of the ids. |
| AdminExtensions.WithoutEachIsOneFilter | unified_admin.py:882-883 | Removing each chosen extension in turn keeps exactly the others. |
| AdminExtensions.KeepNothingRemoved | unified_admin.py:883 | Filtering on no ids changes nothing. |
| AdminExtensions.RemovalMeaning | unified_admin.py:867-887 | An extension survives removal exactly when its id was not chosen. |
| AdminOwners.OwnerRows | unified_admin.py:1068-1075 | One row per owner, "name (email)", marked " [Not Saved]" when the owner is unsaved. |
| AdminOwners.OwnerIdsAppend | unified_admin.py:1181-1182 | Appending an owner adds its id. |
| AdminOwners.FirstWithText | unified_admin.py:1135-1138 | Finds an owner with that row text, or reports that no owner has it. That it is the first such owner is stated by `FirstWithTextIsFirst`. |
| AdminOwners.FirstWithTextIsFirst | unified_admin.py:1135-1138 | The owner found sits at a position before which no owner shows that text. |
| AdminOwners.RemoveFirst | unified_admin.py:1146 | `list.remove` drops exactly one occurrence. Which one is stated by `RemoveFirstAt`. |
| AdminOwners.RemoveFirstAt | unified_admin.py:1146 | The entry dropped is the first one equal to the owner. Every other owner stays, in its order. |
| AdminOwners.RemoveInTurn | unified_admin.py:1145-1148 | Removes the matched owners in turn until one is missing. Each removed id is marked unsaved and deselected. |
| AdminOwners.LeadOwnersTab.constructor | unified_admin.py:900-923 | The tab starts with the stored owners shown unmarked, the users that are not owners offered, and nothing selected or unsaved. |
| AdminOwners.LeadOwnersTab.LoadUsers | unified_admin.py:1039-1056 | Offers the fetched users that are not owners; nothing else changes. |
| AdminOwners.LeadOwnersTab.LoadLeadOwners | unified_admin.py:1068-1075 | Redraws the owner rows with the unsaved marks; nothing else changes. |
| AdminOwners.LeadOwnersTab.AddSelectedUsers | unified_admin.py:1162-1191 | Appends the selected users not yet owners. Their ids become unsaved, and the rows are redrawn. |
| AdminOwners.LeadOwnersTab.MatchSelected | unified_admin.py:1130-1138 | The matched owners are, for each selected row, the first owner with that text. |
| AdminOwners.LeadOwnersTab.RemoveMatched | unified_admin.py:1144-1148 | Removes the matched owners in turn. The removed ids are unsaved and deselected. |
| AdminOwners.LeadOwnersTab.RemoveSelectedOwners | unified_admin.py:1123-1160 | No selection, or no match: nothing changes. A failed `remove` raises after a partial removal, without a redraw. Otherwise every matched owner is removed and the rows are redrawn. |
| AdminOwners.LeadOwnersTab.SaveChanges | unified_admin.py:1204-1214 | A successful save clears the unsaved marks; nothing else changes. |
| AdminOwners.LeadOwnersTab.RefreshData | unified_admin.py:1193-1202 | As written: refreshes only without unsaved changes or after a yes. The owner list is kept, the rows are drawn with the old marks, and then the marks are cleared. |
| AdminOwners.LeadOwnersTab.RefreshDataDiscarding | unified_admin.py:1193-1202 | Corrected: a confirmed refresh reloads the stored owners, clears the marks, and redraws unmarked rows. |
| AdminOwners.MarkedRowIsNoOwnerText | unified_admin.py:1071-1074 | A row marked " [Not Saved]" equals no owner's text. |
| AdminOwners.UnsavedRowMatchesNothing | unified_admin.py:1134-1138 | Selecting an unsaved owner's row finds no owner. |
| AdminOwners.UnsavedSelectionFindsNothing | unified_admin.py:1130-1142 | When every owner is unsaved, no selection matches any owner. |
| AdminOwners.SharedTextRemovalRaises | unified_admin.py:1132-1148 | Two owners with the same text, both selected: the first is matched twice, and the second removal raises. |
| AdminOwners.StaleMarksAfterRefresh | unified_admin.py:1195-1202 | After the refresh as written, an unsaved owner's row still carries the " [Not Saved]" mark. |
| AdminOwners.NotOwnersMembership | unified_admin.py:1046-1051 | A user is offered exactly when its id is not an owner's. |
| AdminOwners.AddUsersKeepsIdsUnique | unified_admin.py:1175-1181 | Adding keeps the existing owners as a prefix, and owner ids unique. |
| AdminOwners.RemoveFromAccounts | unified_admin.py:1145-1146 | The owners left, plus the matched ones not yet removed, are the original multiset. |
| AdminOwners.RemoveEachAccounts | unified_admin.py:1145-1146 | When every removal succeeds, the remaining owners plus the matched ones are the original multiset. |

## Left out

**The outside world: I/O and libraries**
- HTTP, OAuth and token refresh are left out. Replies are parameters: a reply value, or a function from attempt number to reply.
- The Tk widgets and message boxes are left out. Selections, entries and answers are parameters.
- File reading and writing are left out, and so are log writing, the creation of a default e-mail config file and directory creation. A file is its text or an absent/broken marker.
- SMTP delivery is left out, and so is the HTML body of the report. `EmailReport.SendEmailReport` stops at the composed message.
- Fernet encryption and JSON serialisation of credentials are left out. Credential values are modelled as strings.
- `time.sleep` is not modelled as a wait. Only the recorded durations are kept.
- `run_script`, `find_latest_log` and the command-line entry points are not part of this model.

**Text handling**
- Only ASCII letters are lower-cased, `\d` is the ASCII digits, and `splitlines` is split on '\n' only.
- `int()` is modelled on ASCII digits, an optional sign, underscores between digits and surrounding whitespace. The digit-count limit is not modelled.
- `Clock.ParseTimestamp` is `strptime` for zero-padded fields only.
- `fromisoformat` with offsets and microseconds is modelled as a start time that is already parsed or unparsable. Time zones are not modelled.

**Partial models**
- MissedCalls.ProcessMissedCalls: one `now` is used for every call of a run. The source reads the clock again for each lead it creates (missed_calls.py:197), so the stamps in the lead descriptions may differ by call there.
- AcceptedCalls.ProcessAcceptedCalls: configured extension ids are held as strings. The source compares the raw JSON ids (accepted_calls.py:505), so an id stored as a number in the extensions file never matches a string `to.extensionId` from the call log; the model cannot express that mismatch.
- EmailReport.ParseLogFile: the start time, end time, duration and date range are not extracted. Only the counters, the dry-run flag and the entries are.
- EmailReport.ParseLogFile: the exception raised by `strptime` on a matched start and end line whose stamps are not valid dates (utils/email_report.py:241-243) is not modelled. The source then returns all counters 0, while the model reads the counters as usual.
- EmailReport.ResolveSmtp: an empty-dict override is not distinguished from a missing one.

**Operations not modelled**
- The admin tool's `load_roles`, `select_by_role` and `clear_selection` are left out. So is `mark_existing`: at construction it selects nothing in the model.
- The re-selection of the users list after a removal (unified_admin.py:1153-1158) is left out. It only affects widget highlighting.
- `ExtensionsTab.save_changes` and the storage of the lead owners and extensions are left out, beyond `SaveChanges`'s success flag.
- `AcceptedCalls.IsRecordingAlreadyAttached`: a listing whose `data` is null is modelled as an empty listing.
- AcceptedCalls.ProcessAcceptedCalls: each kept call is recorded as an assignment to its owner, not processed further. The per-call method it invokes (accepted_calls.py:447) is not defined on the Zoho client class in accepted_calls.py, so what it would do is not modelled.

## Findings

| source | as written | input that shows it | evidently intended | confidence | as-written member | corrected member |
|---|---|---|---|---|---|---|
| utils/email_report.py:265-273 | The new-leads pattern captures `(\d+)`, so the captured text never holds '('. A dry-run summary line, written by missed_calls.py:485, therefore reads as 0 new leads and is not flagged. No script writes the "Running in dry run mode" marker either. | the log line "New leads created: 0 (dry run)" | the report of a dry run is flagged as one | not executed | EmailReport.DryRunLineNotFlagged | EmailReport.NewLeadsIntendedFlagsDryRun |
| unified_admin.py:1193-1202 | After the user agrees to discard unsaved changes, `refresh_data` keeps the edited owner list. It also redraws the rows before clearing the unsaved set, so the " [Not Saved]" marks stay visible. | one unsaved owner, refresh confirmed | the stored owners are reloaded and the rows are shown unmarked | not executed | AdminOwners.StaleMarksAfterRefresh | AdminOwners.LeadOwnersTab.RefreshDataDiscarding |
| missed_calls.py:200-204 | `create_or_update_lead` guards only the lead creation with the dry-run flag. When the phone search finds a lead, it posts a note to it even in a dry run. | a dry run on a call whose phone search finds a lead | a dry run makes no change to the CRM, as the `--dry-run` help text says (missed_calls.py:501-502) | not executed | MissedCalls.DryRunStillPostsNote | MissedCalls.LeadActionsIntended |
