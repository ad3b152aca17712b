/**
 * utils/email_report.py: the report sender's configuration, the parsing of
 * a run's log file into statistics, the colour class of each log entry,
 * and the checks made before an e-mail is composed.
 *
 * Files, the file's modification time, the current date and SMTP are
 * parameters or left out; the log file is its text.
 */
module EmailReport {
  import opened Wrappers
  import opened Text
  import opened Clock

  // ---------------------------------------------------------------------
  // EmailReporter.__init__ and load_email_config
  // ---------------------------------------------------------------------

  /** The two scripts a report can be about. */
  datatype ScriptType = AcceptedScript | MissedScript
  {
    /** The lower-case name the script type is stored as. */
    function Name(): string {
      if this == AcceptedScript then "accepted_calls" else "missed_calls"
    }

    /** The script's name in report titles and e-mail subjects. */
    function Title(): string {
      if this == AcceptedScript then "Accepted Calls" else "Missed Calls"
    }
  }

  datatype InitError = InvalidScriptType

  /** `script_type.lower()` must then be one of the two script names. */
  function ValidateScriptType(scriptType: string): (r: Result<ScriptType, InitError>)
    ensures r.Ok? <==> Lower(scriptType) == "accepted_calls" || Lower(scriptType) == "missed_calls"
    ensures r.Ok? ==> r.value.Name() == Lower(scriptType)
  {
    var lowered := Lower(scriptType);
    if lowered == "accepted_calls" then Ok(AcceptedScript)
    else if lowered == "missed_calls" then Ok(MissedScript)
    else Err(InvalidScriptType)
  }

  /** A script's own name validates to that script, in any letter case. */
  lemma ScriptNameValidates(t: ScriptType, s: string)
    requires Lower(s) == t.Name()
    ensures ValidateScriptType(s) == Ok(t)
  {
  }

  /** Lower-casing is idempotent on the names, so the stored name validates again. */
  lemma StoredNameValidates(t: ScriptType)
    ensures ValidateScriptType(t.Name()) == Ok(t)
  {
    var n := t.Name();
    assert Lower(n) == n by {
      forall i | 0 <= i < |n|
        ensures LowerChar(n[i]) == n[i]
      {
        assert n[i] == '_' || 'a' <= n[i] <= 'z';
      }
    }
  }

  /** The SMTP settings the sender reads; each is absent, or a text value. */
  datatype Smtp = Smtp(server: Option<string>, username: Option<string>, password: Option<string>,
                       fromAddress: Option<string>)

  const DefaultSmtp := Smtp(Some("smtp.example.com"), Some("your_username"), Some("your_password"),
                            Some("no-reply@example.com"))
  const DefaultRecipients: seq<string> := ["user1@example.com"]

  /**
   * data/email_config.json: missing (a default file is then written), not
   * loadable, or loaded with optional `smtp_settings` and `recipients` keys.
   */
  datatype ConfigFile =
    | ConfigMissing
    | ConfigBroken
    | ConfigLoaded(smtp: Option<Smtp>, recipients: Option<map<string, seq<string>>>)

  /** A configured report sender. */
  datatype Reporter = Reporter(scriptType: ScriptType, recipients: seq<string>, smtp: Smtp, dryRun: bool,
                               hoursBack: int)

  /** `config.get('recipients', {}).get(script_type, [])`. */
  function ConfiguredRecipients(recipients: Option<map<string, seq<string>>>, t: ScriptType): seq<string> {
    if recipients.Some? && t.Name() in recipients.value then recipients.value[t.Name()] else []
  }

  /** The recipient list: the caller's when non-empty, else the file's entry, else the default list. */
  function ResolveRecipients(given: seq<string>, config: ConfigFile, t: ScriptType): (r: seq<string>)
    ensures given != [] ==> r == given
    ensures given == [] && config.ConfigLoaded? ==> r == ConfiguredRecipients(config.recipients, t)
    ensures given == [] && !config.ConfigLoaded? ==> r == DefaultRecipients
  {
    if given != [] then given
    else match config
      case ConfigLoaded(_, recipients) => ConfiguredRecipients(recipients, t)
      case _ => DefaultRecipients
  }

  /** The SMTP settings: a non-empty override, else the file's, else the defaults. */
  function ResolveSmtp(smtpOverride: Option<Smtp>, config: ConfigFile): (r: Smtp)
    ensures smtpOverride.Some? ==> r == smtpOverride.value
    ensures smtpOverride.None? && !config.ConfigLoaded? ==> r == DefaultSmtp
    ensures smtpOverride.None? && config.ConfigLoaded? ==> r == config.smtp.GetOr(DefaultSmtp)
  {
    if smtpOverride.Some? then smtpOverride.value
    else match config
      case ConfigLoaded(smtp, _) => smtp.GetOr(DefaultSmtp)
      case _ => DefaultSmtp
  }

  /** `EmailReporter(script_type, recipients, smtp_settings, dry_run, hours_back)` reading `config`. */
  function NewReporter(scriptType: string, recipients: seq<string>, smtpOverride: Option<Smtp>, dryRun: bool,
                       hoursBack: int, config: ConfigFile): (r: Result<Reporter, InitError>)
    ensures r.Ok? <==> ValidateScriptType(scriptType).Ok?
    ensures r.Ok? ==> r.value.scriptType.Name() == Lower(scriptType) && r.value.dryRun == dryRun
    ensures r.Ok? ==> r.value.recipients == ResolveRecipients(recipients, config, r.value.scriptType)
    ensures r.Ok? ==> r.value.smtp == ResolveSmtp(smtpOverride, config) && r.value.hoursBack == hoursBack
  {
    match ValidateScriptType(scriptType)
    case Err(e) => Err(e)
    case Ok(t) => Ok(Reporter(t, ResolveRecipients(recipients, config, t), ResolveSmtp(smtpOverride, config),
                              dryRun, hoursBack))
  }

  /**
   * A missing or unreadable config file falls back to the default list,
   * but a loaded file without an entry for the script yields no recipients.
   */
  lemma RecipientPrecedence(t: ScriptType, given: seq<string>, smtp: Option<Smtp>,
                            recipients: Option<map<string, seq<string>>>)
    ensures ResolveRecipients([], ConfigMissing, t) == ResolveRecipients([], ConfigBroken, t) == DefaultRecipients
    ensures recipients.None? ==> ResolveRecipients([], ConfigLoaded(smtp, recipients), t) == []
    ensures given != [] ==> forall c: ConfigFile :: ResolveRecipients(given, c, t) == given
  {
  }

  // ---------------------------------------------------------------------
  // parse_log_file: searching the log text
  // ---------------------------------------------------------------------

  /** The length of the run of digits starting at `i`: `\d+` matches greedily. */
  function DigitRun(s: string, i: nat): (n: nat)
    requires i <= |s|
    ensures i + n <= |s|
    ensures forall k | i <= k < i + n :: IsDigit(s[k])
    ensures i + n == |s| || !IsDigit(s[i + n])
    decreases |s| - i
  {
    if i < |s| && IsDigit(s[i]) then 1 + DigitRun(s, i + 1) else 0
  }

  /**
   * A pattern `(label1|label2|...)(\d+)` tried at position `i`, alternatives
   * in order: the captured digits of the first alternative that matches.
   */
  function CaptureAt(s: string, labels: seq<string>, i: nat): (r: Option<string>)
    requires i <= |s|
    ensures r.Some? ==> |r.value| >= 1 && AllDigits(r.value)
  {
    if |labels| == 0 then None
    else
      var first := labels[0];
      if OccursAt(s, first, i) && DigitRun(s, i + |first|) > 0
      then Some(s[i + |first|..i + |first| + DigitRun(s, i + |first|)])
      else CaptureAt(s, labels[1..], i)
  }

  /** `re.search` from position `i` on: the capture at the leftmost position where the pattern matches. */
  function SearchFrom(s: string, labels: seq<string>, i: nat): (r: Option<string>)
    requires i <= |s|
    ensures r.Some? ==> |r.value| >= 1 && AllDigits(r.value)
    decreases |s| - i
  {
    match CaptureAt(s, labels, i)
    case Some(d) => Some(d)
    case None => if i == |s| then None else SearchFrom(s, labels, i + 1)
  }

  function Search(s: string, labels: seq<string>): Option<string> {
    SearchFrom(s, labels, 0)
  }

  /** A found capture sits at a position where the pattern matches and before which it matches nowhere. */
  lemma {:induction false} SearchFromPosition(s: string, labels: seq<string>, i: nat) returns (p: nat)
    requires i <= |s| && SearchFrom(s, labels, i).Some?
    ensures i <= p <= |s| && CaptureAt(s, labels, p) == SearchFrom(s, labels, i)
    ensures forall q | i <= q < p :: CaptureAt(s, labels, q).None?
    decreases |s| - i
  {
    if CaptureAt(s, labels, i).Some? {
      p := i;
    } else {
      p := SearchFromPosition(s, labels, i + 1);
    }
  }

  /** When nothing is found, the pattern matches at no position. */
  lemma {:induction false} SearchFromNone(s: string, labels: seq<string>, i: nat)
    requires i <= |s| && SearchFrom(s, labels, i).None?
    ensures forall q | i <= q <= |s| :: CaptureAt(s, labels, q).None?
    decreases |s| - i
  {
    if i < |s| {
      SearchFromNone(s, labels, i + 1);
    }
  }

  /** A counter: `int(match.group(n))` of the first match, or 0 without one. */
  function Counter(s: string, labels: seq<string>): (r: nat) {
    match Search(s, labels)
    case None => 0
    case Some(d) => DigitsValue(d)
  }

  /** A counter is the value of the leftmost match of its pattern, and 0 when the pattern matches nowhere. */
  lemma CounterIsFirstMatch(s: string, labels: seq<string>) returns (p: nat)
    ensures Search(s, labels).None? ==> Counter(s, labels) == 0
                                        && forall q | 0 <= q <= |s| :: CaptureAt(s, labels, q).None?
    ensures Search(s, labels).Some? ==>
              && p <= |s| && CaptureAt(s, labels, p).Some?
              && Counter(s, labels) == DigitsValue(CaptureAt(s, labels, p).value)
              && forall q | 0 <= q < p :: CaptureAt(s, labels, q).None?
  {
    if Search(s, labels).Some? {
      p := SearchFromPosition(s, labels, 0);
    } else {
      SearchFromNone(s, labels, 0);
      p := 0;
    }
  }

  const TotalCallsLabels := ["Total calls found: "]
  const ProcessedCallsLabels := ["Calls processed: ", "Missed calls processed: "]
  const ExistingLeadsLabels := ["Existing leads updated: "]
  const NewLeadsLabels := ["New leads created: "]
  const FailedCallsLabels := ["Failed calls: "]
  const SkippedCallsLabels := ["Calls skipped: ", "Other calls skipped: "]
  const RecordingsLabels := ["Recordings attached: "]

  /** `Running in dry.run mode` matches at `i`: the dot is any character but a newline. */
  predicate DryRunMarkerAt(s: string, i: nat) {
    && OccursAt(s, "Running in dry", i)
    && i + 14 < |s| && s[i + 14] != '\n'
    && OccursAt(s, "run mode", i + 15)
  }

  predicate DryRunMarked(s: string) {
    exists i: nat | i <= |s| :: DryRunMarkerAt(s, i)
  }

  // ---------------------------------------------------------------------
  // parse_log_file: the new-leads counter
  // ---------------------------------------------------------------------

  /**
   * The new-leads branch as written: the capture is tested for '(' to
   * detect "0 (dry run)"; gives the counter and whether it flags a dry run.
   */
  function NewLeadsAsWritten(s: string): (r: (nat, bool)) {
    match Search(s, NewLeadsLabels)
    case None => (0, false)
    case Some(d) => if '(' in d then (0, true) else (DigitsValue(d), false)
  }

  /** The capture holds digits only, so the '(' branch never flags a dry run. */
  lemma ParenthesisBranchUnreachable(s: string)
    ensures NewLeadsAsWritten(s) == (Counter(s, NewLeadsLabels), false)
  {
  }

  /** The dry-run report line of the missed-calls script. */
  const DryRunNewLeadsLine := "New leads created: 0 (dry run)"

  /** The new-leads pattern captures the "0" of the dry-run line. */
  lemma DryRunLineCapture()
    ensures Search(DryRunNewLeadsLine, NewLeadsLabels) == Some("0")
  {
    var s := DryRunNewLeadsLine;
    assert OccursAt(s, NewLeadsLabels[0], 0) by {
      assert s[0..19] == "New leads created: ";
    }
    assert DigitRun(s, 20) == 0 by {
      assert s[20] == ' ';
    }
    assert s[19..20] == "0";
  }

  /** The dry-run line does not hold the "Running in dry run mode" marker. */
  lemma DryRunLineUnmarked()
    ensures !DryRunMarked(DryRunNewLeadsLine)
  {
    var s := DryRunNewLeadsLine;
    forall i: nat | i <= |s|
      ensures !OccursAt(s, "Running in dry", i)
    {
      if i + 14 <= |s| {
        assert s[i..i + 14][0] == s[i] != 'R';
      }
    }
  }

  /** A dry-run missed-calls log is not recognised as a dry run: neither the marker nor the '(' branch fires. */
  lemma DryRunLineNotFlagged()
    ensures NewLeadsAsWritten(DryRunNewLeadsLine) == (0, false)
    ensures !DryRunMarked(DryRunNewLeadsLine)
  {
    DryRunLineCapture();
    DryRunLineUnmarked();
    assert DigitsValue("0") == 0;
  }

  /**
   * The new-leads branch as evidently intended: a count followed by
   * " (dry run)" reads as 0 new leads and flags a dry run.
   */
  function NewLeadsIntended(s: string): (r: (nat, bool))
    ensures r.0 == 0 || r.0 == Counter(s, NewLeadsLabels)
  {
    match Search(s, NewLeadsLabels)
    case None => (0, false)
    case Some(d) =>
      if ContainsDryRunSuffix(s, d) then (0, true) else (Counter(s, NewLeadsLabels), false)
  }

  /** Some occurrence of the label and capture `d` is followed by " (dry run)". */
  predicate ContainsDryRunSuffix(s: string, d: string) {
    Contains(s, NewLeadsLabels[0] + d + " (dry run)")
  }

  /** The intended reading flags the dry-run line, and counts plain lines as before. */
  lemma NewLeadsIntendedFlagsDryRun(s: string)
    ensures NewLeadsIntended(DryRunNewLeadsLine) == (0, true)
    ensures Search(s, NewLeadsLabels).Some? && !ContainsDryRunSuffix(s, Search(s, NewLeadsLabels).value) ==>
              NewLeadsIntended(s) == NewLeadsAsWritten(s)
  {
    DryRunLineCapture();
    var line := DryRunNewLeadsLine;
    assert OccursAt(line, NewLeadsLabels[0] + "0" + " (dry run)", 0);
  }

  // ---------------------------------------------------------------------
  // parse_log_file: log entries
  // ---------------------------------------------------------------------

  const InfoMarker := " - INFO - "
  const WarningMarker := " - WARNING - "
  const ErrorMarker := " - ERROR - "
  const MaxEntries: nat := 50

  predicate IsLogEntry(line: string) {
    Contains(line, InfoMarker) || Contains(line, WarningMarker) || Contains(line, ErrorMarker)
  }

  /** The lines holding a level marker, in order. */
  function LogLines(lines: seq<string>): (r: seq<string>)
    ensures |r| <= |lines|
  {
    if |lines| == 0 then []
    else LogLines(lines[..|lines| - 1]) + (if IsLogEntry(lines[|lines| - 1]) then [lines[|lines| - 1]] else [])
  }

  /** `entries[-50:]`. */
  function LastEntries(entries: seq<string>): (r: seq<string>)
    ensures |r| == if |entries| <= MaxEntries then |entries| else MaxEntries
    ensures r == entries[|entries| - |r|..]
  {
    if |entries| <= MaxEntries then entries else entries[|entries| - MaxEntries..]
  }

  /** A line is kept exactly when it holds a level marker. */
  lemma {:induction false} LogLinesMembership(lines: seq<string>)
    ensures forall line :: line in LogLines(lines) <==> line in lines && IsLogEntry(line)
  {
    if |lines| > 0 {
      LogLinesMembership(lines[..|lines| - 1]);
      assert lines == lines[..|lines| - 1] + [lines[|lines| - 1]];
    }
  }

  /** The statistics parsed from a log file. */
  datatype LogStats = LogStats(
    scriptType: ScriptType,
    timestamp: string,
    totalCalls: nat,
    processedCalls: nat,
    existingLeads: nat,
    newLeads: nat,
    failedCalls: nat,
    skippedCalls: nat,
    recordingsAttached: nat,
    dryRunMode: bool,
    logEntries: seq<string>)

  /**
   * The path handed to the parser: none, a file that does not exist, a file
   * that exists but cannot be read (a directory, no permission), or a file
   * and its text.
   */
  datatype LogFile = NoPath | NotFound | Unreadable | LogText(text: string)

  /** The statistics the parser starts from: every counter 0, no dry run, no entries. */
  function InitialStats(t: ScriptType, modified: DateTime): LogStats {
    LogStats(t, Format(modified), 0, 0, 0, 0, 0, 0, 0, false, [])
  }

  /** What `parse_log_file` computes from a file's text and modification time. */
  function ParsedStats(t: ScriptType, text: string, modified: DateTime): LogStats {
    var newLeads := NewLeadsAsWritten(text);
    LogStats(t, Format(modified),
             Counter(text, TotalCallsLabels), Counter(text, ProcessedCallsLabels),
             Counter(text, ExistingLeadsLabels), newLeads.0, Counter(text, FailedCallsLabels),
             Counter(text, SkippedCallsLabels), Counter(text, RecordingsLabels),
             DryRunMarked(text) || newLeads.1,
             LastEntries(LogLines(Split(text, '\n'))))
  }

  /**
   * `parse_log_file`: no statistics without a file; the initial statistics
   * when reading it raises; otherwise counters from first matches and the
   * last 50 entries.
   */
  method ParseLogFile(t: ScriptType, file: LogFile, modified: DateTime) returns (stats: Option<LogStats>)
    ensures stats.None? <==> file.NoPath? || file.NotFound?
    ensures file.Unreadable? ==> stats == Some(InitialStats(t, modified))
    ensures file.LogText? ==> stats == Some(ParsedStats(t, file.text, modified))
  {
    if file.NoPath? || file.NotFound? {
      return None;
    }
    if file.Unreadable? {
      return Some(InitialStats(t, modified));
    }
    var text := file.text;
    var dryRunMode := false;
    if DryRunMarked(text) {
      dryRunMode := true;
    }
    var newLeads := 0;
    var found := Search(text, NewLeadsLabels);
    if found.Some? {
      if '(' in found.value {
        newLeads := 0;
        dryRunMode := true;
      } else {
        newLeads := Counter(text, NewLeadsLabels);
      }
    }
    var lines := Split(text, '\n');
    var entries: seq<string> := [];
    for i := 0 to |lines|
      invariant entries == LogLines(lines[..i])
    {
      assert lines[..i + 1][..i] == lines[..i];
      if Contains(lines[i], InfoMarker) || Contains(lines[i], WarningMarker) || Contains(lines[i], ErrorMarker) {
        entries := entries + [lines[i]];
      }
    }
    assert lines[..|lines|] == lines;
    stats := Some(LogStats(t, Format(modified),
                           Counter(text, TotalCallsLabels), Counter(text, ProcessedCallsLabels),
                           Counter(text, ExistingLeadsLabels), newLeads, Counter(text, FailedCallsLabels),
                           Counter(text, SkippedCallsLabels), Counter(text, RecordingsLabels),
                           dryRunMode, LastEntries(entries)));
  }

  /** The new-leads counter reads like the others, and only the marker line flags a dry run. */
  lemma DryRunFlagFromMarkerOnly(t: ScriptType, text: string, modified: DateTime)
    ensures ParsedStats(t, text, modified).newLeads == Counter(text, NewLeadsLabels)
    ensures ParsedStats(t, text, modified).dryRunMode <==> DryRunMarked(text)
  {
    ParenthesisBranchUnreachable(text);
  }

  /** The kept entries all carry a level marker, at most 50, the latest ones in log order. */
  lemma LogEntriesKept(lines: seq<string>)
    ensures var all := LogLines(lines);
            var entries := LastEntries(all);
            && |entries| <= MaxEntries
            && (|all| <= MaxEntries ==> entries == all)
            && entries == all[|all| - |entries|..]
            && forall e | e in entries :: IsLogEntry(e) && e in lines
  {
    var all := LogLines(lines);
    LogLinesMembership(lines);
    var entries := LastEntries(all);
    forall e | e in entries
      ensures e in all
    {
      var k :| 0 <= k < |entries| && entries[k] == e;
      assert all[|all| - |entries| + k] == e;
    }
  }

  // ---------------------------------------------------------------------
  // generate_html_report
  // ---------------------------------------------------------------------

  datatype EntryClass = LogInfo | LogWarning | LogError

  /** The colour class of a log entry: a warning marker wins over an error marker. */
  function ClassOf(entry: string): (r: EntryClass)
    ensures r == LogWarning <==> Contains(entry, WarningMarker)
    ensures r == LogError <==> !Contains(entry, WarningMarker) && Contains(entry, ErrorMarker)
    ensures r == LogInfo <==> !Contains(entry, WarningMarker) && !Contains(entry, ErrorMarker)
  {
    if Contains(entry, WarningMarker) then LogWarning
    else if Contains(entry, ErrorMarker) then LogError
    else LogInfo
  }

  /** What the report shows, without its HTML: the title and each entry with its class. */
  datatype Report = Report(title: string, entries: seq<(string, EntryClass)>)

  const DryRunSuffix := " (DRY RUN)"

  function ReportTitle(t: ScriptType, stats: LogStats): string {
    t.Title() + " Processing Report - " + stats.timestamp + (if stats.dryRunMode then DryRunSuffix else "")
  }

  /** `generate_html_report`: nothing for empty statistics; otherwise the title and classified entries. */
  method GenerateReport(t: ScriptType, stats: Option<LogStats>) returns (report: Option<Report>)
    ensures stats.None? <==> report.None?
    ensures stats.Some? ==> report.value.title == ReportTitle(t, stats.value)
    ensures stats.Some? ==> |report.value.entries| == |stats.value.logEntries|
    ensures stats.Some? ==> forall k | 0 <= k < |report.value.entries| ::
              report.value.entries[k] == (stats.value.logEntries[k], ClassOf(stats.value.logEntries[k]))
  {
    if stats.None? {
      return None;
    }
    var entries := stats.value.logEntries;
    var shown: seq<(string, EntryClass)> := [];
    for i := 0 to |entries|
      invariant |shown| == i
      invariant forall k | 0 <= k < i :: shown[k] == (entries[k], ClassOf(entries[k]))
    {
      var entryClass := LogInfo;
      if Contains(entries[i], WarningMarker) {
        entryClass := LogWarning;
      } else if Contains(entries[i], ErrorMarker) {
        entryClass := LogError;
      }
      shown := shown + [(entries[i], entryClass)];
    }
    return Some(Report(ReportTitle(t, stats.value), shown));
  }

  // ---------------------------------------------------------------------
  // send_email_report
  // ---------------------------------------------------------------------

  /** Where sending stops: before composing, or with the e-mail composed. */
  datatype SendOutcome =
    | ReportMissing
    | NoRecipients
    | SmtpIncomplete
    | Composed(subject: string, from: string, to: seq<string>)

  predicate Setting(v: Option<string>) {
    v.Some? && v.value != ""
  }

  predicate SmtpComplete(s: Smtp) {
    Setting(s.server) && Setting(s.username) && Setting(s.password) && Setting(s.fromAddress)
  }

  function Subject(r: Reporter, today: DateTime): string {
    r.scriptType.Title() + " Processing Report - " + FormatDate(today) + (if r.dryRun then DryRunSuffix else "")
  }

  /** `send_email_report` up to composing the message; delivery is not modelled. */
  function SendEmailReport(r: Reporter, reportExists: bool, today: DateTime): (out: SendOutcome)
    ensures out.Composed? <==> reportExists && r.recipients != [] && SmtpComplete(r.smtp)
    ensures out == ReportMissing <==> !reportExists
    ensures out == NoRecipients <==> reportExists && r.recipients == []
    ensures out == SmtpIncomplete <==> reportExists && r.recipients != [] && !SmtpComplete(r.smtp)
    ensures out.Composed? ==> out.to == r.recipients && out.from == r.smtp.fromAddress.value
    ensures out.Composed? ==> out.subject == Subject(r, today)
  {
    if !reportExists then ReportMissing
    else if r.recipients == [] then NoRecipients
    else if !SmtpComplete(r.smtp) then SmtpIncomplete
    else Composed(Subject(r, today), r.smtp.fromAddress.value, r.recipients)
  }

  /** The subject ends in " (DRY RUN)" exactly when the reporter is in dry-run mode. */
  lemma SubjectMarksDryRun(r: Reporter, today: DateTime)
    ensures var s := Subject(r, today);
            |s| >= |DryRunSuffix| && (s[|s| - |DryRunSuffix|..] == DryRunSuffix <==> r.dryRun)
  {
    var base := r.scriptType.Title() + " Processing Report - " + FormatDate(today);
    var day := NatToString(today.day);
    assert IsDigit(day[|day| - 1]);
    assert base[|base| - 1] == day[|day| - 1] by {
      assert FormatDate(today) == Pad4(today.year) + "-" + Pad2(today.month) + "-" + Pad2(today.day);
      assert Pad2(today.day)[|Pad2(today.day)| - 1] == day[|day| - 1];
    }
    if !r.dryRun {
      var s := Subject(r, today);
      assert s == base;
      assert s[|s| - 1] != DryRunSuffix[|DryRunSuffix| - 1];
    }
  }

  /** A loaded config without recipients for the script makes sending stop before composing. */
  lemma ConfigWithoutEntryStopsSending(t: ScriptType, smtp: Option<Smtp>, recipients: map<string, seq<string>>,
                                       dryRun: bool, hoursBack: int, today: DateTime)
    requires t.Name() !in recipients
    ensures var c := ConfigLoaded(smtp, Some(recipients));
            var r := NewReporter(t.Name(), [], None, dryRun, hoursBack, c);
            r.Ok? && SendEmailReport(r.value, true, today) == NoRecipients
  {
    StoredNameValidates(t);
  }
}
