/**
 * The pure helpers of unified_admin.py: parsing a comma-separated
 * recipients field, validating the scheduler form and naming its batch
 * file, merging saved credentials, and keeping the active CRM users.
 */
module AdminHelpers {
  import opened Wrappers
  import opened Text
  import Clock

  // ---------------------------------------------------------------------
  // EmailSettingsTab.save_settings: recipient fields
  // ---------------------------------------------------------------------

  /** The stripped, non-empty pieces, in order. */
  function KeptRecipients(parts: seq<string>): (r: seq<string>)
    ensures |r| <= |parts|
  {
    if |parts| == 0 then []
    else KeptRecipients(parts[..|parts| - 1])
         + (if Strip(parts[|parts| - 1]) != "" then [Strip(parts[|parts| - 1])] else [])
  }

  /** `[email.strip() for email in text.split(',') if email.strip()]`. */
  function ParseRecipients(text: string): seq<string> {
    KeptRecipients(Split(text, ','))
  }

  /** What a well-formed recipient is: non-empty, without surrounding whitespace, without a comma. */
  predicate WellFormedRecipient(r: string) {
    r != "" && Trimmed(r) && ',' !in r
  }

  /** Every parsed recipient is well formed. */
  lemma {:induction false} KeptRecipientsWellFormed(parts: seq<string>)
    requires forall k | 0 <= k < |parts| :: ',' !in parts[k]
    ensures forall r | r in KeptRecipients(parts) :: WellFormedRecipient(r)
  {
    if |parts| > 0 {
      var last := parts[|parts| - 1];
      KeptRecipientsWellFormed(parts[..|parts| - 1]);
      var i := StripIsSlice(last);
    }
  }

  lemma ParsedRecipientsWellFormed(text: string)
    ensures forall r | r in ParseRecipients(text) :: WellFormedRecipient(r)
  {
    KeptRecipientsWellFormed(Split(text, ','));
  }

  /** Well-formed pieces survive the filter unchanged. */
  lemma {:induction false} KeptWellFormed(parts: seq<string>)
    requires forall k | 0 <= k < |parts| :: WellFormedRecipient(parts[k])
    ensures KeptRecipients(parts) == parts
  {
    if |parts| > 0 {
      KeptWellFormed(parts[..|parts| - 1]);
      StripTrimmed(parts[|parts| - 1]);
      assert parts[..|parts| - 1] + [parts[|parts| - 1]] == parts;
    }
  }

  /** Writing well-formed recipients joined by commas and parsing them back gives the same list. */
  lemma RecipientsRoundTrip(recipients: seq<string>)
    requires forall k | 0 <= k < |recipients| :: WellFormedRecipient(recipients[k])
    ensures ParseRecipients(Join(recipients, ',')) == recipients
  {
    if |recipients| == 0 {
      EmptyFieldNoRecipients();
    } else {
      var joined := Join(recipients, ',');
      assert Split(joined, ',') == recipients by {
        SplitJoin(recipients, ',');
      }
      KeptWellFormed(recipients);
    }
  }

  /** An empty field gives no recipients. */
  lemma EmptyFieldNoRecipients()
    ensures ParseRecipients("") == []
  {
    assert Split("", ',') == [""];
    StripTrimmed("");
    assert KeptRecipients([""]) == KeptRecipients([]);
  }

  /** Blank pieces, such as those around a doubled comma, are dropped. */
  lemma BlankPiecesDropped(parts: seq<string>, blank: string)
    requires Strip(blank) == ""
    ensures KeptRecipients(parts + [blank]) == KeptRecipients(parts)
  {
    assert (parts + [blank])[..|parts|] == parts;
  }

  // ---------------------------------------------------------------------
  // SchedulerSetupTab.generate_batch_file: validation and file name
  // ---------------------------------------------------------------------

  /** The scheduler form, as far as the batch file depends on it. */
  datatype BatchForm = BatchForm(
    script: string,            // the script combobox
    hoursBack: string,         // the hours-back entry
    selectedDays: seq<string>, // the ticked weekdays
    emailEnabled: bool,
    customRecipients: bool,
    recipients: string,        // the recipients entry
    hour: nat,                 // the hour combobox, 0 to 23
    minute: nat)               // the minute combobox, 0 to 55 in steps of 5

  /** Why no batch file was written. */
  datatype BatchError =
    | NoScriptSelected
    | InvalidHoursBack
    | NoDaysSelected
    | NoCustomRecipients
    | UnknownScript       // `script_map[...]` raised KeyError

  const Placeholder := "Select Script"

  /** `script_map[name].replace('.py', '')`. */
  function ScriptBase(script: string): Option<string> {
    if script == "Missed Calls" then Some("missed_calls")
    else if script == "Accepted Calls" then Some("accepted_calls")
    else None
  }

  predicate PositiveHours(text: string) {
    ParseInt(text).Some? && ParseInt(text).value > 0
  }

  /** `run_{script}_{HH}{MM}.bat`. */
  function BatchName(base: string, hour: nat, minute: nat): string {
    "run_" + base + "_" + Clock.Pad2(hour) + Clock.Pad2(minute) + ".bat"
  }

  /** The checks of `generate_batch_file`, in order, then the file name. */
  function GenerateBatchFile(form: BatchForm): (r: Result<string, BatchError>)
    ensures r.Ok? <==> && form.script != Placeholder
                       && PositiveHours(form.hoursBack)
                       && form.selectedDays != []
                       && !(form.emailEnabled && form.customRecipients && Strip(form.recipients) == "")
                       && ScriptBase(form.script).Some?
    ensures form.script == Placeholder ==> r == Err(NoScriptSelected)
    ensures r.Ok? ==> r.value == BatchName(ScriptBase(form.script).value, form.hour, form.minute)
  {
    if form.script == Placeholder then Err(NoScriptSelected)
    else if !PositiveHours(form.hoursBack) then Err(InvalidHoursBack)
    else if form.selectedDays == [] then Err(NoDaysSelected)
    else if form.emailEnabled && form.customRecipients && Strip(form.recipients) == "" then Err(NoCustomRecipients)
    else match ScriptBase(form.script)
      case None => Err(UnknownScript)
      case Some(base) => Ok(BatchName(base, form.hour, form.minute))
  }

  /** The file name carries the script and the scheduled time: its last eight characters read back as HHMM. */
  lemma BatchNameEncodesTime(base: string, hour: nat, minute: nat)
    requires hour < 24 && minute < 60
    ensures var name := BatchName(base, hour, minute);
            && |name| == |base| + 13
            && name[..4] == "run_" && name[4..4 + |base|] == base
            && name[|name| - 4..] == ".bat"
            && AllDigits(name[|name| - 8..|name| - 6]) && DigitsValue(name[|name| - 8..|name| - 6]) == hour
            && AllDigits(name[|name| - 6..|name| - 4]) && DigitsValue(name[|name| - 6..|name| - 4]) == minute
  {
    Clock.Pad2Digits(hour);
    Clock.Pad2Digits(minute);
    var name := BatchName(base, hour, minute);
    assert name[|name| - 8..|name| - 6] == Clock.Pad2(hour);
    assert name[|name| - 6..|name| - 4] == Clock.Pad2(minute);
  }

  /** Hours back must be a positive integer: "0", "-3" and "abc" are refused. */
  lemma HoursBackRejected(form: BatchForm)
    requires form.script != Placeholder
    requires ParseInt(form.hoursBack).None? || ParseInt(form.hoursBack).value <= 0
    ensures GenerateBatchFile(form) == Err(InvalidHoursBack)
  {
  }

  // ---------------------------------------------------------------------
  // SecureStorage.save_credentials: merge
  // ---------------------------------------------------------------------

  const TimestampKey := "timestamp"

  /**
   * `existing = load_credentials() or {}; existing.update(new);
   * existing['timestamp'] = now`: the stored map after a save.
   */
  function MergeCredentials(existing: Option<map<string, string>>, update: map<string, string>,
                            timestamp: string): (r: map<string, string>)
    ensures r.Keys == existing.GetOr(map[]).Keys + update.Keys + {TimestampKey}
    ensures r[TimestampKey] == timestamp
    ensures forall k | k in update && k != TimestampKey :: r[k] == update[k]
    ensures forall k | k in existing.GetOr(map[]) && k !in update && k != TimestampKey ::
              r[k] == existing.GetOr(map[])[k]
  {
    (existing.GetOr(map[]) + update)[TimestampKey := timestamp]
  }

  /** Saving the same credentials twice with the same timestamp stores what saving once does. */
  lemma MergeIdempotent(existing: Option<map<string, string>>, update: map<string, string>, timestamp: string)
    ensures MergeCredentials(Some(MergeCredentials(existing, update, timestamp)), update, timestamp)
            == MergeCredentials(existing, update, timestamp)
  {
    var once := MergeCredentials(existing, update, timestamp);
    var twice := MergeCredentials(Some(once), update, timestamp);
    assert twice.Keys == once.Keys;
    forall k | k in once
      ensures twice[k] == once[k]
    {
    }
  }

  /** A later save wins for the keys it carries; keys it does not carry keep the earlier values. */
  lemma LaterSaveWins(existing: Option<map<string, string>>, first: map<string, string>,
                      second: map<string, string>, t1: string, t2: string, k: string)
    requires k in first && k != TimestampKey
    ensures var after := MergeCredentials(Some(MergeCredentials(existing, first, t1)), second, t2);
            after[k] == (if k in second then second[k] else first[k])
  {
  }

  // ---------------------------------------------------------------------
  // ZohoClient.get_users: active filter
  // ---------------------------------------------------------------------

  /** A CRM user as the admin tool reads it. */
  datatype User = User(id: string, fullName: string, email: string, status: Option<string>)

  predicate Active(u: User) {
    u.status == Some("active")
  }

  /** `[user for user in users if user.get('status') == 'active']`. */
  function ActiveUsers(users: seq<User>): (r: seq<User>)
    ensures |r| <= |users|
  {
    if |users| == 0 then []
    else ActiveUsers(users[..|users| - 1]) + (if Active(users[|users| - 1]) then [users[|users| - 1]] else [])
  }

  /** Exactly the active users are kept. */
  lemma {:induction false} ActiveUsersMembership(users: seq<User>)
    ensures forall u :: u in ActiveUsers(users) <==> u in users && Active(u)
  {
    if |users| > 0 {
      var init := users[..|users| - 1];
      ActiveUsersMembership(init);
      assert users == init + [users[|users| - 1]];
    }
  }

  /** A list of active users passes the filter unchanged. */
  lemma {:induction false} ActiveUsersOfActive(users: seq<User>)
    requires forall k | 0 <= k < |users| :: Active(users[k])
    ensures ActiveUsers(users) == users
  {
    if |users| > 0 {
      ActiveUsersOfActive(users[..|users| - 1]);
      assert users[..|users| - 1] + [users[|users| - 1]] == users;
    }
  }

  /** Filtering twice is filtering once. */
  lemma ActiveUsersIdempotent(users: seq<User>)
    ensures ActiveUsers(ActiveUsers(users)) == ActiveUsers(users)
  {
    var r := ActiveUsers(users);
    ActiveUsersMembership(users);
    forall k | 0 <= k < |r|
      ensures Active(r[k])
    {
      assert r[k] in r;
    }
    ActiveUsersOfActive(r);
  }
}
