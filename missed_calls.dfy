/**
 * missed_calls.py: loading the extension configuration, the per-call lead
 * decision of `ZohoClient.create_or_update_lead`, and the processing loop
 * `process_missed_calls` with its statistics and round-robin owner cycle.
 *
 * The CRM is an oracle: for every call record the model is handed the
 * first hit of each of the two phone searches made for it (if any) and the
 * id the create request returned (if any). Requests that change the CRM
 * are recorded as `Action`s instead of being sent.
 */
module MissedCalls {
  import opened Wrappers
  import opened Text
  import opened Clock
  import opened Records

  // ---------------------------------------------------------------------
  // load_extensions
  // ---------------------------------------------------------------------

  /** What reading extensions.json can give. */
  datatype ExtensionsFile = NotFound | InvalidJson | Loaded(entries: seq<Extension>)

  /** An entry that makes it into the id-to-name map: truthy id and truthy name. */
  predicate Named(e: Extension) {
    e.id.Truthy() && e.name.Some? && e.name.value != ""
  }

  /** What one entry contributes to the id list: its id as text, when truthy. */
  function ListedId(e: Extension): (ids: seq<string>)
    ensures |ids| <= 1
  {
    if e.id.Truthy() then [e.id.Str()] else []
  }

  /** `[str(ext.get('id')) for ext in extensions if ext.get('id')]`. */
  function ExtensionIds(entries: seq<Extension>): (ids: seq<string>)
    ensures |ids| <= |entries|
  {
    if |entries| == 0 then [] else ListedId(entries[0]) + ExtensionIds(entries[1..])
  }

  /** `{str(ext.get('id')): ext.get('name') for ext in extensions if ext.get('id') and ext.get('name')}`. */
  function ExtensionNames(entries: seq<Extension>): map<string, string>
  {
    if |entries| == 0 then map[]
    else
      var last := entries[|entries| - 1];
      var m := ExtensionNames(entries[..|entries| - 1]);
      if Named(last) then m[last.id.Str() := last.name.value] else m
  }

  /** `load_extensions`: a missing or malformed file gives `([], {})`. */
  function LoadExtensions(file: ExtensionsFile): (r: (seq<string>, map<string, string>))
    ensures !file.Loaded? ==> r.0 == [] && r.1 == map[]
    ensures file.Loaded? ==> r.0 == ExtensionIds(file.entries) && r.1 == ExtensionNames(file.entries)
  {
    match file
    case Loaded(entries) => (ExtensionIds(entries), ExtensionNames(entries))
    case _ => ([], map[])
  }

  /** The id list keeps the input order: it distributes over concatenation. */
  lemma {:induction false} ExtensionIdsAppend(a: seq<Extension>, b: seq<Extension>)
    ensures ExtensionIds(a + b) == ExtensionIds(a) + ExtensionIds(b)
    decreases |a|
  {
    if |a| == 0 {
      assert a + b == b;
    } else {
      assert (a + b)[0] == a[0];
      assert (a + b)[1..] == a[1..] + b;
      ExtensionIdsAppend(a[1..], b);
      assert ExtensionIds(a + b) == ListedId(a[0]) + ExtensionIds(a[1..] + b);
    }
  }

  /** An id is listed exactly when some entry has that truthy id. */
  lemma {:induction false} ExtensionIdsMembership(entries: seq<Extension>, s: string)
    ensures s in ExtensionIds(entries)
            <==> exists i | 0 <= i < |entries| :: entries[i].id.Truthy() && entries[i].id.Str() == s
    decreases |entries|
  {
    if |entries| > 0 {
      ExtensionIdsMembership(entries[1..], s);
      if s in ExtensionIds(entries[1..]) {
        var i :| 0 <= i < |entries[1..]| && entries[1..][i].id.Truthy() && entries[1..][i].id.Str() == s;
        assert entries[i + 1] == entries[1..][i];
      }
      if exists i | 0 <= i < |entries| :: entries[i].id.Truthy() && entries[i].id.Str() == s {
        var i :| 0 <= i < |entries| && entries[i].id.Truthy() && entries[i].id.Str() == s;
        if i > 0 {
          assert entries[1..][i - 1] == entries[i];
        }
      }
    }
  }

  /** A name is kept exactly for the ids of entries that have both an id and a name. */
  lemma {:induction false} ExtensionNamesKeys(entries: seq<Extension>, k: string)
    ensures k in ExtensionNames(entries)
            <==> exists i | 0 <= i < |entries| :: Named(entries[i]) && entries[i].id.Str() == k
    decreases |entries|
  {
    if |entries| > 0 {
      var init := entries[..|entries| - 1];
      ExtensionNamesKeys(init, k);
      if exists i | 0 <= i < |init| :: Named(init[i]) && init[i].id.Str() == k {
        var i :| 0 <= i < |init| && Named(init[i]) && init[i].id.Str() == k;
        assert entries[i] == init[i];
      }
      if exists i | 0 <= i < |entries| :: Named(entries[i]) && entries[i].id.Str() == k {
        var i :| 0 <= i < |entries| && Named(entries[i]) && entries[i].id.Str() == k;
        if i < |entries| - 1 {
          assert init[i] == entries[i];
        }
      }
    }
  }

  /** Of several named entries with the same `str(id)`, the last one's name wins. */
  lemma {:induction false} ExtensionNamesLastWins(entries: seq<Extension>, i: nat)
    requires i < |entries| && Named(entries[i])
    requires forall j | i < j < |entries| :: Named(entries[j]) ==> entries[j].id.Str() != entries[i].id.Str()
    ensures entries[i].id.Str() in ExtensionNames(entries)
    ensures ExtensionNames(entries)[entries[i].id.Str()] == entries[i].name.value
    decreases |entries|
  {
    if i < |entries| - 1 {
      var init := entries[..|entries| - 1];
      assert init[i] == entries[i];
      forall j | i < j < |init|
        ensures Named(init[j]) ==> init[j].id.Str() != init[i].id.Str()
      {
        assert init[j] == entries[j];
      }
      ExtensionNamesLastWins(init, i);
    }
  }

  /** Every key of the name map is also in the id list. */
  lemma NamedIdsAreListed(entries: seq<Extension>, k: string)
    requires k in ExtensionNames(entries)
    ensures k in ExtensionIds(entries)
  {
    ExtensionNamesKeys(entries, k);
    ExtensionIdsMembership(entries, k);
  }

  // ---------------------------------------------------------------------
  // create_or_update_lead
  // ---------------------------------------------------------------------

  const MissedCallStatus := "Missed Call"
  const UnknownCaller := "Unknown Caller"
  const UnknownSource := "Unknown"

  /** The single record of the create request's `data` list. */
  datatype LeadPayload = LeadPayload(phone: string, ownerId: string, leadSource: string,
                                     leadStatus: string, firstName: string, lastName: string)

  /** A request that changes the CRM: a note on a lead, or a new lead. */
  datatype Action = AddNote(leadId: string, content: string) | CreateLead(payload: LeadPayload)

  /**
   * What the CRM answers for one call. The phone number is searched twice:
   * `counted` is the first hit of the loop's search, which decides the
   * counters; `found` is the first hit of the search inside
   * `create_or_update_lead`, which decides between a note and a new lead.
   * `created` is the id a create request returns.
   */
  datatype CrmReplies = CrmReplies(counted: Option<string>, found: Option<string>, created: Option<string>)

  /** An exception that escapes the processing loop. */
  datatype Failure =
    | MissingTo      // `call['to']` is absent (KeyError) or null (AttributeError)
    | NoLeadOwners   // `next()` on a cycle over an empty owner list (StopIteration)

  /** The call time printed in notes: the parsed `startTime`, otherwise the current time. */
  function CallTime(start: StartTime, now: DateTime): (r: string)
    ensures start.StartsAt? ==> r == Format(start.at)
    ensures !start.StartsAt? ==> r == Format(now)
  {
    match start
    case StartsAt(at) => Format(at)
    case _ => Format(now)
  }

  /** The record the create request carries for a caller with no lead yet. */
  function NewLeadPayload(call: CallRecord, owner: LeadOwner, names: map<string, string>): LeadPayload
    requires call.from.HasNumber() && !call.to.Absent?
  {
    LeadPayload(call.from.phoneNumber.value, owner.id,
                RawGet(names, call.to.ExtensionId(), UnknownSource),
                MissedCallStatus, UnknownCaller, UnknownCaller)
  }

  /**
   * The requests `create_or_update_lead` issues for a call that has a
   * caller number and a `to` object. Only the create is suppressed in dry
   * run: a note on an existing lead is still posted.
   */
  function LeadActions(call: CallRecord, owner: LeadOwner, names: map<string, string>,
                       reply: CrmReplies, now: DateTime, dryRun: bool): (r: seq<Action>)
    requires call.from.HasNumber() && !call.to.Absent?
    ensures |r| <= 2
    ensures reply.found.Some? ==>
              r == [AddNote(reply.found.value, "Missed call received on " + CallTime(call.startTime, now) + ".")]
    ensures reply.found.None? && !dryRun ==> |r| >= 1 && r[0] == CreateLead(NewLeadPayload(call, owner, names))
    ensures (exists k | 0 <= k < |r| :: r[k].CreateLead?) <==> reply.found.None? && !dryRun
    ensures forall k | 0 <= k < |r| :: r[k].CreateLead? ==> k == 0
    ensures forall k | 0 <= k < |r| :: r[k].AddNote? ==>
              Some(r[k].leadId) == (if reply.found.Some? then reply.found else reply.created)
  {
    var callTime := CallTime(call.startTime, now);
    match reply.found
    case Some(leadId) => [AddNote(leadId, "Missed call received on " + callTime + ".")]
    case None =>
      var payload := NewLeadPayload(call, owner, names);
      if dryRun then []
      else if reply.created.Some? then
        [CreateLead(payload), AddNote(reply.created.value, "New lead created from missed call received on " + callTime + ".")]
      else [CreateLead(payload)]
  }

  /**
   * With no lead found: a dry run issues nothing; a live run creates the
   * lead, then notes the call on it exactly when the create returned an id.
   */
  lemma LeadActionsAfterCreate(call: CallRecord, owner: LeadOwner, names: map<string, string>,
                               reply: CrmReplies, now: DateTime, dryRun: bool)
    requires call.from.HasNumber() && !call.to.Absent? && reply.found.None?
    ensures var r := LeadActions(call, owner, names, reply, now, dryRun);
            && (dryRun ==> r == [])
            && (!dryRun ==> (|r| == 2 <==> reply.created.Some?))
            && (|r| == 2 ==>
                  reply.created.Some?
                  && r[1] == AddNote(reply.created.value,
                                     "New lead created from missed call received on " + CallTime(call.startTime, now) + "."))
  {
  }

  /** `create_or_update_lead` on any record: no caller number returns quietly, no `to` raises. */
  function CreateOrUpdateLead(call: CallRecord, owner: LeadOwner, names: map<string, string>,
                              reply: CrmReplies, now: DateTime, dryRun: bool): (r: Result<seq<Action>, Failure>)
    ensures !call.from.HasNumber() ==> r == Ok([])
    ensures call.from.HasNumber() ==> (r.Err? <==> call.to.Absent?)
    ensures r.Ok? && dryRun ==> forall k | 0 <= k < |r.value| :: !r.value[k].CreateLead?
    ensures call.from.HasNumber() && !call.to.Absent? ==> r == Ok(LeadActions(call, owner, names, reply, now, dryRun))
  {
    if !call.from.HasNumber() then Ok([])
    else if call.to.Absent? then Err(MissingTo)
    else Ok(LeadActions(call, owner, names, reply, now, dryRun))
  }

  /** The lead source is looked up with the raw extension id, so a numeric id always reads "Unknown". */
  lemma NumericExtensionIdIsUnknownSource(call: CallRecord, owner: LeadOwner, names: map<string, string>,
                                          reply: CrmReplies, now: DateTime)
    requires call.from.HasNumber() && call.to.Side? && call.to.extensionId.KInt?
    requires reply.found.None?
    ensures LeadActions(call, owner, names, reply, now, false)[0].payload.leadSource == UnknownSource
  {
  }

  /**
   * As written, a dry run still writes to the CRM: a caller with an
   * existing lead gets a note, because only the create is guarded.
   */
  lemma DryRunStillPostsNote(call: CallRecord, owner: LeadOwner, names: map<string, string>,
                             reply: CrmReplies, now: DateTime)
    requires call.from.HasNumber() && !call.to.Absent? && reply.found.Some?
    ensures var r := LeadActions(call, owner, names, reply, now, true);
            |r| == 1 && r[0].AddNote? && r[0].leadId == reply.found.value
  {
  }

  /**
   * The requests as the dry-run option describes it ("without making any
   * changes"): none at all in a dry run, and those of a live run otherwise.
   */
  function LeadActionsIntended(call: CallRecord, owner: LeadOwner, names: map<string, string>,
                               reply: CrmReplies, now: DateTime, dryRun: bool): (r: seq<Action>)
    requires call.from.HasNumber() && !call.to.Absent?
    ensures dryRun ==> r == []
    ensures !dryRun ==> r == LeadActions(call, owner, names, reply, now, false)
  {
    if dryRun then [] else LeadActions(call, owner, names, reply, now, false)
  }

  /** The corrected requests differ from the written ones only by the notes a dry run posts. */
  lemma LeadActionsIntendedDropsDryRunNotes(call: CallRecord, owner: LeadOwner, names: map<string, string>,
                                            reply: CrmReplies, now: DateTime)
    requires call.from.HasNumber() && !call.to.Absent?
    ensures var written := LeadActions(call, owner, names, reply, now, true);
            && LeadActionsIntended(call, owner, names, reply, now, true) == []
            && (forall k | 0 <= k < |written| :: written[k].AddNote?)
            && (|written| > 0 <==> reply.found.Some?)
  {
  }

  // ---------------------------------------------------------------------
  // process_missed_calls
  // ---------------------------------------------------------------------

  /** The `stats` dictionary. */
  datatype Stats = Stats(total: nat, processed: nat, existing: nat, newLeads: nat, skipped: nat)

  /** A processed call: its position in the input, the owner it drew, and the requests it made. */
  datatype Handled = Handled(call: nat, owner: LeadOwner, existingLead: bool, actions: seq<Action>)

  /** Statistics and processed calls so far. */
  datatype Progress = Progress(stats: Stats, handled: seq<Handled>)

  /** What `process_missed_calls` ends with: None for no input, an escaping exception, or the stats. */
  datatype Outcome =
    | NoCallLogs
    | Raised(failure: Failure, at: nat, handledBefore: seq<Handled>)
    | Finished(stats: Stats, handled: seq<Handled>)

  /** How the loop treats one record. */
  datatype Verdict = Skip | Fail(failure: Failure) | Keep

  /** The two skip tests, in source order, with the `call['to']` access between them. */
  function Classify(call: CallRecord, extensionIds: seq<string>): (v: Verdict)
    ensures v == Keep <==> call.from.HasNumber() && !call.to.Absent? && call.to.ExtensionId().Str() in extensionIds
    ensures v.Fail? <==> call.from.HasNumber() && call.to.Absent?
  {
    if !call.from.HasNumber() then Skip
    else if call.to.Absent? then Fail(MissingTo)
    else if call.to.ExtensionId().Str() !in extensionIds then Skip
    else Keep
  }

  /** Positions, among the first `n` records, of the ones the loop keeps, in input order. */
  function KeptIndices(n: nat, calls: seq<CallRecord>, extensionIds: seq<string>): (r: seq<nat>)
    requires n <= |calls|
    ensures |r| <= n
  {
    if n == 0 then []
    else KeptIndices(n - 1, calls, extensionIds) + (if Classify(calls[n - 1], extensionIds) == Keep then [n - 1] else [])
  }

  /** The kept positions are exactly the records classified `Keep`, in increasing order. */
  lemma {:induction false} KeptIndicesSpec(n: nat, calls: seq<CallRecord>, extensionIds: seq<string>)
    requires n <= |calls|
    ensures forall i | i in KeptIndices(n, calls, extensionIds) :: i < n
    ensures forall i | 0 <= i < n :: i in KeptIndices(n, calls, extensionIds) <==> Classify(calls[i], extensionIds) == Keep
    ensures forall k, l | 0 <= k < l < |KeptIndices(n, calls, extensionIds)| ::
              KeptIndices(n, calls, extensionIds)[k] < KeptIndices(n, calls, extensionIds)[l]
  {
    if n > 0 {
      KeptIndicesSpec(n - 1, calls, extensionIds);
      var prev := KeptIndices(n - 1, calls, extensionIds);
      var r := KeptIndices(n, calls, extensionIds);
      assert r[..|prev|] == prev;
      forall k, l | 0 <= k < l < |r|
        ensures r[k] < r[l]
      {
        assert r[k] == prev[k];
        if l < |prev| {
          assert r[l] == prev[l];
        } else {
          assert prev[k] in prev;
        }
      }
    }
  }

  /** The input positions of the processed calls. */
  function CallsOf(hs: seq<Handled>): (r: seq<nat>)
    ensures |r| == |hs| && forall k | 0 <= k < |hs| :: r[k] == hs[k].call
  {
    if |hs| == 0 then [] else CallsOf(hs[..|hs| - 1]) + [hs[|hs| - 1].call]
  }

  /** How many processed calls found an existing lead. */
  function CountExisting(hs: seq<Handled>): nat
  {
    if |hs| == 0 then 0
    else CountExisting(hs[..|hs| - 1]) + (if hs[|hs| - 1].existingLead then 1 else 0)
  }

  /** The counters and the processed positions after the first `n` records. */
  predicate Counted(p: Progress, n: nat, calls: seq<CallRecord>, extensionIds: seq<string>, owners: seq<LeadOwner>)
    requires n <= |calls|
  {
    && p.stats.total == |calls|
    && p.stats.processed + p.stats.skipped == n
    && p.stats.existing + p.stats.newLeads == p.stats.processed
    && p.stats.existing == CountExisting(p.handled)
    && |p.handled| == p.stats.processed
    && (p.stats.processed > 0 ==> |owners| > 0)
    && CallsOf(p.handled) == KeptIndices(n, calls, extensionIds)
  }

  /** What each processed call was given: its owner by position, its search result, no create in dry run. */
  predicate Assigned(hs: seq<Handled>, calls: seq<CallRecord>, owners: seq<LeadOwner>,
                     replies: seq<CrmReplies>, dryRun: bool)
    requires |replies| == |calls|
  {
    forall k | 0 <= k < |hs| ::
      && hs[k].call < |calls|
      && |owners| > 0
      && hs[k].owner == owners[k % |owners|]
      && hs[k].existingLead == replies[hs[k].call].counted.Some?
      && (dryRun ==> forall a | 0 <= a < |hs[k].actions| :: !hs[k].actions[a].CreateLead?)
  }

  /** The bookkeeping facts every prefix of a run keeps. */
  predicate Balanced(p: Progress, n: nat, calls: seq<CallRecord>, extensionIds: seq<string>,
                     owners: seq<LeadOwner>, replies: seq<CrmReplies>, dryRun: bool)
    requires n <= |calls| && |replies| == |calls|
  {
    Counted(p, n, calls, extensionIds, owners) && Assigned(p.handled, calls, owners, replies, dryRun)
  }

  /** One iteration of the loop on record `i`. */
  function Step(p: Progress, i: nat, calls: seq<CallRecord>, extensionIds: seq<string>,
                names: map<string, string>, owners: seq<LeadOwner>, replies: seq<CrmReplies>,
                now: DateTime, dryRun: bool): Result<Progress, Failure>
    requires i < |calls| && |replies| == |calls|
  {
    var s := p.stats;
    match Classify(calls[i], extensionIds)
    case Skip => Ok(Progress(s.(skipped := s.skipped + 1), p.handled))
    case Fail(f) => Err(f)
    case Keep =>
      if |owners| == 0 then Err(NoLeadOwners)
      else
        var existing := replies[i].counted.Some?;
        var owner := owners[s.processed % |owners|];
        var actions := LeadActions(calls[i], owner, names, replies[i], now, dryRun);
        var s' := if existing then s.(existing := s.existing + 1) else s.(newLeads := s.newLeads + 1);
        Ok(Progress(s'.(processed := s.processed + 1), p.handled + [Handled(i, owner, existing, actions)]))
  }

  /** One step of the loop keeps the bookkeeping facts. */
  lemma StepKeepsCounts(p: Progress, n: nat, calls: seq<CallRecord>, extensionIds: seq<string>,
                        names: map<string, string>, owners: seq<LeadOwner>, replies: seq<CrmReplies>,
                        now: DateTime, dryRun: bool)
    requires n < |calls| && |replies| == |calls|
    requires Counted(p, n, calls, extensionIds, owners)
    requires Step(p, n, calls, extensionIds, names, owners, replies, now, dryRun).Ok?
    ensures Counted(Step(p, n, calls, extensionIds, names, owners, replies, now, dryRun).value,
                    n + 1, calls, extensionIds, owners)
  {
    var q := Step(p, n, calls, extensionIds, names, owners, replies, now, dryRun).value;
    var v := Classify(calls[n], extensionIds);
    if v == Skip {
      assert KeptIndices(n + 1, calls, extensionIds) == KeptIndices(n, calls, extensionIds);
    } else if v == Keep {
      StepKeep(n, p, calls, extensionIds, names, owners, replies, now, dryRun);
      assert q.handled[..|p.handled|] == p.handled;
      assert KeptIndices(n + 1, calls, extensionIds) == KeptIndices(n, calls, extensionIds) + [n];
    }
  }

  lemma StepKeepsAssignments(p: Progress, n: nat, calls: seq<CallRecord>, extensionIds: seq<string>,
                             names: map<string, string>, owners: seq<LeadOwner>, replies: seq<CrmReplies>,
                             now: DateTime, dryRun: bool)
    requires n < |calls| && |replies| == |calls|
    requires |p.handled| == p.stats.processed
    requires Assigned(p.handled, calls, owners, replies, dryRun)
    requires Step(p, n, calls, extensionIds, names, owners, replies, now, dryRun).Ok?
    ensures Assigned(Step(p, n, calls, extensionIds, names, owners, replies, now, dryRun).value.handled,
                     calls, owners, replies, dryRun)
  {
    if Classify(calls[n], extensionIds) == Keep {
      StepKeep(n, p, calls, extensionIds, names, owners, replies, now, dryRun);
      var owner := owners[p.stats.processed % |owners|];
      var actions := LeadActions(calls[n], owner, names, replies[n], now, dryRun);
      AssignedAppend(p.handled, Handled(n, owner, replies[n].counted.Some?, actions), calls, owners, replies, dryRun);
    }
  }

  /** Appending a call handled with the next owner, its search result and no create in dry run keeps `Assigned`. */
  lemma AssignedAppend(hs: seq<Handled>, h: Handled, calls: seq<CallRecord>, owners: seq<LeadOwner>,
                       replies: seq<CrmReplies>, dryRun: bool)
    requires |replies| == |calls| && Assigned(hs, calls, owners, replies, dryRun)
    requires h.call < |calls| && |owners| > 0 && h.owner == owners[|hs| % |owners|]
    requires h.existingLead == replies[h.call].counted.Some?
    requires dryRun ==> forall a | 0 <= a < |h.actions| :: !h.actions[a].CreateLead?
    ensures Assigned(hs + [h], calls, owners, replies, dryRun)
  {
    assert forall k | 0 <= k < |hs| :: (hs + [h])[k] == hs[k];
  }

  /**
   * The two searches are independent: a call the loop counts as an existing
   * lead still gets a new lead when the second search finds nothing.
   */
  lemma CountedExistingButCreated(n: nat, p: Progress, calls: seq<CallRecord>, extensionIds: seq<string>,
                                  names: map<string, string>, owners: seq<LeadOwner>, replies: seq<CrmReplies>,
                                  now: DateTime)
    requires n < |calls| && |replies| == |calls| && |owners| > 0
    requires Classify(calls[n], extensionIds) == Keep
    requires replies[n].counted.Some? && replies[n].found.None?
    ensures var q := Step(p, n, calls, extensionIds, names, owners, replies, now, false).value;
            && q.stats.existing == p.stats.existing + 1
            && |q.handled| == |p.handled| + 1
            && q.handled[|p.handled|].existingLead
            && |q.handled[|p.handled|].actions| >= 1
            && q.handled[|p.handled|].actions[0].CreateLead?
  {
    StepKeep(n, p, calls, extensionIds, names, owners, replies, now, false);
  }

  /** The loop run over the first `n` records; an escaping exception carries its position. */
  function Run(n: nat, calls: seq<CallRecord>, extensionIds: seq<string>, names: map<string, string>,
               owners: seq<LeadOwner>, replies: seq<CrmReplies>, now: DateTime, dryRun: bool)
    : (r: Result<Progress, (Failure, nat, seq<Handled>)>)
    requires n <= |calls| && |replies| == |calls|
    ensures r.Err? ==> r.error.1 < n
  {
    if n == 0 then Ok(Progress(Stats(|calls|, 0, 0, 0, 0), []))
    else
      match Run(n - 1, calls, extensionIds, names, owners, replies, now, dryRun)
      case Err(e) => Err(e)
      case Ok(p) =>
        match Step(p, n - 1, calls, extensionIds, names, owners, replies, now, dryRun)
        case Err(f) => Err((f, n - 1, p.handled))
        case Ok(q) => Ok(q)
  }

  /** Every successful prefix of the run keeps the bookkeeping facts. */
  lemma {:induction false} RunBalanced(n: nat, calls: seq<CallRecord>, extensionIds: seq<string>,
                                       names: map<string, string>, owners: seq<LeadOwner>,
                                       replies: seq<CrmReplies>, now: DateTime, dryRun: bool)
    requires n <= |calls| && |replies| == |calls|
    requires Run(n, calls, extensionIds, names, owners, replies, now, dryRun).Ok?
    ensures Balanced(Run(n, calls, extensionIds, names, owners, replies, now, dryRun).value,
                     n, calls, extensionIds, owners, replies, dryRun)
  {
    if n == 0 {
      StartBalanced(calls, extensionIds, owners, replies, dryRun);
    } else {
      RunPrefixOk(n - 1, n, calls, extensionIds, names, owners, replies, now, dryRun);
      var p := Run(n - 1, calls, extensionIds, names, owners, replies, now, dryRun).value;
      RunBalanced(n - 1, calls, extensionIds, names, owners, replies, now, dryRun);
      RunNextBalanced(n - 1, n, p, calls, extensionIds, names, owners, replies, now, dryRun);
    }
  }

  /** Before the first record nothing is counted or handled. */
  lemma StartBalanced(calls: seq<CallRecord>, extensionIds: seq<string>, owners: seq<LeadOwner>,
                      replies: seq<CrmReplies>, dryRun: bool)
    requires |replies| == |calls|
    ensures Balanced(Progress(Stats(|calls|, 0, 0, 0, 0), []), 0, calls, extensionIds, owners, replies, dryRun)
  {
  }

  /** A balanced prefix stays balanced when the run goes one record further, from `m` to `n`, without failing. */
  lemma RunNextBalanced(m: nat, n: nat, p: Progress, calls: seq<CallRecord>, extensionIds: seq<string>,
                        names: map<string, string>, owners: seq<LeadOwner>, replies: seq<CrmReplies>,
                        now: DateTime, dryRun: bool)
    requires n == m + 1 && n <= |calls| && |replies| == |calls|
    requires Run(m, calls, extensionIds, names, owners, replies, now, dryRun) == Ok(p)
    requires Balanced(p, m, calls, extensionIds, owners, replies, dryRun)
    requires Run(n, calls, extensionIds, names, owners, replies, now, dryRun).Ok?
    ensures Balanced(Run(n, calls, extensionIds, names, owners, replies, now, dryRun).value,
                     n, calls, extensionIds, owners, replies, dryRun)
  {
    RunNext(m, p, calls, extensionIds, names, owners, replies, now, dryRun);
    var step := Step(p, m, calls, extensionIds, names, owners, replies, now, dryRun);
    assert Run(m + 1, calls, extensionIds, names, owners, replies, now, dryRun) == Ok(step.value) by {
      assert Run(m + 1, calls, extensionIds, names, owners, replies, now, dryRun).Ok?;
    }
    StepBalanced(p, m, calls, extensionIds, names, owners, replies, now, dryRun);
  }

  /** One successful step keeps the bookkeeping facts. */
  lemma StepBalanced(p: Progress, n: nat, calls: seq<CallRecord>, extensionIds: seq<string>,
                     names: map<string, string>, owners: seq<LeadOwner>, replies: seq<CrmReplies>,
                     now: DateTime, dryRun: bool)
    requires n < |calls| && |replies| == |calls|
    requires Balanced(p, n, calls, extensionIds, owners, replies, dryRun)
    requires Step(p, n, calls, extensionIds, names, owners, replies, now, dryRun).Ok?
    ensures Balanced(Step(p, n, calls, extensionIds, names, owners, replies, now, dryRun).value,
                     n + 1, calls, extensionIds, owners, replies, dryRun)
  {
    StepKeepsCounts(p, n, calls, extensionIds, names, owners, replies, now, dryRun);
    StepKeepsAssignments(p, n, calls, extensionIds, names, owners, replies, now, dryRun);
  }

  /** Running one record further is one `Step`; an exception ends the run at that record. */
  lemma RunNext(n: nat, p: Progress, calls: seq<CallRecord>, extensionIds: seq<string>,
                names: map<string, string>, owners: seq<LeadOwner>, replies: seq<CrmReplies>,
                now: DateTime, dryRun: bool)
    requires n < |calls| && |replies| == |calls|
    requires Run(n, calls, extensionIds, names, owners, replies, now, dryRun) == Ok(p)
    ensures var step := Step(p, n, calls, extensionIds, names, owners, replies, now, dryRun);
            Run(n + 1, calls, extensionIds, names, owners, replies, now, dryRun)
            == if step.Ok? then Ok(step.value) else Err((step.error, n, p.handled))
  {
  }

  /** A record the loop skips moves the run on with one more skipped call. */
  lemma RunSkip(n: nat, p: Progress, calls: seq<CallRecord>, extensionIds: seq<string>,
                names: map<string, string>, owners: seq<LeadOwner>, replies: seq<CrmReplies>,
                now: DateTime, dryRun: bool)
    requires n < |calls| && |replies| == |calls|
    requires Run(n, calls, extensionIds, names, owners, replies, now, dryRun) == Ok(p)
    requires Classify(calls[n], extensionIds) == Skip
    ensures Run(n + 1, calls, extensionIds, names, owners, replies, now, dryRun)
            == Ok(Progress(p.stats.(skipped := p.stats.skipped + 1), p.handled))
  {
    assert Step(p, n, calls, extensionIds, names, owners, replies, now, dryRun)
           == Ok(Progress(p.stats.(skipped := p.stats.skipped + 1), p.handled));
    RunNext(n, p, calls, extensionIds, names, owners, replies, now, dryRun);
  }

  /** The step on a kept record, spelled out. */
  lemma StepKeep(n: nat, p: Progress, calls: seq<CallRecord>, extensionIds: seq<string>,
                 names: map<string, string>, owners: seq<LeadOwner>, replies: seq<CrmReplies>,
                 now: DateTime, dryRun: bool)
    requires n < |calls| && |replies| == |calls| && |owners| > 0
    requires Classify(calls[n], extensionIds) == Keep
    ensures var s := p.stats;
            var existing := replies[n].counted.Some?;
            var owner := owners[s.processed % |owners|];
            Step(p, n, calls, extensionIds, names, owners, replies, now, dryRun)
            == Ok(Progress(Stats(s.total, s.processed + 1,
                                 if existing then s.existing + 1 else s.existing,
                                 if existing then s.newLeads else s.newLeads + 1,
                                 s.skipped),
                           p.handled + [Handled(n, owner, existing,
                                                LeadActions(calls[n], owner, names, replies[n], now, dryRun))]))
  {
  }

  /** A record the loop keeps is counted, draws the next owner and records its requests. */
  lemma RunKeep(n: nat, p: Progress, calls: seq<CallRecord>, extensionIds: seq<string>,
                names: map<string, string>, owners: seq<LeadOwner>, replies: seq<CrmReplies>,
                now: DateTime, dryRun: bool)
    requires n < |calls| && |replies| == |calls| && |owners| > 0
    requires Run(n, calls, extensionIds, names, owners, replies, now, dryRun) == Ok(p)
    requires Classify(calls[n], extensionIds) == Keep
    ensures var s := p.stats;
            var existing := replies[n].counted.Some?;
            var owner := owners[s.processed % |owners|];
            Run(n + 1, calls, extensionIds, names, owners, replies, now, dryRun)
            == Ok(Progress(Stats(s.total, s.processed + 1,
                                 if existing then s.existing + 1 else s.existing,
                                 if existing then s.newLeads else s.newLeads + 1,
                                 s.skipped),
                           p.handled + [Handled(n, owner, existing,
                                                LeadActions(calls[n], owner, names, replies[n], now, dryRun))]))
  {
    StepKeep(n, p, calls, extensionIds, names, owners, replies, now, dryRun);
    RunNext(n, p, calls, extensionIds, names, owners, replies, now, dryRun);
  }

  /** An exception on record `n` is where the whole run ends. */
  lemma RunFail(n: nat, p: Progress, f: Failure, calls: seq<CallRecord>, extensionIds: seq<string>,
                names: map<string, string>, owners: seq<LeadOwner>, replies: seq<CrmReplies>,
                now: DateTime, dryRun: bool)
    requires n < |calls| && |replies| == |calls|
    requires Run(n, calls, extensionIds, names, owners, replies, now, dryRun) == Ok(p)
    requires Classify(calls[n], extensionIds) == Fail(f)
             || (Classify(calls[n], extensionIds) == Keep && |owners| == 0 && f == NoLeadOwners)
    ensures ProcessSpec(calls, extensionIds, names, owners, replies, now, dryRun) == Raised(f, n, p.handled)
  {
    RunNext(n, p, calls, extensionIds, names, owners, replies, now, dryRun);
    RunStopsAtFailure(n + 1, |calls|, calls, extensionIds, names, owners, replies, now, dryRun);
  }

  /** Once an exception escapes, later records are never looked at. */
  lemma {:induction false} RunStopsAtFailure(n: nat, m: nat, calls: seq<CallRecord>, extensionIds: seq<string>,
                                             names: map<string, string>, owners: seq<LeadOwner>,
                                             replies: seq<CrmReplies>, now: DateTime, dryRun: bool)
    requires n <= m <= |calls| && |replies| == |calls|
    requires Run(n, calls, extensionIds, names, owners, replies, now, dryRun).Err?
    ensures Run(m, calls, extensionIds, names, owners, replies, now, dryRun)
            == Run(n, calls, extensionIds, names, owners, replies, now, dryRun)
    decreases m - n
  {
    if n < m {
      RunStopsAtFailure(n, m - 1, calls, extensionIds, names, owners, replies, now, dryRun);
    }
  }

  /** `process_missed_calls` as a function of its inputs. */
  function ProcessSpec(calls: seq<CallRecord>, extensionIds: seq<string>, names: map<string, string>,
                       owners: seq<LeadOwner>, replies: seq<CrmReplies>, now: DateTime, dryRun: bool): Outcome
    requires |replies| == |calls|
  {
    if |calls| == 0 then NoCallLogs
    else
      match Run(|calls|, calls, extensionIds, names, owners, replies, now, dryRun)
      case Err((f, at, hs)) => Raised(f, at, hs)
      case Ok(p) => Finished(p.stats, p.handled)
  }

  // Properties of `process_missed_calls`, stated on the specification function
  // the method is proved equal to.

  /** An empty call list returns None; any other list returns statistics or raises. */
  lemma NoCallsNoStats(calls: seq<CallRecord>, extensionIds: seq<string>, names: map<string, string>,
                       owners: seq<LeadOwner>, replies: seq<CrmReplies>, now: DateTime, dryRun: bool)
    requires |replies| == |calls|
    ensures ProcessSpec(calls, extensionIds, names, owners, replies, now, dryRun).NoCallLogs? <==> |calls| == 0
  {
  }

  /** Every record is either processed or skipped, and every processed call is existing or new. */
  lemma StatsAddUp(calls: seq<CallRecord>, extensionIds: seq<string>, names: map<string, string>,
                   owners: seq<LeadOwner>, replies: seq<CrmReplies>, now: DateTime, dryRun: bool)
    requires |replies| == |calls|
    requires ProcessSpec(calls, extensionIds, names, owners, replies, now, dryRun).Finished?
    ensures var st := ProcessSpec(calls, extensionIds, names, owners, replies, now, dryRun).stats;
            && st.total == |calls|
            && st.processed + st.skipped == st.total
            && st.existing + st.newLeads == st.processed
  {
    RunBalanced(|calls|, calls, extensionIds, names, owners, replies, now, dryRun);
  }

  /** A call is processed exactly when it has a caller number and a configured extension; order is kept. */
  lemma ProcessedAreKept(calls: seq<CallRecord>, extensionIds: seq<string>, names: map<string, string>,
                         owners: seq<LeadOwner>, replies: seq<CrmReplies>, now: DateTime, dryRun: bool)
    requires |replies| == |calls|
    requires ProcessSpec(calls, extensionIds, names, owners, replies, now, dryRun).Finished?
    ensures forall i | 0 <= i < |calls| :: calls[i].from.HasNumber() ==> !calls[i].to.Absent?
    ensures var hs := ProcessSpec(calls, extensionIds, names, owners, replies, now, dryRun).handled;
            && (forall i | 0 <= i < |calls| ::
                  i in CallsOf(hs) <==> calls[i].from.HasNumber() && calls[i].to.ExtensionId().Str() in extensionIds)
            && (forall k, l | 0 <= k < l < |hs| :: hs[k].call < hs[l].call)
  {
    RunBalanced(|calls|, calls, extensionIds, names, owners, replies, now, dryRun);
    KeptIndicesSpec(|calls|, calls, extensionIds);
    var hs := ProcessSpec(calls, extensionIds, names, owners, replies, now, dryRun).handled;
    forall i | 0 <= i < |calls|
      ensures calls[i].from.HasNumber() ==> !calls[i].to.Absent?
    {
      if calls[i].from.HasNumber() && calls[i].to.Absent? {
        RunHasNoFailure(i, calls, extensionIds, names, owners, replies, now, dryRun);
      }
    }
    forall k, l | 0 <= k < l < |hs|
      ensures hs[k].call < hs[l].call
    {
      assert CallsOf(hs)[k] == hs[k].call && CallsOf(hs)[l] == hs[l].call;
    }
  }

  /** Had record `i` raised, the run would not have finished. */
  lemma RunHasNoFailure(i: nat, calls: seq<CallRecord>, extensionIds: seq<string>, names: map<string, string>,
                        owners: seq<LeadOwner>, replies: seq<CrmReplies>, now: DateTime, dryRun: bool)
    requires i < |calls| && |replies| == |calls|
    requires Run(|calls|, calls, extensionIds, names, owners, replies, now, dryRun).Ok?
    ensures !Classify(calls[i], extensionIds).Fail?
  {
    RunPrefixOk(i + 1, |calls|, calls, extensionIds, names, owners, replies, now, dryRun);
    RunPrefixOk(i, |calls|, calls, extensionIds, names, owners, replies, now, dryRun);
    var p := Run(i, calls, extensionIds, names, owners, replies, now, dryRun).value;
    RunNext(i, p, calls, extensionIds, names, owners, replies, now, dryRun);
    assert Step(p, i, calls, extensionIds, names, owners, replies, now, dryRun).Ok?;
  }

  /** A run that succeeds succeeded on every prefix. */
  lemma RunPrefixOk(n: nat, m: nat, calls: seq<CallRecord>, extensionIds: seq<string>,
                    names: map<string, string>, owners: seq<LeadOwner>,
                    replies: seq<CrmReplies>, now: DateTime, dryRun: bool)
    requires n <= m <= |calls| && |replies| == |calls|
    requires Run(m, calls, extensionIds, names, owners, replies, now, dryRun).Ok?
    ensures Run(n, calls, extensionIds, names, owners, replies, now, dryRun).Ok?
  {
    if Run(n, calls, extensionIds, names, owners, replies, now, dryRun).Err? {
      RunStopsAtFailure(n, m, calls, extensionIds, names, owners, replies, now, dryRun);
    }
  }

  /**
   * Owners are handed out round-robin over processed calls only: the k-th
   * processed call gets `owners[k mod |owners|]`, whatever was skipped in between.
   */
  lemma RoundRobinOwners(calls: seq<CallRecord>, extensionIds: seq<string>, names: map<string, string>,
                         owners: seq<LeadOwner>, replies: seq<CrmReplies>, now: DateTime, dryRun: bool)
    requires |replies| == |calls|
    requires ProcessSpec(calls, extensionIds, names, owners, replies, now, dryRun).Finished?
    ensures var hs := ProcessSpec(calls, extensionIds, names, owners, replies, now, dryRun).handled;
            forall k | 0 <= k < |hs| :: |owners| > 0 && hs[k].owner == owners[k % |owners|]
  {
    RunBalanced(|calls|, calls, extensionIds, names, owners, replies, now, dryRun);
  }

  /** `existing_leads` counts the processed calls whose first phone search found a lead. */
  lemma ExistingFollowsSearch(calls: seq<CallRecord>, extensionIds: seq<string>, names: map<string, string>,
                              owners: seq<LeadOwner>, replies: seq<CrmReplies>, now: DateTime, dryRun: bool)
    requires |replies| == |calls|
    requires ProcessSpec(calls, extensionIds, names, owners, replies, now, dryRun).Finished?
    ensures var o := ProcessSpec(calls, extensionIds, names, owners, replies, now, dryRun);
            && o.stats.existing == CountExisting(o.handled)
            && forall k | 0 <= k < |o.handled| ::
                 o.handled[k].call < |calls| && o.handled[k].existingLead == replies[o.handled[k].call].counted.Some?
  {
    RunBalanced(|calls|, calls, extensionIds, names, owners, replies, now, dryRun);
  }

  /** A dry run issues no create request (notes on existing leads are still posted). */
  lemma DryRunCreatesNoLead(calls: seq<CallRecord>, extensionIds: seq<string>, names: map<string, string>,
                            owners: seq<LeadOwner>, replies: seq<CrmReplies>, now: DateTime)
    requires |replies| == |calls|
    requires ProcessSpec(calls, extensionIds, names, owners, replies, now, true).Finished?
    ensures var hs := ProcessSpec(calls, extensionIds, names, owners, replies, now, true).handled;
            forall k, a | 0 <= k < |hs| && 0 <= a < |hs[k].actions| :: !hs[k].actions[a].CreateLead?
  {
    RunBalanced(|calls|, calls, extensionIds, names, owners, replies, now, true);
  }

  /** Dry run changes requests only: every prefix ends the same way with the same counters. */
  lemma {:induction false} DryRunSameRun(n: nat, calls: seq<CallRecord>, extensionIds: seq<string>,
                                         names: map<string, string>, owners: seq<LeadOwner>,
                                         replies: seq<CrmReplies>, now: DateTime)
    requires n <= |calls| && |replies| == |calls|
    ensures var dry := Run(n, calls, extensionIds, names, owners, replies, now, true);
            var live := Run(n, calls, extensionIds, names, owners, replies, now, false);
            && dry.Ok? == live.Ok?
            && (dry.Ok? ==> dry.value.stats == live.value.stats)
            && (dry.Err? ==> dry.error.0 == live.error.0 && dry.error.1 == live.error.1)
  {
    if n > 0 {
      DryRunSameRun(n - 1, calls, extensionIds, names, owners, replies, now);
      var dry := Run(n - 1, calls, extensionIds, names, owners, replies, now, true);
      var live := Run(n - 1, calls, extensionIds, names, owners, replies, now, false);
      if dry.Ok? {
        DryStepSameStats(dry.value, live.value, n - 1, calls, extensionIds, names, owners, replies, now);
      }
    }
  }

  /** One step from equal counters takes the same branch in dry and live runs and leaves equal counters. */
  lemma DryStepSameStats(p: Progress, q: Progress, n: nat, calls: seq<CallRecord>, extensionIds: seq<string>,
                         names: map<string, string>, owners: seq<LeadOwner>,
                         replies: seq<CrmReplies>, now: DateTime)
    requires n < |calls| && |replies| == |calls| && p.stats == q.stats
    ensures var dry := Step(p, n, calls, extensionIds, names, owners, replies, now, true);
            var live := Step(q, n, calls, extensionIds, names, owners, replies, now, false);
            && dry.Ok? == live.Ok?
            && (dry.Ok? ==> dry.value.stats == live.value.stats)
            && (dry.Err? ==> dry.error == live.error)
  {
  }

  /** `new_leads` is counted in dry run exactly as in a live run. */
  lemma DryRunSameStats(calls: seq<CallRecord>, extensionIds: seq<string>, names: map<string, string>,
                        owners: seq<LeadOwner>, replies: seq<CrmReplies>, now: DateTime)
    requires |replies| == |calls|
    ensures var dry := ProcessSpec(calls, extensionIds, names, owners, replies, now, true);
            var live := ProcessSpec(calls, extensionIds, names, owners, replies, now, false);
            && dry.Finished? == live.Finished?
            && (dry.Finished? ==> dry.stats == live.stats)
  {
    DryRunSameRun(|calls|, calls, extensionIds, names, owners, replies, now);
  }

  /**
   * The body of the loop of `process_missed_calls` on record `i`: the two
   * skip tests, the `call['to']` access, drawing the next owner and
   * handing the call to `create_or_update_lead`.
   */
  method HandleRecord(p: Progress, i: nat, calls: seq<CallRecord>, extensionIds: seq<string>,
                      names: map<string, string>, owners: seq<LeadOwner>, replies: seq<CrmReplies>,
                      now: DateTime, dryRun: bool) returns (r: Result<Progress, Failure>)
    requires i < |calls| && |replies| == |calls|
    ensures r == Step(p, i, calls, extensionIds, names, owners, replies, now, dryRun)
  {
    var call := calls[i];
    var stats := p.stats;
    if !call.from.HasNumber() {
      return Ok(Progress(stats.(skipped := stats.skipped + 1), p.handled));
    }
    if call.to.Absent? {
      return Err(MissingTo);
    }
    if call.to.ExtensionId().Str() !in extensionIds {
      return Ok(Progress(stats.(skipped := stats.skipped + 1), p.handled));
    }
    if |owners| == 0 {
      return Err(NoLeadOwners);
    }
    var owner := owners[stats.processed % |owners|];
    var isExisting := replies[i].counted.Some?;
    if isExisting {
      stats := stats.(existing := stats.existing + 1);
    } else {
      stats := stats.(newLeads := stats.newLeads + 1);
    }
    var actions := LeadActions(call, owner, names, replies[i], now, dryRun);
    stats := stats.(processed := stats.processed + 1);
    return Ok(Progress(stats, p.handled + [Handled(i, owner, isExisting, actions)]));
  }

  /**
   * `process_missed_calls`. The owner cycle has advanced once per processed
   * call, so its next owner is the one at `processed` modulo the list length.
   */
  method ProcessMissedCalls(calls: seq<CallRecord>, extensionIds: seq<string>, names: map<string, string>,
                            owners: seq<LeadOwner>, replies: seq<CrmReplies>, now: DateTime, dryRun: bool)
    returns (out: Outcome)
    requires |replies| == |calls|
    ensures out == ProcessSpec(calls, extensionIds, names, owners, replies, now, dryRun)
  {
    if |calls| == 0 {
      return NoCallLogs;
    }
    var progress := Progress(Stats(|calls|, 0, 0, 0, 0), []);
    for i := 0 to |calls|
      invariant Run(i, calls, extensionIds, names, owners, replies, now, dryRun) == Ok(progress)
    {
      var step := HandleRecord(progress, i, calls, extensionIds, names, owners, replies, now, dryRun);
      RunNext(i, progress, calls, extensionIds, names, owners, replies, now, dryRun);
      if step.Err? {
        RunStopsAtFailure(i + 1, |calls|, calls, extensionIds, names, owners, replies, now, dryRun);
        return Raised(step.error, i, progress.handled);
      }
      progress := step.value;
    }
    return Finished(progress.stats, progress.handled);
  }
}
