/**
 * accepted_calls.py: downloading a call recording with back-off on HTTP
 * 429 "Too Many Requests" (section 4 of RFC 6585), checking whether a
 * lead already carries the recording, deciding what to attach or note,
 * and the call-filtering loop that hands calls out round-robin.
 *
 * HTTP responses are oracles: `respond(k)` is what the k-th download
 * request gets back. `time.sleep` is not performed; its delays are returned.
 */
module AcceptedCalls {
  import opened Wrappers
  import opened Text
  import opened Clock
  import opened Records

  // ---------------------------------------------------------------------
  // RingCentralClient.get_recording_content
  // ---------------------------------------------------------------------

  const MaxRetries: nat := 5
  const InitialDelay: nat := 1
  const BackoffFactor: nat := 2
  const StatusOk: int := 200
  const StatusTooManyRequests: int := 429

  /** What one download request gives: an HTTP response, or a `RequestException`. */
  datatype Response = Response(status: int, content: seq<bv8>, contentType: Option<string>) | RequestFailed

  /** The body and `Content-Type` header of a successful download. */
  datatype Recording = Recording(content: seq<bv8>, contentType: Option<string>)

  /** The end of a download: raised for lack of a token, a recording, or `(None, None)`. */
  datatype FetchResult = NoAccessToken | Fetched(recording: Recording) | GaveUp

  /** A download run: its result, how many requests it sent, and the delays it slept. */
  datatype Fetch = Fetch(result: FetchResult, attempts: nat, sleeps: seq<nat>)

  predicate RateLimited(r: Response) {
    r.Response? && r.status == StatusTooManyRequests
  }

  function Pow2(k: nat): (r: nat)
    ensures r >= 1
  {
    if k == 0 then 1 else 2 * Pow2(k - 1)
  }

  function Sum(xs: seq<nat>): nat {
    if |xs| == 0 then 0 else Sum(xs[..|xs| - 1]) + xs[|xs| - 1]
  }

  /** The retry loop from attempt `attempt` on, with the current delay and the sleeps so far. */
  function FetchLoop(respond: nat -> Response, attempt: nat, delay: nat, sleeps: seq<nat>): Fetch
    requires attempt <= MaxRetries
    decreases MaxRetries - attempt
  {
    if attempt == MaxRetries then Fetch(GaveUp, attempt, sleeps)
    else
      var r := respond(attempt);
      if r.Response? && r.status == StatusOk then Fetch(Fetched(Recording(r.content, r.contentType)), attempt + 1, sleeps)
      else if RateLimited(r) then FetchLoop(respond, attempt + 1, delay * BackoffFactor, sleeps + [delay])
      else Fetch(GaveUp, attempt + 1, sleeps)
  }

  /** `get_recording_content` as a function of the token and the responses. */
  function FetchSpec(hasToken: bool, respond: nat -> Response): Fetch {
    if !hasToken then Fetch(NoAccessToken, 0, [])
    else FetchLoop(respond, 0, InitialDelay, [])
  }

  /** `get_recording_content`: at most five requests, sleeping and doubling the delay after each 429. */
  method GetRecordingContent(hasToken: bool, respond: nat -> Response) returns (fetch: Fetch)
    ensures fetch == FetchSpec(hasToken, respond)
  {
    if !hasToken {
      return Fetch(NoAccessToken, 0, []);
    }
    var delay: nat := InitialDelay;
    var sleeps: seq<nat> := [];
    var attempt := 0;
    while attempt < MaxRetries
      invariant attempt <= MaxRetries
      invariant FetchLoop(respond, attempt, delay, sleeps) == FetchSpec(hasToken, respond)
      decreases MaxRetries - attempt
    {
      var r := respond(attempt);
      if r.RequestFailed? {
        return Fetch(GaveUp, attempt + 1, sleeps);
      }
      if r.status == StatusOk {
        return Fetch(Fetched(Recording(r.content, r.contentType)), attempt + 1, sleeps);
      } else if r.status == StatusTooManyRequests {
        sleeps := sleeps + [delay];
        delay := delay * BackoffFactor;
      } else {
        return Fetch(GaveUp, attempt + 1, sleeps);
      }
      attempt := attempt + 1;
    }
    return Fetch(GaveUp, attempt, sleeps);
  }

  /** What the retry loop guarantees about its requests, from any point on. */
  lemma {:induction false} FetchLoopRequests(respond: nat -> Response, attempt: nat, delay: nat, sleeps: seq<nat>)
    requires attempt <= MaxRetries
    requires forall k | 0 <= k < attempt :: RateLimited(respond(k))
    ensures var f := FetchLoop(respond, attempt, delay, sleeps);
            && attempt <= f.attempts <= MaxRetries
            && (f.attempts > 0 || attempt == MaxRetries)
            && !f.result.NoAccessToken?
            && (forall k | 0 <= k < f.attempts - 1 :: RateLimited(respond(k)))
            && (f.result.Fetched? <==> f.attempts > attempt && respond(f.attempts - 1).Response?
                                       && respond(f.attempts - 1).status == StatusOk)
            && (f.result.Fetched? ==> f.result.recording == Recording(respond(f.attempts - 1).content,
                                                                      respond(f.attempts - 1).contentType))
    decreases MaxRetries - attempt
  {
    if attempt < MaxRetries && RateLimited(respond(attempt)) {
      FetchLoopRequests(respond, attempt + 1, delay * BackoffFactor, sleeps + [delay]);
    }
  }

  /** What the retry loop guarantees about its sleeps: one per 429, the k-th lasting 2^k seconds. */
  lemma {:induction false} FetchLoopSleeps(respond: nat -> Response, attempt: nat, sleeps: seq<nat>)
    requires attempt <= MaxRetries && |sleeps| == attempt
    requires forall k | 0 <= k < attempt :: RateLimited(respond(k)) && sleeps[k] == Pow2(k)
    ensures var f := FetchLoop(respond, attempt, Pow2(attempt), sleeps);
            && |f.sleeps| == (if f.attempts > 0 && RateLimited(respond(f.attempts - 1)) then f.attempts else f.attempts - 1)
            && (forall k | 0 <= k < |f.sleeps| :: f.sleeps[k] == Pow2(k))
    decreases MaxRetries - attempt
  {
    if attempt < MaxRetries && RateLimited(respond(attempt)) {
      assert Pow2(attempt) * BackoffFactor == Pow2(attempt + 1);
      FetchLoopSleeps(respond, attempt + 1, sleeps + [Pow2(attempt)]);
    }
  }

  /**
   * With a token, a download sends between one and five requests; every
   * request but the last got 429; a recording comes back exactly when the
   * last request got 200; the k-th sleep lasts 2^k seconds, one per 429.
   */
  lemma FetchContract(respond: nat -> Response)
    ensures var f := FetchSpec(true, respond);
            && 1 <= f.attempts <= MaxRetries
            && (forall k | 0 <= k < f.attempts - 1 :: RateLimited(respond(k)))
            && (f.result.Fetched? <==> respond(f.attempts - 1).Response? && respond(f.attempts - 1).status == StatusOk)
            && (f.result.Fetched? ==> f.result.recording == Recording(respond(f.attempts - 1).content,
                                                                      respond(f.attempts - 1).contentType))
            && (f.result.GaveUp? && f.attempts < MaxRetries ==> !RateLimited(respond(f.attempts - 1)))
            && |f.sleeps| == (if RateLimited(respond(f.attempts - 1)) then f.attempts else f.attempts - 1)
            && (forall k | 0 <= k < |f.sleeps| :: f.sleeps[k] == Pow2(k))
  {
    FetchLoopRequests(respond, 0, InitialDelay, []);
    FetchLoopSleeps(respond, 0, []);
    var f := FetchSpec(true, respond);
    if f.result.GaveUp? && f.attempts < MaxRetries && RateLimited(respond(f.attempts - 1)) {
      GaveUpStopsOnlyWhenNotRateLimited(respond, 0, []);
    }
  }

  /** Before the fifth attempt the loop gives up only on a response that is not a 429. */
  lemma {:induction false} GaveUpStopsOnlyWhenNotRateLimited(respond: nat -> Response, attempt: nat, sleeps: seq<nat>)
    requires attempt <= MaxRetries
    ensures var f := FetchLoop(respond, attempt, Pow2(attempt), sleeps);
            f.result.GaveUp? && f.attempts < MaxRetries ==> f.attempts > 0 && !RateLimited(respond(f.attempts - 1))
    decreases MaxRetries - attempt
  {
    if attempt < MaxRetries && RateLimited(respond(attempt)) {
      assert Pow2(attempt) * BackoffFactor == Pow2(attempt + 1);
      GaveUpStopsOnlyWhenNotRateLimited(respond, attempt + 1, sleeps + [Pow2(attempt)]);
    }
  }

  /** Without an access token nothing is requested and the download raises. */
  lemma NoTokenNoRequest(respond: nat -> Response)
    ensures FetchSpec(false, respond) == Fetch(NoAccessToken, 0, [])
  {
  }

  /** Five 429 answers in a row: delays 1, 2, 4, 8 and 16 seconds, 31 in all, then `(None, None)`. */
  lemma FiveRateLimits(respond: nat -> Response)
    requires forall k | 0 <= k < MaxRetries :: RateLimited(respond(k))
    ensures FetchSpec(true, respond) == Fetch(GaveUp, 5, [1, 2, 4, 8, 16])
    ensures Sum(FetchSpec(true, respond).sleeps) == 31
  {
    assert RateLimited(respond(0)) && RateLimited(respond(1)) && RateLimited(respond(2));
    assert RateLimited(respond(3)) && RateLimited(respond(4));
    assert [1] + [2] + [4] + [8] + [16] == [1, 2, 4, 8, 16];
    assert [1, 2, 4, 8, 16][..4] == [1, 2, 4, 8];
    assert [1, 2, 4, 8][..3] == [1, 2, 4];
    assert [1, 2, 4][..2] == [1, 2];
    assert [1, 2][..1] == [1];
  }

  // ---------------------------------------------------------------------
  // ZohoClient.is_recording_already_attached
  // ---------------------------------------------------------------------

  /** The `File_Name` of an attachment: absent (read as ""), null, or a name. */
  datatype FileName = NoFileName | NullFileName | FileName(name: string)

  /** The reply to the attachment listing: a status and the `data` list, or an exception. */
  datatype AttachmentsReply = Listing(status: int, fileNames: seq<FileName>) | ListingFailed

  /** `recording_id in attachment.get('File_Name', '')` for a name that is a string. */
  predicate NameMatches(f: FileName, recordingId: string)
    requires !f.NullFileName?
  {
    Contains(if f.FileName? then f.name else "", recordingId)
  }

  /**
   * The scan: the first null name raises TypeError, which is caught and
   * reads as "not attached"; the first matching name answers yes.
   */
  function ScanSpec(fileNames: seq<FileName>, recordingId: string): bool {
    if |fileNames| == 0 then false
    else if fileNames[0].NullFileName? then false
    else if NameMatches(fileNames[0], recordingId) then true
    else ScanSpec(fileNames[1..], recordingId)
  }

  /** `is_recording_already_attached` as a function of the listing. */
  function AttachedSpec(reply: AttachmentsReply, recordingId: string): bool {
    reply.Listing? && reply.status == StatusOk && ScanSpec(reply.fileNames, recordingId)
  }

  method IsRecordingAlreadyAttached(reply: AttachmentsReply, recordingId: string) returns (attached: bool)
    ensures attached == AttachedSpec(reply, recordingId)
  {
    if !reply.Listing? || reply.status != StatusOk {
      return false;
    }
    var names := reply.fileNames;
    for i := 0 to |names|
      invariant ScanSpec(names[i..], recordingId) == ScanSpec(names, recordingId)
    {
      assert names[i..][1..] == names[i + 1..];
      if names[i].NullFileName? {
        return false;
      }
      if NameMatches(names[i], recordingId) {
        return true;
      }
    }
    return false;
  }

  /** The scan answers yes exactly when some name matches and no null name comes before it. */
  lemma {:induction false} ScanSpecMeaning(fileNames: seq<FileName>, recordingId: string)
    ensures ScanSpec(fileNames, recordingId) <==>
            exists i | 0 <= i < |fileNames| ::
              && !fileNames[i].NullFileName?
              && NameMatches(fileNames[i], recordingId)
              && forall j | 0 <= j < i :: !fileNames[j].NullFileName?
  {
    if |fileNames| > 0 {
      var tail := fileNames[1..];
      ScanSpecMeaning(tail, recordingId);
      if ScanSpec(fileNames, recordingId) && !(!fileNames[0].NullFileName? && NameMatches(fileNames[0], recordingId)) {
        var i :| 0 <= i < |tail| && !tail[i].NullFileName? && NameMatches(tail[i], recordingId)
                 && forall j | 0 <= j < i :: !tail[j].NullFileName?;
        assert fileNames[i + 1] == tail[i];
        forall j | 0 <= j < i + 1
          ensures !fileNames[j].NullFileName?
        {
          if j > 0 {
            assert fileNames[j] == tail[j - 1];
          }
        }
      }
      if exists i | 0 <= i < |fileNames| ::
           && !fileNames[i].NullFileName?
           && NameMatches(fileNames[i], recordingId)
           && forall j | 0 <= j < i :: !fileNames[j].NullFileName? {
        var i :| 0 <= i < |fileNames| && !fileNames[i].NullFileName? && NameMatches(fileNames[i], recordingId)
                 && forall j | 0 <= j < i :: !fileNames[j].NullFileName?;
        if i > 0 {
          assert tail[i - 1] == fileNames[i];
          forall j | 0 <= j < i - 1
            ensures !tail[j].NullFileName?
          {
            assert tail[j] == fileNames[j + 1];
          }
        }
      }
    }
  }

  /** With no null names, the recording counts as attached exactly when some file name contains its id. */
  lemma AttachedBySubstring(reply: AttachmentsReply, recordingId: string)
    requires reply.Listing? && reply.status == StatusOk
    requires forall i | 0 <= i < |reply.fileNames| :: !reply.fileNames[i].NullFileName?
    ensures AttachedSpec(reply, recordingId) <==>
            exists i | 0 <= i < |reply.fileNames| :: NameMatches(reply.fileNames[i], recordingId)
  {
    ScanSpecMeaning(reply.fileNames, recordingId);
  }

  /** Any status other than 200, or an exception, reads as "not attached". */
  lemma FailedListingNotAttached(reply: AttachmentsReply, recordingId: string)
    requires !reply.Listing? || reply.status != StatusOk
    ensures !AttachedSpec(reply, recordingId)
  {
  }

  // ---------------------------------------------------------------------
  // ZohoClient.attach_recording_to_lead
  // ---------------------------------------------------------------------

  /** The reply to the upload: an HTTP status, or an exception with its message. */
  datatype UploadReply = Uploaded(status: int) | UploadFailed(message: string)

  /** Why `attach_recording_to_lead` raised instead of returning. */
  datatype AttachError =
    | DownloadWithoutToken   // `get_recording_content` raised for lack of a token
    | NoContentType          // `None.split('/')`: AttributeError
    | NoSubtype              // `content_type.split('/')[1]` on a type without '/': IndexError

  /** What happened to one call's recording. */
  datatype AttachOutcome =
    | AlreadyAttached
    | UploadAccepted(fileName: string)
    | UploadRejected(fileName: string, note: string)
    | NotRetrieved(note: string)
    | NoRecording(note: string)
    | AttachRaised(error: AttachError)

  predicate Accepted(status: int) {
    status == 200 || status == 201 || status == 202
  }

  /** `content_type.split('/')[1]`, when it exists. */
  function Subtype(contentType: Option<string>): (r: Result<string, AttachError>)
    ensures contentType.None? ==> r == Err(NoContentType)
    ensures r.Ok? ==> '/' !in r.value
  {
    match contentType
    case None => Err(NoContentType)
    case Some(ct) =>
      var parts := Split(ct, '/');
      if |parts| < 2 then Err(NoSubtype)
      else Ok(parts[1])
  }

  /** `f"{call_time:%Y%m%d_%H%M%S}_recording_{recording_id}.{subtype}"`. */
  function AttachmentFileName(callTime: DateTime, recordingId: string, subtype: string): string {
    FormatCompact(callTime) + "_recording_" + recordingId + "." + subtype
  }

  /** The note posted when the upload is refused or raises. */
  function FailedNote(recordingId: string, callTime: DateTime, error: string): string {
    "Failed to attach recording " + recordingId + " at " + Format(callTime) + ". Error: " + error
  }

  /** The note posted when the download brought no content. */
  function NotRetrievedNote(recordingId: string, callTime: DateTime): string {
    "Recording " + recordingId + " at " + Format(callTime) + " could not be retrieved."
  }

  /** The note posted when the call carries no recording id. */
  function NoRecordingNote(callTime: DateTime): string {
    "No recording was available for call at " + Format(callTime) + "."
  }

  /**
   * The decision tree of `attach_recording_to_lead`, given what its three
   * requests returned. `fetched` is only looked at when the recording is
   * not attached yet, `upload` only when a file was built.
   */
  function AttachDecision(recordingId: Option<string>, alreadyAttached: bool, fetched: FetchResult,
                          upload: UploadReply, callTime: DateTime): (r: AttachOutcome)
    ensures recordingId.None? <==> r.NoRecording?
    ensures r == AlreadyAttached <==> recordingId.Some? && alreadyAttached
    ensures r.NotRetrieved? <==> recordingId.Some? && !alreadyAttached
                                 && !fetched.NoAccessToken? && !(fetched.Fetched? && |fetched.recording.content| > 0)
    ensures (r.UploadAccepted? || r.UploadRejected?) ==>
              recordingId.Some? && fetched.Fetched? && |fetched.recording.content| > 0
              && Subtype(fetched.recording.contentType).Ok?
              && r.fileName == AttachmentFileName(callTime, recordingId.value, Subtype(fetched.recording.contentType).value)
    ensures r.UploadAccepted? <==> recordingId.Some? && !alreadyAttached && fetched.Fetched?
                                   && |fetched.recording.content| > 0 && Subtype(fetched.recording.contentType).Ok?
                                   && upload.Uploaded? && Accepted(upload.status)
    ensures r.UploadRejected? <==> recordingId.Some? && !alreadyAttached && fetched.Fetched?
                                   && |fetched.recording.content| > 0 && Subtype(fetched.recording.contentType).Ok?
                                   && !(upload.Uploaded? && Accepted(upload.status))
    ensures r.UploadRejected? ==>
              r.note == FailedNote(recordingId.value, callTime,
                                   if upload.Uploaded? then IntToString(upload.status) else upload.message)
    ensures r.NotRetrieved? ==> r.note == NotRetrievedNote(recordingId.value, callTime)
    ensures r.NoRecording? ==> r.note == NoRecordingNote(callTime)
    ensures recordingId.Some? && !alreadyAttached && fetched.NoAccessToken? ==> r == AttachRaised(DownloadWithoutToken)
    ensures recordingId.Some? && !alreadyAttached && fetched.Fetched? && |fetched.recording.content| > 0
            && Subtype(fetched.recording.contentType).Err? ==>
              r == AttachRaised(Subtype(fetched.recording.contentType).error)
  {
    match recordingId
    case None => NoRecording(NoRecordingNote(callTime))
    case Some(id) =>
      if alreadyAttached then AlreadyAttached
      else match fetched
        case NoAccessToken => AttachRaised(DownloadWithoutToken)
        case GaveUp => NotRetrieved(NotRetrievedNote(id, callTime))
        case Fetched(rec) =>
          if |rec.content| == 0 then NotRetrieved(NotRetrievedNote(id, callTime))
          else match Subtype(rec.contentType)
            case Err(e) => AttachRaised(e)
            case Ok(sub) =>
              var fileName := AttachmentFileName(callTime, id, sub);
              match upload
              case Uploaded(status) =>
                if Accepted(status) then UploadAccepted(fileName)
                else UploadRejected(fileName, FailedNote(id, callTime, IntToString(status)))
              case UploadFailed(message) => UploadRejected(fileName, FailedNote(id, callTime, message))
  }

  /**
   * `attach_recording_to_lead`: the attachment check, then the download,
   * then the upload. Returns the outcome and how many download requests were sent.
   */
  method AttachRecordingToLead(call: CallRecord, listing: AttachmentsReply, hasToken: bool,
                               respond: nat -> Response, upload: UploadReply, callTime: DateTime)
    returns (outcome: AttachOutcome, downloads: nat)
    ensures call.recordingId.None? ==> downloads == 0
    ensures call.recordingId.Some? ==>
              var attached := AttachedSpec(listing, call.recordingId.value);
              var fetch := FetchSpec(hasToken, respond);
              && outcome == AttachDecision(call.recordingId, attached, fetch.result, upload, callTime)
              && downloads == (if attached then 0 else fetch.attempts)
    ensures outcome == AlreadyAttached ==> downloads == 0
  {
    match call.recordingId
    case None =>
      outcome := AttachDecision(None, false, GaveUp, upload, callTime);
      downloads := 0;
    case Some(id) =>
      var attached := IsRecordingAlreadyAttached(listing, id);
      if attached {
        outcome := AlreadyAttached;
        downloads := 0;
        return;
      }
      var fetch := GetRecordingContent(hasToken, respond);
      outcome := AttachDecision(call.recordingId, false, fetch.result, upload, callTime);
      downloads := fetch.attempts;
  }

  /** The subtype is what follows the '/': "audio/mpeg" gives "mpeg". */
  lemma SubtypeOfContentType(kind: string, subtype: string)
    requires '/' !in kind && '/' !in subtype
    ensures Subtype(Some(kind + "/" + subtype)) == Ok(subtype)
  {
    assert Join([kind, subtype], '/') == kind + "/" + subtype by {
      assert Join([subtype], '/') == subtype;
    }
    SplitJoin([kind, subtype], '/');
  }

  /** The subtype is the text after the first '/' up to the next '/', if any. */
  lemma SubtypeAfterFirstSlash(kind: string, rest: string)
    requires '/' !in kind
    ensures Subtype(Some(kind + "/" + rest)) == Ok(Split(rest, '/')[0])
  {
    SplitAfterPiece(kind, rest, '/');
  }

  /** The upload is named after the call time, then "_recording_", the recording id and "." with the subtype. */
  lemma FileNameFromContentType(callTime: DateTime, recordingId: string, subtype: string)
    requires Valid(callTime)
    ensures var name := AttachmentFileName(callTime, recordingId, subtype);
            && name[..15] == FormatCompact(callTime)
            && name[15..26] == "_recording_"
            && name[|name| - |subtype| - 1..] == "." + subtype
  {
    var stamp := FormatCompact(callTime);
    FormatCompactLayout(callTime);
    FourParts(stamp, "_recording_", recordingId, "." + subtype);
    assert AttachmentFileName(callTime, recordingId, subtype) == stamp + "_recording_" + recordingId + ("." + subtype);
  }

  /** Where each of four joined pieces sits in the result. */
  lemma FourParts<T>(a: seq<T>, b: seq<T>, c: seq<T>, d: seq<T>)
    ensures var s := a + b + c + d;
            && s[..|a|] == a && s[|a|..|a| + |b|] == b && s[|s| - |d|..] == d
  {
    var s := a + b + c + d;
    assert s == a + (b + (c + d));
    assert s[|a|..] == b + (c + d);
  }

  /** A content type with no '/' makes the filename expression raise. */
  lemma ContentTypeWithoutSlashRaises(contentType: string)
    requires '/' !in contentType
    ensures Subtype(Some(contentType)) == Err(NoSubtype)
  {
    SplitNoSep(contentType, '/');
  }

  // ---------------------------------------------------------------------
  // process_accepted_calls
  // ---------------------------------------------------------------------

  /** The filter: `from` and `to` present, and a truthy extension id that is configured. */
  predicate Accepts(call: CallRecord, extensionIds: seq<string>) {
    call.from.Truthy() && call.to.Truthy() && call.to.extensionId.Truthy() && RawIn(call.to.extensionId, extensionIds)
  }

  /** Positions, among the first `n` calls, of the calls the loop hands on. */
  function AcceptedIndices(n: nat, calls: seq<CallRecord>, extensionIds: seq<string>): (r: seq<nat>)
    requires n <= |calls|
    ensures |r| <= n
    ensures forall k | 0 <= k < |r| :: r[k] < n
  {
    if n == 0 then []
    else AcceptedIndices(n - 1, calls, extensionIds) + (if Accepts(calls[n - 1], extensionIds) then [n - 1] else [])
  }

  /** Each handed-on call, paired with the owner drawn for it. */
  datatype Assignment = Assignment(call: nat, owner: LeadOwner)

  /** The round-robin pairing of handed-on calls with owners. */
  function RoundRobin(indices: seq<nat>, owners: seq<LeadOwner>): (r: seq<Assignment>)
    requires |owners| > 0
    ensures |r| == |indices|
    ensures forall k | 0 <= k < |r| :: r[k] == Assignment(indices[k], owners[k % |owners|])
  {
    seq(|indices|, k requires 0 <= k < |indices| => Assignment(indices[k], owners[k % |owners|]))
  }

  /** What `process_accepted_calls` ends with; the per-call action itself is not modelled. */
  datatype AcceptedOutcome =
    | NothingToProcess
    | OwnerCycleEmpty(at: nat)          // `next()` on an empty cycle raised StopIteration
    | HandedOut(assignments: seq<Assignment>)

  function AcceptedSpec(calls: seq<CallRecord>, extensionIds: seq<string>, owners: seq<LeadOwner>): AcceptedOutcome {
    var kept := AcceptedIndices(|calls|, calls, extensionIds);
    if |calls| == 0 then NothingToProcess
    else if |kept| == 0 then HandedOut([])
    else if |owners| == 0 then OwnerCycleEmpty(kept[0])
    else HandedOut(RoundRobin(kept, owners))
  }

  /** `process_accepted_calls`, with the call each kept record is handed to recorded as an assignment. */
  method ProcessAcceptedCalls(calls: seq<CallRecord>, extensionIds: seq<string>, owners: seq<LeadOwner>)
    returns (out: AcceptedOutcome)
    ensures out == AcceptedSpec(calls, extensionIds, owners)
  {
    if |calls| == 0 {
      return NothingToProcess;
    }
    var assignments: seq<Assignment> := [];
    for i := 0 to |calls|
      invariant |owners| == 0 ==> AcceptedIndices(i, calls, extensionIds) == [] && assignments == []
      invariant |owners| > 0 ==> assignments == RoundRobin(AcceptedIndices(i, calls, extensionIds), owners)
    {
      var call := calls[i];
      if !call.from.Truthy() || !call.to.Truthy() {
        continue;
      }
      var extensionId := call.to.extensionId;
      if !extensionId.Truthy() || !RawIn(extensionId, extensionIds) {
        continue;
      }
      if |owners| == 0 {
        FirstAcceptedIndex(i, calls, extensionIds);
        return OwnerCycleEmpty(i);
      }
      var owner := owners[|assignments| % |owners|];
      assignments := assignments + [Assignment(i, owner)];
    }
    return HandedOut(assignments);
  }

  /** When no call before `i` was kept and call `i` is, it is the first kept call overall. */
  lemma {:induction false} FirstAcceptedIndex(i: nat, calls: seq<CallRecord>, extensionIds: seq<string>)
    requires i < |calls| && Accepts(calls[i], extensionIds)
    requires AcceptedIndices(i, calls, extensionIds) == []
    ensures |AcceptedIndices(|calls|, calls, extensionIds)| > 0
    ensures AcceptedIndices(|calls|, calls, extensionIds)[0] == i
  {
    AcceptedIndicesGrow(i + 1, |calls|, calls, extensionIds);
  }

  /** Looking at more calls only appends kept positions. */
  lemma {:induction false} AcceptedIndicesGrow(n: nat, m: nat, calls: seq<CallRecord>, extensionIds: seq<string>)
    requires n <= m <= |calls|
    ensures |AcceptedIndices(n, calls, extensionIds)| <= |AcceptedIndices(m, calls, extensionIds)|
    ensures AcceptedIndices(m, calls, extensionIds)[..|AcceptedIndices(n, calls, extensionIds)|]
            == AcceptedIndices(n, calls, extensionIds)
    decreases m - n
  {
    if n < m {
      AcceptedIndicesGrow(n, m - 1, calls, extensionIds);
      var a := AcceptedIndices(n, calls, extensionIds);
      var b := AcceptedIndices(m - 1, calls, extensionIds);
      var c := AcceptedIndices(m, calls, extensionIds);
      assert c[..|b|] == b;
      assert c[..|a|] == b[..|a|];
    }
  }

  /** A call is handed on exactly when it passes the filter; skipped calls do not advance the owner cycle. */
  lemma {:induction false} AcceptedIndicesSpec(n: nat, calls: seq<CallRecord>, extensionIds: seq<string>)
    requires n <= |calls|
    ensures forall i | 0 <= i < n :: i in AcceptedIndices(n, calls, extensionIds) <==> Accepts(calls[i], extensionIds)
    ensures forall k, l | 0 <= k < l < |AcceptedIndices(n, calls, extensionIds)| ::
              AcceptedIndices(n, calls, extensionIds)[k] < AcceptedIndices(n, calls, extensionIds)[l]
  {
    if n > 0 {
      AcceptedIndicesSpec(n - 1, calls, extensionIds);
      var prev := AcceptedIndices(n - 1, calls, extensionIds);
      var r := AcceptedIndices(n, calls, extensionIds);
      assert r[..|prev|] == prev;
      forall k, l | 0 <= k < l < |r|
        ensures r[k] < r[l]
      {
        assert r[k] == prev[k];
        if l < |prev| {
          assert r[l] == prev[l];
        }
      }
    }
  }

  /** The k-th call handed on gets `owners[k mod |owners|]`, and only filtered calls are handed on. */
  lemma AcceptedRoundRobin(calls: seq<CallRecord>, extensionIds: seq<string>, owners: seq<LeadOwner>)
    requires AcceptedSpec(calls, extensionIds, owners).HandedOut?
    ensures var a := AcceptedSpec(calls, extensionIds, owners).assignments;
            forall k | 0 <= k < |a| ::
              && a[k].call < |calls|
              && Accepts(calls[a[k].call], extensionIds)
              && a[k].owner == owners[k % |owners|]
  {
    var kept := AcceptedIndices(|calls|, calls, extensionIds);
    AcceptedIndicesSpec(|calls|, calls, extensionIds);
    var a := AcceptedSpec(calls, extensionIds, owners).assignments;
    forall k | 0 <= k < |a|
      ensures a[k].call < |calls| && Accepts(calls[a[k].call], extensionIds) && a[k].owner == owners[k % |owners|]
    {
      assert kept[k] in kept;
    }
  }
}
