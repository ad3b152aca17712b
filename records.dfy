/**
 * The JSON shapes both call-processing scripts read: RingCentral call-log
 * records, entries of extensions.json and entries of lead_owners.json.
 * Python truthiness and `str()` are spelled out where the scripts rely on them.
 */
module Records {
  import opened Wrappers
  import opened Text
  import Clock

  /** A JSON scalar used as an identifier: null, a string or a number. */
  datatype Key = KNone | KStr(s: string) | KInt(i: int)
  {
    /** Python truthiness: None, "" and 0 are falsy. */
    predicate Truthy() {
      match this
      case KNone => false
      case KStr(s) => s != ""
      case KInt(i) => i != 0
    }

    /** `str(key)`. */
    function Str(): (r: string)
      ensures this.KStr? ==> r == this.s
      ensures this.KNone? ==> r == "None"
    {
      match this
      case KNone => "None"
      case KStr(s) => s
      case KInt(i) => IntToString(i)
    }
  }

  /** `key in keys` for a list of strings: only a string key can be equal to one. */
  predicate RawIn(k: Key, keys: seq<string>) {
    k.KStr? && k.s in keys
  }

  /** `names.get(key, default)` on a dictionary keyed by strings. */
  function RawGet(names: map<string, string>, k: Key, default: string): (r: string)
    ensures !k.KStr? ==> r == default
    ensures k.KStr? && k.s in names ==> r == names[k.s]
  {
    if k.KStr? && k.s in names then names[k.s] else default
  }

  /**
   * The value of the `from` or `to` key of a call record: absent or null,
   * an empty object, or an object with optional phone number and extension id.
   */
  datatype Side = Absent | EmptySide | Side(phoneNumber: Option<string>, extensionId: Key)
  {
    /** A dictionary is truthy when it has at least one key. */
    predicate Truthy() { this.Side? }

    /** `side.get('phoneNumber')` is truthy. */
    predicate HasNumber() { this.Side? && phoneNumber.Some? && phoneNumber.value != "" }

    /** `side.get('extensionId')` on a side that is a dictionary. */
    function ExtensionId(): Key
      requires !this.Absent?
    {
      if this.Side? then extensionId else KNone
    }
  }

  /**
   * `startTime` of a call, as far as the scripts read it: missing or empty,
   * present but rejected by `datetime.fromisoformat`, or parsed to a clock reading.
   */
  datatype StartTime = NoStart | Unparsable | StartsAt(at: Clock.DateTime)

  /** One call-log record. `recordingId` is `call['recording']['id']` when that path exists. */
  datatype CallRecord = CallRecord(id: Key, from: Side, to: Side, startTime: StartTime,
                                   recordingId: Option<string>)

  /** One entry of extensions.json. */
  datatype Extension = Extension(id: Key, name: Option<string>)

  /** One entry of lead_owners.json. */
  datatype LeadOwner = LeadOwner(id: string, name: string, email: string)
}
