/**
 * The state file: one JSON document holding a mapping whose key
 * `last_notified_video_id` records the last broadcast announced. Opening, decoding and
 * writing the file are not modelled; what the file holds is a `StateFile` value.
 */
module State {
  import opened Wrappers

  /** A decoded JSON value. */
  datatype Json =
    | JNull
    | JBool(b: bool)
    | JNumber(n: int)
    | JString(s: string)
    | JArray(elements: seq<Json>)
    | JObject(members: map<string, Json>)

  /** What the state path holds: no file, text that is not JSON, or a JSON document. */
  datatype StateFile = Absent | Malformed | Document(value: Json)

  type NotificationState = map<string, Json>

  const MarkerKey: string := "last_notified_video_id"

  /**
   * `load_state` as written: a missing file or a JSON decoding error gives `{}`, and any
   * other document is returned as it is, whether or not it is a JSON object.
   */
  function LoadStateAsWritten(f: StateFile): (v: Json)
    ensures !f.Document? ==> v == JObject(map[])
    ensures f.Document? ==> v == f.value
  {
    match f
    case Document(value) => value
    case _ => JObject(map[])
  }

  /**
   * `state.get("last_notified_video_id")` as written: a JSON object yields its marker if
   * it has one, and any other value has no `get`, so the call raises.
   */
  function LastNotifiedAsWritten(v: Json): (r: Result<Option<Json>, string>)
    ensures r.Failure? <==> !v.JObject?
    ensures v.JObject? && MarkerKey in v.members ==> r == Success(Some(v.members[MarkerKey]))
    ensures v.JObject? && MarkerKey !in v.members ==> r == Success(None)
  {
    match v
    case JObject(members) => Success(if MarkerKey in members then Some(members[MarkerKey]) else None)
    case _ => Failure("AttributeError: object has no attribute 'get'")
  }

  /** A state file holding a JSON array is loaded without complaint and then breaks the marker read. */
  lemma ArrayStateBreaksMarkerRead()
    ensures LoadStateAsWritten(Document(JArray([]))) == JArray([])
    ensures LastNotifiedAsWritten(LoadStateAsWritten(Document(JArray([])))).Failure?
  {
  }

  /**
   * Loading tolerant of every unusable file: a missing file, text that is not JSON, and
   * a document that is not a JSON object all give the empty state.
   */
  function LoadState(f: StateFile): (state: NotificationState)
    ensures f.Document? && f.value.JObject? ==> state == f.value.members
    ensures !(f.Document? && f.value.JObject?) ==> state == map[]
  {
    match f
    case Document(JObject(members)) => members
    case _ => map[]
  }

  /** Where the as-written loader gives a usable object, the tolerant one gives the same state. */
  lemma LoadStateAgreesOnObjects(f: StateFile)
    ensures LoadStateAsWritten(f).JObject? ==> LoadStateAsWritten(f).members == LoadState(f)
    ensures !LoadStateAsWritten(f).JObject? ==> f.Document? && LoadState(f) == map[]
  {
  }

  /** `save_state`: the file afterwards holds the state as a JSON object, which loads back unchanged. */
  function SaveState(state: NotificationState): (f: StateFile)
    ensures LoadState(f) == state
    ensures LoadStateAsWritten(f) == JObject(state)
  {
    Document(JObject(state))
  }

  /** The stored marker, `None` when the state has none. */
  function LastNotified(state: NotificationState): Option<Json> {
    if MarkerKey in state then Some(state[MarkerKey]) else None
  }

  /** The state records `videoId` as the last broadcast announced. */
  predicate AlreadyNotified(state: NotificationState, videoId: string) {
    LastNotified(state) == Some(JString(videoId))
  }
}
