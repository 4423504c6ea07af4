/**
 * `main`: one scheduled run. It checks the four required settings, loads the state,
 * looks up the live broadcast, and posts at most once per broadcast id, recording the id
 * only after a successful post. Exit codes: 0 for a run that posted, found nothing or
 * found an announced broadcast; 2 when the lookup failed; 3 when the post failed.
 *
 * The outside world enters as parameters: the environment, what the state file holds,
 * the outcome of the search request, whether the post succeeded, and the formatted time.
 */
module Notify {
  import opened Wrappers
  import opened Settings
  import opened State
  import opened YouTube
  import opened Message

  /** The search request: an exception anywhere in it, or the decoded response. */
  datatype Lookup = LookupFailed | Responded(response: SearchResponse)

  /**
   * How a run ends. `MissingSetting` is the uncaught exception from `must_env`, which
   * ends the process before anything else happens. `StateUnreadable` is the uncaught
   * exception from `state.get` when the state document is not a JSON object, which ends
   * the process before the lookup. `Finished` is a return from `main`:
   * its exit code, the text handed to the post call if one was made, and the state
   * written to the state file if it was written.
   */
  datatype Outcome =
    | MissingSetting(name: string)
    | StateUnreadable
    | Finished(code: int, post: Option<string>, saved: Option<NotificationState>)

  const MessageTemplateSetting: string := "MESSAGE_TEMPLATE"
  const DefaultTemplate: string := "配信開始しました {url}"

  /** The message template: the `MESSAGE_TEMPLATE` setting if it is set, even to "", else the default. */
  function Template(env: Environment): string {
    if MessageTemplateSetting in env then env[MessageTemplateSetting] else DefaultTemplate
  }

  /** The live broadcast id a lookup found, if any. */
  function FoundId(lookup: Lookup): Option<string> {
    match lookup
    case LookupFailed => None
    case Responded(response) => LiveVideoId(response)
  }

  /** The lookup found a broadcast that the stored state does not record as announced. */
  predicate IsNewBroadcast(state: NotificationState, lookup: Lookup) {
    FoundId(lookup).Some? && !AlreadyNotified(state, FoundId(lookup).value)
  }

  /**
   * The decision `main` makes, as a function of everything it reads, with the state
   * loaded by the tolerant `LoadState`: a state document that is not a JSON object is
   * the empty state here.
   */
  function Run(env: Environment, file: StateFile, lookup: Lookup, postOk: bool, now: string): (o: Outcome)
    // the settings are checked first; a missing one ends the run whatever else holds
    ensures o.MissingSetting? <==> CheckSettings(env).Failure?
    ensures o.MissingSetting? ==> o.name == CheckSettings(env).error
    ensures o.Finished? <==> CheckSettings(env).Success?
    // every other run returns 0, 2 or 3
    ensures o.Finished? ==> o.code == 0 || o.code == 2 || o.code == 3
    ensures o.Finished? ==> (o.code == 2 <==> lookup.LookupFailed?)
    // a post is attempted exactly for a broadcast not yet announced
    ensures o.Finished? ==> (o.post.Some? <==> IsNewBroadcast(LoadState(file), lookup))
    ensures o.Finished? && o.post.Some? ==> o.post.value == BuildMessage(Template(env), FoundId(lookup).value, now)
    // a failed post gives 3; the state is written exactly when the post succeeded
    ensures o.Finished? ==> (o.code == 3 <==> o.post.Some? && !postOk)
    ensures o.Finished? ==> (o.saved.Some? <==> o.post.Some? && postOk)
    // the written state records the new id and keeps every other key as loaded
    ensures o.Finished? && o.saved.Some? ==>
      && o.saved.value.Keys == LoadState(file).Keys + {MarkerKey}
      && o.saved.value[MarkerKey] == JString(FoundId(lookup).value)
      && forall k :: k in LoadState(file) && k != MarkerKey ==> o.saved.value[k] == LoadState(file)[k]
  {
    match CheckSettings(env)
    case Failure(name) => MissingSetting(name)
    case Success(_) =>
      var state := LoadState(file);
      match lookup
      case LookupFailed => Finished(2, None, None)
      case Responded(response) =>
        var live := LiveVideoId(response);
        if live.None? || live.value == [] then Finished(0, None, None)
        else if AlreadyNotified(state, live.value) then Finished(0, None, None)
        else
          var msg := BuildMessage(Template(env), live.value, now);
          if !postOk then Finished(3, Some(msg), None)
          else Finished(0, Some(msg), Some(state[MarkerKey := JString(live.value)]))
  }

  /**
   * `main` exactly as written: the loaded document is used as it is, and reading the
   * marker from a document that is not a JSON object raises before the lookup.
   */
  function RunAsWritten(env: Environment, file: StateFile, lookup: Lookup, postOk: bool, now: string): (o: Outcome)
    ensures CheckSettings(env).Failure? ==> o == MissingSetting(CheckSettings(env).error)
    ensures CheckSettings(env).Success? && !LoadStateAsWritten(file).JObject? ==> o == StateUnreadable
    ensures LoadStateAsWritten(file).JObject? ==> o == Run(env, file, lookup, postOk, now)
  {
    match CheckSettings(env)
    case Failure(name) => MissingSetting(name)
    case Success(_) =>
      var state := LoadStateAsWritten(file);
      match LastNotifiedAsWritten(state)
      case Failure(_) => StateUnreadable
      case Success(lastNotified) =>
        assert state.JObject? && state.members == LoadState(file);
        assert lastNotified == LastNotified(state.members);
        match lookup
        case LookupFailed => Finished(2, None, None)
        case Responded(response) =>
          var live := LiveVideoId(response);
          if live.None? || live.value == [] then Finished(0, None, None)
          else if lastNotified == Some(JString(live.value)) then Finished(0, None, None)
          else
            var msg := BuildMessage(Template(env), live.value, now);
            if !postOk then Finished(3, Some(msg), None)
            else Finished(0, Some(msg), Some(state.members[MarkerKey := JString(live.value)]))
  }

  /** `main` step by step, with its early returns and the in-place update of the loaded state. */
  method RunOnce(env: Environment, file: StateFile, lookup: Lookup, postOk: bool, now: string)
    returns (o: Outcome)
    ensures o == RunAsWritten(env, file, lookup, postOk, now)
  {
    CheckSettingsInOrder(env);
    var apiKey := MustEnv(env, YouTubeApiKey);
    if apiKey.Failure? { return MissingSetting(apiKey.error); }
    var channelId := MustEnv(env, YouTubeChannelId);
    if channelId.Failure? { return MissingSetting(channelId.error); }
    var handle := MustEnv(env, BlueskyHandle);
    if handle.Failure? { return MissingSetting(handle.error); }
    var appPassword := MustEnv(env, BlueskyAppPassword);
    if appPassword.Failure? { return MissingSetting(appPassword.error); }

    var template := Template(env);
    var state := LoadStateAsWritten(file);
    var lastNotified := LastNotifiedAsWritten(state);
    if lastNotified.Failure? { return StateUnreadable; }

    if lookup.LookupFailed? { return Finished(2, None, None); }
    var liveVideoId := LiveVideoId(lookup.response);
    if liveVideoId.None? || liveVideoId.value == [] { return Finished(0, None, None); }
    if lastNotified.value == Some(JString(liveVideoId.value)) { return Finished(0, None, None); }

    var msg := BuildMessage(template, liveVideoId.value, now);
    if !postOk { return Finished(3, Some(msg), None); }

    state := state.(members := state.members[MarkerKey := JString(liveVideoId.value)]);
    return Finished(0, Some(msg), Some(state.members));
  }

  /** What the state path holds after a run: the saved state, or the file as it was. */
  function FileAfter(file: StateFile, o: Outcome): StateFile {
    if o.Finished? && o.saved.Some? then SaveState(o.saved.value) else file
  }

  /** The run posted and recorded the broadcast. */
  predicate Announced(o: Outcome) {
    o.Finished? && o.saved.Some?
  }

  /** After a successful post, a second run that finds the same broadcast posts nothing. */
  lemma SecondRunSkips(env: Environment, file: StateFile, lookup: Lookup, postOk1: bool, now1: string,
                       postOk2: bool, now2: string)
    requires Announced(Run(env, file, lookup, postOk1, now1))
    ensures Run(env, FileAfter(file, Run(env, file, lookup, postOk1, now1)), lookup, postOk2, now2)
            == Finished(0, None, None)
  {
    var o1 := Run(env, file, lookup, postOk1, now1);
    var state := LoadState(FileAfter(file, o1));
    assert state == o1.saved.value;
    assert AlreadyNotified(state, FoundId(lookup).value);
  }

  /** A failed post leaves the file as it was, so the next run finding the same broadcast tries again. */
  lemma FailedPostIsRetried(env: Environment, file: StateFile, lookup: Lookup, now1: string,
                            postOk2: bool, now2: string)
    requires Run(env, file, lookup, false, now1).Finished?
    requires Run(env, file, lookup, false, now1).code == 3
    ensures FileAfter(file, Run(env, file, lookup, false, now1)) == file
    ensures Run(env, file, lookup, postOk2, now2).post.Some?
  {
  }

  /** One scheduled invocation: what the lookup returns, whether the post goes through, the time. */
  datatype Round = Round(lookup: Lookup, postOk: bool, now: string)

  /** The number of successful posts over consecutive runs sharing the state file. */
  function Posts(env: Environment, file: StateFile, rounds: seq<Round>): nat
    decreases |rounds|
  {
    if rounds == [] then 0
    else
      var o := Run(env, file, rounds[0].lookup, rounds[0].postOk, rounds[0].now);
      (if Announced(o) then 1 else 0) + Posts(env, FileAfter(file, o), rounds[1..])
  }

  /** The number of post attempts, successful or not, over consecutive runs sharing the state file. */
  function Attempts(env: Environment, file: StateFile, rounds: seq<Round>): nat
    decreases |rounds|
  {
    if rounds == [] then 0
    else
      var o := Run(env, file, rounds[0].lookup, rounds[0].postOk, rounds[0].now);
      (if o.Finished? && o.post.Some? then 1 else 0) + Attempts(env, FileAfter(file, o), rounds[1..])
  }

  /** Every round finds broadcast `videoId` or nothing (or fails). */
  predicate OnlyBroadcast(rounds: seq<Round>, videoId: string) {
    forall i :: 0 <= i < |rounds| ==> FoundId(rounds[i].lookup) == None || FoundId(rounds[i].lookup) == Some(videoId)
  }

  /** Once a broadcast is recorded, no later run that sees only it (or nothing) even attempts a post. */
  lemma {:induction false} NoPostOnceRecorded(env: Environment, file: StateFile, rounds: seq<Round>, videoId: string)
    requires AlreadyNotified(LoadState(file), videoId)
    requires OnlyBroadcast(rounds, videoId)
    ensures Attempts(env, file, rounds) == 0
    ensures Posts(env, file, rounds) == 0
    decreases |rounds|
  {
    if rounds != [] {
      var o := Run(env, file, rounds[0].lookup, rounds[0].postOk, rounds[0].now);
      assert !(o.Finished? && o.post.Some?);
      assert OnlyBroadcast(rounds[1..], videoId) by {
        forall i | 0 <= i < |rounds[1..]| ensures rounds[1..][i] == rounds[i + 1] {}
      }
      NoPostOnceRecorded(env, file, rounds[1..], videoId);
    }
  }

  /** Over any runs that all see the same broadcast (or none), it is posted at most once. */
  lemma {:induction false} AtMostOnePost(env: Environment, file: StateFile, rounds: seq<Round>, videoId: string)
    requires OnlyBroadcast(rounds, videoId)
    ensures Posts(env, file, rounds) <= 1
    decreases |rounds|
  {
    if rounds != [] {
      var o := Run(env, file, rounds[0].lookup, rounds[0].postOk, rounds[0].now);
      assert OnlyBroadcast(rounds[1..], videoId) by {
        forall i | 0 <= i < |rounds[1..]| ensures rounds[1..][i] == rounds[i + 1] {}
      }
      if Announced(o) {
        assert LoadState(FileAfter(file, o)) == o.saved.value;
        assert FoundId(rounds[0].lookup) == Some(videoId);
        NoPostOnceRecorded(env, FileAfter(file, o), rounds[1..], videoId);
      } else {
        AtMostOnePost(env, FileAfter(file, o), rounds[1..], videoId);
      }
    }
  }

  /**
   * With the settings present, a broadcast that is not yet recorded and is found by every
   * run is posted exactly once, as soon as some run's post goes through: failed posts are
   * retried.
   */
  lemma {:induction false} PostedOnceWhenPublishSucceeds(env: Environment, file: StateFile, rounds: seq<Round>, videoId: string)
    requires CheckSettings(env).Success?
    requires !AlreadyNotified(LoadState(file), videoId)
    requires forall i :: 0 <= i < |rounds| ==> FoundId(rounds[i].lookup) == Some(videoId)
    requires exists i :: 0 <= i < |rounds| && rounds[i].postOk
    ensures Posts(env, file, rounds) == 1
    decreases |rounds|
  {
    var o := Run(env, file, rounds[0].lookup, rounds[0].postOk, rounds[0].now);
    assert OnlyBroadcast(rounds[1..], videoId) && forall i :: 0 <= i < |rounds[1..]| ==> FoundId(rounds[1..][i].lookup) == Some(videoId) by {
      forall i | 0 <= i < |rounds[1..]| ensures rounds[1..][i] == rounds[i + 1] {}
    }
    if rounds[0].postOk {
      assert Announced(o);
      assert LoadState(FileAfter(file, o)) == o.saved.value;
      NoPostOnceRecorded(env, FileAfter(file, o), rounds[1..], videoId);
    } else {
      assert FileAfter(file, o) == file;
      var i :| 0 <= i < |rounds| && rounds[i].postOk;
      assert rounds[1..][i - 1] == rounds[i];
      PostedOnceWhenPublishSucceeds(env, file, rounds[1..], videoId);
    }
  }

  /** With the default template, the message is the fixed greeting followed by the watch URL. */
  lemma DefaultTemplateMessage(videoId: string, now: string)
    requires '{' !in videoId
    ensures BuildMessage(DefaultTemplate, videoId, now) == "配信開始しました " + WatchUrlPrefix + videoId
  {
    var greeting: string := "配信開始しました ";
    assert DefaultTemplate == greeting + UrlToken;
    BraceFreeTokenIsolated(greeting);
    MessageKeepsIsolatedPrefix(greeting, UrlToken, videoId, now);
    UrlTokenGivesWatchUrl(videoId, now);
  }
}
