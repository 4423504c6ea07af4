/**
 * `must_env` and the four settings `main` requires before it does anything else. The
 * process environment is a map from names to values; a name that is not in the map is
 * an unset variable.
 */
module Settings {
  import opened Wrappers

  type Environment = map<string, string>

  const YouTubeApiKey: string := "YOUTUBE_API_KEY"
  const YouTubeChannelId: string := "YOUTUBE_CHANNEL_ID"
  const BlueskyHandle: string := "BLUESKY_HANDLE"
  const BlueskyAppPassword: string := "BLUESKY_APP_PASSWORD"

  /** The required settings, in the order `main` checks them. */
  const RequiredSettings: seq<string> := [YouTubeApiKey, YouTubeChannelId, BlueskyHandle, BlueskyAppPassword]

  datatype Credentials = Credentials(
    youtubeApiKey: string,
    youtubeChannelId: string,
    blueskyHandle: string,
    blueskyAppPassword: string)

  /** A setting that is set to a non-empty value. */
  predicate Present(env: Environment, name: string) {
    name in env && env[name] != []
  }

  /** `must_env(name)`: the value, or a failure naming the setting when it is unset or empty. */
  function MustEnv(env: Environment, name: string): (r: Result<string, string>)
    ensures r.Success? <==> Present(env, name)
    ensures r.Success? ==> r.value == env[name]
    ensures r.Failure? ==> r.error == name
  {
    if name in env && env[name] != [] then Success(env[name]) else Failure(name)
  }

  /**
   * `must_env` applied to each name in turn: all the values in order, or a failure naming
   * the first setting that is unset or empty.
   */
  function RequireAll(env: Environment, names: seq<string>): (r: Result<seq<string>, string>)
    ensures r.Success? <==> forall i :: 0 <= i < |names| ==> Present(env, names[i])
    ensures r.Success? ==> |r.value| == |names| && forall i :: 0 <= i < |names| ==> r.value[i] == env[names[i]]
    ensures r.Failure? ==> exists i :: 0 <= i < |names| && r.error == names[i] && !Present(env, names[i])
                                       && forall j :: 0 <= j < i ==> Present(env, names[j])
    decreases |names|
  {
    if names == [] then Success([])
    else
      match MustEnv(env, names[0])
      case Failure(e) => Failure(e)
      case Success(v) =>
        match RequireAll(env, names[1..])
        case Failure(e) => Failure(e)
        case Success(vs) => Success([v] + vs)
  }

  /** The four required settings, checked in order before anything else happens. */
  function CheckSettings(env: Environment): (r: Result<Credentials, string>)
    ensures r.Success? <==> forall i :: 0 <= i < |RequiredSettings| ==> Present(env, RequiredSettings[i])
    ensures r.Success? ==> r.value == Credentials(env[RequiredSettings[0]], env[RequiredSettings[1]],
                                                  env[RequiredSettings[2]], env[RequiredSettings[3]])
    ensures r.Failure? ==> exists i :: 0 <= i < |RequiredSettings| && r.error == RequiredSettings[i]
                                       && !Present(env, RequiredSettings[i])
                                       && forall j :: 0 <= j < i ==> Present(env, RequiredSettings[j])
  {
    match RequireAll(env, RequiredSettings)
    case Failure(e) => Failure(e)
    case Success(vs) => Success(Credentials(vs[0], vs[1], vs[2], vs[3]))
  }

  /** Checking the list gives the outcome of the four `must_env` calls one after the other. */
  lemma CheckSettingsInOrder(env: Environment)
    ensures CheckSettings(env) ==
      if !Present(env, YouTubeApiKey) then Failure(YouTubeApiKey)
      else if !Present(env, YouTubeChannelId) then Failure(YouTubeChannelId)
      else if !Present(env, BlueskyHandle) then Failure(BlueskyHandle)
      else if !Present(env, BlueskyAppPassword) then Failure(BlueskyAppPassword)
      else Success(Credentials(env[YouTubeApiKey], env[YouTubeChannelId], env[BlueskyHandle], env[BlueskyAppPassword]))
  {
    var names := RequiredSettings;
    assert names[0] == YouTubeApiKey && names[1] == YouTubeChannelId;
    assert names[2] == BlueskyHandle && names[3] == BlueskyAppPassword;
    var r := CheckSettings(env);
    if r.Failure? {
      var i :| 0 <= i < |names| && r.error == names[i] && !Present(env, names[i])
               && forall j :: 0 <= j < i ==> Present(env, names[j]);
      assert i > 0 ==> Present(env, names[0]);
      assert i > 1 ==> Present(env, names[1]);
      assert i > 2 ==> Present(env, names[2]);
    }
  }
}
