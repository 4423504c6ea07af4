# Live-broadcast notifier: a Dafny model of `notify.py`

`notify.py` is a single-shot job run on a schedule. It reads four required settings,
loads a small JSON state file, asks the YouTube search API whether a channel is live,
and, if it finds a broadcast it has not announced yet, posts a message to Bluesky and
records the broadcast id in the state file under `last_notified_video_id`. Exit codes:
0 (posted, nothing live, or already announced), 2 (the lookup failed), 3 (the post
failed, state left untouched so the next run tries again).

This project models the decision logic of that file and proves what it promises:

- `wrappers.dfy` (`Wrappers`): `Option` and `Result`, for Python's `None` and for raised exceptions.
- `text.dfy` (`Text`): `str.replace`, `str.split` and `str.join` on strings, and the
  facts that tie them together (replace = join of split, split/join round trip, every
  occurrence is cut out, text without the pattern is untouched).
- `message.dfy` (`Message`): `build_message`, three literal replacements applied in
  sequence (`{url}`, then `{video_id}`, then `{now}`), with the formatted time passed in.
- `youtube.dfy` (`YouTube`): picking the live video id out of a decoded search response.
- `settings.dfy` (`Settings`): `must_env` and the four required settings, in order.
- `state.dfy` (`State`): the JSON state file, `load_state` as written and a tolerant
  loader, `save_state`, and the stored marker.
- `notify.dfy` (`Notify`): `main` exactly as written (`RunAsWritten`, and the method
  `RunOnce` that follows it step by step), the same decision with the tolerant state
  loader (`Run`), and lemmas over consecutive runs. Once a broadcast id is recorded,
  runs that find only that id (or nothing) never attempt to post it again. A failed
  post is retried. Only one marker is kept, so a broadcast found again after a
  different one was announced is posted again.

Facts about `notify.py` that the model follows:

- The placeholders are replaced one after the other, so text brought in by an earlier step is rewritten by a later one.
- `{title}` is not a placeholder; it stays verbatim.
- The default template is `配信開始しました {url}`.
- The time is formatted in UTC.
- There are no thumbnails, link cards, rich-text facets or template files.

## Model

| member | source | states |
|---|---|---|
| Text.ReplaceIsJoinOfSplit | notify.py:64-69 | `s.replace(p, r)` equals `r.join(s.split(p))`: the text between the non-overlapping, leftmost-first occurrences is kept and each occurrence becomes the replacement |
| Text.SplitJoinRoundTrip | notify.py:64-69 | joining the pieces of `s.split(p)` with `p` gives `s` back |
| Text.Replace | notify.py:66-68 | defines `str.replace` on strings: a left-to-right scan that replaces each non-overlapping occurrence; its meaning is proved by the `Text` lemmas below |
| Text.SplitCutsLeftmost | notify.py:64-69 | no occurrence of the pattern starts inside any piece of the split, at that piece's position in the text: the cuts are the leftmost non-overlapping occurrences |
| Text.SplitUnique | notify.py:64-69 | any list of pieces that joins back to the text and cuts only at leftmost occurrences is the split itself, so the round trip and the leftmost cuts characterise the split completely |
| Text.ReplaceAroundSeparator | notify.py:64-69 | replacing around text that no occurrence can start in, end in or run into is replacing on each side of it |
| Text.SplitPiecesFree | notify.py:64-69 | no piece of `s.split(p)` contains `p`, so replacement leaves no original occurrence behind; the first piece is a prefix of `s` |
| Text.Split | notify.py:66-68 | reference definition for `Text.Replace` (Python's `str.split`), against which `ReplaceIsJoinOfSplit` states what replacing means; a split always yields at least one piece |
| Text.ReplaceFreeUnchanged | notify.py:64-69 | a replace on text that does not contain the pattern returns the text unchanged |
| Text.ReplaceIsolatedPrefix | notify.py:64-69 | leading text that cannot start or complete an occurrence is copied through and the rest is replaced on its own |
| Message.WatchUrl | notify.py:62 | defines the watch URL as `https://www.youtube.com/watch?v=` followed by the video id; `Message.UrlTokenGivesWatchUrl` shows it is what `{url}` becomes |
| Message.BuildMessage | notify.py:61-69 | defines the message as three replacements in sequence: `{url}` by the watch URL, then `{video_id}` by the id, then `{now}` by the formatted time; the `Message` lemmas state its properties |
| Message.MessageWithoutTokens | notify.py:61-69 | a template containing none of `{url}`, `{video_id}`, `{now}` is returned unchanged |
| Message.MessageKeepsIsolatedPrefix | notify.py:61-69 | leading template text that no token can reach into appears verbatim at the head of the message |
| Message.MessageAroundSeparator | notify.py:61-69 | the message of a template split by text that every step treats as a boundary is the messages of the two sides with that text kept between them |
| Message.TitleTokenVerbatim | notify.py:61-69 | wherever `{title}` stands in the template, even right after a recognised token, it is left verbatim and the text on each side is rendered on its own |
| Message.UrlTokenGivesWatchUrl | notify.py:62-66 | `{url}` becomes exactly `https://www.youtube.com/watch?v=` followed by the video id (for an id without `{`) |
| Message.VideoIdThenNow | notify.py:67-68 | `{video_id}` is replaced before `{now}`: for every id and time, `{video_id}` renders as the id with its own `{now}` occurrences then replaced by the time |
| Message.UrlBeforeVideoId | notify.py:66-67 | `{url}` is replaced before `{video_id}`: with the id `{url}`, the template `{video_id}` renders as `{url}` (the other order would give `https://www.youtube.com/watch?v={url}`) |
| YouTube.LiveVideoId | notify.py:51-58 | the result is the first item's `videoId` exactly when `items` is non-empty, the first item has an `id` and its `videoId` is non-empty; otherwise `None` |
| YouTube.LaterItemsIgnored | notify.py:51-58 | items after the first never affect the result |
| Settings.MustEnv | notify.py:14-18 | a setting is returned when set to a non-empty value; an absent or empty one is an error naming it |
| Settings.RequireAll | notify.py:79-82 | checking names in turn succeeds with all values in order exactly when all are present, else fails with the first missing name |
| Settings.CheckSettings | notify.py:79-82 | the four required settings succeed exactly when all are present; a failure names the first missing one in the order the source checks them |
| Settings.CheckSettingsInOrder | notify.py:79-82 | the check equals the four `must_env` calls made one after the other |
| State.LoadStateAsWritten | notify.py:21-28 | a missing file or a JSON decoding error gives `{}`; any other document is returned as it is |
| State.LastNotifiedAsWritten | notify.py:88 | reading the marker succeeds exactly on a JSON object and fails on any other value |
| State.ArrayStateBreaksMarkerRead | notify.py:21-28 | a state file holding `[]` loads without error but the marker read then fails |
| State.LastNotified | notify.py:88 | defines the stored marker of a loaded state: the value under `last_notified_video_id`, `None` when absent |
| State.AlreadyNotified | notify.py:100 | defines "already announced": the stored marker is the JSON string equal to the live id |
| State.LoadState | notify.py:21-28 | loading never fails: a JSON-object document gives its members, anything else gives the empty state |
| State.LoadStateAgreesOnObjects | notify.py:21-28 | the tolerant loader differs from the as-written one only on documents that are not objects |
| State.SaveState | notify.py:31-34 | a saved state loads back unchanged |
| Notify.Template | notify.py:85 | defines the template: `MESSAGE_TEMPLATE` when it is set, even to the empty string, else `配信開始しました {url}` |
| Notify.FoundId | notify.py:90-96 | defines the live id a lookup found: none when the lookup failed, else the extracted id |
| Notify.RunAsWritten | notify.py:78-115 | `main` as written: a missing setting ends the run first; with the settings present, a state document that is not a JSON object ends it with an uncaught exception before the lookup; for every state document that is a JSON object it decides exactly as `Run` |
| Notify.Run | notify.py:78-115 | with the state loaded tolerantly: a missing setting ends the run first; otherwise the exit code is 0, 2 or 3; 2 exactly on lookup failure; a post is attempted exactly for a found id differing from the stored marker, with the built message; 3 exactly when that post fails; state is written exactly after a successful post, with the marker set to the id and every other loaded key kept |
| Notify.RunOnce | notify.py:78-115 | `main` step by step, with early returns and the in-place update of the loaded state, yields the same outcome as `RunAsWritten` |
| Notify.SecondRunSkips | notify.py:100-113 | after a successful post, the next run finding the same id returns 0 without posting or writing |
| Notify.FailedPostIsRetried | notify.py:106-110 | a failed post leaves the state file as it was, and the next run with the same lookup attempts the post again |
| Notify.NoPostOnceRecorded | notify.py:100-102 | once the marker records an id, no number of runs finding only that id (or nothing) attempts a post, successful or not |
| Notify.AtMostOnePost | notify.py:100-115 | over any sequence of runs that find only one id (or nothing), at most one post succeeds |
| Notify.PostedOnceWhenPublishSucceeds | notify.py:104-115 | a new id found by every run is posted exactly once over a sequence in which some post goes through |
| Notify.DefaultTemplateMessage | notify.py:85 | with the default template, the message is `配信開始しました ` followed by the watch URL |

## Left out

- The HTTP request, `raise_for_status` and `.json()` (notify.py:47-49): any exception raised inside the lookup, including one from a response of an unexpected shape, is the single outcome `LookupFailed`, which `main` turns into exit code 2.
- The Bluesky login and `send_post` (notify.py:72-75): a foreign library over the network; the post is a boolean outcome. A post that the service accepted before an exception was raised counts as failed, as `main` treats it.
- Opening, decoding and writing the state file and `os.makedirs` (notify.py:23-24, 32-34): the file's content is a `StateFile` value and writing is `SaveState`; an exception from `save_state` itself (after a successful post) is not modelled. Such an exception ends the run before the marker is written, so every later run finding the same broadcast posts it again. With `STATE_PATH` set to a bare file name, `os.makedirs("")` (notify.py:32) raises on every save, so every run that finds a live broadcast posts it. A file that is not valid UTF-8, a state file that cannot be opened for lack of permission, and a `STATE_PATH` that names a directory (`IsADirectoryError` from `open` at notify.py:23) all raise errors `load_state` does not catch, ending the run; `StateFile` cannot express them, so they are not modelled either.
- Notify.Run: uses the corrected loader `State.LoadState`, so a state document that is not a JSON object is read as the empty state; `notify.py` instead ends with an uncaught exception there, which `Notify.RunAsWritten` and `Notify.RunOnce` model. `Run` is what the lemmas over consecutive runs use.
- JSON numbers are integers in the model; fractions do not matter here, since a number is never equal to a video id.
- A `videoId` that is not a string (the source converts it with `str`) is not modelled; `videoId` is absent, `null` or a string.
- Reading the clock and `strftime` (notify.py:63): the formatted time is a parameter of `BuildMessage` and `Run`.
- `STATE_PATH` and its default (notify.py:84): the content of the file at that path is a parameter. The printed status and error lines are not modelled.
- Text.Replace: requires a non-empty pattern; Python's behaviour for an empty pattern is not modelled, since `build_message` only replaces the three literal tokens.
- Overlapping scheduled runs are not modelled; each run sees the state file the previous run left.

## Findings

| source | as written | input that shows it | evidently intended | confidence | as-written member | corrected member |
|---|---|---|---|---|---|---|
| notify.py:21-28 | `load_state` returns whatever JSON document the file holds; `main` then calls `state.get` (notify.py:88), which raises outside any handler when the document is not an object, so the run ends with an uncaught exception instead of exit 0, 2 or 3 | a state file containing `[]` | unusable state content is treated as the empty state, as for a missing or undecodable file | high for the crash, medium for the intent; not executed | State.ArrayStateBreaksMarkerRead | State.LoadState |
