/**
 * `build_message`: the watch URL built from the video id, then three literal replacements
 * applied one after the other, `{url}` first, then `{video_id}`, then `{now}`. Each step
 * works on the output of the previous one, so text brought in by an earlier step is
 * subject to the later ones. The formatted time is a parameter.
 */
module Message {
  import opened Text

  const UrlToken: string := "{url}"
  const VideoIdToken: string := "{video_id}"
  const NowToken: string := "{now}"
  const WatchUrlPrefix: string := "https://www.youtube.com/watch?v="

  /** The watch page of a video. */
  function WatchUrl(videoId: string): string {
    WatchUrlPrefix + videoId
  }

  function BuildMessage(template: string, videoId: string, now: string): string {
    var withUrl := Replace(template, UrlToken, WatchUrl(videoId));
    var withVideoId := Replace(withUrl, VideoIdToken, videoId);
    Replace(withVideoId, NowToken, now)
  }

  /** Text in which none of the three recognised tokens occurs. */
  predicate TokenFree(s: string) {
    Free(s, UrlToken) && Free(s, VideoIdToken) && Free(s, NowToken)
  }

  /** Text that no replacement step can reach into, whatever follows it. */
  predicate TokenIsolated(p: string) {
    Isolated(p, UrlToken) && Isolated(p, VideoIdToken) && Isolated(p, NowToken)
  }

  lemma BraceFreeTokenIsolated(p: string)
    requires '{' !in p
    ensures TokenIsolated(p)
  {
    BraceFreeIsolated(p, UrlToken);
    BraceFreeIsolated(p, VideoIdToken);
    BraceFreeIsolated(p, NowToken);
  }

  /** A template without any of the tokens is sent as it is. */
  lemma MessageWithoutTokens(template: string, videoId: string, now: string)
    requires TokenFree(template)
    ensures BuildMessage(template, videoId, now) == template
  {
    ReplaceFreeUnchanged(template, UrlToken, WatchUrl(videoId));
    ReplaceFreeUnchanged(template, VideoIdToken, videoId);
    ReplaceFreeUnchanged(template, NowToken, now);
  }

  /** Leading text that no token can reach into is kept verbatim. */
  lemma MessageKeepsIsolatedPrefix(p: string, rest: string, videoId: string, now: string)
    requires TokenIsolated(p)
    ensures BuildMessage(p + rest, videoId, now) == p + BuildMessage(rest, videoId, now)
  {
    var withUrl := Replace(rest, UrlToken, WatchUrl(videoId));
    var withVideoId := Replace(withUrl, VideoIdToken, videoId);
    ReplaceIsolatedPrefix(p, rest, UrlToken, WatchUrl(videoId));
    ReplaceIsolatedPrefix(p, withUrl, VideoIdToken, videoId);
    ReplaceIsolatedPrefix(p, withVideoId, NowToken, now);
  }

  /** Text that every replacement step leaves in place and treats as a boundary. */
  predicate TokenSeparator(t: string) {
    Separates(t, UrlToken) && Separates(t, VideoIdToken) && Separates(t, NowToken)
  }

  /** The message around a separator is the messages of the two sides, with the separator kept between them. */
  lemma MessageAroundSeparator(a: string, t: string, b: string, videoId: string, now: string)
    requires TokenSeparator(t)
    ensures BuildMessage(a + t + b, videoId, now) == BuildMessage(a, videoId, now) + t + BuildMessage(b, videoId, now)
  {
    var url := WatchUrl(videoId);
    assert a + t + b == a + (t + b);
    ReplaceAroundSeparator(a, t, b, UrlToken, url);
    var a1, b1 := Replace(a, UrlToken, url), Replace(b, UrlToken, url);
    ReplaceAroundSeparator(a1, t, b1, VideoIdToken, videoId);
    var a2, b2 := Replace(a1, VideoIdToken, videoId), Replace(b1, VideoIdToken, videoId);
    ReplaceAroundSeparator(a2, t, b2, NowToken, now);
    var a3, b3 := Replace(a2, NowToken, now), Replace(b2, NowToken, now);
    assert a3 + (t + b3) == a3 + t + b3;
  }

  /**
   * `{title}` is not a recognised token: wherever it stands in the template, even right
   * after a token, it is left verbatim and the text on either side is rendered on its own.
   */
  lemma TitleTokenVerbatim(a: string, b: string, videoId: string, now: string)
    ensures BuildMessage(a + "{title}" + b, videoId, now)
            == BuildMessage(a, videoId, now) + "{title}" + BuildMessage(b, videoId, now)
  {
    var title: string := "{title}";
    forall pat | pat in [UrlToken, VideoIdToken, NowToken]
      ensures Separates(title, pat)
    {
      forall k | 0 <= k < |title|
        ensures !(pat <= title[k..]) && !(title[k..] <= pat)
      {
        if k == 0 {
          assert title[1] != pat[1];
        } else {
          assert title[k..][0] == title[k] != '{';
        }
      }
      assert '{' !in pat[1..];
    }
    MessageAroundSeparator(a, title, b, videoId, now);
  }

  /** `{url}` becomes exactly the watch URL of the video (for an id without `{`). */
  lemma UrlTokenGivesWatchUrl(videoId: string, now: string)
    requires '{' !in videoId
    ensures BuildMessage(UrlToken, videoId, now) == WatchUrlPrefix + videoId
  {
    var url := WatchUrl(videoId);
    assert UrlToken <= UrlToken;
    assert UrlToken[|UrlToken|..] == [];
    assert Replace(UrlToken, UrlToken, url) == url;
    BraceFreeTokenIsolated(url);
    ReplaceFreeUnchanged(url, VideoIdToken, videoId);
    ReplaceFreeUnchanged(url, NowToken, now);
  }

  /** `{video_id}` is not reached by the `{url}` step. */
  lemma VideoIdTokenSurvivesUrlStep(url: string)
    ensures Replace(VideoIdToken, UrlToken, url) == VideoIdToken
  {
    var tail := VideoIdToken[1..];
    BraceFreeIsolated(tail, UrlToken);
    ReplaceIsolatedPrefix(tail, [], UrlToken, url);
    assert tail + [] == tail;
    assert VideoIdToken == [VideoIdToken[0]] + tail;
    assert !(UrlToken <= VideoIdToken);
  }

  /**
   * `{video_id}` is replaced before `{now}`: the id put in its place is then subject to
   * the `{now}` step, for every id and time.
   */
  lemma VideoIdThenNow(videoId: string, now: string)
    ensures BuildMessage(VideoIdToken, videoId, now) == Replace(videoId, NowToken, now)
  {
    VideoIdTokenSurvivesUrlStep(WatchUrl(videoId));
    assert VideoIdToken[|VideoIdToken|..] == [];
    assert Replace(VideoIdToken, VideoIdToken, videoId) == videoId;
  }

  /**
   * `{url}` is replaced before `{video_id}`: an id reading `{url}` is not expanded into a
   * watch URL, as it would be if the `{video_id}` step ran first.
   */
  lemma UrlBeforeVideoId()
    ensures BuildMessage(VideoIdToken, UrlToken, "T") == UrlToken
  {
    VideoIdThenNow(UrlToken, "T");
    var tail := UrlToken[1..];
    BraceFreeIsolated(tail, NowToken);
    ReplaceIsolatedPrefix(tail, [], NowToken, "T");
    assert tail + [] == tail;
    assert UrlToken == [UrlToken[0]] + tail;
    assert !(NowToken <= UrlToken);
  }
}
