/**
 * The pure part of `youtube_get_live_video_id`: reading the live video id out of an
 * already decoded search response. The request itself and the decoding are not modelled;
 * a missing or `null` member of the response is `None` here.
 */
module YouTube {
  import opened Wrappers

  /** The `id` member of a search item; `videoId` is absent, `null` or a string. */
  datatype ResourceId = ResourceId(videoId: Option<string>)

  /** One entry of `items`; its `id` is absent, `null` or `{}` (all falsy) when `None`. */
  datatype SearchItem = SearchItem(id: Option<ResourceId>)

  /** The decoded body of a search request; `items` is absent or `null` when `None`. */
  datatype SearchResponse = SearchResponse(items: Option<seq<SearchItem>>)

  /**
   * The id of the live video: the `videoId` of the first item, or `None` when there is
   * no item, the first item has no `id`, or its `videoId` is missing or empty.
   */
  function LiveVideoId(data: SearchResponse): (r: Option<string>)
    ensures r.Some? <==>
      && data.items.Some? && |data.items.value| > 0
      && data.items.value[0].id.Some?
      && data.items.value[0].id.value.videoId.Some?
      && data.items.value[0].id.value.videoId.value != []
    ensures r.Some? ==> r == data.items.value[0].id.value.videoId && r.value != []
  {
    var items := data.items.GetOr([]);
    if items == [] then None
    else
      var resourceId := items[0].id.GetOr(ResourceId(None));
      match resourceId.videoId
      case None => None
      case Some(v) => if v == [] then None else Some(v)
  }

  /** Items after the first are never looked at. */
  lemma LaterItemsIgnored(first: SearchItem, rest: seq<SearchItem>)
    ensures LiveVideoId(SearchResponse(Some([first] + rest))) == LiveVideoId(SearchResponse(Some([first])))
  {
  }
}
