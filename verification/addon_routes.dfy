/** The add-on's catalog and stream routes, as functions from the loaded
    video list (and, for streams, the outcome of asking yt-dlp for a
    direct URL) to the reply the route sends. */
module AddonRoutes {
  import opened Json
  import opened Addon
  import opened Wrappers
  import YouTube

  const DefaultName := Str("Video senza titolo")
  const DefaultDescription := Str("Nessuna descrizione")
  const DefaultGenres := Arr([Str("Animation"), Str("Kids")])
  const NoHints := Obj(map[])

  /** The poster a stored video falls back to: its YouTube "hqdefault"
      thumbnail, whatever `youtubeId` holds. */
  function FallbackPoster(video: Value): Value
    requires !Nullish(video)
  {
    Str(YouTube.HqPoster(Interpolate(Get(video, "youtubeId"))))
  }

  // ---------------------------------------------------------------------
  // Catalog
  // ---------------------------------------------------------------------

  /** One entry of the catalog reply. `released` is `None` where the
      reply's field is `undefined`. */
  datatype CatalogMeta = CatalogMeta(
    id: Value,
    kind: string,
    name: Value,
    poster: Value,
    description: Value,
    released: Option<string>,
    runtime: string,
    genres: Value,
    behaviorHints: Value)

  /** The catalog entry built from one stored video. */
  function CatalogMetaOf(video: Value): (m: CatalogMeta)
    requires !Nullish(video)
    ensures m.id == Get(video, "id") && m.kind == "channel"
    ensures Truthy(m.name) && Truthy(m.poster) && Truthy(m.description)
    ensures Truthy(m.genres) && Truthy(m.behaviorHints)
    ensures Truthy(Get(video, "name")) ==> m.name == Get(video, "name")
    ensures !Truthy(Get(video, "name")) ==> m.name == DefaultName
    ensures Truthy(Get(video, "poster")) ==> m.poster == Get(video, "poster")
    ensures !Truthy(Get(video, "poster")) ==> m.poster == FallbackPoster(video)
    ensures Truthy(Get(video, "description")) ==> m.description == Get(video, "description")
    ensures !Truthy(Get(video, "description")) ==> m.description == DefaultDescription
    ensures Truthy(Get(video, "genres")) ==> m.genres == Get(video, "genres")
    ensures !Truthy(Get(video, "genres")) ==> m.genres == DefaultGenres
    ensures Truthy(Get(video, "behaviorHints")) ==> m.behaviorHints == Get(video, "behaviorHints")
    ensures !Truthy(Get(video, "behaviorHints")) ==> m.behaviorHints == NoHints
    ensures m.released == FormatDate(Get(video, "released"))
    ensures m.runtime == RuntimeLabel(DurationToMinutes(Get(video, "runtime")))
    ensures Text.EndsWith(m.runtime, " min")
  {
    var minutes := DurationToMinutes(Get(video, "runtime"));
    var runtime := RuntimeLabel(minutes);
    assert runtime[|runtime| - 4..] == " min";
    CatalogMeta(
      Get(video, "id"),
      "channel",
      Or(Get(video, "name"), DefaultName),
      Or(Get(video, "poster"), FallbackPoster(video)),
      Or(Get(video, "description"), DefaultDescription),
      FormatDate(Get(video, "released")),
      runtime,
      Or(Get(video, "genres"), DefaultGenres),
      Or(Get(video, "behaviorHints"), NoHints))
  }

  /** The catalog reply: one entry per stored video, in the stored order.
      A `null` in the list makes `video.runtime` throw, and no catalog is
      produced (`None`). */
  function Catalog(videos: seq<Value>): (r: Option<seq<CatalogMeta>>)
    ensures r.None? <==> exists i :: 0 <= i < |videos| && Nullish(videos[i])
    ensures r.Some? ==> |r.value| == |videos|
    ensures r.Some? ==> forall i :: 0 <= i < |videos| ==>
      !Nullish(videos[i]) && r.value[i] == CatalogMetaOf(videos[i])
  {
    if videos == [] then Some([])
    else if Nullish(videos[0]) then None
    else
      var first := CatalogMetaOf(videos[0]);
      TailIndices(videos);
      match Catalog(videos[1..])
      case None => None
      case Some(rest) => Some([first] + rest)
  }

  lemma TailIndices(videos: seq<Value>)
    requires |videos| > 0
    ensures forall i :: 1 <= i < |videos| ==> videos[i] == videos[1..][i - 1]
    ensures (exists i :: 0 <= i < |videos| && Nullish(videos[i]))
        <==> Nullish(videos[0]) || exists i :: 0 <= i < |videos[1..]| && Nullish(videos[1..][i])
  {
    assert forall i :: 1 <= i < |videos| ==> videos[i] == videos[1..][i - 1];
  }

  // ---------------------------------------------------------------------
  // Stream
  // ---------------------------------------------------------------------

  /** A stored `id` answers a stream request for `videoId` when it is that
      string, or when "dk" followed by its text is. */
  predicate Answers(id: Value, videoId: string) {
    StrictEquals(id, Str(videoId)) || "dk" + Interpolate(id) == videoId
  }

  /** The first stored video whose `id` answers `videoId`, scanning the list
      in order and reading each entry's `id`. */
  function FindVideo(videos: seq<Value>, videoId: string): Search {
    Find(videos, "id", id => Answers(id, videoId), 0)
  }

  datatype Stream = Stream(
    title: Value,
    url: Option<string>,
    externalUrl: Option<string>,
    notWebReady: bool,
    bingeGroup: Option<Value>)

  /** What the stream route sends: a status with a list of streams, or
      nothing at all when the lookup throws (the handler's promise rejects). */
  datatype StreamReply = Reply(status: nat, streams: seq<Stream>) | NoReply

  /** The stream route for `videoId`. `directUrl` is what `getDirectUrl`
      returns for the found video's `youtubeId` (`None` for its `null`);
      it is consulted only once a video with a truthy `youtubeId` is found. */
  function StreamFor(videos: seq<Value>, videoId: string, directUrl: Option<string>): (r: StreamReply)
    ensures r.NoReply? <==> FindVideo(videos, videoId).Throw?
    ensures r.Reply? ==> r.status == 200 || r.status == 404
    ensures r.Reply? && r.status == 404 <==>
      || FindVideo(videos, videoId).Miss?
      || (FindVideo(videos, videoId).Hit? && !Truthy(Get(videos[FindVideo(videos, videoId).index], "youtubeId")))
    ensures r.Reply? && r.status == 404 ==> r.streams == []
    ensures r.Reply? && r.status == 200 ==>
      var video := videos[FindVideo(videos, videoId).index];
      var youtubeId := Get(video, "youtubeId");
      && |r.streams| == 1
      && Answers(Get(video, "id"), videoId)
      && Truthy(youtubeId)
      && (directUrl.None? || directUrl == Some("") ==>
            && r.streams[0].externalUrl == Some(YouTube.WatchUrl(Interpolate(youtubeId)))
            && r.streams[0].url.None?
            && r.streams[0].notWebReady
            && r.streams[0].bingeGroup.None?
            && r.streams[0].title
                 == Str(Interpolate(Or(Get(video, "name"), Str("Video"))) + " (Apri su YouTube)"))
      && (directUrl.Some? && directUrl.value != "" ==>
            && r.streams[0].url == directUrl
            && r.streams[0].externalUrl.None?
            && !r.streams[0].notWebReady
            && r.streams[0].bingeGroup == Some(youtubeId)
            && r.streams[0].title == Or(Get(video, "name"), Str("Video")))
  {
    match FindVideo(videos, videoId)
    case Throw => NoReply
    case Miss => Reply(404, [])
    case Hit(i) =>
      var video := videos[i];
      var youtubeId := Get(video, "youtubeId");
      if !Truthy(youtubeId) then Reply(404, [])
      else if directUrl.None? || directUrl == Some("") then
        var title := Interpolate(Or(Get(video, "name"), Str("Video"))) + " (Apri su YouTube)";
        Reply(200, [Stream(Str(title), None, Some(YouTube.WatchUrl(Interpolate(youtubeId))), true, None)])
      else
        Reply(200, [Stream(Or(Get(video, "name"), Str("Video")), directUrl, None, false, Some(youtubeId))])
  }

  /** A video stored under a string id is reachable both as that id and as
      "dk" followed by it (the add-on announces the "dk" id prefix): the
      lookup succeeds, at that video or at an earlier one that also answers. */
  lemma FindVideoById(videos: seq<Value>, i: nat, x: string)
    requires i < |videos|
    requires forall j :: 0 <= j < |videos| ==> !Nullish(videos[j])
    requires Get(videos[i], "id") == Str(x)
    ensures FindVideo(videos, x).Hit? && FindVideo(videos, x).index <= i
    ensures FindVideo(videos, "dk" + x).Hit? && FindVideo(videos, "dk" + x).index <= i
  {
    FindNoNulls(videos, "id", id => Answers(id, x));
    FindNoNulls(videos, "id", id => Answers(id, "dk" + x));
    assert Answers(Get(videos[i], "id"), x);
    assert Answers(Get(videos[i], "id"), "dk" + x);
  }

  /** A stored video without an `id` answers the request "dkundefined",
      since `${undefined}` is the text "undefined". */
  lemma MissingIdAnswersDkUndefined(videos: seq<Value>, i: nat)
    requires i < |videos|
    requires forall j :: 0 <= j < |videos| ==> !Nullish(videos[j])
    requires Get(videos[i], "id") == Undefined
    ensures FindVideo(videos, "dkundefined").Hit?
    ensures FindVideo(videos, "dkundefined").index <= i
  {
    FindNoNulls(videos, "id", id => Answers(id, "dkundefined"));
    assert Answers(Get(videos[i], "id"), "dkundefined");
  }
}
