/** The channel scraper: list the latest videos of each configured channel,
    fetch each video's details, keep the ones that succeed, and save them
    all to `meta.json` when there is at least one. The extraction library's
    answers are inputs: one listing outcome per channel and one fetch
    outcome per derived watch URL. */
module ChannelScraper {
  import opened Wrappers
  import YouTube

  /** A Python value that may be `None`. */
  datatype Py<T> = PyNone | Val(value: T)

  /** A dictionary entry as `.get` sees it: the key is absent (`None`), or
      present with a value that may itself be `None`. */
  type Field<T> = Option<Py<T>>

  /** `d.get(key, default)`: the default only when the key is absent. */
  function GetOr<T>(f: Field<T>, default: T): (r: Py<T>)
    ensures f.None? ==> r == Val(default)
    ensures f.Some? ==> r == f.value
  {
    f.GetOr(Val(default))
  }

  /** The text an f-string inserts for a string value (`None` prints as "None"). */
  function PyStr(v: Py<string>): string {
    match v
    case PyNone => "None"
    case Val(s) => s
  }

  /** The keys of yt-dlp's per-video info dictionary that the scraper reads. */
  datatype Info = Info(
    title: Field<string>,
    id: Field<string>,
    webpageUrl: Field<string>,
    viewCount: Field<int>,
    uploadDate: Field<string>,
    likeCount: Field<int>,
    channel: Field<string>,
    channelUrl: Field<string>,
    durationString: Field<string>)

  /** One saved video. */
  datatype VideoRecord = VideoRecord(
    title: Py<string>,
    id: Py<string>,
    url: Py<string>,
    viewCount: Py<int>,
    date: Py<string>,
    likes: Py<int>,
    channelName: Py<string>,
    channelUrl: Py<string>,
    duration: Py<string>,
    thumbnail: string)

  const DefaultTitle := "No Title"
  const DefaultDate := "20250101"
  const DefaultChannel := "Unknown Channel"
  const DefaultDuration := "0:00"

  /** The record built from one video's info: each field takes the info's
      value when its key is present and the fixed default otherwise; the
      thumbnail is always the "maxresdefault" image of the id. */
  function RecordOf(info: Info): (r: VideoRecord)
    ensures info.title.Some? ==> r.title == info.title.value
    ensures info.title.None? ==> r.title == Val(DefaultTitle)
    ensures info.id.Some? ==> r.id == info.id.value
    ensures info.id.None? ==> r.id == Val("")
    ensures info.webpageUrl.Some? ==> r.url == info.webpageUrl.value
    ensures info.webpageUrl.None? ==> r.url == Val("")
    ensures info.viewCount.Some? ==> r.viewCount == info.viewCount.value
    ensures info.viewCount.None? ==> r.viewCount == Val(0)
    ensures info.uploadDate.Some? ==> r.date == info.uploadDate.value
    ensures info.uploadDate.None? ==> r.date == Val(DefaultDate)
    ensures info.likeCount.Some? ==> r.likes == info.likeCount.value
    ensures info.likeCount.None? ==> r.likes == Val(0)
    ensures info.channel.Some? ==> r.channelName == info.channel.value
    ensures info.channel.None? ==> r.channelName == Val(DefaultChannel)
    ensures info.channelUrl.Some? ==> r.channelUrl == info.channelUrl.value
    ensures info.channelUrl.None? ==> r.channelUrl == Val("")
    ensures info.durationString.Some? ==> r.duration == info.durationString.value
    ensures info.durationString.None? ==> r.duration == Val(DefaultDuration)
    ensures r.thumbnail == YouTube.MaxresThumbnail(PyStr(r.id))
  {
    VideoRecord(
      GetOr(info.title, DefaultTitle),
      GetOr(info.id, ""),
      GetOr(info.webpageUrl, ""),
      GetOr(info.viewCount, 0),
      GetOr(info.uploadDate, DefaultDate),
      GetOr(info.likeCount, 0),
      GetOr(info.channel, DefaultChannel),
      GetOr(info.channelUrl, ""),
      GetOr(info.durationString, DefaultDuration),
      YouTube.MaxresThumbnail(PyStr(GetOr(info.id, ""))))
  }

  // ---------------------------------------------------------------------
  // Channel listings
  // ---------------------------------------------------------------------

  /** One entry of a channel listing; only its `id` key is read. */
  datatype Item = Item(id: Field<string>)

  /** What listing a channel produced: an exception (`Raised`, which also
      stands for an `extract_info` result that is `None`), or a result whose
      `entries` key may be absent. */
  datatype Listing = Raised | Returned(entries: Field<seq<Item>>)

  /** `get_channel_videos`: the `entries`, or `[]` when the key is absent or
      the listing raised. */
  function ChannelVideos(listing: Listing): (r: Py<seq<Item>>)
    ensures listing.Raised? ==> r == Val([])
    ensures listing.Returned? && listing.entries.None? ==> r == Val([])
    ensures listing.Returned? && listing.entries.Some? ==> r == listing.entries.value
  {
    match listing
    case Raised => Val([])
    case Returned(entries) => GetOr(entries, [])
  }

  /** `[watch URL of v['id'] for v in videos if 'id' in v]`. */
  function WatchUrls(videos: seq<Item>): (r: seq<string>)
    ensures |r| <= |videos|
    ensures forall i :: 0 <= i < |videos| && videos[i].id.Some? ==>
      YouTube.WatchUrl(PyStr(videos[i].id.value)) in r
  {
    if videos == [] then []
    else
      var rest := WatchUrls(videos[1..]);
      assert forall i :: 1 <= i < |videos| ==> videos[i] == videos[1..][i - 1];
      if videos[0].id.Some? then [YouTube.WatchUrl(PyStr(videos[0].id.value))] + rest else rest
  }

  /** A single item gives its watch URL when it has an `id`, and nothing
      otherwise. */
  lemma WatchUrlsSingle(v: Item)
    ensures v.id.Some? ==> WatchUrls([v]) == [YouTube.WatchUrl(PyStr(v.id.value))]
    ensures v.id.None? ==> WatchUrls([v]) == []
  {
    assert [v][1..] == [];
  }

  /** The URLs keep the listing's order: listing `a` then `b` gives `a`'s
      URLs then `b`'s. With WatchUrlsSingle this pins down the whole list. */
  lemma {:induction false} WatchUrlsConcat(a: seq<Item>, b: seq<Item>)
    ensures WatchUrls(a + b) == WatchUrls(a) + WatchUrls(b)
  {
    if a == [] {
      assert a + b == b;
    } else {
      assert (a + b)[0] == a[0];
      assert (a + b)[1..] == a[1..] + b;
      WatchUrlsConcat(a[1..], b);
      if a[0].id.Some? {
        var u := [YouTube.WatchUrl(PyStr(a[0].id.value))];
        assert WatchUrls(a + b) == u + WatchUrls(a[1..] + b);
        assert WatchUrls(a) == u + WatchUrls(a[1..]);
      } else {
        assert WatchUrls(a + b) == WatchUrls(a[1..] + b);
        assert WatchUrls(a) == WatchUrls(a[1..]);
      }
    }
  }

  /** The item a URL comes from. */
  predicate FromItem(videos: seq<Item>, url: string) {
    exists i :: 0 <= i < |videos| && videos[i].id.Some? && url == YouTube.WatchUrl(PyStr(videos[i].id.value))
  }

  /** Every URL comes from a listed item that has an `id`. */
  lemma {:induction false} WatchUrlsFromItems(videos: seq<Item>)
    ensures forall k :: 0 <= k < |WatchUrls(videos)| ==> FromItem(videos, WatchUrls(videos)[k])
  {
    if videos != [] {
      WatchUrlsFromItems(videos[1..]);
      var rest := WatchUrls(videos[1..]);
      var r := WatchUrls(videos);
      forall k | 0 <= k < |r|
        ensures FromItem(videos, r[k])
      {
        if videos[0].id.Some? && k == 0 {
          assert r[0] == YouTube.WatchUrl(PyStr(videos[0].id.value));
        } else {
          var k' := if videos[0].id.Some? then k - 1 else k;
          assert r[k] == rest[k'];
          assert FromItem(videos[1..], rest[k']);
          var i :| 0 <= i < |videos[1..]| && videos[1..][i].id.Some? && rest[k'] == YouTube.WatchUrl(PyStr(videos[1..][i].id.value));
          assert videos[i + 1] == videos[1..][i];
        }
      }
    }
  }

  /** The URLs the scraper visits for one channel: none when the listing is
      empty (or `None`), which skips the channel. */
  function ChannelUrls(listing: Listing): seq<string> {
    match ChannelVideos(listing)
    case PyNone => []
    case Val(videos) => if videos == [] then [] else WatchUrls(videos)
  }

  // ---------------------------------------------------------------------
  // Per-video details
  // ---------------------------------------------------------------------

  /** The records of the successful fetches, in order: the reference for
      `get_video_details`. `None` is a fetch that raised. */
  function Successes(outcomes: seq<Option<Info>>): (r: seq<VideoRecord>)
    ensures |r| <= |outcomes|
  {
    if outcomes == [] then []
    else
      var last := outcomes[|outcomes| - 1];
      Successes(outcomes[..|outcomes| - 1]) + (if last.Some? then [RecordOf(last.value)] else [])
  }

  /** A failing fetch adds no record: the count after it equals the count before. */
  lemma SuccessesAfterFailure(outcomes: seq<Option<Info>>)
    ensures Successes(outcomes + [None]) == Successes(outcomes)
  {
    assert (outcomes + [None])[..|outcomes|] == outcomes;
  }

  /** Successes distribute over concatenation of the outcome sequences. */
  lemma {:induction false} SuccessesConcat(a: seq<Option<Info>>, b: seq<Option<Info>>)
    ensures Successes(a + b) == Successes(a) + Successes(b)
    decreases |b|
  {
    if b == [] {
      assert a + b == a;
    } else {
      var n := |b| - 1;
      SuccessesConcat(a, b[..n]);
      assert (a + b)[..|a + b| - 1] == a + b[..n];
    }
  }

  /** With no failures there is one record per outcome, built from it. */
  lemma {:induction false} SuccessesAllFetched(outcomes: seq<Option<Info>>)
    requires forall i :: 0 <= i < |outcomes| ==> outcomes[i].Some?
    ensures |Successes(outcomes)| == |outcomes|
    ensures forall i :: 0 <= i < |outcomes| ==> Successes(outcomes)[i] == RecordOf(outcomes[i].value)
  {
    if outcomes != [] {
      var n := |outcomes| - 1;
      SuccessesAllFetched(outcomes[..n]);
    }
  }

  /** `get_video_details(video_urls)`: fetch each URL in turn, appending the
      record of every fetch that succeeds and skipping every one that
      raises. `outcomes[i]` is what fetching `urls[i]` gave. */
  method VideoDetails(urls: seq<string>, outcomes: seq<Option<Info>>) returns (videos: seq<VideoRecord>)
    requires |outcomes| == |urls|
    ensures videos == Successes(outcomes)
    ensures |videos| <= |urls|
  {
    videos := [];
    var i := 0;
    while i < |urls|
      invariant 0 <= i <= |urls|
      invariant videos == Successes(outcomes[..i])
    {
      assert outcomes[..i + 1][..i] == outcomes[..i];
      if outcomes[i].Some? {
        videos := videos + [RecordOf(outcomes[i].value)];
      }
      i := i + 1;
    }
    assert outcomes[..i] == outcomes;
  }

  // ---------------------------------------------------------------------
  // main
  // ---------------------------------------------------------------------

  /** The records of each channel in turn: the reference for `all_videos`. */
  function Aggregate(fetches: seq<seq<Option<Info>>>): seq<VideoRecord> {
    if fetches == [] then []
    else Aggregate(fetches[..|fetches| - 1]) + Successes(fetches[|fetches| - 1])
  }

  lemma AggregateStep(fetches: seq<seq<Option<Info>>>, c: nat)
    requires c < |fetches|
    ensures Aggregate(fetches[..c + 1]) == Aggregate(fetches[..c]) + Successes(fetches[c])
  {
    assert fetches[..c + 1][..c] == fetches[..c];
  }

  /** One fetch outcome per URL derived for each channel. */
  predicate Aligned(listings: seq<Listing>, fetches: seq<seq<Option<Info>>>) {
    |fetches| == |listings| &&
    forall c :: 0 <= c < |listings| ==> |fetches[c]| == |ChannelUrls(listings[c])|
  }

  /** `main`: scrape every channel in order, collecting all records, then
      save them when there is at least one. `saved` is what `meta.json`
      receives (`None`: the file is not written). */
  method Scrape(listings: seq<Listing>, fetches: seq<seq<Option<Info>>>)
    returns (allVideos: seq<VideoRecord>, saved: Option<seq<VideoRecord>>)
    requires Aligned(listings, fetches)
    ensures allVideos == Aggregate(fetches)
    ensures saved.Some? <==> allVideos != []
    ensures saved.Some? ==> saved.value == allVideos
  {
    allVideos := [];
    var c := 0;
    while c < |listings|
      invariant 0 <= c <= |listings|
      invariant allVideos == Aggregate(fetches[..c])
    {
      AggregateStep(fetches, c);
      var urls := ChannelUrls(listings[c]);
      assert |fetches[c]| == |urls|;
      if urls == [] {
        assert fetches[c] == [];
      } else {
        var details := VideoDetails(urls, fetches[c]);
        allVideos := allVideos + details;
      }
      c := c + 1;
    }
    assert fetches[..c] == fetches;
    if allVideos != [] {
      saved := Some(allVideos);
    } else {
      saved := None;
    }
  }

  /** A channel whose listing is empty, `None`, missing or raised contributes
      no records, and the remaining channels are still collected. */
  lemma EmptyChannelContributesNothing(listings: seq<Listing>, fetches: seq<seq<Option<Info>>>, c: nat)
    requires Aligned(listings, fetches) && c < |listings|
    requires ChannelVideos(listings[c]) == PyNone || ChannelVideos(listings[c]) == Val([])
    ensures Successes(fetches[c]) == []
  {
  }

  /** The saved list is the concatenation of the channels' records, and
      never longer than the number of URLs visited. */
  lemma {:induction false} AggregateBound(listings: seq<Listing>, fetches: seq<seq<Option<Info>>>)
    requires Aligned(listings, fetches)
    ensures |Aggregate(fetches)| <= TotalUrls(listings)
    decreases |listings|
  {
    if listings != [] {
      var n := |listings| - 1;
      assert Aligned(listings[..n], fetches[..n]);
      AggregateBound(listings[..n], fetches[..n]);
    }
  }

  function TotalUrls(listings: seq<Listing>): nat {
    if listings == [] then 0
    else TotalUrls(listings[..|listings| - 1]) + |ChannelUrls(listings[|listings| - 1])|
  }
}
