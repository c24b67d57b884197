/** How the add-on reads the `meta.json` files the two scrapers write. The
    channel scraper saves `title`, `id`, `thumbnail`, `duration` and `date`;
    the playlist scraper saves `youtubeId`, `title`, `poster` and `channel`;
    the add-on reads `id`, `youtubeId`, `name`, `poster`, `runtime` and
    `released`. These lemmas state what follows from the mismatch. */
module Interplay {
  import opened Json
  import opened Wrappers
  import opened AddonRoutes
  import ChannelScraper
  import PlaylistScraper
  import YouTube

  function PyString(v: ChannelScraper.Py<string>): Value {
    match v
    case PyNone => Null
    case Val(s) => Str(s)
  }

  function PyInt(v: ChannelScraper.Py<int>): Value {
    match v
    case PyNone => Null
    case Val(n) => Num(n)
  }

  /** A saved record as the JSON object `json.dump` writes. */
  function RecordJson(r: ChannelScraper.VideoRecord): Value {
    Obj(map[
      "title" := PyString(r.title),
      "id" := PyString(r.id),
      "url" := PyString(r.url),
      "viewCount" := PyInt(r.viewCount),
      "date" := PyString(r.date),
      "likes" := PyInt(r.likes),
      "channelName" := PyString(r.channelName),
      "channelUrl" := PyString(r.channelUrl),
      "duration" := PyString(r.duration),
      "thumbnail" := Str(r.thumbnail)])
  }

  function RecordsJson(rs: seq<ChannelScraper.VideoRecord>): (vs: seq<Value>)
    ensures |vs| == |rs|
    ensures forall i :: 0 <= i < |rs| ==> vs[i] == RecordJson(rs[i])
  {
    seq(|rs|, i requires 0 <= i < |rs| => RecordJson(rs[i]))
  }

  /** The keys the add-on reads but the channel scraper never writes. */
  lemma RecordJsonMissingKeys(r: ChannelScraper.VideoRecord)
    ensures Get(RecordJson(r), "youtubeId") == Undefined
    ensures Get(RecordJson(r), "name") == Undefined
    ensures Get(RecordJson(r), "poster") == Undefined
    ensures Get(RecordJson(r), "runtime") == Undefined
    ensures Get(RecordJson(r), "released") == Undefined
    ensures Get(RecordJson(r), "id") == PyString(r.id)
  {
  }

  /** The catalog entry of one channel-scraper record. */
  lemma ScrapedEntry(r: ChannelScraper.VideoRecord)
    ensures var m := CatalogMetaOf(RecordJson(r));
      && m.id == PyString(r.id)
      && m.name == DefaultName
      && m.poster == Str(YouTube.HqPoster("undefined"))
      && m.released == None
      && m.runtime == "0 min"
  {
    RecordJsonMissingKeys(r);
    assert Addon.RuntimeLabel(Addon.Finite(0.0)) == "0 min";
  }

  /** The catalog of a channel-scraper file keeps each record's id but shows
      every video under the default name, with the poster of the id
      "undefined", no release date and a runtime of "0 min". */
  lemma ScrapedCatalog(rs: seq<ChannelScraper.VideoRecord>)
    ensures Catalog(RecordsJson(rs)).Some?
    ensures forall i :: 0 <= i < |rs| ==>
      var m := Catalog(RecordsJson(rs)).value[i];
      && m.id == PyString(rs[i].id)
      && m.name == DefaultName
      && m.poster == Str(YouTube.HqPoster("undefined"))
      && m.released == None
      && m.runtime == "0 min"
  {
    var vs := RecordsJson(rs);
    forall i | 0 <= i < |rs|
      ensures Catalog(vs).value[i] == CatalogMetaOf(RecordJson(rs[i]))
    {
    }
    forall i | 0 <= i < |rs|
      ensures var m := CatalogMetaOf(RecordJson(rs[i]));
        && m.id == PyString(rs[i].id)
        && m.name == DefaultName
        && m.poster == Str(YouTube.HqPoster("undefined"))
        && m.released == None
        && m.runtime == "0 min"
    {
      ScrapedEntry(rs[i]);
    }
  }

  /** No channel-scraper record has a `youtubeId`, so every stream request
      against such a file is answered 404. */
  lemma ScrapedStreamsNotFound(rs: seq<ChannelScraper.VideoRecord>, videoId: string, directUrl: Option<string>)
    ensures StreamFor(RecordsJson(rs), videoId, directUrl) == Reply(404, [])
  {
    var vs := RecordsJson(rs);
    FindNoNulls(vs, "id", id => Answers(id, videoId));
    forall i | 0 <= i < |vs| ensures Get(vs[i], "youtubeId") == Undefined {
      RecordJsonMissingKeys(rs[i]);
    }
  }

  /** No playlist-scraper entry has an `id`: such an entry answers only the
      request "dkundefined". */
  lemma PlaylistEntryAnswers(m: PlaylistScraper.Meta, videoId: string)
    ensures Get(PlaylistScraper.MetaJson(m), "id") == Undefined
    ensures Answers(Get(PlaylistScraper.MetaJson(m), "id"), videoId) <==> videoId == "dkundefined"
  {
  }
}
