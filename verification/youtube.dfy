/** The YouTube URL templates the three programs build from a video id
    (the id is already rendered as text by the caller's own language). */
module YouTube {

  const WatchPrefix := "https://www.youtube.com/watch?v="
  const ThumbnailPrefix := "https://i.ytimg.com/vi/"

  function WatchUrl(id: string): string {
    WatchPrefix + id
  }

  /** Poster used by the add-on and the playlist scraper. */
  function HqPoster(id: string): string {
    ThumbnailPrefix + id + "/hqdefault.jpg"
  }

  /** Thumbnail recorded by the channel scraper. */
  function MaxresThumbnail(id: string): string {
    ThumbnailPrefix + id + "/maxresdefault.jpg"
  }

  /** The video id can be read back from a watch URL, so distinct ids give
      distinct URLs. */
  lemma WatchUrlInjective(a: string, b: string)
    requires WatchUrl(a) == WatchUrl(b)
    ensures a == b
  {
    assert a == WatchUrl(a)[|WatchPrefix|..];
    assert b == WatchUrl(b)[|WatchPrefix|..];
  }
}
