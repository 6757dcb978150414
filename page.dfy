/**
 * The part of the document the script reads and changes: the location, the
 * native `<video>` elements in document order, and the
 * `.html5-video-player` containers in document order, each seen through the
 * iframes it holds.
 */
module Dom {
  import opened Wrappers
  import opened Strings
  import opened VideoId
  import opened Embed

  /** The host whose videos are suppressed once the player has been replaced. */
  const NativeHost: string := "www.youtube.com"

  /** `window.location`: `href`, with the decoded search parameters and the pathname of `new URL(href)`. */
  datatype Location = Location(href: string, query: Query, pathname: string)

  /** A native video element; `volume` is 0 (silent) or more. */
  datatype Video = Video(src: string, muted: bool, paused: bool, volume: int)

  /** A player container, seen through the iframes inside it. */
  type Player = seq<Iframe>

  /** A snapshot of the page. */
  datatype PageState = PageState(location: Location, videos: seq<Video>, players: seq<Player>)

  /** Every player holds no iframe. */
  predicate AllCleared(players: seq<Player>)
  {
    forall i :: 0 <= i < |players| ==> players[i] == []
  }

  /** The videos after `document.querySelector('video').remove()`: all but the first, in order. */
  function WithoutFirst(videos: seq<Video>): (r: seq<Video>)
    ensures |r| == if videos == [] then 0 else |videos| - 1
    ensures forall i :: 0 <= i < |r| ==> r[i] == videos[i + 1]
    ensures videos != [] ==> [videos[0]] + r == videos
  {
    if videos == [] then [] else videos[1..]
  }

  /** Every player with its iframes removed. */
  function Cleared(players: seq<Player>): (r: seq<Player>)
    ensures |r| == |players| && AllCleared(r)
  {
    seq(|players|, _ => [])
  }

  /** One video after a pass of `removeAllDuplicateVideos`: muted and paused if it comes from the native host. */
  function Suppressed(v: Video): (r: Video)
    ensures r.src == v.src && r.volume == v.volume
    ensures Contains(v.src, NativeHost) ==> r.muted && r.paused
    ensures !Contains(v.src, NativeHost) ==> r == v
  {
    if Contains(v.src, NativeHost) then v.(muted := true, paused := true) else v
  }

  /** All videos after `removeAllDuplicateVideos`: each one suppressed, in place. */
  function SuppressAll(videos: seq<Video>): (r: seq<Video>)
    ensures |r| == |videos|
    ensures forall i :: 0 <= i < |videos| ==> r[i] == Suppressed(videos[i])
  {
    seq(|videos|, i requires 0 <= i < |videos| => Suppressed(videos[i]))
  }

  /** Suppressing twice is suppressing once: repeated ticks in the replaced state agree with a single one. */
  lemma SuppressAllIdempotent(videos: seq<Video>)
    ensures SuppressAll(SuppressAll(videos)) == SuppressAll(videos)
  {
    var once := SuppressAll(videos);
    forall i | 0 <= i < |videos| ensures Suppressed(once[i]) == once[i] {
      assert once[i].src == videos[i].src;
    }
  }

  class Page {
    var location: Location
    var videos: seq<Video>
    var players: seq<Player>

    constructor (location: Location, videos: seq<Video>, players: seq<Player>)
      ensures State() == PageState(location, videos, players)
    {
      this.location := location;
      this.videos := videos;
      this.players := players;
    }

    function State(): PageState
      reads this
    {
      PageState(location, videos, players)
    }

    /**
     * Silences, pauses and detaches the first video element, if any; the
     * detached element is returned.
     */
    method RemoveFirstVideo() returns (removed: Option<Video>)
      modifies this
      ensures State() == old(State()).(videos := WithoutFirst(old(videos)))
      ensures removed.None? <==> old(videos) == []
      ensures removed.Some? ==> removed.value == old(videos)[0].(volume := 0, paused := true)
    {
      if videos == [] {
        return None;
      }
      var video := videos[0];
      video := video.(volume := 0);
      video := video.(paused := true);
      videos := videos[1..];
      removed := Some(video);
    }

    /**
     * `clearAllPlayers`: reports whether any player container exists and,
     * if so, removes the iframes from every one of them.
     */
    method ClearAllPlayers() returns (found: bool)
      modifies this
      ensures found <==> old(players) != []
      ensures State() == old(State()).(players := Cleared(old(players)))
    {
      if |players| == 0 {
        return false;
      }
      var i := 0;
      while i < |players|
        invariant 0 <= i <= |players| == |old(players)|
        invariant forall j :: 0 <= j < i ==> players[j] == []
        invariant forall j :: i <= j < |players| ==> players[j] == old(players)[j]
        invariant location == old(location) && videos == old(videos)
      {
        players := players[i := []];
        i := i + 1;
      }
      found := true;
    }

    /** `removeAllDuplicateVideos`: mutes and pauses every video whose source is on the native host. */
    method RemoveAllDuplicateVideos()
      modifies this
      ensures State() == old(State()).(videos := SuppressAll(old(videos)))
    {
      var i := 0;
      while i < |videos|
        invariant 0 <= i <= |videos| == |old(videos)|
        invariant forall j :: 0 <= j < i ==> videos[j] == Suppressed(old(videos)[j])
        invariant forall j :: i <= j < |videos| ==> videos[j] == old(videos)[j]
        invariant location == old(location) && players == old(players)
      {
        if Contains(videos[i].src, NativeHost) {
          videos := videos[i := videos[i].(muted := true, paused := true)];
        }
        i := i + 1;
      }
    }

    /** `document.querySelector('.html5-video-player').appendChild(iframe)`: the first container gets the iframe. */
    method AppendToFirstPlayer(f: Iframe)
      requires players != []
      modifies this
      ensures State() == old(State()).(players := old(players)[0 := old(players)[0] + [f]])
    {
      players := players[0 := players[0] + [f]];
    }
  }
}
