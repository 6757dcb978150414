/**
 * The player replacer: the body of the 500 ms interval started by
 * `removeAds`, and the URL-change reset of the document observer. The
 * script's own state is the last seen URL and whether the player has been
 * replaced for it.
 */
module Replacer {
  import opened Wrappers
  import opened Strings
  import opened VideoId
  import opened Embed
  import opened Dom

  /** The pattern that marks a short-form video page. */
  const ShortsMarker: string := "shorts"

  /** `currentUrl` and `isVideoPlayerModified`. */
  datatype NavState = NavState(currentUrl: string, modified: bool)

  /** The observer callback: on a URL change, remember the new URL and forget the replacement. */
  function Observe(s: NavState, href: string): (r: NavState)
    ensures r.currentUrl == href
    ensures href == s.currentUrl ==> r == s
    ensures href != s.currentUrl ==> !r.modified
  {
    if href != s.currentUrl then NavState(href, false) else s
  }

  /** First step of a tick: on a URL change, reset the state and clear every player. */
  function NavigationReset(s: NavState, d: PageState): (r: (NavState, PageState))
    ensures r.0.currentUrl == d.location.href
    ensures r.1.location == d.location && r.1.videos == d.videos && |r.1.players| == |d.players|
    ensures d.location.href != s.currentUrl ==> !r.0.modified && AllCleared(r.1.players)
    ensures d.location.href == s.currentUrl ==> r == (s, d)
  {
    if d.location.href != s.currentUrl
    then (NavState(d.location.href, false), d.(players := Cleared(d.players)))
    else (s, d)
  }

  /** The replacement proper, run when the player has not been replaced yet. */
  function ReplacementTick(s: NavState, d: PageState): (r: (NavState, PageState))
    ensures r.0.currentUrl == s.currentUrl && r.1.location == d.location
    ensures r.1.videos == WithoutFirst(d.videos) && |r.1.players| == |d.players|
    ensures d.players == [] ==> r.0 == s && r.1.players == []
    ensures d.players != [] && GetVideoId(d.location.query, d.location.pathname) == "" ==>
      r.0 == s && AllCleared(r.1.players)
    ensures d.players != [] && GetVideoId(d.location.query, d.location.pathname) != "" ==>
      r.0 == s.(modified := true) && AllCleared(r.1.players[1..]) &&
      r.1.players[0] == [CreateIframe(GetVideoId(d.location.query, d.location.pathname))]
  {
    var d1 := d.(videos := WithoutFirst(d.videos));
    if d1.players == [] then (s, d1)
    else
      var d2 := d1.(players := Cleared(d1.players));
      var id := GetVideoId(d2.location.query, d2.location.pathname);
      if id == "" then (s, d2)
      else
        var ps := d2.players[0 := [CreateIframe(id)]];
        assert forall i :: 0 <= i < |ps[1..]| ==> ps[1..][i] == ps[i + 1];
        (s.(modified := true), d2.(players := ps))
  }

  /** One run of the interval body, as a function of the state and the page before it. */
  function TickSpec(s: NavState, d: PageState): (r: (NavState, PageState))
    ensures r.0.currentUrl == d.location.href
    ensures r.1.location == d.location && |r.1.players| == |d.players|
    ensures r.1.videos == d.videos || r.1.videos == WithoutFirst(d.videos) ||
            r.1.videos == SuppressAll(d.videos)
  {
    var (s1, d1) := NavigationReset(s, d);
    if Contains(d1.location.href, ShortsMarker) then (s1, d1)
    else if s1.modified then (s1, d1.(videos := SuppressAll(d1.videos)))
    else ReplacementTick(s1, d1)
  }

  const WatchHref: string := "https://www.youtube.com/watch?v=abc123"
  const WatchLocation: Location := Location(WatchHref, [("v", "abc123")], "/watch")

  /** On a short-form page the tick stops after the URL-change step. */
  lemma ShortsTickStopsAfterReset(s: NavState, d: PageState)
    requires Contains(d.location.href, ShortsMarker)
    ensures TickSpec(s, d) == NavigationReset(s, d)
    ensures TickSpec(s, d).1.videos == d.videos
    ensures d.location.href == s.currentUrl ==> TickSpec(s, d) == (s, d)
  {
  }

  /**
   * Once replaced, a tick on the same URL adds no iframe, keeps the state,
   * and only mutes and pauses the videos from the native host.
   */
  lemma ReplacedTickOnlySuppresses(s: NavState, d: PageState)
    requires d.location.href == s.currentUrl && s.modified
    requires !Contains(d.location.href, ShortsMarker)
    ensures TickSpec(s, d).0 == s
    ensures TickSpec(s, d).1.players == d.players
    ensures TickSpec(s, d).1.location == d.location
    ensures |TickSpec(s, d).1.videos| == |d.videos|
    ensures forall i :: 0 <= i < |d.videos| ==>
      var v, v' := d.videos[i], TickSpec(s, d).1.videos[i];
      if Contains(v.src, NativeHost)
      then v' == v.(muted := true, paused := true)
      else v' == v
  {
  }

  /**
   * A replacement tick first drops the first native video; then it aborts
   * when there is no player, aborts with every player emptied when no ID
   * can be extracted, and otherwise leaves exactly one iframe, carrying the
   * ID, in the first player.
   */
  lemma ReplacementTickOutcomes(s: NavState, d: PageState)
    requires !Contains(d.location.href, ShortsMarker)
    requires d.location.href != s.currentUrl || !s.modified
    ensures TickSpec(s, d).1.videos == WithoutFirst(d.videos)
    ensures TickSpec(s, d).0.currentUrl == d.location.href
    ensures d.players == [] ==>
      !TickSpec(s, d).0.modified && TickSpec(s, d).1.players == []
    ensures d.players != [] && GetVideoId(d.location.query, d.location.pathname) == "" ==>
      !TickSpec(s, d).0.modified &&
      |TickSpec(s, d).1.players| == |d.players| && AllCleared(TickSpec(s, d).1.players)
    ensures d.players != [] && GetVideoId(d.location.query, d.location.pathname) != "" ==>
      var id, ps := GetVideoId(d.location.query, d.location.pathname), TickSpec(s, d).1.players;
      TickSpec(s, d).0.modified &&
      |ps| == |d.players| && AllCleared(ps[1..]) &&
      ps[0] == [CreateIframe(id)] && EmbedId(ps[0][0].src) == Some(id)
  {
    if d.players != [] {
      var ps := TickSpec(s, d).1.players;
      assert forall i :: 0 <= i < |ps[1..]| ==> ps[1..][i] == ps[i + 1];
    }
  }

  /** A tick in the replaced state changes no player and no state: the replacement is not repeated. */
  lemma TickIdempotentWhenReplaced(s: NavState, d: PageState)
    requires TickSpec(s, d).0.modified
    ensures TickSpec(TickSpec(s, d).0, TickSpec(s, d).1).0 == TickSpec(s, d).0
    ensures TickSpec(TickSpec(s, d).0, TickSpec(s, d).1).1.players == TickSpec(s, d).1.players
  {
  }

  /** The watch URL is not a short-form page: it has no `r`. */
  lemma WatchHrefNotShorts()
    ensures !Contains(WatchHref, ShortsMarker)
  {
    assert 'r' !in WatchHref;
    MissingCharNotContained(WatchHref, ShortsMarker, 3);
  }

  /** A `?v=abc123` page with a player ends a tick with exactly that embed in the first player. */
  lemma WatchPageScenario(s: NavState, videos: seq<Video>, players: seq<Player>)
    requires players != []
    requires s.currentUrl != WatchHref
    ensures
      var (s', d') := TickSpec(s, PageState(WatchLocation, videos, players));
      s'.modified && d'.videos == WithoutFirst(videos) && |d'.players| == |players| &&
      d'.players[0] == [CreateIframe("abc123")] && AllCleared(d'.players[1..]) &&
      d'.players[0][0].src == "https://www.youtube-nocookie.com/embed/abc123?autoplay=1&modestbranding=1&rel=0"
  {
    WatchHrefNotShorts();
    WatchQueryExample();
    ReplacementTickOutcomes(s, PageState(WatchLocation, videos, players));
    EmbedExample();
  }

  /**
   * A native-host video that the page re-inserts unmuted and playing after
   * the replacement is muted and paused by the next tick.
   */
  lemma ReinsertedVideoScenario(s: NavState, d: PageState, i: nat)
    requires d.location.href == s.currentUrl && s.modified
    requires !Contains(d.location.href, ShortsMarker)
    requires i < |d.videos| && Contains(d.videos[i].src, NativeHost)
    ensures |TickSpec(s, d).1.videos| == |d.videos|
    ensures TickSpec(s, d).1.videos[i].muted && TickSpec(s, d).1.videos[i].paused
  {
    ReplacedTickOnlySuppresses(s, d);
  }

  /** When the observer has already seen the new URL, the tick's own URL-change step does nothing. */
  lemma ObserverPreemptsTickReset(s: NavState, d: PageState)
    ensures NavigationReset(Observe(s, d.location.href), d) == (Observe(s, d.location.href), d)
  {
  }

  class Watcher {
    var currentUrl: string
    var isVideoPlayerModified: bool

    /** The script starts with the page's URL and an unreplaced player. */
    constructor (href: string)
      ensures State() == NavState(href, false)
    {
      currentUrl := href;
      isVideoPlayerModified := false;
    }

    function State(): NavState
      reads this
    {
      NavState(currentUrl, isVideoPlayerModified)
    }

    /** The `MutationObserver` callback (re-arming `removeAds` is not modelled). */
    method OnMutation(page: Page)
      modifies this
      ensures State() == Observe(old(State()), page.location.href)
    {
      if page.location.href != currentUrl {
        currentUrl := page.location.href;
        isVideoPlayerModified := false;
      }
    }

    /** One run of the `removeAds` interval body. */
    method Tick(page: Page)
      modifies this, page
      ensures (State(), page.State()) == TickSpec(old(State()), old(page.State()))
    {
      ghost var s0, d0 := State(), page.State();
      if page.location.href != currentUrl {
        currentUrl := page.location.href;
        isVideoPlayerModified := false;
        var _ := page.ClearAllPlayers();
      }
      assert (State(), page.State()) == NavigationReset(s0, d0);

      if Contains(page.location.href, ShortsMarker) {
        return;
      }

      if isVideoPlayerModified {
        page.RemoveAllDuplicateVideos();
        return;
      }

      ghost var s1, d1 := State(), page.State();
      var _ := page.RemoveFirstVideo();

      var found := page.ClearAllPlayers();
      if !found {
        return;
      }

      var videoId := GetVideoId(page.location.query, page.location.pathname);
      if videoId == "" {
        return;
      }

      var iframe := CreateIframe(videoId);
      assert page.players[0] + [iframe] == [iframe];
      page.AppendToFirstPlayer(iframe);
      isVideoPlayerModified := true;
      assert (State(), page.State()) == ReplacementTick(s1, d1);
    }
  }
}
