/**
 * Extraction of the video identifier from the page location
 * (`getVideoID`). The location has already been parsed: the query is the
 * list of decoded name/value pairs in order, and the pathname is a string.
 */
module VideoId {
  import opened Wrappers
  import opened Strings

  /** Decoded query parameters, in the order they appear. */
  type Query = seq<(string, string)>

  /** `URLSearchParams.has(key)`. */
  predicate Has(q: Query, key: string): (r: bool)
    ensures r <==> exists p :: p in q && p.0 == key
  {
    exists i | 0 <= i < |q| :: q[i].0 == key
  }

  /** `URLSearchParams.get(key)`: the value of the FIRST pair named `key`. */
  function Get(q: Query, key: string): (r: Option<string>)
    ensures r.None? <==> !Has(q, key)
    ensures r.Some? ==> exists i :: 0 <= i < |q| && q[i] == (key, r.value) &&
                                    forall j :: 0 <= j < i ==> q[j].0 != key
    decreases |q|
  {
    if |q| == 0 then None
    else if q[0].0 == key then Some(q[0].1)
    else
      var r := Get(q[1..], key);
      assert forall i :: 0 <= i < |q[1..]| ==> q[1..][i] == q[i + 1];
      r
  }

  /** Position `i` holds the first `live` segment, and a segment follows it. */
  ghost predicate FirstLiveAt(segments: seq<string>, i: int)
  {
    0 <= i && i + 1 < |segments| && segments[i] == "live" && "live" !in segments[..i]
  }

  /**
   * `getVideoID`: the first `v` query value if there is one; otherwise the
   * path segment right after the first `live` segment; otherwise `""`.
   */
  function GetVideoId(q: Query, pathname: string): (r: string)
    ensures Has(q, "v") ==> Get(q, "v") == Some(r)
    ensures !Has(q, "v") && r != "" ==>
      exists i :: FirstLiveAt(Split(pathname, '/'), i) && Split(pathname, '/')[i + 1] == r
    ensures !Has(q, "v") ==> '/' !in r
  {
    if Has(q, "v") then Get(q, "v").value
    else
      var segments := Split(pathname, '/');
      var liveIndex := IndexOf(segments, "live");
      if liveIndex != -1 && liveIndex + 1 < |segments| then
        assert FirstLiveAt(segments, liveIndex);
        segments[liveIndex + 1]
      else ""
  }

  /** A `v` parameter decides the ID, whatever the path says (including a `live` segment). */
  lemma VideoIdFromQuery(q: Query, pathname: string, i: nat)
    requires i < |q| && q[i].0 == "v"
    requires forall j :: 0 <= j < i ==> q[j].0 != "v"
    ensures GetVideoId(q, pathname) == q[i].1
  {
    var r := Get(q, "v");
    var k :| 0 <= k < |q| && q[k] == ("v", r.value) && forall j :: 0 <= j < k ==> q[j].0 != "v";
    assert k == i;
  }

  /**
   * Without `v`, a path `pre/live/id/post` whose segments before `live` are
   * not `live` yields `id`: the segment after the FIRST `live`.
   */
  lemma LiveSegmentGivesId(q: Query, pre: seq<string>, id: string, post: seq<string>)
    requires !Has(q, "v")
    requires SepFree(pre + ["live", id] + post, '/')
    requires "live" !in pre
    ensures GetVideoId(q, Join(pre + ["live", id] + post, '/')) == id
  {
    var segments := pre + ["live", id] + post;
    SplitJoin(segments, '/');
    IndexOfFirst(segments, "live", |pre|);
  }

  /** Without `v`, a path with no `live` segment yields the empty ID. */
  lemma NoLiveSegmentGivesEmpty(q: Query, pathname: string)
    requires !Has(q, "v")
    requires "live" !in Split(pathname, '/')
    ensures GetVideoId(q, pathname) == ""
  {
  }

  /** Without `v`, a path whose first `live` segment is its last segment yields the empty ID. */
  lemma TrailingLiveGivesEmpty(q: Query, pre: seq<string>)
    requires !Has(q, "v")
    requires SepFree(pre + ["live"], '/')
    requires "live" !in pre
    ensures GetVideoId(q, Join(pre + ["live"], '/')) == ""
  {
    var segments := pre + ["live"];
    SplitJoin(segments, '/');
    IndexOfFirst(segments, "live", |pre|);
  }

  /** The path `/live/abc` with no query gives `abc`. */
  lemma LivePathExample()
    ensures GetVideoId([], "/live/abc") == "abc"
  {
    assert Join(["", "live", "abc"], '/') == "/live/abc";
    LiveSegmentGivesId([], [""], "abc", []);
    assert [""] + ["live", "abc"] + [] == ["", "live", "abc"];
  }

  /** `?v=abc123` on `/watch` gives `abc123`. */
  lemma WatchQueryExample()
    ensures GetVideoId([("v", "abc123")], "/watch") == "abc123"
  {
    VideoIdFromQuery([("v", "abc123")], "/watch", 0);
  }
}
