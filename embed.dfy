/**
 * The replacement player (`createIframe`): an iframe whose `src` is the
 * privacy-enhanced embed URL of the video, with fixed other attributes.
 */
module Embed {
  import opened Wrappers

  const EmbedPrefix: string := "https://www.youtube-nocookie.com/embed/"
  const EmbedSuffix: string := "?autoplay=1&modestbranding=1&rel=0"
  const AllowList: string :=
    "accelerometer; autoplay; clipboard-write; encrypted-media; gyroscope; picture-in-picture; web-share"

  /** The attributes of an iframe element that the script sets (styling is not modelled). */
  datatype Iframe = Iframe(src: string, frameBorder: string, allow: string, allowFullscreen: bool)

  /** The embed URL for a video: fixed prefix, the ID, fixed suffix. */
  function EmbedSrc(id: string): (src: string)
    ensures |src| == |EmbedPrefix| + |id| + |EmbedSuffix|
  {
    EmbedPrefix + id + EmbedSuffix
  }

  /** Recovers the ID from an embed URL by stripping the prefix and the suffix; `None` if `src` is not of that shape. */
  function EmbedId(src: string): (r: Option<string>)
    ensures r.Some? ==> |r.value| + |EmbedPrefix| + |EmbedSuffix| == |src|
  {
    if |src| >= |EmbedPrefix| + |EmbedSuffix|
       && src[..|EmbedPrefix|] == EmbedPrefix
       && src[|src| - |EmbedSuffix|..] == EmbedSuffix
    then Some(src[|EmbedPrefix|..|src| - |EmbedSuffix|])
    else None
  }

  /** `createIframe(videoID)`: the iframe's `src` carries the ID, which can be read back. */
  function CreateIframe(id: string): (f: Iframe)
    ensures EmbedId(f.src) == Some(id)
    ensures f.frameBorder == "0" && f.allow == AllowList && f.allowFullscreen
  {
    EmbedRoundTrip(id);
    Iframe(EmbedSrc(id), "0", AllowList, true)
  }

  /** Stripping the prefix and suffix from an embed URL gives back the ID. */
  lemma EmbedRoundTrip(id: string)
    ensures EmbedId(EmbedSrc(id)) == Some(id)
  {
    var src := EmbedSrc(id);
    assert src[..|EmbedPrefix|] == EmbedPrefix;
    assert src[|src| - |EmbedSuffix|..] == EmbedSuffix;
    assert src[|EmbedPrefix|..|src| - |EmbedSuffix|] == id;
  }

  /** Every URL from which an ID is recovered is the embed URL of that ID. */
  lemma EmbedIdSound(src: string, id: string)
    requires EmbedId(src) == Some(id)
    ensures src == EmbedSrc(id)
  {
    assert src == src[..|EmbedPrefix|] + src[|EmbedPrefix|..|src| - |EmbedSuffix|] + src[|src| - |EmbedSuffix|..];
  }

  /** Distinct IDs give distinct embed URLs. */
  lemma EmbedInjective(a: string, b: string)
    requires EmbedSrc(a) == EmbedSrc(b)
    ensures a == b
  {
    EmbedRoundTrip(a);
    EmbedRoundTrip(b);
  }

  /** The URL for `abc123`. */
  lemma EmbedExample()
    ensures EmbedSrc("abc123")
         == "https://www.youtube-nocookie.com/embed/abc123?autoplay=1&modestbranding=1&rel=0"
  {
  }
}
