# Remove Adblock Thing: player replacer model

This project models the player-replacing core of the "Remove Adblock Thing"
user script (`Youtube-Ad-blocker-Reminder-Remover.user.js`), which runs on
video-site pages. On each 500 ms tick the script does the following:

- It notices client-side navigation.
- It skips short-form pages.
- It removes the native `<video>` element and any stray iframes from the
  `.html5-video-player` containers.
- It works out the video ID from the location.
- It puts one privacy-enhanced embed iframe into the first player container.

Once the player has been replaced, later ticks on the same URL mute and pause
every `<video>` whose `src` includes `www.youtube.com`, and change nothing
else. That covers a video the page puts back, and also a second video that was
there from the start, since only the first video is removed. A video whose
`src` lacks that host is left alone. On an `href` that includes `shorts`,
nothing is muted or paused.

The model has these modules:

- `Strings` (`strings.dfy`): the JavaScript primitives the script relies on.
  `Split` is `String.prototype.split` with a one-character separator, and
  `SplitJoin` proves it undoes `Join`. `IndexOf` finds the first occurrence
  in an array of strings. `Contains` is `String.prototype.includes`.
- `VideoId` (`video_id.dfy`): `getVideoID`. It works on an already-parsed
  location: the decoded query pairs in order and the pathname.
- `Embed` (`embed.dfy`): the iframe that `createIframe` builds. It has the
  embed `src` (prefix, ID, suffix) and the fixed attributes `frameborder`,
  `allow` and `allowfullscreen`. `EmbedId` is the inverse of `EmbedSrc`.
- `Dom` (`page.dfy`): the part of the document the script touches.
  - The `Page` class holds the location, the native videos in document order,
    and the player containers in document order. Each container is seen
    through the iframes it holds.
  - Its methods `ClearAllPlayers`, `RemoveAllDuplicateVideos`,
    `RemoveFirstVideo` and `AppendToFirstPlayer` update it in place. The first
    two are loops that go over the containers or videos one at a time.
- `Replacer` (`replacer.dfy`): the script's own state.
  - The `Watcher` class has the fields `currentUrl` and
    `isVideoPlayerModified`.
  - `Watcher.Tick` is the interval body, and `Watcher.OnMutation` is the
    observer's URL-change reset.
  - `Tick` is proved to match the pure `TickSpec`. The behaviour the script
    promises is then proved about `TickSpec` as lemmas.

Some of the script's behaviour is easy to misread; the model follows the code:

- A tick skips any page whose whole `href` contains `shorts` anywhere, not
  only short-form paths. The check comes before the replaced-state branch, so
  native-video suppression is skipped on such pages too.
- On a URL change the tick clears the player iframes before the `shorts`
  check. So a short-form page is not left completely untouched the first time
  it is seen.
- The native video gets `volume = 0` and is paused and removed. It is not
  muted.
- A replacement also aborts when there is no player container, not only when
  no ID can be extracted.

## Model

| member | source | states |
|---|---|---|
| `Strings.Split` | Youtube-Ad-blocker-Reminder-Remover.user.js:178 | `pathname.split('/')`: at least one segment, no segment holds the separator, and joining the segments with the separator gives back the string (so a leading `/` yields a leading `""`) |
| `Strings.SplitSepFree` | Youtube-Ad-blocker-Reminder-Remover.user.js:178 | a string without the separator splits into itself alone |
| `Strings.SplitCons` | Youtube-Ad-blocker-Reminder-Remover.user.js:178 | splitting `x/t` with separator-free `x` yields `x` followed by the segments of `t` |
| `Strings.SplitJoin` | Youtube-Ad-blocker-Reminder-Remover.user.js:178 | split undoes join for separator-free segments, so a path is read back into exactly the segments it was built from |
| `Strings.IndexOf` | Youtube-Ad-blocker-Reminder-Remover.user.js:179 | `indexOf` returns -1 exactly when the element is absent, and otherwise a position holding it with no earlier occurrence |
| `Strings.IndexOfFirst` | Youtube-Ad-blocker-Reminder-Remover.user.js:179 | an occurrence with none before it is the one `indexOf` reports |
| `Strings.Contains` | Youtube-Ad-blocker-Reminder-Remover.user.js:110 | `includes` holds exactly when the pattern occurs at some position |
| `Strings.MissingCharNotContained` | Youtube-Ad-blocker-Reminder-Remover.user.js:110 | a pattern with a character the string lacks is not included in it |
| `VideoId.Has` | Youtube-Ad-blocker-Reminder-Remover.user.js:175 | `URLSearchParams.has` holds exactly when some query pair has that name |
| `VideoId.GetVideoId` | Youtube-Ad-blocker-Reminder-Remover.user.js:170-186 | `getVideoID`: with `v` the ID is the first `v` value; without `v` a non-empty ID is the segment right after the first `live` segment of the split path, and it never holds a `/`. `VideoIdFromQuery`, `LiveSegmentGivesId`, `NoLiveSegmentGivesEmpty` and `TrailingLiveGivesEmpty` pin down each case |
| `VideoId.Get` | Youtube-Ad-blocker-Reminder-Remover.user.js:175-176 | `URLSearchParams.get` yields nothing exactly when the key is absent, and otherwise the value of the first pair with that key |
| `VideoId.VideoIdFromQuery` | Youtube-Ad-blocker-Reminder-Remover.user.js:175-176 | with a `v` parameter the ID is the first `v` value, whatever the path (even one with a `live` segment) |
| `VideoId.LiveSegmentGivesId` | Youtube-Ad-blocker-Reminder-Remover.user.js:177-182 | without `v`, a path `pre/live/id/post` with no `live` in `pre` gives `id`, the segment after the first `live` |
| `VideoId.NoLiveSegmentGivesEmpty` | Youtube-Ad-blocker-Reminder-Remover.user.js:171-185 | without `v` and without a `live` segment the ID is `""` |
| `VideoId.TrailingLiveGivesEmpty` | Youtube-Ad-blocker-Reminder-Remover.user.js:171-185 | without `v`, when the first `live` segment is the last segment the ID is `""` |
| `VideoId.LivePathExample` | Youtube-Ad-blocker-Reminder-Remover.user.js:178-181 | `/live/abc` with no query gives `abc` |
| `VideoId.WatchQueryExample` | Youtube-Ad-blocker-Reminder-Remover.user.js:175-176 | `?v=abc123` on `/watch` gives `abc123` |
| `Embed.EmbedSrc` | Youtube-Ad-blocker-Reminder-Remover.user.js:151-153 | the embed URL is exactly as long as the prefix, the ID and the suffix together |
| `Embed.EmbedId` | Youtube-Ad-blocker-Reminder-Remover.user.js:151-153 | stripping the fixed prefix and suffix yields a string as long as the URL minus both |
| `Embed.CreateIframe` | Youtube-Ad-blocker-Reminder-Remover.user.js:150-159 | the iframe's `src` gives back the ID, `frameborder` is `0`, `allow` is the fixed feature list and full screen is allowed |
| `Embed.EmbedRoundTrip` | Youtube-Ad-blocker-Reminder-Remover.user.js:151-153 | stripping prefix and suffix from the embed URL of an ID recovers the ID |
| `Embed.EmbedIdSound` | Youtube-Ad-blocker-Reminder-Remover.user.js:151-153 | every URL from which an ID is recovered is the embed URL of that ID |
| `Embed.EmbedInjective` | Youtube-Ad-blocker-Reminder-Remover.user.js:151-153 | two IDs with the same embed URL are equal |
| `Embed.EmbedExample` | Youtube-Ad-blocker-Reminder-Remover.user.js:151-153 | `abc123` maps to `https://www.youtube-nocookie.com/embed/abc123?autoplay=1&modestbranding=1&rel=0` |
| `Dom.WithoutFirst` | Youtube-Ad-blocker-Reminder-Remover.user.js:122-125 | removing the first video leaves the others in order, one fewer, and nothing changes when there is no video |
| `Dom.Cleared` | Youtube-Ad-blocker-Reminder-Remover.user.js:195-198 | every player keeps its place and holds no iframe |
| `Dom.Suppressed` | Youtube-Ad-blocker-Reminder-Remover.user.js:206-209 | a video whose `src` includes `www.youtube.com` ends muted and paused with the same source and volume; any other video is unchanged |
| `Dom.SuppressAll` | Youtube-Ad-blocker-Reminder-Remover.user.js:205-209 | every video, in place and in order, is suppressed as `Suppressed` says |
| `Dom.SuppressAllIdempotent` | Youtube-Ad-blocker-Reminder-Remover.user.js:204-209 | muting and pausing the native-host videos a second time changes nothing |
| `Dom.Page.constructor` | Youtube-Ad-blocker-Reminder-Remover.user.js:122 | a page view holds the given location, videos and player containers |
| `Dom.Page.RemoveFirstVideo` | Youtube-Ad-blocker-Reminder-Remover.user.js:122-125 | the first video, if any, is silenced, paused and detached; the other videos, the players and the location are unchanged |
| `Dom.Page.ClearAllPlayers` | Youtube-Ad-blocker-Reminder-Remover.user.js:188-202 | returns whether a player container exists; every container loses its iframes, and nothing else changes |
| `Dom.Page.RemoveAllDuplicateVideos` | Youtube-Ad-blocker-Reminder-Remover.user.js:204-209 | every video whose source includes `www.youtube.com` becomes muted and paused, other videos are unchanged, and so are players and location |
| `Dom.Page.AppendToFirstPlayer` | Youtube-Ad-blocker-Reminder-Remover.user.js:138-139 | the iframe is appended to the first player container, and nothing else changes |
| `Replacer.Observe` | Youtube-Ad-blocker-Reminder-Remover.user.js:45-51 | the observer remembers the current URL; on a change it clears the replaced flag, otherwise it changes nothing |
| `Replacer.NavigationReset` | Youtube-Ad-blocker-Reminder-Remover.user.js:103-108 | the tick's first step remembers the current `href` and leaves location and videos alone. On a URL change it also clears the flag and empties every player; otherwise it changes nothing |
| `Replacer.ReplacementTick` | Youtube-Ad-blocker-Reminder-Remover.user.js:120-142 | the replacement drops the first video. With no player it changes nothing else. With an empty ID it empties every player and keeps the flag. Otherwise it sets the flag, empties all players but the first, and leaves the first holding exactly the embed iframe for the ID |
| `Replacer.TickSpec` | Youtube-Ad-blocker-Reminder-Remover.user.js:102-143 | after any tick the remembered URL is the current `href`, the location and the number of players are unchanged, and the videos are either untouched, short of their first, or suppressed |
| `Replacer.ShortsTickStopsAfterReset` | Youtube-Ad-blocker-Reminder-Remover.user.js:110-113 | when `href` includes `shorts` the tick does nothing beyond the URL-change step, so videos are unchanged and, without a URL change, nothing changes at all |
| `Replacer.ReplacedTickOnlySuppresses` | Youtube-Ad-blocker-Reminder-Remover.user.js:115-118 | in the replaced state a tick keeps the state and the players, and only mutes and pauses native-host videos, leaving the others as they were |
| `Replacer.ReplacementTickOutcomes` | Youtube-Ad-blocker-Reminder-Remover.user.js:120-142 | a replacement tick drops the first video. With no player it aborts unreplaced. With an empty ID it aborts unreplaced with all players emptied. Otherwise it is replaced, the first player holds exactly the one embed iframe carrying the ID, and all others are empty |
| `Replacer.TickIdempotentWhenReplaced` | Youtube-Ad-blocker-Reminder-Remover.user.js:115-118 | a tick after a replacing tick keeps the state and the players, so no second iframe is ever inserted |
| `Replacer.WatchPageScenario` | Youtube-Ad-blocker-Reminder-Remover.user.js:102-153 | navigating to `watch?v=abc123` with a player ends the tick replaced, with the first player holding exactly the `abc123` embed and the others empty |
| `Replacer.ReinsertedVideoScenario` | Youtube-Ad-blocker-Reminder-Remover.user.js:115-118 | a native-host video put back unmuted and playing after replacement is muted and paused by the next tick |
| `Replacer.ObserverPreemptsTickReset` | Youtube-Ad-blocker-Reminder-Remover.user.js:45-51 | once the observer has seen the new URL, the tick's own URL-change step (and its player clearing) does nothing |
| `Replacer.Watcher.constructor` | Youtube-Ad-blocker-Reminder-Remover.user.js:28-29 | the script starts with the page's URL and the flag clear |
| `Replacer.Watcher.OnMutation` | Youtube-Ad-blocker-Reminder-Remover.user.js:45-51 | the observer callback updates the fields as `Observe` says |
| `Replacer.Watcher.Tick` | Youtube-Ad-blocker-Reminder-Remover.user.js:102-143 | one run of the interval body leaves the fields and the page exactly as `TickSpec` says |

## Left out

- `popupRemover` (lines 66-94) is disabled by configuration (line 19). It is only clicks, style changes and `video.play()` on timers.
- `MutationObserver` registration, `setInterval` scheduling and `reinitialize` are left out. Every `reinitialize` starts another interval, so intervals pile up. This is event-loop timing. The model covers one observer callback and one tick.
- The `volumechange` and `play` listeners attached in `removeAllDuplicateVideos` (lines 210-220) are left out. They are asynchronous callbacks. Only the immediate mute and pause are modelled.
- `checkForUpdate`, `timestampFix` and `removePageAds` are not part of this model: they are called but not defined in the script file. Their calls are treated as no-ops.
- `new URL` and `URLSearchParams` parsing (lines 172-173) is left out. A location is given as its `href`, the decoded query pairs in order, and the pathname. The model does not check that these agree with each other.
- Logging (lines 230-245) and the iframe's inline styles (lines 160-165) are left out.
- `volume` is an integer, not a floating-point number.
- Page elements are values. A player container is seen only through its iframes, and element identity and aliasing between elements are not modelled. So a player's non-iframe children and the iframes the page itself might keep elsewhere are not modelled.
- Dom.Page.AppendToFirstPlayer: requires a player container. The script would throw on `null` here, but it only gets here after `clearAllPlayers` has found a container in the same tick.
