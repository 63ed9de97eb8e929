# Video player session, modelled and verified in Dafny

This project models the core of a small command-line video player: one
playback session over a video catalog. The session keeps:

- a playback cursor, meaning the loaded video (if any) and whether it plays or is paused;
- a table of named playlists, keyed by the lower-cased playlist name;
- the catalog's flags, which mark videos as unavailable and give a reason.

Every command checks its conditions in a fixed order. It then either
refuses without changing anything or makes one change. The one exception
is flagging the loaded video, which also stops it. Where the
program prints a message, the model returns an `Outcome` value naming that
message.

Layout (one module per concern, all files verified together):

- `optional.dfy` — `Optional`: the `Option` type that stands in for Java's null.
- `sequences.dfy` — `Sequences`: the "no duplicates" predicate shared by the
  catalog's listing order and the playlists.
- `text.dfy` — `Text`:
  - lower-casing (`toLowerCase(Locale.ROOT)`);
  - `equalsIgnoreCase`;
  - substring search (`String.contains`);
  - the order of `String.compareTo`, with its laws.
- `video.dfy` — `Videos`: the immutable `Video` record, the tag test that
  ignores case, and `toString` with its tag list.
- `catalog.dfy` — `Catalog`: the video library as an abstract value:
  - the videos by id;
  - their listing order;
  - the flag table from flagged id to reason.
- `playlist.dfy` — `Playlists`: the `VideoPlaylist` class, whose id list
  changes in place, and the "remove first occurrence" function that
  specifies removal.
- `search.dfy` — `Search`:
  - the title and tag queries;
  - the filter the search commands build;
  - the stable sort by title;
  - the rule that turns the answer after a search into a result to play.
- `player.dfy` — `Player`: the `VideoPlayer` class with its session invariant
  `Valid()` and one method or function per command.
- `scenarios.dfy` — `Scenarios`: whole sessions started from a fresh player.
  Each one's postcondition states the outcomes the commands produce.

`VideoPlayer.Valid()` is the session invariant, and every command preserves it:

- nothing loaded means not playing;
- a loaded video is a catalog video and is not flagged;
- no playlist object is filed under two keys;
- each playlist is filed under its own name lower-cased;
- every playlist holds distinct ids of catalog videos.

A consequence: `PlayRandomVideo` can only report "no videos available" when
nothing is loaded. A loaded video is never flagged, so while one is loaded it
is itself playable.

The getters of `Video` (`getTitle`, `getVideoId`, `getTags`,
src/main/java/com/google/Video.java:26-38) are the fields of the `Video`
datatype. Its constructor (lines 9-18) is the datatype constructor. The
fields never change, because a datatype value is immutable.

## Model

| member | source | states |
|---|---|---|
| Text.Lower | src/main/java/com/google/VideoPlayer.java:125 | lower-casing keeps the length and lower-cases each character in place |
| Text.LowerHasNoUpper | src/main/java/com/google/VideoPlayer.java:128 | a lower-cased playlist key contains no upper-case letter |
| Text.LowerIdempotent | src/main/java/com/google/VideoPlayer.java:128 | lower-casing a key again leaves it unchanged, so keys are canonical |
| Text.CharEqualsIgnoreCaseIsLowerEq | src/main/java/com/google/Video.java:44 | the per-character test of `equalsIgnoreCase` holds exactly when both characters lower-case to the same one |
| Text.EqualsIgnoreCaseIffLowerEq | src/main/java/com/google/Video.java:44 | `equalsIgnoreCase` holds exactly when the lower-cased strings are equal |
| Text.CharEqualsIgnoreCase | src/main/java/com/google/Video.java:44 | equal characters match, and an upper-case letter matches its lower-case form |
| Text.EqualsIgnoreCase | src/main/java/com/google/Video.java:44 | strings equal ignoring case have the same length, and equal strings match |
| Text.Contains | src/main/java/com/google/VideoPlayer.java:221 | a prefix of the haystack is contained in it, and a contained needle is no longer than the haystack |
| Text.ContainsIffOccurs | src/main/java/com/google/VideoPlayer.java:221 | `contains` holds exactly when the needle occurs at some offset of the haystack |
| Text.NotContainsWithoutFirstChar | src/main/java/com/google/VideoPlayer.java:221 | a needle whose first character is absent from the haystack is not contained in it |
| Text.LowerWithout | src/main/java/com/google/VideoPlayer.java:221 | lower-casing cannot produce a letter whose lower-case and upper-case forms are both absent |
| Text.ContainsEmpty | src/main/java/com/google/VideoPlayer.java:221 | the empty search term is contained in every title |
| Text.StrLeq | src/main/java/com/google/VideoPlayer.java:26 | the title comparator, also used at line 243: a prefix is at most the longer string, and a non-empty string is at most another only when its first character is at most theirs |
| Text.StrLeqRefl | src/main/java/com/google/VideoPlayer.java:26 | the title order is reflexive |
| Text.StrLeqTotal | src/main/java/com/google/VideoPlayer.java:26 | any two titles are comparable |
| Text.StrLeqTrans | src/main/java/com/google/VideoPlayer.java:26 | the title order is transitive |
| Text.StrLeqAntisym | src/main/java/com/google/VideoPlayer.java:26 | two titles each at most the other are equal |
| Videos.TagsContain | src/main/java/com/google/Video.java:40-46 | true exactly when some tag equals the argument ignoring case; false for no tags |
| Videos.TagsContainCaseVariant | src/main/java/com/google/Video.java:44 | every case variant of a tag is found |
| Videos.JoinTags | src/main/java/com/google/Video.java:22 | no tags join to the empty string |
| Videos.ToString | src/main/java/com/google/Video.java:21-23 | the string is title, " (", id, ") [", the joined tags and "]" in that order; with no tags it ends in "[]" |
| Videos.SplitSpaces | src/main/java/com/google/Video.java:22 | splitting at spaces gives at least one piece |
| Videos.SplitWord | src/main/java/com/google/Video.java:22 | a tag without spaces splits to itself |
| Videos.SplitWordThenSpace | src/main/java/com/google/Video.java:22 | a tag without spaces, a space and the rest split into that tag followed by the pieces of the rest |
| Videos.JoinTagsRoundTrip | src/main/java/com/google/Video.java:22 | the joined tag list splits back to the tags when no tag has a space |
| Catalog.Library.GetVideo | src/main/java/com/google/VideoPlayer.java:40 | a video is returned exactly for a known id, and it is the one filed under it |
| Catalog.Library.IsFlagged | src/main/java/com/google/VideoPlayer.java:29 | in a valid catalog only known videos are flagged |
| Catalog.Library.FlaggedReason | src/main/java/com/google/VideoPlayer.java:30 | the reason returned is the one the flag table records for the id |
| Catalog.Library.GetVideos | src/main/java/com/google/VideoPlayer.java:20 | the listing has one entry per listed id, and holds exactly the catalog's videos |
| Catalog.Library.PlayableAmong | src/main/java/com/google/VideoPlayer.java:220 | the unflagged catalog videos among the given ids |
| Catalog.Library.Playable | src/main/java/com/google/VideoPlayer.java:220 | exactly the catalog's unflagged videos |
| Catalog.Library.PlayableAmongAllFlagged | src/main/java/com/google/VideoPlayer.java:71-72 | nothing is playable among ids that are all flagged |
| Catalog.Library.PlayableEmptyIffAllFlagged | src/main/java/com/google/VideoPlayer.java:71-72 | nothing is playable exactly when every video is flagged |
| Catalog.Library.Flag | src/main/java/com/google/VideoPlayer.java:277 | the video becomes flagged with that reason; videos, order and every other flag with its reason stay |
| Catalog.Library.Allow | src/main/java/com/google/VideoPlayer.java:288 | the video is no longer flagged; videos, order and every other flag with its reason stay |
| Playlists.IndexOf | src/main/java/com/google/VideoPlaylist.java:21 | the position of the first occurrence of an id |
| Playlists.RemoveFirst | src/main/java/com/google/VideoPlaylist.java:21 | the list shrinks by one exactly when the id was present, and nothing new appears |
| Playlists.RemoveFirstAbsent | src/main/java/com/google/VideoPlaylist.java:20-22 | removing an absent id leaves the list unchanged |
| Playlists.RemoveFirstCutsFirstOccurrence | src/main/java/com/google/VideoPlaylist.java:20-22 | removing a present id cuts out its first occurrence and keeps the rest in order |
| Playlists.RemoveFirstNoDuplicates | src/main/java/com/google/VideoPlaylist.java:20-22 | on a list without duplicates, removal keeps it duplicate-free and the id is gone |
| Playlists.VideoPlaylist.constructor | src/main/java/com/google/VideoPlaylist.java:11-14 | a new playlist has the given name and no videos |
| Playlists.VideoPlaylist.AddVideo | src/main/java/com/google/VideoPlaylist.java:16-18 | the id is appended at the end; the name stays |
| Playlists.VideoPlaylist.RemoveVideo | src/main/java/com/google/VideoPlaylist.java:20-22 | the list becomes the old list with the first occurrence removed; the name stays |
| Playlists.VideoPlaylist.ContainsVideo | src/main/java/com/google/VideoPlaylist.java:24-26 | true exactly when some entry equals the id, comparing case exactly |
| Playlists.VideoPlaylist.ClearVideoList | src/main/java/com/google/VideoPlaylist.java:28-30 | the list is empty; the name stays |
| Playlists.VideoPlaylist.GetName | src/main/java/com/google/VideoPlaylist.java:32-34 | the name given at construction |
| Playlists.VideoPlaylist.GetVideoList | src/main/java/com/google/VideoPlaylist.java:36-38 | a copy equal to the current list, changing nothing |
| Search.Filter | src/main/java/com/google/VideoPlayer.java:218-236 | the kept videos are exactly the matching ones, and there are no more of them than the input |
| Search.Matches | src/main/java/com/google/VideoPlayer.java:221-231 | the empty title term matches every video, a matching title term is no longer than the title, and a video without tags matches no tag |
| Search.FilterPrefix | src/main/java/com/google/VideoPlayer.java:220-224 | visiting one more video keeps it at the end exactly when it matches |
| Search.FilterNoneMatch | src/main/java/com/google/VideoPlayer.java:239-240 | nothing is kept when no video matches |
| Search.SortedByTitleAll | src/main/java/com/google/VideoPlayer.java:243 | adjacent title order gives order between any two positions |
| Search.Insert | src/main/java/com/google/VideoPlayer.java:243 | insertion adds exactly the one video |
| Search.InsertSorted | src/main/java/com/google/VideoPlayer.java:243 | inserting into a sorted list keeps it sorted |
| Search.SortByTitle | src/main/java/com/google/VideoPlayer.java:243 | the sort is a permutation of its input |
| Search.SortByTitleSorted | src/main/java/com/google/VideoPlayer.java:243 | the sorted list is in title order |
| Search.SortByTitleSameMembers | src/main/java/com/google/VideoPlayer.java:243 | sorting keeps exactly the same videos |
| Search.Selection | src/main/java/com/google/VideoPlayer.java:250-256 | an answer k selects index k - 1 exactly when 1 <= k <= count; any other answer, or no number, selects nothing |
| Player.TitleOf | src/main/java/com/google/VideoPlayer.java:44-47 | the loaded video's title exactly when one is loaded |
| Player.EntryFor | src/main/java/com/google/VideoPlayer.java:28-31 | a listing line: the video filed under the id, with its reason exactly when it is flagged |
| Player.Entries | src/main/java/com/google/VideoPlayer.java:173-179 | one listing line per id, in order |
| Player.Listing | src/main/java/com/google/VideoPlayer.java:27-33 | one listing line per catalog video, in order, holding that video and its flag reason if flagged |
| Player.VideoPlayer.Valid | src/main/java/com/google/VideoPlayer.java:8-16 | the session invariant over the cursor, the catalog and the playlist table; under it a playing video is loaded and not flagged |
| Player.VideoPlayer.KeysCanonical | src/main/java/com/google/VideoPlayer.java:125-128 | every playlist key is already lower-case, so lower-casing a key finds the same playlist |
| Player.VideoPlayer.LoadedIsPlayable | src/main/java/com/google/VideoPlayer.java:66-81 | a loaded video is always among the playable videos |
| Player.VideoPlayer.constructor | src/main/java/com/google/VideoPlayer.java:12-17 | the session starts valid, with nothing loaded, not playing and no playlists |
| Player.VideoPlayer.PlayVideo | src/main/java/com/google/VideoPlayer.java:36-53 | a flagged id is refused with its reason and then an unknown id is refused, neither changing the cursor; otherwise the video plays and the previous one is reported stopped |
| Player.VideoPlayer.StopVideo | src/main/java/com/google/VideoPlayer.java:55-64 | refused with nothing loaded; otherwise the cursor is cleared and the stopped title reported |
| Player.VideoPlayer.PlayRandomVideo | src/main/java/com/google/VideoPlayer.java:66-81 | with nothing playable the cursor stays exactly as it was; otherwise the loaded video is a playable one and plays |
| Player.VideoPlayer.PauseVideo | src/main/java/com/google/VideoPlayer.java:83-95 | refused with nothing loaded; otherwise paused afterwards, reporting "already paused" when it was |
| Player.VideoPlayer.ContinueVideo | src/main/java/com/google/VideoPlayer.java:97-109 | refused with nothing loaded; refused as not paused when playing; playing afterwards either way |
| Player.VideoPlayer.ShowPlaying | src/main/java/com/google/VideoPlayer.java:111-122 | the loaded video and whether it is paused; a shown video is a catalog video that is not flagged |
| Player.VideoPlayer.NumberOfVideos | src/main/java/com/google/VideoPlayer.java:19-21 | the number of videos the library lists |
| Player.VideoPlayer.ShowAllVideos | src/main/java/com/google/VideoPlayer.java:23-34 | one line per listed video, in title order; each line is a catalog video with its flag reason, and every catalog video appears |
| Player.VideoPlayer.CreatePlaylist | src/main/java/com/google/VideoPlayer.java:124-131 | a name equal to an existing one ignoring case is refused with no change; otherwise a new empty playlist keeping the given casing is filed under the lower-cased name and the others stay |
| Player.VideoPlayer.AddVideoToPlaylist | src/main/java/com/google/VideoPlayer.java:133-151 | the checks run in order (flagged, no playlist, unknown video, already added); only when all pass is the id appended; no other playlist changes |
| Player.VideoPlayer.RemoveFromPlaylist | src/main/java/com/google/VideoPlayer.java:184-198 | the checks run in order (no playlist, unknown video, not in playlist) with flags not consulted; on success the first occurrence is cut out and the id is gone |
| Player.VideoPlayer.ClearPlaylist | src/main/java/com/google/VideoPlayer.java:200-207 | refused for a missing playlist; otherwise that playlist is empty and kept, and the others stay |
| Player.VideoPlayer.DeletePlaylist | src/main/java/com/google/VideoPlayer.java:209-216 | refused for a missing playlist; otherwise exactly that key is removed |
| Player.VideoPlayer.AllPlaylistNames | src/main/java/com/google/VideoPlayer.java:153-162 | exactly the display names of the playlists; empty exactly when there are none |
| Player.VideoPlayer.ShowPlaylist | src/main/java/com/google/VideoPlayer.java:164-182 | none for a missing playlist; otherwise one line per id in order with its flag reason, and an empty playlist is shown as empty |
| Player.SelectMatching | src/main/java/com/google/VideoPlayer.java:219-224 | the loop keeps exactly the visited videos that match, in the order visited |
| Player.SearchFindsPlayableMatches | src/main/java/com/google/VideoPlayer.java:220-224 | a search over the playable videos finds exactly the catalog's unflagged videos that match |
| Player.VideoPlayer.CollectMatches | src/main/java/com/google/VideoPlayer.java:219-224 | the search keeps exactly the playable videos that match, in catalog order |
| Player.VideoPlayer.DisplaySearchResult | src/main/java/com/google/VideoPlayer.java:238-260 | the results are the matches sorted by title; an answer k plays result k - 1 exactly when 1 <= k <= count, and anything else changes nothing |
| Player.VideoPlayer.SearchVideos | src/main/java/com/google/VideoPlayer.java:218-226 | the results are exactly the playable videos whose lower-cased title contains the lower-cased term, sorted by title, followed by the answer rule |
| Player.VideoPlayer.SearchVideosWithTag | src/main/java/com/google/VideoPlayer.java:228-236 | the results are exactly the playable videos with a tag equal to the given one ignoring case, sorted by title, followed by the answer rule |
| Player.VideoPlayer.FlagVideo | src/main/java/com/google/VideoPlayer.java:266-279 | an unknown id and then an already flagged id are refused with no change; otherwise the loaded video is stopped if it is this one, and the video is flagged with the reason |
| Player.VideoPlayer.FlagVideoWithoutReason | src/main/java/com/google/VideoPlayer.java:262-264 | the same command with the reason "Not supplied" |
| Player.VideoPlayer.AllowVideo | src/main/java/com/google/VideoPlayer.java:281-291 | an unknown id and then an unflagged id are refused; otherwise the flag is cleared; playback is never touched |
| Scenarios.StopOnFreshSession | src/main/java/com/google/VideoPlayer.java:55-58 | stopping in a fresh session is refused and nothing is playing |
| Scenarios.PlayAfterFlag | src/main/java/com/google/VideoPlayer.java:37-38 | playing a video after flagging it is refused with the recorded reason, and nothing is loaded |
| Scenarios.PauseThenContinueTwice | src/main/java/com/google/VideoPlayer.java:97-109 | play, pause and continue resume the video; a second continue is refused and the video keeps playing |
| Scenarios.PauseTwice | src/main/java/com/google/VideoPlayer.java:83-95 | a second pause only reports "already paused", and the video stays paused |
| Scenarios.FlagWhilePlaying | src/main/java/com/google/VideoPlayer.java:272-274 | flagging the playing video with no reason stops it, and nothing is shown as playing |
| Scenarios.CreateTwiceIgnoringCase | src/main/java/com/google/VideoPlayer.java:124-131 | "My List" then "MY LIST" is refused the second time, and "my list" shows as an empty playlist |
| Scenarios.AddTwice | src/main/java/com/google/VideoPlayer.java:143-147 | adding the same video twice is accepted the first time and refused the second time |
| Scenarios.AddTwiceHoldsOnce | src/main/java/com/google/VideoPlayer.java:143-147 | after adding the same video twice, the playlist shows it once |
| Scenarios.RemoveNeverAdded | src/main/java/com/google/VideoPlayer.java:191-196 | removing a catalog video that was never added is refused |
| Scenarios.RandomWithNothingPlayable | src/main/java/com/google/VideoPlayer.java:71-72 | with every video flagged there is nothing to play at random, and nothing is loaded |
| Scenarios.CatAndDog | src/main/java/com/google/VideoPlayer.java:218-226 | a valid two-video catalog where "Cat Video" is flagged and "Dog Video" is not |
| Scenarios.OnlyDogPlayable | src/main/java/com/google/VideoPlayer.java:220 | in that catalog only "Dog Video" is playable |
| Scenarios.DogIsNoCat | src/main/java/com/google/VideoPlayer.java:221 | "Dog Video" does not match a title search for "cat" |
| Scenarios.NoPlayableCat | src/main/java/com/google/VideoPlayer.java:219-224 | in that catalog no playable video matches "cat" |
| Scenarios.SearchSkipsFlagged | src/main/java/com/google/VideoPlayer.java:218-226 | the catalog's "Cat Video" matches "cat", yet searching "cat" finds nothing because it is flagged; so no answer plays anything |

## Left out

- Console output: every message the program prints is an `Outcome` value (or a query's result). The message text and its formatting are not modelled.
- The interactive answer after a search (a `Scanner` read from standard input) is a parameter `answer: Option<int>`. `None` stands for input that is not a number (`InputMismatchException`).
- Random choice: `java.util.Random` in `playRandomVideo` is a nondeterministic choice of an index into the playable videos. The model proves only that the chosen video is playable, not that the choice is uniform.
- `VideoLibrary` and its data-file loading are not part of this model. The catalog is an abstract value with these assumptions:
  - each video is filed under its own id;
  - the listing order names each video once;
  - only known videos are flagged;
  - `getVideo` and `getPlayableVideos` return the single object the library holds for each id;
  - `getPlayableVideos` lists the unflagged videos in the order `getVideos` lists them. With the stable sort by title, this order decides the order of videos with equal titles in search results, and so which video an answer plays.
- The catalog is a constructor argument of the session rather than something the constructor loads.
- `showAllPlaylists` iterates a hash map, so its order is unspecified. `Player.VideoPlayer.AllPlaylistNames` returns a set of names.
- Case handling is restricted to ASCII letters. `toLowerCase(Locale.ROOT)` and `equalsIgnoreCase` apply full Unicode case mapping, which is not modelled.
- `String.compareTo` compares UTF-16 code units. The model compares characters.
- `flagVideo` (src/main/java/com/google/VideoPlayer.java:267, 273) compares the loaded video with the flagged one by reference. The model compares ids. Both tests agree because `getVideo` and `getPlayableVideos` return the single object the library holds for each id (the last catalog assumption above), and each video is filed under its own id.
- The in-place sort of the library's own list in `showAllVideos` is not modelled. The model sorts a copy, and the effect on the library's list is not modelled.
- Search.SortByTitle: its contract states that the sort is a permutation and (by `Search.SortByTitleSorted`) that it is in title order. It does not state stability, the order among equal titles that the insertion keeps.
- Player.VideoPlayer.ShowAllVideos: its contract does not state that each video appears exactly once, only that every video appears and that there are as many lines as listed videos.
- `playRandomVideo` (src/main/java/com/google/VideoPlayer.java:67-73) announces "Stopping video" but leaves the cursor as it was when nothing is playable. The model does the same. The session invariant shows this case cannot arise while a video is loaded (`Player.VideoPlayer.LoadedIsPlayable`).
