/**
 * The player session: one playback cursor, a table of playlists keyed by the
 * lower-cased playlist name, and the video library whose flags it consults.
 * Every command checks its conditions in a fixed order and then either
 * changes nothing or makes one change; instead of printing, it returns an
 * `Outcome` naming the message it would print.
 */
module Player {
  import opened Optional
  import opened Text
  import opened Videos
  import opened Catalog
  import opened Playlists
  import opened Sequences
  import opened Search

  /** The reason recorded when `flagVideo` is called without one. */
  const NotSupplied := "Not supplied"

  datatype Outcome =
    | Playing(stopped: Option<string>, title: string)      // optional "Stopping video", then "Playing video"
    | Stopped(title: string)
    | NoVideoPlaying                                       // "No video is currently playing"
    | VideoFlagged(reason: string)                         // "Video is currently flagged (reason: ...)"
    | VideoNotFound                                        // "Video does not exist"
    | NoVideosAvailable(stopped: Option<string>)           // optional "Stopping video", then "No videos available"
    | Paused(title: string)
    | AlreadyPaused(title: string)
    | Continued(title: string)
    | NotPaused                                            // "Video is not paused"
    | PlaylistCreated(name: string)
    | PlaylistExists                                       // "A playlist with the same name already exists"
    | PlaylistNotFound                                     // "Playlist does not exist"
    | AddedToPlaylist(title: string)
    | AlreadyInPlaylist                                    // "Video already added"
    | RemovedFromPlaylist(title: string)
    | NotInPlaylist                                        // "Video is not in playlist"
    | PlaylistCleared
    | PlaylistDeleted
    | FlaggedVideo(stopped: Option<string>, title: string, reason: string)
    | AlreadyFlagged                                       // "Video is already flagged"
    | AllowedVideo(title: string)
    | NotFlagged                                           // "Video is not flagged"

  /** One line of a listing: a video and, when it is flagged, the reason. */
  datatype Entry = Entry(video: Video, flagReason: Option<string>)

  /** The title of the loaded video, if any: what a "Stopping video" notice names. */
  function TitleOf(loaded: Option<Video>): (r: Option<string>)
    ensures r.Some? <==> loaded.Some?
    ensures r.Some? ==> r.value == loaded.value.title
  {
    if loaded.Some? then Some(loaded.value.title) else None
  }

  /** The listing line for a catalog id: the video and its flag reason, if flagged. */
  function EntryFor(lib: Library, id: string): (e: Entry)
    requires id in lib.videos
    ensures e.video == lib.videos[id]
    ensures e.flagReason.Some? <==> lib.IsFlagged(id)
    ensures e.flagReason.Some? ==> e.flagReason.value == lib.FlaggedReason(id)
  {
    Entry(lib.videos[id], if lib.IsFlagged(id) then Some(lib.FlaggedReason(id)) else None)
  }

  /** The listing lines for a sequence of catalog ids, in that order. */
  function Entries(lib: Library, ids: seq<string>): (r: seq<Entry>)
    requires forall i :: 0 <= i < |ids| ==> ids[i] in lib.videos
    ensures |r| == |ids|
    ensures forall i :: 0 <= i < |ids| ==> r[i] == EntryFor(lib, ids[i])
  {
    seq(|ids|, i requires 0 <= i < |ids| => EntryFor(lib, ids[i]))
  }

  /**
   * The listing lines for a sequence of catalog videos, in that order. The
   * ensures repeats the requires `lib.Holds(vs[i])` only so that the verifier
   * instantiates it at each position; it says nothing new about the result.
   */
  function Listing(lib: Library, vs: seq<Video>): (r: seq<Entry>)
    requires forall i :: 0 <= i < |vs| ==> lib.Holds(vs[i])
    ensures |r| == |vs|
    ensures forall i :: 0 <= i < |vs| ==> lib.Holds(vs[i]) && r[i].video == vs[i] && r[i] == EntryFor(lib, vs[i].videoId)
  {
    seq(|vs|, i requires 0 <= i < |vs| => assert lib.Holds(vs[i]); EntryFor(lib, vs[i].videoId))
  }

  /** The loop of the search commands: visit the videos in order and keep those that match. */
  method SelectMatching(vs: seq<Video>, q: Query) returns (found: seq<Video>)
    ensures found == Filter(vs, q)
  {
    found := [];
    var i := 0;
    while i < |vs|
      invariant 0 <= i <= |vs|
      invariant found == Filter(vs[..i], q)
    {
      FilterPrefix(vs, i, q);
      if Matches(vs[i], q) {
        found := found + [vs[i]];
      }
      i := i + 1;
    }
    assert vs[..|vs|] == vs;
  }

  /** A search finds exactly the catalog's unflagged videos that match. */
  lemma SearchFindsPlayableMatches(lib: Library, q: Query)
    requires lib.Valid()
    ensures forall v :: v in Filter(lib.Playable(), q) <==> lib.Holds(v) && !lib.IsFlagged(v.videoId) && Matches(v, q)
  {
  }

  /** No playlist object is filed under two keys. */
  ghost predicate Injective(playlists: map<string, VideoPlaylist>)
  {
    forall k1, k2 :: k1 in playlists && k2 in playlists && k1 != k2 ==> playlists[k1] != playlists[k2]
  }

  class VideoPlayer {
    var library: Library
    var current: Option<Video>          // `currentPlayingVid`; None stands for null
    var isPlaying: bool
    var playlists: map<string, VideoPlaylist>

    /**
     * The session invariant: no loaded video means not playing; a loaded
     * video is a catalog video that is not flagged; each playlist object
     * sits under one key only, that key is its lower-cased name, and its
     * ids are distinct catalog ids.
     */
    ghost predicate Valid()
      reads this, playlists.Values
      ensures Valid() && isPlaying ==> current.Some? && !library.IsFlagged(current.value.videoId)
    {
      && library.Valid()
      && (current.None? ==> !isPlaying)
      && (current.Some? ==> library.Holds(current.value) && !library.IsFlagged(current.value.videoId))
      && Injective(playlists)
      && (forall k :: k in playlists ==> k == Lower(playlists[k].name))
      && (forall k :: k in playlists ==> NoDuplicates(playlists[k].videos))
      && (forall k, id :: k in playlists && id in playlists[k].videos ==> id in library.videos)
    }

    /** Every playlist key is already lower-case, so looking it up again finds the same playlist. */
    lemma KeysCanonical()
      requires Valid()
      ensures forall k :: k in playlists ==> Lower(k) == k
    {
      forall k | k in playlists
        ensures Lower(k) == k
      {
        LowerIdempotent(playlists[k].name);
      }
    }

    /** A loaded video is always one of the playable videos, so it can be found by a search. */
    lemma LoadedIsPlayable()
      requires Valid() && current.Some?
      ensures current.value in library.Playable()
    {
    }

    /** A fresh session over a loaded library: nothing loaded, no playlists. */
    constructor (library: Library)
      requires library.Valid()
      ensures Valid()
      ensures this.library == library
      ensures current == None && !isPlaying && playlists == map[]
    {
      this.library := library;
      current := None;
      isPlaying := false;
      playlists := map[];
    }

    // ----- Playback -----

    /**
     * `playVideo`: a flagged id is refused first, then an unknown id;
     * otherwise the video becomes the loaded one and plays, and the
     * previously loaded one (if any) is reported as stopped.
     */
    method PlayVideo(id: string) returns (outcome: Outcome)
      requires Valid()
      modifies this
      ensures Valid()
      ensures library == old(library) && playlists == old(playlists)
      ensures library.IsFlagged(id) ==>
        outcome == VideoFlagged(library.FlaggedReason(id)) && current == old(current) && isPlaying == old(isPlaying)
      ensures !library.IsFlagged(id) && id !in library.videos ==>
        outcome == VideoNotFound && current == old(current) && isPlaying == old(isPlaying)
      ensures !library.IsFlagged(id) && id in library.videos ==>
        && outcome == Playing(TitleOf(old(current)), library.videos[id].title)
        && current == Some(library.videos[id]) && isPlaying
    {
      if library.IsFlagged(id) {
        outcome := VideoFlagged(library.FlaggedReason(id));
      } else {
        var vid := library.GetVideo(id);
        if vid.None? {
          outcome := VideoNotFound;
        } else {
          var stopped := TitleOf(current);
          current := vid;
          isPlaying := true;
          outcome := Playing(stopped, vid.value.title);
        }
      }
    }

    /** `stopVideo`: refused when nothing is loaded; otherwise unloads. */
    method StopVideo() returns (outcome: Outcome)
      requires Valid()
      modifies this
      ensures Valid()
      ensures library == old(library) && playlists == old(playlists)
      ensures old(current).None? ==> outcome == NoVideoPlaying && current == None && isPlaying == old(isPlaying)
      ensures old(current).Some? ==> outcome == Stopped(old(current).value.title) && current == None && !isPlaying
    {
      if current.None? {
        outcome := NoVideoPlaying;
      } else {
        var vid := current.value;
        current := None;
        isPlaying := false;
        outcome := Stopped(vid.title);
      }
    }

    /**
     * `playRandomVideo`: the loaded video is announced as stopping, but it
     * stays loaded if there is no playable video; otherwise some playable
     * video (the random choice) is loaded and plays.
     */
    method PlayRandomVideo() returns (outcome: Outcome)
      requires Valid()
      modifies this
      ensures Valid()
      ensures library == old(library) && playlists == old(playlists)
      ensures |library.Playable()| == 0 ==>
        outcome == NoVideosAvailable(TitleOf(old(current))) && current == old(current) && isPlaying == old(isPlaying)
      ensures outcome.NoVideosAvailable? ==> outcome.stopped == None
      ensures |library.Playable()| > 0 ==>
        && current.Some? && current.value in library.Playable() && isPlaying
        && outcome == Playing(TitleOf(old(current)), current.value.title)
    {
      var stopped := TitleOf(current);
      var vids := library.Playable();
      if |vids| < 1 {
        outcome := NoVideosAvailable(stopped);
      } else {
        var pick :| 0 <= pick < |vids|;
        current := Some(vids[pick]);
        isPlaying := true;
        outcome := Playing(stopped, vids[pick].title);
      }
    }

    /** `pauseVideo`: refused when nothing is loaded; otherwise the video is paused afterwards. */
    method PauseVideo() returns (outcome: Outcome)
      requires Valid()
      modifies this
      ensures Valid()
      ensures library == old(library) && playlists == old(playlists) && current == old(current)
      ensures old(current).None? ==> outcome == NoVideoPlaying && isPlaying == old(isPlaying)
      ensures old(current).Some? ==> !isPlaying
      ensures old(current).Some? && old(isPlaying) ==> outcome == Paused(current.value.title)
      ensures old(current).Some? && !old(isPlaying) ==> outcome == AlreadyPaused(current.value.title)
    {
      if current.None? {
        outcome := NoVideoPlaying;
      } else {
        if isPlaying {
          outcome := Paused(current.value.title);
        } else {
          outcome := AlreadyPaused(current.value.title);
        }
        isPlaying := false;
      }
    }

    /**
     * `continueVideo`: refused when nothing is loaded; a playing video is
     * refused as not paused; either way the loaded video plays afterwards.
     */
    method ContinueVideo() returns (outcome: Outcome)
      requires Valid()
      modifies this
      ensures Valid()
      ensures library == old(library) && playlists == old(playlists) && current == old(current)
      ensures old(current).None? ==> outcome == NoVideoPlaying && isPlaying == old(isPlaying)
      ensures old(current).Some? ==> isPlaying
      ensures old(current).Some? && old(isPlaying) ==> outcome == NotPaused
      ensures old(current).Some? && !old(isPlaying) ==> outcome == Continued(current.value.title)
    {
      if current.None? {
        outcome := NoVideoPlaying;
      } else {
        if isPlaying {
          outcome := NotPaused;
        } else {
          outcome := Continued(current.value.title);
        }
        isPlaying := true;
      }
    }

    /** `showPlaying`: the loaded video and whether it is paused; a shown video is never flagged. */
    function ShowPlaying(): (r: Option<(Video, bool)>)
      reads this, playlists.Values
      requires Valid()
      ensures r.Some? <==> current.Some?
      ensures r.Some? ==> r.value.0 == current.value && (r.value.1 <==> !isPlaying)
      ensures r.Some? ==> library.Holds(r.value.0) && !library.IsFlagged(r.value.0.videoId)
    {
      if current.None? then None else Some((current.value, !isPlaying))
    }

    // ----- Listing -----

    /** `numberOfVideos`: the size of the library's listing. */
    function NumberOfVideos(): (n: nat)
      reads this
      requires library.Valid()
      ensures n == |library.order|
    {
      |library.GetVideos()|
    }

    /** `showAllVideos`: every video once, in title order, each with its flag reason. */
    function ShowAllVideos(): (r: seq<Entry>)
      reads this
      requires library.Valid()
      ensures |r| == |library.order|
      ensures forall i :: 0 < i < |r| ==> StrLeq(r[i - 1].video.title, r[i].video.title)
      ensures forall i :: 0 <= i < |r| ==> library.Holds(r[i].video) && r[i] == EntryFor(library, r[i].video.videoId)
      ensures forall v :: library.Holds(v) ==> exists i :: 0 <= i < |r| && r[i].video == v
    {
      var all := library.GetVideos();
      var sorted := SortByTitle(all);
      SortByTitleSorted(all);
      SortByTitleSameMembers(all);
      assert forall i :: 0 <= i < |sorted| ==> sorted[i] in all && library.Holds(sorted[i]);
      Listing(library, sorted)
    }

    // ----- Playlists -----

    /**
     * `createPlaylist`: refused when a playlist exists under the same name
     * ignoring case; otherwise a new empty playlist keeping the given casing
     * is filed under the lower-cased name, and the other playlists stay.
     */
    method CreatePlaylist(name: string) returns (outcome: Outcome)
      requires Valid()
      modifies this
      ensures Valid()
      ensures library == old(library) && current == old(current) && isPlaying == old(isPlaying)
      ensures Lower(name) in old(playlists) ==> outcome == PlaylistExists && playlists == old(playlists)
      ensures Lower(name) !in old(playlists) ==>
        && outcome == PlaylistCreated(name)
        && playlists.Keys == old(playlists).Keys + {Lower(name)}
        && (forall k :: k in old(playlists) ==> playlists[k] == old(playlists)[k])
        && fresh(playlists[Lower(name)])
        && playlists[Lower(name)].name == name && playlists[Lower(name)].videos == []
    {
      var key := Lower(name);
      if key in playlists {
        outcome := PlaylistExists;
      } else {
        var p := new VideoPlaylist(name);
        playlists := playlists[key := p];
        outcome := PlaylistCreated(name);
      }
    }

    /**
     * `addVideoToPlaylist`: checks a flagged video, then a missing playlist,
     * then an unknown video, then a video already in the playlist; only when
     * all pass is the id appended, and no other playlist changes.
     */
    method AddVideoToPlaylist(name: string, id: string) returns (outcome: Outcome)
      requires Valid()
      modifies playlists.Values
      ensures Valid()
      ensures forall k :: k in playlists ==> playlists[k].name == old(playlists[k].name)
      ensures forall k :: k in playlists && k != Lower(name) ==> playlists[k].videos == old(playlists[k].videos)
      ensures !outcome.AddedToPlaylist? ==> forall k :: k in playlists ==> playlists[k].videos == old(playlists[k].videos)
      ensures library.IsFlagged(id) ==> outcome == VideoFlagged(library.FlaggedReason(id))
      ensures !library.IsFlagged(id) && Lower(name) !in playlists ==> outcome == PlaylistNotFound
      ensures !library.IsFlagged(id) && Lower(name) in playlists && id !in library.videos ==> outcome == VideoNotFound
      ensures !library.IsFlagged(id) && Lower(name) in playlists && id in library.videos ==>
        if id in old(playlists[Lower(name)].videos) then outcome == AlreadyInPlaylist
        else
          && outcome == AddedToPlaylist(library.videos[id].title)
          && playlists[Lower(name)].videos == old(playlists[Lower(name)].videos) + [id]
    {
      var key := Lower(name);
      if library.IsFlagged(id) {
        outcome := VideoFlagged(library.FlaggedReason(id));
      } else if key !in playlists {
        outcome := PlaylistNotFound;
      } else if library.GetVideo(id).None? {
        outcome := VideoNotFound;
      } else {
        var playlist := playlists[key];
        if playlist.ContainsVideo(id) {
          outcome := AlreadyInPlaylist;
        } else {
          playlist.AddVideo(id);
          outcome := AddedToPlaylist(library.videos[id].title);
        }
      }
    }

    /**
     * `removeFromPlaylist`: checks a missing playlist, then an unknown video
     * (flags are not consulted), then a video not in the playlist; on success
     * the id is gone and the others keep their order.
     */
    method RemoveFromPlaylist(name: string, id: string) returns (outcome: Outcome)
      requires Valid()
      modifies playlists.Values
      ensures Valid()
      ensures forall k :: k in playlists ==> playlists[k].name == old(playlists[k].name)
      ensures forall k :: k in playlists && k != Lower(name) ==> playlists[k].videos == old(playlists[k].videos)
      ensures !outcome.RemovedFromPlaylist? ==> forall k :: k in playlists ==> playlists[k].videos == old(playlists[k].videos)
      ensures Lower(name) !in playlists ==> outcome == PlaylistNotFound
      ensures Lower(name) in playlists && id !in library.videos ==> outcome == VideoNotFound
      ensures Lower(name) in playlists && id in library.videos ==>
        if id !in old(playlists[Lower(name)].videos) then outcome == NotInPlaylist
        else
          && outcome == RemovedFromPlaylist(library.videos[id].title)
          && playlists[Lower(name)].videos == RemoveFirst(old(playlists[Lower(name)].videos), id)
          && id !in playlists[Lower(name)].videos
    {
      var key := Lower(name);
      if key !in playlists {
        outcome := PlaylistNotFound;
      } else if library.GetVideo(id).None? {
        outcome := VideoNotFound;
      } else {
        var playlist := playlists[key];
        if playlist.ContainsVideo(id) {
          RemoveFirstNoDuplicates(playlist.videos, id);
          playlist.RemoveVideo(id);
          outcome := RemovedFromPlaylist(library.videos[id].title);
        } else {
          outcome := NotInPlaylist;
        }
      }
    }

    /** `clearPlaylist`: refused for a missing playlist; otherwise empties it and keeps it. */
    method ClearPlaylist(name: string) returns (outcome: Outcome)
      requires Valid()
      modifies playlists.Values
      ensures Valid()
      ensures forall k :: k in playlists ==> playlists[k].name == old(playlists[k].name)
      ensures forall k :: k in playlists && k != Lower(name) ==> playlists[k].videos == old(playlists[k].videos)
      ensures Lower(name) !in playlists ==> outcome == PlaylistNotFound
      ensures Lower(name) in playlists ==> outcome == PlaylistCleared && playlists[Lower(name)].videos == []
    {
      var key := Lower(name);
      if key !in playlists {
        outcome := PlaylistNotFound;
      } else {
        playlists[key].ClearVideoList();
        outcome := PlaylistCleared;
      }
    }

    /** `deletePlaylist`: refused for a missing playlist; otherwise removes that key only. */
    method DeletePlaylist(name: string) returns (outcome: Outcome)
      requires Valid()
      modifies this
      ensures Valid()
      ensures library == old(library) && current == old(current) && isPlaying == old(isPlaying)
      ensures Lower(name) !in old(playlists) ==> outcome == PlaylistNotFound && playlists == old(playlists)
      ensures Lower(name) in old(playlists) ==> outcome == PlaylistDeleted && playlists == old(playlists) - {Lower(name)}
    {
      var key := Lower(name);
      if key !in playlists {
        outcome := PlaylistNotFound;
      } else {
        playlists := playlists - {key};
        outcome := PlaylistDeleted;
      }
    }

    /** `showAllPlaylists`: the display names of all playlists (the source's order is a hash order). */
    function AllPlaylistNames(): (r: set<string>)
      reads this, playlists.Values
      ensures forall n :: n in r <==> exists k :: k in playlists && playlists[k].name == n
      ensures r == {} <==> playlists == map[]
    {
      var r := set k | k in playlists :: playlists[k].name;
      assert playlists != map[] ==> exists k :: k in playlists && playlists[k].name in r;
      r
    }

    /**
     * `showPlaylist`: none for a missing playlist; otherwise its videos in
     * order, each with its flag reason. An empty list is a shown playlist.
     */
    function ShowPlaylist(name: string): (r: Option<seq<Entry>>)
      reads this, playlists.Values
      requires Valid()
      ensures r.Some? <==> Lower(name) in playlists
      ensures r.Some? ==>
        var ids := playlists[Lower(name)].videos;
        |r.value| == |ids| && forall i :: 0 <= i < |ids| ==> r.value[i] == EntryFor(library, ids[i])
    {
      var key := Lower(name);
      if key !in playlists then None
      else
        var ids := playlists[key].videos;
        assert forall i :: 0 <= i < |ids| ==> ids[i] in library.videos;
        Some(Entries(library, ids))
    }

    // ----- Search -----

    /** The `forEach` over the playable videos that keeps those matching the query. */
    method CollectMatches(q: Query) returns (found: seq<Video>)
      requires library.Valid()
      ensures found == Filter(library.Playable(), q)
      ensures forall v :: v in found <==> library.Holds(v) && !library.IsFlagged(v.videoId) && Matches(v, q)
    {
      found := SelectMatching(library.Playable(), q);
      SearchFindsPlayableMatches(library, q);
    }

    /**
     * `displaySearchResult`: sorts the matches by title, and an answer k
     * with 1 <= k <= number of results plays result k - 1; any other answer
     * (or no number at all) changes nothing.
     */
    method DisplaySearchResult(found: seq<Video>, answer: Option<int>) returns (results: seq<Video>, played: Option<Outcome>)
      requires Valid()
      requires forall v :: v in found ==> library.Holds(v) && !library.IsFlagged(v.videoId)
      modifies this
      ensures Valid()
      ensures library == old(library) && playlists == old(playlists)
      ensures results == SortByTitle(found)
      ensures SortedByTitle(results) && (forall v :: v in results <==> v in found)
      ensures Selection(|results|, answer).None? ==>
        played == None && current == old(current) && isPlaying == old(isPlaying)
      ensures Selection(|results|, answer).Some? ==>
        var v := results[Selection(|results|, answer).value];
        current == Some(v) && isPlaying && played == Some(Playing(TitleOf(old(current)), v.title))
    {
      results := SortByTitle(found);
      SortByTitleSorted(found);
      SortByTitleSameMembers(found);
      var k := Selection(|results|, answer);
      if k.Some? {
        var o := PlayVideo(results[k.value].videoId);
        played := Some(o);
      } else {
        played := None;
      }
    }

    /**
     * `searchVideos`: the playable videos whose lower-cased title contains
     * the lower-cased term, sorted by title, then the answer as in
     * `DisplaySearchResult`.
     */
    method SearchVideos(term: string, answer: Option<int>) returns (results: seq<Video>, played: Option<Outcome>)
      requires Valid()
      modifies this
      ensures Valid()
      ensures library == old(library) && playlists == old(playlists)
      ensures results == SortByTitle(Filter(library.Playable(), TitleQuery(term)))
      ensures SortedByTitle(results)
      ensures forall v :: v in results <==>
        library.Holds(v) && !library.IsFlagged(v.videoId) && Contains(Lower(v.title), Lower(term))
      ensures Selection(|results|, answer).None? ==>
        played == None && current == old(current) && isPlaying == old(isPlaying)
      ensures Selection(|results|, answer).Some? ==>
        var v := results[Selection(|results|, answer).value];
        current == Some(v) && isPlaying && played == Some(Playing(TitleOf(old(current)), v.title))
    {
      var found := CollectMatches(TitleQuery(term));
      results, played := DisplaySearchResult(found, answer);
    }

    /**
     * `searchVideosWithTag`: the playable videos with a tag equal to the
     * given one ignoring case, sorted by title, then the answer as in
     * `DisplaySearchResult`.
     */
    method SearchVideosWithTag(tag: string, answer: Option<int>) returns (results: seq<Video>, played: Option<Outcome>)
      requires Valid()
      modifies this
      ensures Valid()
      ensures library == old(library) && playlists == old(playlists)
      ensures results == SortByTitle(Filter(library.Playable(), TagQuery(tag)))
      ensures SortedByTitle(results)
      ensures forall v :: v in results <==>
        library.Holds(v) && !library.IsFlagged(v.videoId) && TagsContain(v.tags, tag)
      ensures Selection(|results|, answer).None? ==>
        played == None && current == old(current) && isPlaying == old(isPlaying)
      ensures Selection(|results|, answer).Some? ==>
        var v := results[Selection(|results|, answer).value];
        current == Some(v) && isPlaying && played == Some(Playing(TitleOf(old(current)), v.title))
    {
      var found := CollectMatches(TagQuery(tag));
      results, played := DisplaySearchResult(found, answer);
    }

    // ----- Moderation -----

    /**
     * `flagVideo(id, reason)`: refused for an unknown video, then for one
     * already flagged; otherwise the video is stopped first if it is the
     * loaded one (playing or paused), then flagged with the reason.
     */
    method FlagVideo(id: string, reason: string) returns (outcome: Outcome)
      requires Valid()
      modifies this
      ensures Valid()
      ensures playlists == old(playlists)
      ensures id !in old(library).videos ==>
        outcome == VideoNotFound && library == old(library) && current == old(current) && isPlaying == old(isPlaying)
      ensures id in old(library).videos && old(library).IsFlagged(id) ==>
        outcome == AlreadyFlagged && library == old(library) && current == old(current) && isPlaying == old(isPlaying)
      ensures id in old(library).videos && !old(library).IsFlagged(id) ==>
        && library == old(library).Flag(id, reason)
        && (old(current).Some? && old(current).value.videoId == id ==>
              outcome == FlaggedVideo(Some(old(current).value.title), old(library).videos[id].title, reason)
              && current == None && !isPlaying)
        && (old(current).None? || old(current).value.videoId != id ==>
              outcome == FlaggedVideo(None, old(library).videos[id].title, reason)
              && current == old(current) && isPlaying == old(isPlaying))
    {
      var vid := library.GetVideo(id);
      if vid.None? {
        outcome := VideoNotFound;
      } else if library.IsFlagged(id) {
        outcome := AlreadyFlagged;
      } else {
        var stopped := None;
        if current.Some? && current.value.videoId == id {
          var stop := StopVideo();
          stopped := Some(stop.title);
        }
        outcome := FlaggedVideo(stopped, vid.value.title, reason);
        library := library.Flag(id, reason);
      }
    }

    /** `flagVideo(id)`: the same command with the reason "Not supplied". */
    method FlagVideoWithoutReason(id: string) returns (outcome: Outcome)
      requires Valid()
      modifies this
      ensures Valid()
      ensures playlists == old(playlists)
      ensures id !in old(library).videos ==>
        outcome == VideoNotFound && library == old(library) && current == old(current) && isPlaying == old(isPlaying)
      ensures id in old(library).videos && old(library).IsFlagged(id) ==>
        outcome == AlreadyFlagged && library == old(library) && current == old(current) && isPlaying == old(isPlaying)
      ensures id in old(library).videos && !old(library).IsFlagged(id) ==>
        && library == old(library).Flag(id, NotSupplied)
        && (old(current).Some? && old(current).value.videoId == id ==>
              outcome == FlaggedVideo(Some(old(current).value.title), old(library).videos[id].title, NotSupplied)
              && current == None && !isPlaying)
        && (old(current).None? || old(current).value.videoId != id ==>
              outcome == FlaggedVideo(None, old(library).videos[id].title, NotSupplied)
              && current == old(current) && isPlaying == old(isPlaying))
    {
      outcome := FlagVideo(id, NotSupplied);
    }

    /**
     * `allowVideo`: refused for an unknown video, then for one not flagged;
     * otherwise the flag is cleared. Playback is never touched.
     */
    method AllowVideo(id: string) returns (outcome: Outcome)
      requires Valid()
      modifies this
      ensures Valid()
      ensures playlists == old(playlists) && current == old(current) && isPlaying == old(isPlaying)
      ensures id !in old(library).videos ==> outcome == VideoNotFound && library == old(library)
      ensures id in old(library).videos && !old(library).IsFlagged(id) ==> outcome == NotFlagged && library == old(library)
      ensures id in old(library).videos && old(library).IsFlagged(id) ==>
        outcome == AllowedVideo(old(library).videos[id].title) && library == old(library).Allow(id)
    {
      var vid := library.GetVideo(id);
      if vid.None? {
        outcome := VideoNotFound;
      } else if !library.IsFlagged(id) {
        outcome := NotFlagged;
      } else {
        library := library.Allow(id);
        outcome := AllowedVideo(vid.value.title);
      }
    }
  }
}
