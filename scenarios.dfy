/**
 * Whole sessions replayed from a fresh player: each method starts a session
 * over a given catalog, issues a short sequence of commands, and its
 * postcondition states the outcomes and the state the session ends in.
 */
module Scenarios {
  import opened Optional
  import opened Text
  import opened Videos
  import opened Catalog
  import opened Search
  import opened Player

  /** `stopVideo` before anything was played is refused. */
  method StopOnFreshSession(lib: Library) returns (outcome: Outcome, shown: Option<(Video, bool)>)
    requires lib.Valid()
    ensures outcome == NoVideoPlaying
    ensures shown == None
  {
    var p := new VideoPlayer(lib);
    outcome := p.StopVideo();
    shown := p.ShowPlaying();
  }

  /** Playing a video after flagging it is refused with the recorded reason, and nothing is loaded. */
  method PlayAfterFlag(lib: Library, id: string, reason: string) returns (flagged: Outcome, played: Outcome, shown: Option<(Video, bool)>)
    requires lib.Valid() && id in lib.videos && !lib.IsFlagged(id)
    ensures flagged == FlaggedVideo(None, lib.videos[id].title, reason)
    ensures played == VideoFlagged(reason)
    ensures shown == None
  {
    var p := new VideoPlayer(lib);
    flagged := p.FlagVideo(id, reason);
    played := p.PlayVideo(id);
    shown := p.ShowPlaying();
  }

  /** Play, pause, continue resumes the video; a second continue is refused and it keeps playing. */
  method PauseThenContinueTwice(lib: Library, id: string) returns (paused: Outcome, first: Outcome, second: Outcome, shown: Option<(Video, bool)>)
    requires lib.Valid() && id in lib.videos && !lib.IsFlagged(id)
    ensures paused == Paused(lib.videos[id].title)
    ensures first == Continued(lib.videos[id].title)
    ensures second == NotPaused
    ensures shown == Some((lib.videos[id], false))
  {
    var p := new VideoPlayer(lib);
    var _ := p.PlayVideo(id);
    paused := p.PauseVideo();
    first := p.ContinueVideo();
    second := p.ContinueVideo();
    shown := p.ShowPlaying();
  }

  /** Pausing twice leaves the same state as pausing once; the second pause only reports it. */
  method PauseTwice(lib: Library, id: string) returns (first: Outcome, second: Outcome, shown: Option<(Video, bool)>)
    requires lib.Valid() && id in lib.videos && !lib.IsFlagged(id)
    ensures first == Paused(lib.videos[id].title)
    ensures second == AlreadyPaused(lib.videos[id].title)
    ensures shown == Some((lib.videos[id], true))
  {
    var p := new VideoPlayer(lib);
    var _ := p.PlayVideo(id);
    first := p.PauseVideo();
    second := p.PauseVideo();
    shown := p.ShowPlaying();
  }

  /** Flagging the playing video stops it, so nothing is shown as playing afterwards. */
  method FlagWhilePlaying(lib: Library, id: string) returns (flagged: Outcome, shown: Option<(Video, bool)>)
    requires lib.Valid() && id in lib.videos && !lib.IsFlagged(id)
    ensures flagged == FlaggedVideo(Some(lib.videos[id].title), lib.videos[id].title, NotSupplied)
    ensures shown == None
  {
    var p := new VideoPlayer(lib);
    var _ := p.PlayVideo(id);
    flagged := p.FlagVideoWithoutReason(id);
    shown := p.ShowPlaying();
  }

  /** Playlist names are unique ignoring case, and a new playlist shows as empty rather than missing. */
  method CreateTwiceIgnoringCase(lib: Library) returns (created: Outcome, again: Outcome, shown: Option<seq<Entry>>)
    requires lib.Valid()
    ensures created == PlaylistCreated("My List")
    ensures again == PlaylistExists
    ensures shown == Some([])
  {
    assert Lower("My List") == "my list";
    assert Lower("MY LIST") == "my list";
    assert Lower("my list") == "my list";
    var p := new VideoPlayer(lib);
    created := p.CreatePlaylist("My List");
    again := p.CreatePlaylist("MY LIST");
    shown := p.ShowPlaylist("my list");
  }

  /** Adding the same video twice is accepted the first time and refused the second time. */
  method AddTwice(lib: Library, id: string) returns (added: Outcome, again: Outcome)
    requires lib.Valid() && id in lib.videos && !lib.IsFlagged(id)
    ensures added == AddedToPlaylist(lib.videos[id].title)
    ensures again == AlreadyInPlaylist
  {
    var name := "My List";
    ghost var key := Lower(name);
    var p := new VideoPlayer(lib);
    var _ := p.CreatePlaylist(name);
    added := p.AddVideoToPlaylist(name, id);
    assert p.playlists[key].videos == [id];
    again := p.AddVideoToPlaylist(name, id);
  }

  /** After adding the same video twice, the playlist shows it once. */
  method AddTwiceHoldsOnce(lib: Library, id: string) returns (shown: Option<seq<Entry>>)
    requires lib.Valid() && id in lib.videos && !lib.IsFlagged(id)
    ensures shown == Some([EntryFor(lib, id)])
  {
    var name := "My List";
    ghost var key := Lower(name);
    var p := new VideoPlayer(lib);
    var _ := p.CreatePlaylist(name);
    var _ := p.AddVideoToPlaylist(name, id);
    assert p.playlists[key].videos == [id];
    var _ := p.AddVideoToPlaylist(name, id);
    shown := p.ShowPlaylist(name);
    assert shown.value == [EntryFor(lib, id)];
  }

  /** Removing a catalog video that was never added is refused. */
  method RemoveNeverAdded(lib: Library, id: string) returns (removed: Outcome)
    requires lib.Valid() && id in lib.videos
    ensures removed == NotInPlaylist
  {
    var p := new VideoPlayer(lib);
    var _ := p.CreatePlaylist("My List");
    removed := p.RemoveFromPlaylist("My List", id);
  }

  /** With every video flagged there is nothing to play at random, and nothing gets loaded. */
  method RandomWithNothingPlayable(lib: Library) returns (outcome: Outcome, shown: Option<(Video, bool)>)
    requires lib.Valid() && forall id :: id in lib.videos ==> lib.IsFlagged(id)
    ensures outcome == NoVideosAvailable(None)
    ensures shown == None
  {
    var p := new VideoPlayer(lib);
    lib.PlayableEmptyIffAllFlagged();
    outcome := p.PlayRandomVideo();
    shown := p.ShowPlaying();
  }

  /** A catalog of two videos, "Cat Video" flagged and "Dog Video" not. */
  function CatAndDog(): (lib: Library)
    ensures lib.Valid()
    ensures lib.IsFlagged("cat") && !lib.IsFlagged("dog")
  {
    Library(
      map["cat" := Video("Cat Video", "cat", []), "dog" := Video("Dog Video", "dog", [])],
      ["cat", "dog"],
      map["cat" := "dont_like_cats"])
  }

  /** In that catalog only "Dog Video" is playable. */
  lemma OnlyDogPlayable()
    ensures forall v :: v in CatAndDog().Playable() ==> v == Video("Dog Video", "dog", [])
  {
  }

  /** "Dog Video" does not match a title search for "cat". */
  lemma DogIsNoCat()
    ensures !Matches(Video("Dog Video", "dog", []), TitleQuery("cat"))
  {
    LowerWithout("Dog Video", 'c');
    NotContainsWithoutFirstChar(Lower("Dog Video"), Lower("cat"));
  }

  /** So no playable video of that catalog has "cat" in its lower-cased title. */
  lemma NoPlayableCat()
    ensures Filter(CatAndDog().Playable(), TitleQuery("cat")) == []
  {
    var playable := CatAndDog().Playable();
    OnlyDogPlayable();
    DogIsNoCat();
    assert forall i :: 0 <= i < |playable| ==> playable[i] in playable;
    FilterNoneMatch(playable, TitleQuery("cat"));
  }

  /** A flagged video is not found by a title search even though its title matches, so no answer plays anything. */
  method SearchSkipsFlagged() returns (results: seq<Video>, played: Option<Outcome>)
    ensures "cat" in CatAndDog().videos && Matches(CatAndDog().videos["cat"], TitleQuery("cat"))
    ensures results == []
    ensures played == None
  {
    assert Lower("cat") == "cat";
    assert Lower("Cat Video")[..3] == "cat";
    var p := new VideoPlayer(CatAndDog());
    NoPlayableCat();
    results, played := p.SearchVideos("cat", Some(1));
  }
}
