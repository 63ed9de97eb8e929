/**
 * The video library the player consults. Its source and its data-file
 * loading are not part of this model; it is an abstract catalog: the videos
 * by id, the order in which the library lists them, and the flag table from
 * flagged id to reason.
 */
module Catalog {
  import opened Optional
  import opened Videos
  import opened Sequences

  datatype Library = Library(videos: map<string, Video>, order: seq<string>, flags: map<string, string>)
  {
    /**
     * Every video is filed under its own id, the listing order names each
     * video exactly once, and only known videos can be flagged (so an unknown
     * id is never flagged).
     */
    ghost predicate Valid()
    {
      && (forall id :: id in videos ==> videos[id].videoId == id)
      && (forall id :: id in order <==> id in videos)
      && NoDuplicates(order)
      && flags.Keys <= videos.Keys
    }

    /** `getVideo`: the video with exactly this id, or none (Java's null). */
    function GetVideo(id: string): (r: Option<Video>)
      ensures r.Some? <==> id in videos
      ensures r.Some? ==> r.value == videos[id]
    {
      if id in videos then Some(videos[id]) else None
    }

    /** The catalog holds exactly this video under its id. */
    ghost predicate Holds(v: Video)
    {
      v.videoId in videos && videos[v.videoId] == v
    }

    /** `isFlagged`: the id has an entry in the flag table; in a valid catalog only known videos do. */
    predicate IsFlagged(id: string)
      ensures Valid() && IsFlagged(id) ==> id in videos
    {
      id in flags
    }

    /** `getFlaggedReason`, defined for flagged ids only: the reason filed with the id. */
    function FlaggedReason(id: string): (r: string)
      requires IsFlagged(id)
      ensures (id, r) in flags.Items
    {
      flags[id]
    }

    /** `getVideos`: every video, in the library's own listing order. */
    function GetVideos(): (r: seq<Video>)
      requires Valid()
      ensures |r| == |order|
      ensures forall i :: 0 <= i < |r| ==> r[i] == videos[order[i]]
      ensures forall v :: v in r <==> Holds(v)
    {
      var r := seq(|order|, i requires 0 <= i < |order| => videos[order[i]]);
      assert forall v :: Holds(v) ==> exists i :: 0 <= i < |order| && order[i] == v.videoId;
      r
    }

    /** The unflagged videos among `ids`, kept in the order of `ids`. */
    function PlayableAmong(ids: seq<string>): (r: seq<Video>)
      requires Valid()
      requires forall id :: id in ids ==> id in videos
      ensures forall v :: v in r <==> v.videoId in ids && Holds(v) && !IsFlagged(v.videoId)
    {
      if ids == [] then []
      else
        var rest := PlayableAmong(ids[..|ids| - 1]);
        var last := ids[|ids| - 1];
        assert forall id :: id in ids <==> id in ids[..|ids| - 1] || id == last;
        if IsFlagged(last) then rest else rest + [videos[last]]
    }

    /**
     * `getPlayableVideos`: exactly the catalog's unflagged videos, listed in
     * the order `getVideos` lists them. That order is an assumption about the
     * library; it decides the order of equal titles after a search's stable sort.
     */
    function Playable(): (r: seq<Video>)
      requires Valid()
      ensures forall v :: v in r <==> Holds(v) && !IsFlagged(v.videoId)
    {
      PlayableAmong(order)
    }

    lemma {:induction false} PlayableAmongAllFlagged(ids: seq<string>)
      requires Valid()
      requires forall id :: id in ids ==> id in videos && IsFlagged(id)
      ensures PlayableAmong(ids) == []
    {
      if ids != [] {
        var init := ids[..|ids| - 1];
        assert forall id :: id in init ==> id in ids;
        PlayableAmongAllFlagged(init);
      }
    }

    /** Nothing is playable exactly when every video is flagged. */
    lemma PlayableEmptyIffAllFlagged()
      requires Valid()
      ensures Playable() == [] <==> forall id :: id in videos ==> IsFlagged(id)
    {
      if forall id :: id in videos ==> IsFlagged(id) {
        PlayableAmongAllFlagged(order);
      } else {
        var id :| id in videos && !IsFlagged(id);
        assert Holds(videos[id]);
        assert videos[id] in Playable();
      }
    }

    /** `flagVideo(id, reason)`: records the reason; nothing else changes. */
    function Flag(id: string, reason: string): (r: Library)
      requires Valid() && id in videos
      ensures r.Valid()
      ensures r.IsFlagged(id) && r.FlaggedReason(id) == reason
      ensures r.videos == videos && r.order == order
      ensures forall other :: other != id ==> (r.IsFlagged(other) <==> IsFlagged(other))
      ensures forall other :: other != id && IsFlagged(other) ==> r.FlaggedReason(other) == FlaggedReason(other)
    {
      Library(videos, order, flags[id := reason])
    }

    /** `allowVideo(id)`: drops the flag; nothing else changes. */
    function Allow(id: string): (r: Library)
      requires Valid()
      ensures r.Valid()
      ensures !r.IsFlagged(id)
      ensures r.videos == videos && r.order == order
      ensures forall other :: other != id ==> (r.IsFlagged(other) <==> IsFlagged(other))
      ensures forall other :: other != id && IsFlagged(other) ==> r.FlaggedReason(other) == FlaggedReason(other)
    {
      Library(videos, order, flags - {id})
    }
  }
}
