/**
 * A named playlist: an ordered list of video ids updated in place.
 */
module Playlists {
  import opened Sequences

  /** Index of the first element equal to `x`. */
  function IndexOf(s: seq<string>, x: string): (i: nat)
    requires x in s
    ensures i < |s| && s[i] == x
    ensures forall j :: 0 <= j < i ==> s[j] != x
  {
    if s[0] == x then 0 else 1 + IndexOf(s[1..], x)
  }

  /** `List.remove(Object)`: drops the first element equal to `x`, if any. */
  function RemoveFirst(s: seq<string>, x: string): (r: seq<string>)
    ensures |r| == if x in s then |s| - 1 else |s|
    ensures forall y :: y in r ==> y in s
  {
    if s == [] then []
    else if s[0] == x then s[1..]
    else [s[0]] + RemoveFirst(s[1..], x)
  }

  /** Removing an absent id leaves the list as it was. */
  lemma {:induction false} RemoveFirstAbsent(s: seq<string>, x: string)
    requires x !in s
    ensures RemoveFirst(s, x) == s
  {
    if s != [] {
      RemoveFirstAbsent(s[1..], x);
      assert s == [s[0]] + s[1..];
    }
  }

  /**
   * Removing a present id cuts out its first occurrence and keeps every
   * other element in its relative order.
   */
  lemma {:induction false} RemoveFirstCutsFirstOccurrence(s: seq<string>, x: string)
    requires x in s
    ensures RemoveFirst(s, x) == s[..IndexOf(s, x)] + s[IndexOf(s, x) + 1..]
  {
    if s[0] != x {
      var t := s[1..];
      var i := IndexOf(t, x);
      RemoveFirstCutsFirstOccurrence(t, x);
      assert IndexOf(s, x) == i + 1;
      assert RemoveFirst(s, x) == [s[0]] + RemoveFirst(t, x);
      assert s[..i + 1] == [s[0]] + t[..i];
      assert s[i + 2..] == t[i + 1..];
    }
  }

  /** On a list without duplicates removal keeps it duplicate-free and removes the id entirely. */
  lemma {:induction false} RemoveFirstNoDuplicates(s: seq<string>, x: string)
    requires NoDuplicates(s)
    ensures NoDuplicates(RemoveFirst(s, x))
    ensures x !in RemoveFirst(s, x)
  {
    if s != [] {
      assert s[0] !in s[1..];
      assert NoDuplicates(s[1..]) by {
        forall i, j | 0 <= i < j < |s[1..]| ensures s[1..][i] != s[1..][j] {
          assert s[1..][i] == s[i + 1] && s[1..][j] == s[j + 1];
        }
      }
      if s[0] != x {
        RemoveFirstNoDuplicates(s[1..], x);
        var rest := RemoveFirst(s[1..], x);
        assert s[0] !in rest;
        var r := [s[0]] + rest;
        forall i, j | 0 <= i < j < |r| ensures r[i] != r[j] {
          if i == 0 {
            assert r[j] == rest[j - 1];
          } else {
            assert r[i] == rest[i - 1] && r[j] == rest[j - 1];
          }
        }
      }
    }
  }

  class VideoPlaylist {
    var name: string
    var videos: seq<string>

    /** A new playlist has the given name and no videos. */
    constructor (name: string)
      ensures this.name == name && videos == []
    {
      this.name := name;
      videos := [];
    }

    /** `addVideo`: appends at the end; the name stays. */
    method AddVideo(id: string)
      modifies this
      ensures videos == old(videos) + [id]
      ensures name == old(name)
    {
      videos := videos + [id];
    }

    /** `removeVideo`: drops the first occurrence only; the name stays. */
    method RemoveVideo(id: string)
      modifies this
      ensures videos == RemoveFirst(old(videos), id)
      ensures name == old(name)
    {
      videos := RemoveFirst(videos, id);
    }

    /** `containsVideo`: exact-case membership of the id. */
    function ContainsVideo(id: string): (r: bool)
      reads this
      ensures r <==> exists i :: 0 <= i < |videos| && videos[i] == id
    {
      id in videos
    }

    /** `clearVideoList`: no videos left; the name stays. */
    method ClearVideoList()
      modifies this
      ensures videos == []
      ensures name == old(name)
    {
      videos := [];
    }

    /** `getName`: the name given at construction, which no method changes. */
    function GetName(): (r: string)
      reads this
      ensures r == name
    {
      name
    }

    /**
     * `getVideoList`: a copy of the current list. A sequence is a value, so
     * changing the caller's copy cannot reach the playlist.
     */
    method GetVideoList() returns (copy: seq<string>)
      ensures copy == videos
    {
      copy := videos;
    }
  }
}
