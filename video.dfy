/**
 * The immutable video record: a title, an id and an ordered tag list whose
 * membership test ignores case.
 */
module Videos {
  import opened Text

  /** Fields are final in the source, so a value type; its accessors are the getters. */
  datatype Video = Video(title: string, videoId: string, tags: seq<string>)

  /**
   * The tag list's `contains(s)`: `anyMatch` over the tags with
   * `equalsIgnoreCase`, scanning from the first tag.
   */
  function TagsContain(tags: seq<string>, s: string): (r: bool)
    ensures r <==> exists i :: 0 <= i < |tags| && EqualsIgnoreCase(tags[i], s)
    ensures tags == [] ==> !r
  {
    if tags == [] then false
    else if EqualsIgnoreCase(tags[0], s) then true
    else
      var rest := TagsContain(tags[1..], s);
      assert forall i :: 1 <= i < |tags| ==> tags[i] == tags[1..][i - 1];
      rest
  }

  /** A tag is found under any spelling that differs from it only in case. */
  lemma TagsContainCaseVariant(tags: seq<string>, i: nat, s: string)
    requires i < |tags|
    requires Lower(s) == Lower(tags[i])
    ensures TagsContain(tags, s)
  {
  }

  /** `String.join(" ", tags)`. */
  function JoinTags(tags: seq<string>): (r: string)
    ensures tags == [] ==> r == ""
  {
    if tags == [] then ""
    else if |tags| == 1 then tags[0]
    else tags[0] + " " + JoinTags(tags[1..])
  }

  /** `toString`: title, the id in parentheses, the tags in brackets. */
  function ToString(v: Video): (r: string)
    ensures |r| == |v.title| + |v.videoId| + |JoinTags(v.tags)| + 6
    ensures r[..|v.title|] == v.title
    ensures r[|v.title|..|v.title| + 2] == " ("
    ensures r[|v.title| + 2..|v.title| + 2 + |v.videoId|] == v.videoId
    ensures r[|v.title| + 2 + |v.videoId|..|v.title| + 5 + |v.videoId|] == ") ["
    ensures r[|v.title| + 5 + |v.videoId|..|r| - 1] == JoinTags(v.tags)
    ensures r[|r| - 1] == ']'
    ensures v.tags == [] ==> r[|r| - 2..] == "[]"
  {
    v.title + " (" + v.videoId + ") [" + JoinTags(v.tags) + "]"
  }

  /** Splits a string at every space; the inverse of `JoinTags` on tags without spaces. */
  function SplitSpaces(s: string): (r: seq<string>)
    ensures |r| > 0
  {
    if s == [] then [""]
    else if s[0] == ' ' then [""] + SplitSpaces(s[1..])
    else
      var rest := SplitSpaces(s[1..]);
      [[s[0]] + rest[0]] + rest[1..]
  }

  lemma {:induction false} SplitWord(t: string)
    requires ' ' !in t
    ensures SplitSpaces(t) == [t]
  {
    if t != [] {
      SplitWord(t[1..]);
      assert [t[0]] + t[1..] == t;
    }
  }

  lemma {:induction false} SplitWordThenSpace(t: string, rest: string)
    requires ' ' !in t
    ensures SplitSpaces(t + " " + rest) == [t] + SplitSpaces(rest)
  {
    if t == [] {
      assert t + " " + rest == [' '] + rest;
      assert (t + " " + rest)[1..] == rest;
    } else {
      var s := t + " " + rest;
      assert s[0] == t[0];
      assert s[1..] == t[1..] + " " + rest;
      SplitWordThenSpace(t[1..], rest);
      assert [t[0]] + t[1..] == t;
    }
  }

  /**
   * The tag list printed by `toString` can be read back: a non-empty list of
   * tags without spaces is recovered by splitting at spaces.
   */
  lemma {:induction false} JoinTagsRoundTrip(tags: seq<string>)
    requires tags != []
    requires forall i :: 0 <= i < |tags| ==> ' ' !in tags[i]
    ensures SplitSpaces(JoinTags(tags)) == tags
  {
    if |tags| == 1 {
      SplitWord(tags[0]);
    } else {
      JoinTagsRoundTrip(tags[1..]);
      SplitWordThenSpace(tags[0], JoinTags(tags[1..]));
      assert [tags[0]] + tags[1..] == tags;
    }
  }
}
