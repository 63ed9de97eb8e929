/**
 * Searching: the two match predicates, the filter the search methods build
 * with `forEach`/`add`, the sort by title in `displaySearchResult` and the
 * rule that turns the user's numeric answer into a result to play.
 */
module Search {
  import opened Optional
  import opened Text
  import opened Videos

  datatype Query =
    | TitleQuery(term: string)   // `searchVideos`
    | TagQuery(tag: string)      // `searchVideosWithTag`

  /** Lower-cased title contains the lower-cased term, or a tag equals the tag ignoring case. */
  predicate Matches(v: Video, q: Query)
    ensures q.TitleQuery? && q.term == [] ==> Matches(v, q)
    ensures q.TitleQuery? && Matches(v, q) ==> |q.term| <= |v.title|
    ensures q.TagQuery? && v.tags == [] ==> !Matches(v, q)
  {
    match q
    case TitleQuery(term) => Contains(Lower(v.title), Lower(term))
    case TagQuery(tag) => TagsContain(v.tags, tag)
  }

  /** The elements of `s` that match `q`, in the order of `s`. */
  function Filter(s: seq<Video>, q: Query): (r: seq<Video>)
    ensures forall v :: v in r <==> v in s && Matches(v, q)
    ensures |r| <= |s|
  {
    if s == [] then []
    else
      var init := s[..|s| - 1];
      var last := s[|s| - 1];
      assert forall v :: v in s <==> v in init || v == last;
      Filter(init, q) + if Matches(last, q) then [last] else []
  }

  /** Extending a prefix by one element keeps that element at the end exactly when it matches. */
  lemma FilterPrefix(s: seq<Video>, i: nat, q: Query)
    requires i < |s|
    ensures Filter(s[..i + 1], q) == Filter(s[..i], q) + if Matches(s[i], q) then [s[i]] else []
  {
    assert s[..i + 1][..i] == s[..i];
  }

  /** Nothing is kept when no element matches. */
  lemma {:induction false} FilterNoneMatch(s: seq<Video>, q: Query)
    requires forall i :: 0 <= i < |s| ==> !Matches(s[i], q)
    ensures Filter(s, q) == []
  {
    if s != [] {
      FilterNoneMatch(s[..|s| - 1], q);
    }
  }

  /** Adjacent results are in title order (`String.compareTo`). */
  predicate SortedByTitle(s: seq<Video>)
  {
    forall i :: 0 < i < |s| ==> StrLeq(s[i - 1].title, s[i].title)
  }

  /** Adjacent order gives order between any two positions. */
  lemma {:induction false} SortedByTitleAll(s: seq<Video>, i: nat, j: nat)
    requires SortedByTitle(s)
    requires i <= j < |s|
    ensures StrLeq(s[i].title, s[j].title)
    decreases j - i
  {
    if i == j {
      StrLeqRefl(s[i].title);
    } else {
      SortedByTitleAll(s, i + 1, j);
      StrLeqTrans(s[i].title, s[i + 1].title, s[j].title);
    }
  }

  /**
   * Inserts `v` before the first element whose title is not smaller, so an
   * element that came earlier stays ahead of equal titles (a stable sort).
   */
  function Insert(v: Video, s: seq<Video>): (r: seq<Video>)
    ensures multiset(r) == multiset(s) + multiset{v}
    ensures |r| == |s| + 1
    ensures r[0] == v || (s != [] && r[0] == s[0])
  {
    if s == [] then [v]
    else if StrLeq(v.title, s[0].title) then [v] + s
    else
      assert s == [s[0]] + s[1..];
      [s[0]] + Insert(v, s[1..])
  }

  lemma {:induction false} InsertSorted(v: Video, s: seq<Video>)
    requires SortedByTitle(s)
    ensures SortedByTitle(Insert(v, s))
  {
    if s != [] && !StrLeq(v.title, s[0].title) {
      var rest := s[1..];
      assert SortedByTitle(rest);
      InsertSorted(v, rest);
      StrLeqTotal(v.title, s[0].title);
      var r := Insert(v, s);
      assert r == [s[0]] + Insert(v, rest);
      forall i | 0 < i < |r| ensures StrLeq(r[i - 1].title, r[i].title) {
        if i == 1 {
          assert r[1] == Insert(v, rest)[0];
        } else {
          assert r[i - 1] == Insert(v, rest)[i - 2] && r[i] == Insert(v, rest)[i - 1];
        }
      }
    }
  }

  /** `Collections.sort(results, Comparator.comparing(Video::getTitle))`: a stable insertion sort. */
  function SortByTitle(s: seq<Video>): (r: seq<Video>)
    ensures multiset(r) == multiset(s)
    ensures |r| == |s|
  {
    if s == [] then []
    else
      assert s == [s[0]] + s[1..];
      Insert(s[0], SortByTitle(s[1..]))
  }

  /** The sorted results are in title order. */
  lemma {:induction false} SortByTitleSorted(s: seq<Video>)
    ensures SortedByTitle(SortByTitle(s))
  {
    if s != [] {
      SortByTitleSorted(s[1..]);
      InsertSorted(s[0], SortByTitle(s[1..]));
    }
  }

  /** Sorting keeps exactly the same videos. */
  lemma SortByTitleSameMembers(s: seq<Video>)
    ensures forall v :: v in SortByTitle(s) <==> v in s
  {
    var r := SortByTitle(s);
    assert multiset(r) == multiset(s);
    forall v ensures v in r <==> v in s {
      assert v in r <==> v in multiset(r);
      assert v in s <==> v in multiset(s);
    }
  }

  /**
   * The answer after a listing of `count` results: a number k with
   * 1 <= k <= count selects the result at index k - 1; anything else,
   * including input that is not a number, selects nothing.
   */
  function Selection(count: nat, answer: Option<int>): (k: Option<nat>)
    ensures k.Some? <==> answer.Some? && 1 <= answer.value <= count
    ensures k.Some? ==> k.value < count && k.value + 1 == answer.value
  {
    if answer.Some? && answer.value > 0 && answer.value <= count then Some(answer.value - 1) else None
  }
}
