/**
 * The string operations the player relies on: lower-casing with
 * `toLowerCase(Locale.ROOT)`, `equalsIgnoreCase`, `String.contains` and the
 * order of `String.compareTo`. Case folding is restricted to ASCII letters.
 */
module Text {

  /** Lower-cases one character: only 'A'..'Z' change. */
  function LowerChar(c: char): char
  {
    if 'A' <= c <= 'Z' then (c as int + 32) as char else c
  }

  /** Upper-cases one character: only 'a'..'z' change. */
  function UpperChar(c: char): char
  {
    if 'a' <= c <= 'z' then (c as int - 32) as char else c
  }

  /** `s.toLowerCase(Locale.ROOT)`: every character lower-cased in place. */
  function Lower(s: string): (r: string)
    ensures |r| == |s|
    ensures forall i :: 0 <= i < |s| ==> r[i] == LowerChar(s[i])
  {
    seq(|s|, i requires 0 <= i < |s| => LowerChar(s[i]))
  }

  /** A lower-cased string has no upper-case ASCII letter left. */
  lemma LowerHasNoUpper(s: string)
    ensures forall i :: 0 <= i < |Lower(s)| ==> !('A' <= Lower(s)[i] <= 'Z')
  {
  }

  /** Lower-casing twice is lower-casing once; this is what makes a lower-cased key canonical. */
  lemma LowerIdempotent(s: string)
    ensures Lower(Lower(s)) == Lower(s)
  {
  }

  /**
   * The per-character test of `String.equalsIgnoreCase`: equal, equal after
   * upper-casing, or equal after upper- then lower-casing.
   */
  predicate CharEqualsIgnoreCase(c: char, d: char)
    ensures c == d ==> CharEqualsIgnoreCase(c, d)
    ensures 'A' <= c <= 'Z' && d == LowerChar(c) ==> CharEqualsIgnoreCase(c, d)
  {
    c == d || UpperChar(c) == UpperChar(d) || LowerChar(UpperChar(c)) == LowerChar(UpperChar(d))
  }

  /** `a.equalsIgnoreCase(b)`: same length and every position matches ignoring case. */
  predicate EqualsIgnoreCase(a: string, b: string)
    ensures EqualsIgnoreCase(a, b) ==> |a| == |b|
    ensures a == b ==> EqualsIgnoreCase(a, b)
  {
    |a| == |b| && forall i :: 0 <= i < |a| ==> CharEqualsIgnoreCase(a[i], b[i])
  }

  lemma CharEqualsIgnoreCaseIsLowerEq(c: char, d: char)
    ensures CharEqualsIgnoreCase(c, d) <==> LowerChar(c) == LowerChar(d)
  {
  }

  /**
   * `equalsIgnoreCase` agrees with comparing the lower-cased strings, which is
   * how the player keys its playlist table.
   */
  lemma EqualsIgnoreCaseIffLowerEq(a: string, b: string)
    ensures EqualsIgnoreCase(a, b) <==> Lower(a) == Lower(b)
  {
  }

  /** `hay.contains(needle)`: the needle is a prefix of the haystack or of one of its suffixes. */
  predicate Contains(hay: string, needle: string)
    ensures needle <= hay ==> Contains(hay, needle)
    ensures Contains(hay, needle) ==> |needle| <= |hay|
    decreases |hay|
  {
    needle <= hay || (hay != [] && Contains(hay[1..], needle))
  }

  /** The recursive `Contains` finds exactly the needles that occur at some offset. */
  lemma {:induction false} ContainsIffOccurs(hay: string, needle: string)
    ensures Contains(hay, needle) <==> exists i :: 0 <= i <= |hay| && needle <= hay[i..]
    decreases |hay|
  {
    if hay == [] {
      assert hay[0..] == hay;
    } else {
      ContainsIffOccurs(hay[1..], needle);
      if needle <= hay {
        assert hay[0..] == hay;
      }
      if exists i :: 0 <= i <= |hay| && needle <= hay[i..] {
        var i :| 0 <= i <= |hay| && needle <= hay[i..];
        if i > 0 {
          assert hay[1..][i - 1..] == hay[i..];
        } else {
          assert hay[0..] == hay;
        }
      }
      if Contains(hay[1..], needle) {
        var j :| 0 <= j <= |hay[1..]| && needle <= hay[1..][j..];
        assert hay[1..][j..] == hay[j + 1..];
      }
    }
  }

  /** A needle whose first character does not occur in the haystack is not contained in it. */
  lemma {:induction false} NotContainsWithoutFirstChar(hay: string, needle: string)
    requires needle != [] && needle[0] !in hay
    ensures !Contains(hay, needle)
    decreases |hay|
  {
    if hay != [] {
      assert forall c :: c in hay[1..] ==> c in hay;
      NotContainsWithoutFirstChar(hay[1..], needle);
    }
  }

  /** Lower-casing cannot produce a lower-case letter whose two cases are both absent. */
  lemma LowerWithout(s: string, c: char)
    requires 'a' <= c <= 'z' && c !in s && UpperChar(c) !in s
    ensures c !in Lower(s)
  {
  }

  /** The empty string is contained in every string, as in Java. */
  lemma ContainsEmpty(hay: string)
    ensures Contains(hay, "")
  {
  }

  /**
   * `a.compareTo(b) <= 0`: `a` is a prefix of `b`, or `a` is smaller at the
   * first position where they differ.
   */
  predicate StrLeq(a: string, b: string)
    ensures a <= b ==> StrLeq(a, b)
    ensures StrLeq(a, b) && a != [] ==> b != [] && a[0] <= b[0]
  {
    a == [] || (b != [] && (a[0] < b[0] || (a[0] == b[0] && StrLeq(a[1..], b[1..]))))
  }

  lemma {:induction false} StrLeqRefl(a: string)
    ensures StrLeq(a, a)
  {
    if a != [] {
      StrLeqRefl(a[1..]);
    }
  }

  /** Any two titles are comparable, so sorting by title is well defined. */
  lemma {:induction false} StrLeqTotal(a: string, b: string)
    ensures StrLeq(a, b) || StrLeq(b, a)
  {
    if a != [] && b != [] && a[0] == b[0] {
      StrLeqTotal(a[1..], b[1..]);
    }
  }

  lemma {:induction false} StrLeqTrans(a: string, b: string, c: string)
    requires StrLeq(a, b) && StrLeq(b, c)
    ensures StrLeq(a, c)
  {
    if a != [] && b != [] && c != [] && a[0] == b[0] && b[0] == c[0] {
      StrLeqTrans(a[1..], b[1..], c[1..]);
    }
  }

  /** Two strings that are each at most the other are equal: the order is antisymmetric. */
  lemma {:induction false} StrLeqAntisym(a: string, b: string)
    requires StrLeq(a, b) && StrLeq(b, a)
    ensures a == b
  {
    if a != [] && b != [] {
      StrLeqAntisym(a[1..], b[1..]);
      assert a == [a[0]] + a[1..];
      assert b == [b[0]] + b[1..];
    }
  }
}
