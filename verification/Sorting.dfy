/** A stable sort of names by descending score, and what makes its result unique. */
module Sorting {

  function Insert(s: seq<string>, x: string, score: string -> real): seq<string> {
    if s == [] || score(s[|s| - 1]) >= score(x) then s + [x]
    else Insert(s[..|s| - 1], x, score) + [s[|s| - 1]]
  }

  /** `sort.SliceStable`, highest score first. */
  function SortByScore(s: seq<string>, score: string -> real): seq<string> {
    if s == [] then [] else Insert(SortByScore(s[..|s| - 1], score), s[|s| - 1], score)
  }

  /** By nonincreasing score, and by increasing position where scores tie. */
  ghost predicate Ranked(s: seq<string>, score: string -> real, position: string -> int) {
    forall i, j | 0 <= i < j < |s| ::
      score(s[i]) > score(s[j]) || (score(s[i]) == score(s[j]) && position(s[i]) < position(s[j]))
  }

  /** `position` increases along `s`. */
  ghost predicate InOrder(s: seq<string>, position: string -> int) {
    forall i, j | 0 <= i < j < |s| :: position(s[i]) < position(s[j])
  }

  lemma {:induction false} InsertIsPermutation(s: seq<string>, x: string, score: string -> real)
    ensures multiset(Insert(s, x, score)) == multiset(s + [x])
    ensures forall y :: y in Insert(s, x, score) <==> y in s || y == x
  {
    if s != [] && score(s[|s| - 1]) < score(x) {
      InsertIsPermutation(s[..|s| - 1], x, score);
      assert s == s[..|s| - 1] + [s[|s| - 1]];
    }
  }

  lemma {:induction false} SortIsPermutation(s: seq<string>, score: string -> real)
    ensures multiset(SortByScore(s, score)) == multiset(s)
    ensures |SortByScore(s, score)| == |s|
    ensures forall x :: x in SortByScore(s, score) <==> x in s
  {
    if s == [] {
    } else {
      SortIsPermutation(s[..|s| - 1], score);
      InsertIsPermutation(SortByScore(s[..|s| - 1], score), s[|s| - 1], score);
      assert s == s[..|s| - 1] + [s[|s| - 1]];
    }
    SameElements(SortByScore(s, score), s);
  }

  lemma SameElements(a: seq<string>, b: seq<string>)
    requires multiset(a) == multiset(b)
    ensures |a| == |b|
    ensures forall x :: x in a <==> x in b
  {
    assert |multiset(a)| == |a| && |multiset(b)| == |b|;
    forall x
      ensures x in a <==> x in b
    {
      assert x in a <==> x in multiset(a);
      assert x in b <==> x in multiset(b);
    }
  }

  lemma {:induction false} InsertKeepsRanked(s: seq<string>, x: string, score: string -> real, position: string -> int)
    requires Ranked(s, score, position) && forall y <- s :: position(y) < position(x)
    ensures Ranked(Insert(s, x, score), score, position)
  {
    if s == [] {
    } else {
      var rest, last := s[..|s| - 1], s[|s| - 1];
      if score(last) < score(x) {
        InsertKeepsRanked(rest, x, score, position);
        InsertIsPermutation(rest, x, score);
        var inserted := Insert(rest, x, score);
        forall i | 0 <= i < |inserted|
          ensures score(inserted[i]) > score(last)
               || (score(inserted[i]) == score(last) && position(inserted[i]) < position(last))
        {
          assert inserted[i] in inserted;
        }
      }
    }
  }

  /** Sorting ranks by score, and leaves what ties in its old order. */
  lemma {:induction false} SortIsRanked(s: seq<string>, score: string -> real, position: string -> int)
    requires InOrder(s, position)
    ensures Ranked(SortByScore(s, score), score, position)
  {
    if s == [] {
    } else {
      var rest, last := s[..|s| - 1], s[|s| - 1];
      SortIsRanked(rest, score, position);
      SortIsPermutation(rest, score);
      InsertKeepsRanked(SortByScore(rest, score), last, score, position);
    }
  }

  lemma RankedHead(a: seq<string>, b: seq<string>, score: string -> real, position: string -> int)
    requires a != [] && b != [] && a[0] in b && b[0] in a
    requires Ranked(a, score, position) && Ranked(b, score, position)
    ensures a[0] == b[0]
  {
    var i :| 0 <= i < |b| && b[i] == a[0];
    var j :| 0 <= j < |a| && a[j] == b[0];
  }

  lemma SameTails(a: seq<string>, b: seq<string>)
    requires a != [] && b != [] && a[0] == b[0] && multiset(a) == multiset(b)
    ensures multiset(a[1..]) == multiset(b[1..])
  {
    assert a == [a[0]] + a[1..] && b == [b[0]] + b[1..];
    assert multiset(a[1..]) == multiset(a) - multiset{a[0]};
    assert multiset(b[1..]) == multiset(b) - multiset{b[0]};
  }

  ghost predicate Descending(s: seq<string>, score: string -> real) {
    forall i, j | 0 <= i < j < |s| :: score(s[i]) >= score(s[j])
  }

  lemma {:induction false} InsertKeepsDescending(s: seq<string>, x: string, score: string -> real)
    requires Descending(s, score)
    ensures Descending(Insert(s, x, score), score)
  {
    if s != [] && score(s[|s| - 1]) < score(x) {
      var rest, last := s[..|s| - 1], s[|s| - 1];
      InsertKeepsDescending(rest, x, score);
      InsertIsPermutation(rest, x, score);
      forall i | 0 <= i < |Insert(rest, x, score)|
        ensures score(Insert(rest, x, score)[i]) >= score(last)
      {
        assert Insert(rest, x, score)[i] in Insert(rest, x, score);
      }
    }
  }

  /** Sorting puts the highest scores first, whatever the old order. */
  lemma {:induction false} SortIsDescending(s: seq<string>, score: string -> real)
    ensures Descending(SortByScore(s, score), score)
  {
    if s == [] {
    } else {
      SortIsDescending(s[..|s| - 1], score);
      InsertKeepsDescending(SortByScore(s[..|s| - 1], score), s[|s| - 1], score);
    }
  }

  /** There is only one ranked arrangement, so any stable sort gives the same result. */
  lemma {:induction false} RankedIsUnique(a: seq<string>, b: seq<string>, score: string -> real,
                                          position: string -> int)
    requires multiset(a) == multiset(b)
    requires Ranked(a, score, position) && Ranked(b, score, position)
    ensures a == b
  {
    SameElements(a, b);
    if a == [] {
    } else {
      assert a[0] in b && b[0] in a;
      RankedHead(a, b, score, position);
      SameTails(a, b);
      RankedIsUnique(a[1..], b[1..], score, position);
      assert a == [a[0]] + a[1..] && b == [b[0]] + b[1..];
    }
  }

  /** Only the scores of the sorted elements matter. */
  lemma {:induction false} SortCongruence(s: seq<string>, f: string -> real, g: string -> real)
    requires forall x <- s :: f(x) == g(x)
    ensures SortByScore(s, f) == SortByScore(s, g)
  {
    if s == [] {
    } else {
      var rest := s[..|s| - 1];
      SortCongruence(rest, f, g);
      SortIsPermutation(rest, f);
      InsertCongruence(SortByScore(rest, f), s[|s| - 1], f, g);
    }
  }

  lemma {:induction false} InsertCongruence(s: seq<string>, x: string, f: string -> real, g: string -> real)
    requires f(x) == g(x) && forall y <- s :: f(y) == g(y)
    ensures Insert(s, x, f) == Insert(s, x, g)
  {
    if s == [] {
    } else {
      assert s[|s| - 1] in s;
      InsertCongruence(s[..|s| - 1], x, f, g);
    }
  }
}
