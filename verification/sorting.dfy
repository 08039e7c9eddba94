/** Ordering the points of a cluster by their distance from its center
    (`sortPointsByDistance`). */
module Sorting {
  import opened Points

  /** The sort key of `p`: its (squared) distance from `center`. */
  function Key(center: Point, p: Point): real
    requires |p.coords| == |center.coords|
  {
    SqDist(p.coords, center.coords)
  }

  /** `s` lists its points by non-decreasing distance from `center`. */
  predicate SortedBy(center: Point, s: seq<Point>)
    requires InSpace(s, |center.coords|)
  {
    forall i, j :: 0 <= i < j < |s| ==> Key(center, s[i]) <= Key(center, s[j])
  }

  /** Places `p` into the ordered `s`, in front of the first point that is not
      strictly nearer to `center` than `p`. */
  function Insert(center: Point, p: Point, s: seq<Point>): (r: seq<Point>)
    requires |p.coords| == |center.coords|
    requires InSpace(s, |center.coords|)
    ensures |r| == |s| + 1
    ensures multiset(r) == multiset(s) + multiset{p}
    ensures InSpace(r, |center.coords|)
    decreases |s|
  {
    if |s| == 0 then [p]
    else if Key(center, p) <= Key(center, s[0]) then [p] + s
    else
      assert s == [s[0]] + s[1..];
      [s[0]] + Insert(center, p, s[1..])
  }

  /** Inserting into an ordered sequence keeps it ordered. */
  lemma {:induction false} InsertSorted(center: Point, p: Point, s: seq<Point>)
    requires |p.coords| == |center.coords|
    requires InSpace(s, |center.coords|)
    requires SortedBy(center, s)
    ensures SortedBy(center, Insert(center, p, s))
    decreases |s|
  {
    if |s| == 0 {
    } else if Key(center, p) <= Key(center, s[0]) {
      ConsSorted(center, p, s);
    } else {
      var rest := Insert(center, p, s[1..]);
      InsertSorted(center, p, s[1..]);
      NotNearerThanHead(center, s[0], p, s[1..], rest);
      ConsSorted(center, s[0], rest);
    }
  }

  /** Every point of `rest`, a permutation of `tail` plus `p`, is at least as
      far from the center as `head`. */
  lemma NotNearerThanHead(center: Point, head: Point, p: Point, tail: seq<Point>, rest: seq<Point>)
    requires |head.coords| == |center.coords| && |p.coords| == |center.coords|
    requires InSpace(tail, |center.coords|) && InSpace(rest, |center.coords|)
    requires forall i :: 0 <= i < |tail| ==> Key(center, head) <= Key(center, tail[i])
    requires Key(center, head) <= Key(center, p)
    requires multiset(rest) == multiset(tail) + multiset{p}
    ensures forall i :: 0 <= i < |rest| ==> Key(center, head) <= Key(center, rest[i])
  {
    forall i | 0 <= i < |rest|
      ensures Key(center, head) <= Key(center, rest[i])
    {
      assert rest[i] in multiset(rest);
      if rest[i] != p {
        assert rest[i] in multiset(tail);
        var j :| 0 <= j < |tail| && tail[j] == rest[i];
      }
    }
  }

  /** A point no farther than any point of an ordered sequence may precede it. */
  lemma ConsSorted(center: Point, head: Point, rest: seq<Point>)
    requires |head.coords| == |center.coords| && InSpace(rest, |center.coords|)
    requires forall i :: 0 <= i < |rest| ==> Key(center, head) <= Key(center, rest[i])
    requires SortedBy(center, rest)
    ensures InSpace([head] + rest, |center.coords|)
    ensures SortedBy(center, [head] + rest)
  {
    var r := [head] + rest;
    forall i, j | 0 <= i < j < |r|
      ensures Key(center, r[i]) <= Key(center, r[j])
    {
      assert r[j] == rest[j - 1];
      if i > 0 {
        assert r[i] == rest[i - 1];
      }
    }
  }

  /** The points of `ps` reordered by non-decreasing distance from `center`.
      The comparison is a strict "nearer than", and `std::sort` is not
      stable, so points at equal distance may come out in any order. This
      ordering keeps them in input order. Ordering and permutation hold of
      every ordering the program may produce, and `SortAgreesWithAnySort`
      shows they all share the distance at each position. `SortedUnchanged`
      and `SortIdempotent` are facts of this stable order only. */
  function SortByDistance(center: Point, ps: seq<Point>): (r: seq<Point>)
    requires InSpace(ps, |center.coords|)
    ensures |r| == |ps|
    ensures multiset(r) == multiset(ps)
    ensures InSpace(r, |center.coords|)
    ensures SortedBy(center, r)
    decreases |ps|
  {
    if |ps| == 0 then []
    else
      assert ps == [ps[0]] + ps[1..];
      var rest := SortByDistance(center, ps[1..]);
      InsertSorted(center, ps[0], rest);
      Insert(center, ps[0], rest)
  }

  /** Sorting an ordered sequence leaves it exactly as it is, so sorting
      twice is the same as sorting once. */
  lemma {:induction false} SortedUnchanged(center: Point, ps: seq<Point>)
    requires InSpace(ps, |center.coords|)
    requires SortedBy(center, ps)
    ensures SortByDistance(center, ps) == ps
    decreases |ps|
  {
    if |ps| > 0 {
      SortedUnchanged(center, ps[1..]);
      assert ps == [ps[0]] + ps[1..];
    }
  }

  lemma SortIdempotent(center: Point, ps: seq<Point>)
    requires InSpace(ps, |center.coords|)
    ensures SortByDistance(center, SortByDistance(center, ps)) == SortByDistance(center, ps)
  {
    SortedUnchanged(center, SortByDistance(center, ps));
  }

  /** Removing one point from an ordered sequence keeps it ordered. */
  lemma RemoveSorted(center: Point, b: seq<Point>, p: nat)
    requires p < |b| && InSpace(b, |center.coords|) && SortedBy(center, b)
    ensures InSpace(b[..p] + b[p + 1..], |center.coords|)
    ensures SortedBy(center, b[..p] + b[p + 1..])
  {
    var r := b[..p] + b[p + 1..];
    assert forall i :: 0 <= i < |r| ==> r[i] == if i < p then b[i] else b[i + 1];
  }

  /** Any two orderings of the same points by distance have the same distance
      at every position: they differ at most in the order of points at equal
      distance. */
  lemma {:induction false} SortedPermutationsAgree(center: Point, a: seq<Point>, b: seq<Point>)
    requires InSpace(a, |center.coords|) && InSpace(b, |center.coords|)
    requires multiset(a) == multiset(b)
    requires SortedBy(center, a) && SortedBy(center, b)
    ensures |a| == |b|
    ensures forall i :: 0 <= i < |a| ==> Key(center, a[i]) == Key(center, b[i])
    decreases |a|
  {
    assert |multiset(a)| == |a| && |multiset(b)| == |b|;
    if |a| > 0 {
      var p := SameNearest(center, a, b);
      var rest := b[..p] + b[p + 1..];
      RemoveOne(a, b, p);
      RemoveSorted(center, b, p);
      SortedBy1(center, a);
      SortedPermutationsAgree(center, a[1..], rest);
      ShiftedKeys(center, a, b, p);
    }
  }

  /** The heads of two orderings of the same points are equally far, and
      the head of the first occurs in the second at some position `p`. */
  lemma SameNearest(center: Point, a: seq<Point>, b: seq<Point>) returns (p: nat)
    requires |a| > 0 && InSpace(a, |center.coords|) && InSpace(b, |center.coords|)
    requires multiset(a) == multiset(b)
    requires SortedBy(center, a) && SortedBy(center, b)
    ensures p < |b| && b[p] == a[0]
    ensures Key(center, b[0]) == Key(center, a[0])
  {
    assert a[0] in multiset(b);
    p :| 0 <= p < |b| && b[p] == a[0];
    assert b[0] in multiset(a);
    var j :| 0 <= j < |a| && a[j] == b[0];
  }

  /** Taking the head of `a` out of `b` at a position where it occurs leaves
      the points of the rest of `a`. */
  lemma RemoveOne(a: seq<Point>, b: seq<Point>, p: nat)
    requires |a| > 0 && p < |b| && b[p] == a[0] && multiset(a) == multiset(b)
    ensures multiset(b[..p] + b[p + 1..]) == multiset(a[1..])
  {
    var rest := b[..p] + b[p + 1..];
    assert b == b[..p] + [a[0]] + b[p + 1..];
    assert multiset(b) == multiset(rest) + multiset{a[0]};
    assert a == [a[0]] + a[1..];
    assert multiset(a) == multiset(a[1..]) + multiset{a[0]};
    assert multiset(rest) == multiset(b) - multiset{a[0]};
  }

  /** If the rest of `a` agrees in distance with `b` minus its point at `p`,
      and the heads of `a` and `b` and the point at `p` are equally far, then
      `a` and `b` agree in distance everywhere. */
  lemma ShiftedKeys(center: Point, a: seq<Point>, b: seq<Point>, p: nat)
    requires |a| == |b| > p && InSpace(a, |center.coords|) && InSpace(b, |center.coords|)
    requires SortedBy(center, b) && b[p] == a[0] && Key(center, b[0]) == Key(center, a[0])
    requires forall i :: 0 <= i < |a| - 1 ==>
               Key(center, a[1..][i]) == Key(center, (b[..p] + b[p + 1..])[i])
    ensures forall i :: 0 <= i < |a| ==> Key(center, a[i]) == Key(center, b[i])
  {
    var rest := b[..p] + b[p + 1..];
    forall i | 0 < i < |a|
      ensures Key(center, a[i]) == Key(center, b[i])
    {
      assert a[1..][i - 1] == a[i];
      if i - 1 < p {
        assert rest[i - 1] == b[i - 1];
        assert Key(center, b[0]) <= Key(center, b[i - 1]);
        assert Key(center, b[i]) <= Key(center, b[p]);
      } else {
        assert rest[i - 1] == b[i];
      }
    }
  }

  /** The tail of an ordered sequence is ordered. */
  lemma SortedBy1(center: Point, a: seq<Point>)
    requires |a| > 0 && InSpace(a, |center.coords|) && SortedBy(center, a)
    ensures InSpace(a[1..], |center.coords|) && SortedBy(center, a[1..])
  {
    assert forall i :: 0 <= i < |a| - 1 ==> a[1..][i] == a[i + 1];
  }

  /** The order chosen here has, at every position, the same distance as any
      other ordering of the points by distance, such as the one `std::sort`
      produces. */
  lemma SortAgreesWithAnySort(center: Point, ps: seq<Point>, s: seq<Point>)
    requires InSpace(ps, |center.coords|) && InSpace(s, |center.coords|)
    requires multiset(s) == multiset(ps) && SortedBy(center, s)
    ensures |SortByDistance(center, ps)| == |s|
    ensures forall i :: 0 <= i < |s| ==> Key(center, SortByDistance(center, ps)[i]) == Key(center, s[i])
  {
    SortedPermutationsAgree(center, SortByDistance(center, ps), s);
  }

  /** The first point of any sorted permutation of `ps` is nearest to the
      center among all of `ps`. */
  lemma FirstIsNearest(center: Point, ps: seq<Point>, sorted: seq<Point>)
    requires InSpace(ps, |center.coords|) && InSpace(sorted, |center.coords|)
    requires multiset(sorted) == multiset(ps)
    requires SortedBy(center, sorted)
    requires |ps| > 0
    ensures forall q :: q in ps ==> Key(center, sorted[0]) <= Key(center, q)
  {
    forall q | q in ps
      ensures Key(center, sorted[0]) <= Key(center, q)
    {
      assert q in multiset(sorted);
      var j :| 0 <= j < |sorted| && sorted[j] == q;
    }
  }
}
