/**
 * Points and the corner canonicalisation `sortCorners` of the vision utilities.
 *
 * `sortCorners` copies its input and calls `Array.prototype.sort`, which is a
 * stable sort: elements the comparator ranks equal keep their input order. A
 * stable sort has exactly one possible output, so it is modelled by one
 * definition, `StableSort`: take out the FIRST element with the least key,
 * then sort the rest. Coordinates are exact reals here.
 */
module Corners {

  datatype Point = Point(x: real, y: real)

  /** The first sort key, x + y: least at top-left, greatest at bottom-right. */
  function Sum(p: Point): real {
    p.x + p.y
  }

  /** The second sort key, y - x: negative towards top-right, positive towards bottom-left. */
  function Diff(p: Point): real {
    p.y - p.x
  }

  /** The axis-aligned rectangle (0,0), (w,0), (w,h), (0,h) in top-left,
      top-right, bottom-right, bottom-left order. */
  function Rect(w: real, h: real): (r: seq<Point>)
    ensures |r| == 4
  {
    [Point(0.0, 0.0), Point(w, 0.0), Point(w, h), Point(0.0, h)]
  }

  /** The comparator keys `sortCorners` sorts by. */
  datatype SortKey = BySum | ByDiff

  function KeyOf(key: SortKey, p: Point): real {
    match key
    case BySum => Sum(p)
    case ByDiff => Diff(p)
  }

  /** `m` is the first index of `s` whose key is least. */
  predicate IsFirstMin(s: seq<Point>, key: SortKey, m: nat) {
    && m < |s|
    && (forall j :: 0 <= j < |s| ==> KeyOf(key, s[m]) <= KeyOf(key, s[j]))
    && (forall j :: 0 <= j < m ==> KeyOf(key, s[m]) < KeyOf(key, s[j]))
  }

  /** `m` is the last index of `s` whose key is greatest. */
  predicate IsLastMax(s: seq<Point>, key: SortKey, m: nat) {
    && m < |s|
    && (forall j :: 0 <= j < |s| ==> KeyOf(key, s[j]) <= KeyOf(key, s[m]))
    && (forall j :: m < j < |s| ==> KeyOf(key, s[j]) < KeyOf(key, s[m]))
  }

  function FirstMinIndex(s: seq<Point>, key: SortKey): (m: nat)
    requires |s| > 0
    ensures m < |s|
  {
    if |s| == 1 then 0
    else
      var k := FirstMinIndex(s[1..], key) + 1;
      if KeyOf(key, s[0]) <= KeyOf(key, s[k]) then 0 else k
  }

  function LastMaxIndex(s: seq<Point>, key: SortKey): (m: nat)
    requires |s| > 0
    ensures m < |s|
  {
    if |s| == 1 then 0
    else
      var k := LastMaxIndex(s[..|s| - 1], key);
      if KeyOf(key, s[k]) <= KeyOf(key, s[|s| - 1]) then |s| - 1 else k
  }

  /** `FirstMinIndex` finds the first least key. */
  lemma {:induction false} FirstMinIndexCorrect(s: seq<Point>, key: SortKey)
    requires |s| > 0
    ensures IsFirstMin(s, key, FirstMinIndex(s, key))
  {
    if |s| > 1 {
      FirstMinIndexCorrect(s[1..], key);
    }
  }

  /** `LastMaxIndex` finds the last greatest key. */
  lemma {:induction false} LastMaxIndexCorrect(s: seq<Point>, key: SortKey)
    requires |s| > 0
    ensures IsLastMax(s, key, LastMaxIndex(s, key))
  {
    if |s| > 1 {
      LastMaxIndexCorrect(s[..|s| - 1], key);
    }
  }

  /** Each of the two properties pins its index down uniquely. */
  lemma FirstMinUnique(s: seq<Point>, key: SortKey, i: nat)
    requires IsFirstMin(s, key, i)
    ensures i == FirstMinIndex(s, key)
  {
    FirstMinIndexCorrect(s, key);
  }

  lemma LastMaxUnique(s: seq<Point>, key: SortKey, i: nat)
    requires IsLastMax(s, key, i)
    ensures i == LastMaxIndex(s, key)
  {
    LastMaxIndexCorrect(s, key);
  }

  function Remove(s: seq<Point>, i: nat): (r: seq<Point>)
    requires i < |s|
    ensures |r| == |s| - 1
  {
    s[..i] + s[i + 1..]
  }

  lemma RemoveMultiset(s: seq<Point>, i: nat)
    requires i < |s|
    ensures multiset(Remove(s, i)) + multiset{s[i]} == multiset(s)
  {
    assert s == s[..i] + [s[i]] + s[i + 1..];
  }

  lemma RemoveAt(s: seq<Point>, i: nat, j: nat)
    requires i < |s| && j < |s| - 1
    ensures Remove(s, i)[j] == if j < i then s[j] else s[j + 1]
  {
  }

  /** `[...s].sort((a, b) => KeyOf(key, a) - KeyOf(key, b))` with a stable sort. */
  function StableSort(s: seq<Point>, key: SortKey): (r: seq<Point>)
    ensures |r| == |s|
    decreases |s|
  {
    if s == [] then []
    else
      var m := FirstMinIndex(s, key);
      [s[m]] + StableSort(Remove(s, m), key)
  }

  /** The sort only reorders: the output is a permutation of the input. */
  lemma {:induction false} StableSortPermutation(s: seq<Point>, key: SortKey)
    ensures multiset(StableSort(s, key)) == multiset(s)
    decreases |s|
  {
    if s != [] {
      var m := FirstMinIndex(s, key);
      StableSortPermutation(Remove(s, m), key);
      RemoveMultiset(s, m);
    }
  }

  predicate SortedBy(r: seq<Point>, key: SortKey) {
    forall i, j :: 0 <= i < j < |r| ==> KeyOf(key, r[i]) <= KeyOf(key, r[j])
  }

  /** No element of `s` has a smaller key than `v`. */
  predicate IsLowerBound(v: Point, s: seq<Point>, key: SortKey) {
    forall j :: 0 <= j < |s| ==> KeyOf(key, v) <= KeyOf(key, s[j])
  }

  lemma SortedCons(v: Point, r: seq<Point>, key: SortKey)
    requires SortedBy(r, key) && IsLowerBound(v, r, key)
    ensures SortedBy([v] + r, key)
  {
  }

  /** A bound on the input is a bound on its rearrangements. */
  lemma LowerBoundPermutation(v: Point, s: seq<Point>, r: seq<Point>, key: SortKey)
    requires multiset(r) == multiset(s) && IsLowerBound(v, s, key)
    ensures IsLowerBound(v, r, key)
  {
    forall j | 0 <= j < |r| ensures KeyOf(key, v) <= KeyOf(key, r[j]) {
      assert r[j] in multiset(s);
    }
  }

  lemma RemoveLowerBound(s: seq<Point>, m: nat, key: SortKey)
    requires IsFirstMin(s, key, m)
    ensures IsLowerBound(s[m], Remove(s, m), key)
  {
    forall j | 0 <= j < |s| - 1 ensures KeyOf(key, s[m]) <= KeyOf(key, Remove(s, m)[j]) {
      RemoveAt(s, m, j);
    }
  }

  lemma {:induction false} StableSortSorted(s: seq<Point>, key: SortKey)
    ensures SortedBy(StableSort(s, key), key)
    decreases |s|
  {
    if s != [] {
      var m := FirstMinIndex(s, key);
      var t := Remove(s, m);
      StableSortSorted(t, key);
      StableSortPermutation(t, key);
      FirstMinIndexCorrect(s, key);
      RemoveLowerBound(s, m, key);
      LowerBoundPermutation(s[m], t, StableSort(t, key), key);
      SortedCons(s[m], StableSort(t, key), key);
    }
  }

  /** With at least two elements, the first least and the last greatest index differ. */
  lemma MinIndexNotMaxIndex(s: seq<Point>, key: SortKey)
    requires |s| > 1
    ensures FirstMinIndex(s, key) != LastMaxIndex(s, key)
  {
    var m := FirstMinIndex(s, key);
    var l := LastMaxIndex(s, key);
    FirstMinIndexCorrect(s, key);
    LastMaxIndexCorrect(s, key);
    if KeyOf(key, s[m]) == KeyOf(key, s[l]) {
      // every key is equal, so the first least is the first element and the
      // last greatest the last one
      assert KeyOf(key, s[0]) == KeyOf(key, s[m]);
      assert KeyOf(key, s[|s| - 1]) == KeyOf(key, s[l]);
      assert m == 0 && l == |s| - 1;
    }
  }

  /** Removing any other element keeps the last greatest element last greatest. */
  lemma RemoveKeepsLastMax(s: seq<Point>, key: SortKey, m: nat)
    requires |s| > 1 && m < |s| && m != LastMaxIndex(s, key)
    ensures Remove(s, m)[LastMaxIndex(Remove(s, m), key)] == s[LastMaxIndex(s, key)]
  {
    var l := LastMaxIndex(s, key);
    var t := Remove(s, m);
    var l' := if l < m then l else l - 1;
    LastMaxIndexCorrect(s, key);
    RemoveAt(s, m, l');
    forall j | 0 <= j < |t| ensures KeyOf(key, t[j]) <= KeyOf(key, t[l']) && (l' < j ==> KeyOf(key, t[j]) < KeyOf(key, t[l'])) {
      RemoveAt(s, m, j);
    }
    LastMaxUnique(t, key, l');
  }

  /** The last element of the sorted sequence is the last input element with the
      greatest key. */
  lemma {:induction false} StableSortLast(s: seq<Point>, key: SortKey)
    requires |s| > 0
    ensures StableSort(s, key)[|s| - 1] == s[LastMaxIndex(s, key)]
    decreases |s|
  {
    if |s| > 1 {
      var m := FirstMinIndex(s, key);
      var t := Remove(s, m);
      MinIndexNotMaxIndex(s, key);
      RemoveKeepsLastMax(s, key, m);
      StableSortLast(t, key);
      assert StableSort(s, key)[|s| - 1] == StableSort(t, key)[|t| - 1];
    }
  }

  /** Sorting two elements stably swaps them only when the first key is greater. */
  lemma StableSortPair(a: Point, b: Point, key: SortKey)
    ensures StableSort([a, b], key) == if KeyOf(key, a) <= KeyOf(key, b) then [a, b] else [b, a]
  {
    var s := [a, b];
    if KeyOf(key, a) <= KeyOf(key, b) {
      assert FirstMinIndex(s, key) == 0;
      assert Remove(s, 0) == [b];
    } else {
      assert FirstMinIndex(s, key) == 1;
      assert Remove(s, 1) == [a];
    }
  }

  /** `sortCorners`: sort by x+y; the first is top-left and the last
      bottom-right; the middle two are sorted by y-x into top-right and
      bottom-left. The result is `[topLeft, topRight, bottomRight, bottomLeft]`. */
  function SortCorners(c: seq<Point>): (r: seq<Point>)
    requires |c| == 4
    ensures |r| == 4
  {
    SplitMiddle(StableSort(c, BySum))
  }

  /** The second half of `sortCorners`, given the points in x+y order. */
  function SplitMiddle(sorted: seq<Point>): (r: seq<Point>)
    requires |sorted| == 4
    ensures |r| == 4
  {
    var remaining := StableSort([sorted[1], sorted[2]], ByDiff);
    [sorted[0], remaining[0], sorted[3], remaining[1]]
  }

  /** The two middle points swap exactly when the first has the greater y-x. */
  lemma SplitMiddleShape(t: seq<Point>)
    requires |t| == 4
    ensures Diff(t[1]) <= Diff(t[2]) ==> SplitMiddle(t) == [t[0], t[1], t[3], t[2]]
    ensures Diff(t[2]) < Diff(t[1]) ==> SplitMiddle(t) == [t[0], t[2], t[3], t[1]]
  {
    StableSortPair(t[1], t[2], ByDiff);
  }

  lemma Multiset4<T>(t: seq<T>)
    requires |t| == 4
    ensures multiset(t) == multiset{t[0], t[1], t[2], t[3]}
  {
    assert t == [t[0], t[1], t[2], t[3]];
  }

  lemma SplitMiddlePermutation(t: seq<Point>)
    requires |t| == 4
    ensures multiset(SplitMiddle(t)) == multiset(t)
  {
    SplitMiddleShape(t);
    Multiset4(t);
    Multiset4(SplitMiddle(t));
  }

  /** `sortCorners` only reorders its four points. */
  lemma SortCornersPermutation(c: seq<Point>)
    requires |c| == 4
    ensures multiset(SortCorners(c)) == multiset(c)
  {
    StableSortPermutation(c, BySum);
    SplitMiddlePermutation(StableSort(c, BySum));
  }

  /** The top-left output is the first input point with the least x+y and the
      bottom-right output the last input point with the greatest x+y (the sort
      is stable); every input lies between them in x+y. */
  lemma SortCornersEnds(c: seq<Point>)
    requires |c| == 4
    ensures SortCorners(c)[0] == c[FirstMinIndex(c, BySum)]
    ensures SortCorners(c)[2] == c[LastMaxIndex(c, BySum)]
    ensures forall j :: 0 <= j < 4 ==> Sum(SortCorners(c)[0]) <= Sum(c[j]) <= Sum(SortCorners(c)[2])
  {
    FirstMinIndexCorrect(c, BySum);
    LastMaxIndexCorrect(c, BySum);
    StableSortLast(c, BySum);
  }

  /** The top-right and bottom-left outputs are the two middle points in x+y,
      ordered by y-x; with equal y-x they keep their x+y order. */
  lemma SortCornersMiddle(c: seq<Point>)
    requires |c| == 4
    ensures Sum(SortCorners(c)[0]) <= Sum(SortCorners(c)[1]) <= Sum(SortCorners(c)[2])
    ensures Sum(SortCorners(c)[0]) <= Sum(SortCorners(c)[3]) <= Sum(SortCorners(c)[2])
    ensures Diff(SortCorners(c)[1]) <= Diff(SortCorners(c)[3])
    ensures Diff(SortCorners(c)[1]) == Diff(SortCorners(c)[3]) ==> Sum(SortCorners(c)[1]) <= Sum(SortCorners(c)[3])
  {
    var sorted := StableSort(c, BySum);
    StableSortSorted(c, BySum);
    SplitMiddleShape(sorted);
  }

  /** Everything `sortCorners` promises, in one place. */
  lemma SortCornersSpec(c: seq<Point>)
    requires |c| == 4
    ensures multiset(SortCorners(c)) == multiset(c)
    ensures SortCorners(c)[0] == c[FirstMinIndex(c, BySum)]
    ensures SortCorners(c)[2] == c[LastMaxIndex(c, BySum)]
    ensures forall j :: 0 <= j < 4 ==> Sum(SortCorners(c)[0]) <= Sum(c[j]) <= Sum(SortCorners(c)[2])
    ensures Sum(SortCorners(c)[0]) <= Sum(SortCorners(c)[1]) <= Sum(SortCorners(c)[2])
    ensures Sum(SortCorners(c)[0]) <= Sum(SortCorners(c)[3]) <= Sum(SortCorners(c)[2])
    ensures Diff(SortCorners(c)[1]) <= Diff(SortCorners(c)[3])
    ensures Diff(SortCorners(c)[1]) == Diff(SortCorners(c)[3]) ==> Sum(SortCorners(c)[1]) <= Sum(SortCorners(c)[3])
  {
    SortCornersPermutation(c);
    SortCornersEnds(c);
    SortCornersMiddle(c);
  }

  /** Four points in the order `sortCorners` produces: the top-left is the first
      least x+y, the bottom-right is the last greatest x+y, and the other two are
      in y-x order (x+y order on a tie). A bottom-left point with the same x+y
      as the bottom-right must be the same point. */
  predicate IsCanonical(o: seq<Point>) {
    && |o| == 4
    && (forall j :: 0 <= j < 4 ==> Sum(o[0]) <= Sum(o[j]) <= Sum(o[2]))
    && (Sum(o[3]) < Sum(o[2]) || o[3] == o[2])
    && Diff(o[1]) <= Diff(o[3])
    && (Diff(o[1]) == Diff(o[3]) ==> Sum(o[1]) <= Sum(o[3]))
  }

  /** Two arrangements of the same four points that agree at two places agree on
      the other two up to order. */
  lemma MiddlePair<T>(a: T, d: T, x: T, y: T, p: T, q: T)
    requires multiset{a, x, y, d} == multiset{a, p, d, q}
    ensures (x == p && y == q) || (x == q && y == p)
  {
    assert multiset{a, x, y, d}[x] == multiset{a, p, d, q}[x];
    assert multiset{a, x, y, d}[y] == multiset{a, p, d, q}[y];
  }

  /** Sorting a canonical quadrilateral by x+y keeps its top-left first and
      puts its bottom-right last, with the other two in between. */
  lemma CanonicalSortedBySum(o: seq<Point>)
    requires IsCanonical(o)
    ensures StableSort(o, BySum)[0] == o[0] && StableSort(o, BySum)[3] == o[2]
    ensures multiset(StableSort(o, BySum)) == multiset(o)
    ensures Sum(StableSort(o, BySum)[1]) <= Sum(StableSort(o, BySum)[2])
  {
    FirstMinUnique(o, BySum, 0);
    if Sum(o[3]) < Sum(o[2]) {
      LastMaxUnique(o, BySum, 2);
    } else {
      LastMaxUnique(o, BySum, 3);
    }
    StableSortLast(o, BySum);
    StableSortPermutation(o, BySum);
    StableSortSorted(o, BySum);
  }

  /** Splitting the middle of any x+y ordering of a canonical quadrilateral
      gives the quadrilateral back. */
  lemma SplitMiddleRestores(t: seq<Point>, o: seq<Point>)
    requires IsCanonical(o) && |t| == 4 && multiset(t) == multiset(o)
    requires t[0] == o[0] && t[3] == o[2] && Sum(t[1]) <= Sum(t[2])
    ensures SplitMiddle(t) == o
  {
    Multiset4(t);
    Multiset4(o);
    MiddlePair(o[0], o[2], t[1], t[2], o[1], o[3]);
    SplitMiddleShape(t);
    if t[1] == o[3] && t[2] == o[1] && Diff(o[1]) == Diff(o[3]) {
      // equal y-x and equal x+y: the two points coincide
      assert o[1].x == o[3].x && o[1].y == o[3].y;
    }
    assert o == [o[0], o[1], o[2], o[3]];
  }

  /** A canonical quadrilateral is left as it is. */
  lemma CanonicalFixed(o: seq<Point>)
    requires IsCanonical(o)
    ensures SortCorners(o) == o
  {
    CanonicalSortedBySum(o);
    SplitMiddleRestores(StableSort(o, BySum), o);
  }

  /** Four points `sortCorners` leaves unchanged are canonical. */
  lemma FixedIsCanonical(o: seq<Point>)
    requires |o| == 4 && SortCorners(o) == o
    ensures IsCanonical(o)
  {
    SortCornersEnds(o);
    SortCornersMiddle(o);
    assert o[LastMaxIndex(o, BySum)] == o[2];
  }

  /** `sortCorners` leaves four points unchanged exactly when they are canonical. */
  lemma FixedIffCanonical(o: seq<Point>)
    requires |o| == 4
    ensures SortCorners(o) == o <==> IsCanonical(o)
  {
    if SortCorners(o) == o {
      FixedIsCanonical(o);
    } else if IsCanonical(o) {
      CanonicalFixed(o);
    }
  }

  /** Re-canonicalising a canonical quadrilateral leaves it unchanged whenever
      its bottom-right corner has a strictly greater x+y than its bottom-left,
      or is the same point. */
  lemma SortCornersIdempotent(c: seq<Point>)
    requires |c| == 4
    requires Sum(SortCorners(c)[3]) < Sum(SortCorners(c)[2]) || SortCorners(c)[3] == SortCorners(c)[2]
    ensures SortCorners(SortCorners(c)) == SortCorners(c)
  {
    var o := SortCorners(c);
    SortCornersSpec(c);
    assert IsCanonical(o) by {
      forall j | 0 <= j < 4 ensures Sum(o[0]) <= Sum(o[j]) <= Sum(o[2]) {
        assert o[j] in multiset(c) by {
          assert o[j] in multiset(o);
        }
      }
    }
    CanonicalFixed(o);
  }

  /** Sorting an already sorted sequence keeps it as it is (stability). */
  lemma {:induction false} StableSortOfSorted(s: seq<Point>, key: SortKey)
    requires SortedBy(s, key)
    ensures StableSort(s, key) == s
    decreases |s|
  {
    if s != [] {
      FirstMinUnique(s, key, 0);
      assert Remove(s, 0) == s[1..];
      StableSortOfSorted(s[1..], key);
    }
  }

  /** The quadrilateral of the next lemma, and what `sortCorners` makes of it. */
  function TieQuad(): seq<Point> {
    [Point(0.0, 5.0), Point(10.0, 0.0), Point(5.0, 20.0), Point(10.0, 15.0)]
  }

  function TieQuadSorted(): seq<Point> {
    [Point(0.0, 5.0), Point(10.0, 0.0), Point(10.0, 15.0), Point(5.0, 20.0)]
  }

  /** On points already in x+y order only the middle pair can move. */
  lemma SortCornersOfSorted(s: seq<Point>)
    requires |s| == 4 && SortedBy(s, BySum)
    ensures SortCorners(s) == SplitMiddle(s)
  {
    StableSortOfSorted(s, BySum);
  }

  lemma TieQuadSortsOnce()
    ensures SortCorners(TieQuad()) == TieQuadSorted()
  {
    var c := TieQuad();
    assert SortedBy(c, BySum);
    SortCornersOfSorted(c);
    SplitMiddleShape(c);
  }

  lemma TieQuadSortsBack()
    ensures SortCorners(TieQuadSorted()) == TieQuad()
  {
    var o := TieQuadSorted();
    assert SortedBy(o, BySum);
    SortCornersOfSorted(o);
    SplitMiddleShape(o);
  }

  /** Without that condition re-canonicalising can swap the two bottom corners:
      this convex quadrilateral has equal x+y at (10,15) and (5,20), and each
      call of `sortCorners` exchanges them. */
  lemma SortCornersNotIdempotentOnTie()
    ensures SortCorners(SortCorners(TieQuad())) != SortCorners(TieQuad())
  {
    TieQuadSortsOnce();
    TieQuadSortsBack();
    assert TieQuad()[2] != TieQuadSorted()[2];
  }

  /** The full-frame rectangle of a non-degenerate image is already canonical. */
  lemma RectIsCanonical(w: real, h: real)
    requires w > 0.0 && h > 0.0
    ensures SortCorners(Rect(w, h)) == Rect(w, h)
  {
    assert IsCanonical(Rect(w, h));
    CanonicalFixed(Rect(w, h));
  }
}
