/** The gesture events of the C lock screen (mousepass.c) and the two computations
    over a captured gesture: normalisation into a unit box (normalize_events) and
    the similarity score between two gestures (compare_passwords). */
module Gesture {

  /** The largest finite C double; normalize_events starts its minimum search from it
      and its maximum search from its negation. */
  const DBL_MAX: real := 179769313486231570000000000000000000000000000000000000000000000000000000000000000000000000000000000000000000000000000000000000000000000000000000000000000000000000000000000000000000000000000000000000000000000000000000000000000000000000000000000000000000000000000000000000000000000000000000000000000000.0

  /** Below this bounding-box size a gesture counts as stationary and is not rescaled. */
  const MIN_SCALE: real := 0.00001

  /** One captured pointer event: where it happened, its kind ('m' for a move,
      'c' for a click) and the seconds elapsed since the capture started. */
  datatype MouseEvent = MouseEvent(x: real, y: real, kind: char, time: real)

  /** The coordinates are finite doubles. */
  predicate InRange(e: MouseEvent)
  {
    -DBL_MAX <= e.x <= DBL_MAX && -DBL_MAX <= e.y <= DBL_MAX
  }

  predicate AllInRange(s: seq<MouseEvent>)
  {
    forall i :: 0 <= i < |s| ==> InRange(s[i])
  }

  datatype Axis = X | Y

  function Coord(e: MouseEvent, a: Axis): real
  {
    match a
    case X => e.x
    case Y => e.y
  }

  /** fmin and fmax on the reals. */
  function Min(a: real, b: real): real { if a <= b then a else b }
  function Max(a: real, b: real): real { if a >= b then a else b }

  /** The running minimum of normalize_events' first loop after it has seen s,
      starting from DBL_MAX. */
  function Lowest(s: seq<MouseEvent>, a: Axis): real
  {
    if s == [] then DBL_MAX else Min(Lowest(s[..|s| - 1], a), Coord(s[|s| - 1], a))
  }

  /** The running maximum of the same loop, starting from -DBL_MAX. */
  function Highest(s: seq<MouseEvent>, a: Axis): real
  {
    if s == [] then -DBL_MAX else Max(Highest(s[..|s| - 1], a), Coord(s[|s| - 1], a))
  }

  /** The loop's minimum is the least coordinate of a non-empty gesture. */
  lemma {:induction false} LowestIsLeast(s: seq<MouseEvent>, a: Axis)
    requires |s| > 0 && AllInRange(s)
    ensures forall i :: 0 <= i < |s| ==> Lowest(s, a) <= Coord(s[i], a)
    ensures exists i :: 0 <= i < |s| && Lowest(s, a) == Coord(s[i], a)
  {
    var n := |s| - 1;
    assert InRange(s[n]);
    if n == 0 {
      assert Lowest(s, a) == Coord(s[0], a);
    } else {
      var p := s[..n];
      assert AllInRange(p) by { forall i | 0 <= i < |p| ensures InRange(p[i]) { assert p[i] == s[i]; } }
      LowestIsLeast(p, a);
      var j :| 0 <= j < |p| && Lowest(p, a) == Coord(p[j], a);
      assert p[j] == s[j];
      forall i | 0 <= i < |s| ensures Lowest(s, a) <= Coord(s[i], a) {
        if i < n { assert p[i] == s[i]; }
      }
      if Lowest(s, a) == Lowest(p, a) {
        assert Lowest(s, a) == Coord(s[j], a);
      } else {
        assert Lowest(s, a) == Coord(s[n], a);
      }
    }
  }

  /** The loop's maximum is the greatest coordinate of a non-empty gesture. */
  lemma {:induction false} HighestIsGreatest(s: seq<MouseEvent>, a: Axis)
    requires |s| > 0 && AllInRange(s)
    ensures forall i :: 0 <= i < |s| ==> Coord(s[i], a) <= Highest(s, a)
    ensures exists i :: 0 <= i < |s| && Highest(s, a) == Coord(s[i], a)
  {
    var n := |s| - 1;
    assert InRange(s[n]);
    if n == 0 {
      assert Highest(s, a) == Coord(s[0], a);
    } else {
      var p := s[..n];
      assert AllInRange(p) by { forall i | 0 <= i < |p| ensures InRange(p[i]) { assert p[i] == s[i]; } }
      HighestIsGreatest(p, a);
      var j :| 0 <= j < |p| && Highest(p, a) == Coord(p[j], a);
      assert p[j] == s[j];
      forall i | 0 <= i < |s| ensures Coord(s[i], a) <= Highest(s, a) {
        if i < n { assert p[i] == s[i]; }
      }
      if Highest(s, a) == Highest(p, a) {
        assert Highest(s, a) == Coord(s[j], a);
      } else {
        assert Highest(s, a) == Coord(s[n], a);
      }
    }
  }

  /** Width and height of the bounding box. */
  function Extent(s: seq<MouseEvent>, a: Axis): real
  {
    Highest(s, a) - Lowest(s, a)
  }

  /** max(width, height) before the clamp. */
  function RawScale(s: seq<MouseEvent>): real
  {
    Max(Extent(s, X), Extent(s, Y))
  }

  /** The divisor normalize_events uses: max(width, height), or 1.0 for a stationary gesture. */
  function Scale(s: seq<MouseEvent>): (r: real)
    ensures r >= MIN_SCALE
  {
    if RawScale(s) < MIN_SCALE then 1.0 else RawScale(s)
  }

  /** One event moved so that (minX, minY) is the origin and divided by scale. */
  function Rescaled(e: MouseEvent, minX: real, minY: real, scale: real): MouseEvent
    requires scale > 0.0
  {
    e.(x := (e.x - minX) / scale, y := (e.y - minY) / scale)
  }

  /** What normalize_events leaves in the buffer: the empty gesture unchanged,
      otherwise every point shifted by the bounding box's corner and divided by the scale.
      Count, kinds and times are kept. */
  function Normalized(s: seq<MouseEvent>): (r: seq<MouseEvent>)
    ensures |r| == |s|
    ensures forall i :: 0 <= i < |s| ==> r[i].kind == s[i].kind && r[i].time == s[i].time
  {
    if |s| == 0 then []
    else seq(|s|, i requires 0 <= i < |s| => Rescaled(s[i], Lowest(s, X), Lowest(s, Y), Scale(s)))
  }

  /** A coordinate between the minimum and the maximum lands in [0, 1]. */
  lemma RescaledInUnit(v: real, lo: real, hi: real, raw: real, scale: real)
    requires lo <= v <= hi && hi - lo <= raw
    requires scale == (if raw < MIN_SCALE then 1.0 else raw)
    ensures 0.0 <= (v - lo) / scale <= 1.0
  {
    if raw < MIN_SCALE {
      assert (v - lo) / scale == v - lo;
    } else {
      assert v - lo <= scale;
      assert (v - lo) / scale <= scale / scale;
    }
  }

  /** Every normalised coordinate lies in [0, 1]. */
  lemma NormalizedInUnitBox(s: seq<MouseEvent>)
    requires AllInRange(s)
    ensures forall i :: 0 <= i < |s| ==>
      0.0 <= Normalized(s)[i].x <= 1.0 && 0.0 <= Normalized(s)[i].y <= 1.0
  {
    if |s| > 0 {
      LowestIsLeast(s, X);
      LowestIsLeast(s, Y);
      HighestIsGreatest(s, X);
      HighestIsGreatest(s, Y);
      var r := Normalized(s);
      forall i | 0 <= i < |s| ensures 0.0 <= r[i].x <= 1.0 && 0.0 <= r[i].y <= 1.0 {
        RescaledInUnit(s[i].x, Lowest(s, X), Highest(s, X), RawScale(s), Scale(s));
        RescaledInUnit(s[i].y, Lowest(s, Y), Highest(s, Y), RawScale(s), Scale(s));
      }
    }
  }

  /** The least x and the least y of the gesture both map to 0. */
  lemma NormalizedTouchesAxes(s: seq<MouseEvent>)
    requires |s| > 0 && AllInRange(s)
    ensures exists i :: 0 <= i < |s| && Normalized(s)[i].x == 0.0
    ensures exists j :: 0 <= j < |s| && Normalized(s)[j].y == 0.0
  {
    LowestIsLeast(s, X);
    LowestIsLeast(s, Y);
    var i :| 0 <= i < |s| && Lowest(s, X) == Coord(s[i], X);
    var j :| 0 <= j < |s| && Lowest(s, Y) == Coord(s[j], Y);
    assert Normalized(s)[i].x == 0.0;
    assert Normalized(s)[j].y == 0.0;
  }

  /** Unless the gesture is stationary, the longer side of its bounding box
      spans exactly [0, 1]: its greatest coordinate maps to 1. */
  lemma NormalizedLongerSideIsOne(s: seq<MouseEvent>)
    requires |s| > 0 && AllInRange(s)
    requires RawScale(s) >= MIN_SCALE
    ensures Extent(s, X) >= Extent(s, Y) ==> exists i :: 0 <= i < |s| && Normalized(s)[i].x == 1.0
    ensures Extent(s, X) < Extent(s, Y) ==> exists i :: 0 <= i < |s| && Normalized(s)[i].y == 1.0
  {
    HighestIsGreatest(s, X);
    HighestIsGreatest(s, Y);
    var i :| 0 <= i < |s| && Highest(s, X) == Coord(s[i], X);
    var j :| 0 <= j < |s| && Highest(s, Y) == Coord(s[j], Y);
    var w, h := Extent(s, X), Extent(s, Y);
    if w >= h {
      assert Scale(s) == w;
      assert Normalized(s)[i].x == w / w;
      DivSelf(w);
    } else {
      assert Scale(s) == h;
      assert Normalized(s)[j].y == h / h;
      DivSelf(h);
    }
  }

  lemma DivSelf(v: real)
    requires v != 0.0
    ensures v / v == 1.0
  {
  }

  /** The gesture moved by (dx, dy). */
  function Translated(s: seq<MouseEvent>, dx: real, dy: real): (r: seq<MouseEvent>)
    ensures |r| == |s|
  {
    seq(|s|, i requires 0 <= i < |s| => s[i].(x := s[i].x + dx, y := s[i].y + dy))
  }

  function Offset(a: Axis, dx: real, dy: real): real
  {
    match a
    case X => dx
    case Y => dy
  }

  lemma {:induction false} LowestTranslated(s: seq<MouseEvent>, dx: real, dy: real, a: Axis)
    requires |s| > 0 && AllInRange(s) && AllInRange(Translated(s, dx, dy))
    ensures Lowest(Translated(s, dx, dy), a) == Lowest(s, a) + Offset(a, dx, dy)
    ensures Highest(Translated(s, dx, dy), a) == Highest(s, a) + Offset(a, dx, dy)
  {
    var t := Translated(s, dx, dy);
    var n := |s| - 1;
    assert InRange(s[n]) && InRange(t[n]);
    if n > 0 {
      var p := s[..n];
      assert t[..n] == Translated(p, dx, dy);
      assert AllInRange(p) by { forall i | 0 <= i < |p| ensures InRange(p[i]) { assert p[i] == s[i]; } }
      assert AllInRange(Translated(p, dx, dy)) by {
        forall i | 0 <= i < n ensures InRange(Translated(p, dx, dy)[i]) { assert Translated(p, dx, dy)[i] == t[i]; }
      }
      LowestTranslated(p, dx, dy, a);
    }
  }

  /** Normalisation does not depend on where on the screen the gesture was drawn. */
  lemma NormalizedTranslationInvariant(s: seq<MouseEvent>, dx: real, dy: real)
    requires AllInRange(s) && AllInRange(Translated(s, dx, dy))
    ensures Normalized(Translated(s, dx, dy)) == Normalized(s)
  {
    if |s| > 0 {
      var t := Translated(s, dx, dy);
      LowestTranslated(s, dx, dy, X);
      LowestTranslated(s, dx, dy, Y);
      assert Extent(t, X) == Extent(s, X) && Extent(t, Y) == Extent(s, Y);
      assert Scale(t) == Scale(s);
      forall i | 0 <= i < |s| ensures Normalized(t)[i] == Normalized(s)[i] {
        assert t[i].x - Lowest(t, X) == s[i].x - Lowest(s, X);
        assert t[i].y - Lowest(t, Y) == s[i].y - Lowest(s, Y);
      }
    }
  }

  // ---------------------------------------------------------------------------
  // compare_passwords

  /** The square root is supplied by the math library; all the score relies on is that
      it is zero at zero and never negative. */
  ghost predicate SqrtLike(sqrt: real -> real)
  {
    sqrt(0.0) == 0.0 && forall v :: 0.0 <= v ==> 0.0 <= sqrt(v)
  }

  function SquaredDistance(a: MouseEvent, b: MouseEvent): real
  {
    (a.x - b.x) * (a.x - b.x) + (a.y - b.y) * (a.y - b.y)
  }

  /** Euclidean distance between two events. */
  function Distance(a: MouseEvent, b: MouseEvent, sqrt: real -> real): real
  {
    sqrt(SquaredDistance(a, b))
  }

  /** 1 - min(1, distance): full marks for the same spot, none from distance 1 on. */
  function PositionTerm(a: MouseEvent, b: MouseEvent, sqrt: real -> real): real
  {
    1.0 - Min(1.0, Distance(a, b, sqrt))
  }

  function TypeTerm(a: MouseEvent, b: MouseEvent): real
  {
    if a.kind == b.kind then 1.0 else 0.0
  }

  /** The position scores of the first n index-aligned pairs. */
  function PositionSum(r: seq<MouseEvent>, c: seq<MouseEvent>, n: nat, sqrt: real -> real): real
    requires n <= |r| && n <= |c|
  {
    if n == 0 then 0.0 else PositionSum(r, c, n - 1, sqrt) + PositionTerm(r[n - 1], c[n - 1], sqrt)
  }

  /** The number of the first n index-aligned pairs that agree in kind. */
  function TypeSum(r: seq<MouseEvent>, c: seq<MouseEvent>, n: nat): real
    requires n <= |r| && n <= |c|
  {
    if n == 0 then 0.0 else TypeSum(r, c, n - 1) + TypeTerm(r[n - 1], c[n - 1])
  }

  function ShorterLength(r: seq<MouseEvent>, c: seq<MouseEvent>): nat
  {
    if |r| < |c| then |r| else |c|
  }

  /** The score compare_passwords returns: 0 when either gesture is empty, otherwise
      0.7 times the mean position score plus 0.3 times the mean kind agreement over the
      first min(|recorded|, |input|) events. */
  function Similarity(recorded: seq<MouseEvent>, input: seq<MouseEvent>, sqrt: real -> real): real
  {
    if |recorded| == 0 || |input| == 0 then 0.0
    else
      var n := ShorterLength(recorded, input);
      0.7 * (PositionSum(recorded, input, n, sqrt) / n as real)
        + 0.3 * (TypeSum(recorded, input, n) / n as real)
  }

  /** compare_passwords: one pass over the aligned prefix, accumulating both scores. */
  method ComparePasswords(recorded: seq<MouseEvent>, input: seq<MouseEvent>, sqrt: real -> real)
    returns (similarity: real)
    ensures similarity == Similarity(recorded, input, sqrt)
  {
    if |recorded| == 0 || |input| == 0 {
      return 0.0;
    }
    var positionScore := 0.0;
    var typeScore := 0.0;
    var minCount := if |recorded| < |input| then |recorded| else |input|;
    for i := 0 to minCount
      invariant positionScore == PositionSum(recorded, input, i, sqrt)
      invariant typeScore == TypeSum(recorded, input, i)
    {
      var dx := recorded[i].x - input[i].x;
      var dy := recorded[i].y - input[i].y;
      var dist := sqrt(dx * dx + dy * dy);
      assert dx * dx + dy * dy == SquaredDistance(recorded[i], input[i]);
      positionScore := positionScore + (1.0 - Min(1.0, dist));
      if recorded[i].kind == input[i].kind {
        typeScore := typeScore + 1.0;
      }
    }
    positionScore := positionScore / minCount as real;
    typeScore := typeScore / minCount as real;
    similarity := 0.7 * positionScore + 0.3 * typeScore;
  }

  lemma {:induction false} SumsBounded(r: seq<MouseEvent>, c: seq<MouseEvent>, n: nat, sqrt: real -> real)
    requires SqrtLike(sqrt) && n <= |r| && n <= |c|
    ensures 0.0 <= PositionSum(r, c, n, sqrt) <= n as real
    ensures 0.0 <= TypeSum(r, c, n) <= n as real
  {
    if n > 0 {
      SumsBounded(r, c, n - 1, sqrt);
      var dx := r[n - 1].x - c[n - 1].x;
      var dy := r[n - 1].y - c[n - 1].y;
      assert 0.0 <= dx * dx && 0.0 <= dy * dy;
      assert 0.0 <= SquaredDistance(r[n - 1], c[n - 1]);
    }
  }

  lemma MeanInUnit(sum: real, n: real)
    requires n > 0.0 && 0.0 <= sum <= n
    ensures 0.0 <= sum / n <= 1.0
  {
    DivideBoth(sum, n, n);
    DivSelf(n);
  }

  lemma DivideBoth(a: real, b: real, n: real)
    requires n > 0.0 && a <= b
    ensures a / n <= b / n
  {
  }

  /** The score is always in [0, 1]. */
  lemma SimilarityInUnitInterval(recorded: seq<MouseEvent>, input: seq<MouseEvent>, sqrt: real -> real)
    requires SqrtLike(sqrt)
    ensures 0.0 <= Similarity(recorded, input, sqrt) <= 1.0
    ensures |recorded| == 0 || |input| == 0 ==> Similarity(recorded, input, sqrt) == 0.0
  {
    if |recorded| > 0 && |input| > 0 {
      var n := ShorterLength(recorded, input);
      SumsBounded(recorded, input, n, sqrt);
      MeanInUnit(PositionSum(recorded, input, n, sqrt), n as real);
      MeanInUnit(TypeSum(recorded, input, n), n as real);
    }
  }

  lemma {:induction false} SumsOfItself(s: seq<MouseEvent>, n: nat, sqrt: real -> real)
    requires SqrtLike(sqrt) && n <= |s|
    ensures PositionSum(s, s, n, sqrt) == n as real
    ensures TypeSum(s, s, n) == n as real
  {
    if n > 0 {
      SumsOfItself(s, n - 1, sqrt);
      assert SquaredDistance(s[n - 1], s[n - 1]) == 0.0;
    }
  }

  /** A non-empty gesture compared with itself scores exactly 1.0 = 0.7 + 0.3. */
  lemma SimilarityOfItself(s: seq<MouseEvent>, sqrt: real -> real)
    requires SqrtLike(sqrt) && |s| > 0
    ensures Similarity(s, s, sqrt) == 1.0
  {
    SumsOfItself(s, |s|, sqrt);
  }

  lemma {:induction false} SumsOfPrefix(r: seq<MouseEvent>, c: seq<MouseEvent>, r': seq<MouseEvent>, c': seq<MouseEvent>,
                                        n: nat, sqrt: real -> real)
    requires n <= |r| && n <= |c| && n <= |r'| && n <= |c'|
    requires r[..n] == r'[..n] && c[..n] == c'[..n]
    ensures PositionSum(r, c, n, sqrt) == PositionSum(r', c', n, sqrt)
    ensures TypeSum(r, c, n) == TypeSum(r', c', n)
  {
    if n > 0 {
      assert r[..n - 1] == r[..n][..n - 1] && r'[..n - 1] == r'[..n][..n - 1];
      assert c[..n - 1] == c[..n][..n - 1] && c'[..n - 1] == c'[..n][..n - 1];
      SumsOfPrefix(r, c, r', c', n - 1, sqrt);
      assert r[n - 1] == r[..n][n - 1] && r'[n - 1] == r'[..n][n - 1];
      assert c[n - 1] == c[..n][n - 1] && c'[n - 1] == c'[..n][n - 1];
    }
  }

  /** Events past the shorter gesture's length play no part in the score. */
  lemma SimilarityIgnoresTail(recorded: seq<MouseEvent>, input: seq<MouseEvent>, sqrt: real -> real)
    ensures var n := ShorterLength(recorded, input);
      Similarity(recorded, input, sqrt) == Similarity(recorded[..n], input[..n], sqrt)
  {
    var n := ShorterLength(recorded, input);
    SumsOfPrefix(recorded, input, recorded[..n], input[..n], n, sqrt);
  }

  /** Square roots that never decrease. */
  ghost predicate Monotone(sqrt: real -> real)
  {
    forall u, v :: 0.0 <= u <= v ==> sqrt(u) <= sqrt(v)
  }

  /** The gesture with every point pushed d to the right. */
  function Shifted(s: seq<MouseEvent>, d: real): (r: seq<MouseEvent>)
    ensures |r| == |s|
  {
    seq(|s|, i requires 0 <= i < |s| => s[i].(x := s[i].x + d))
  }

  lemma {:induction false} SumsOfShifted(s: seq<MouseEvent>, d: real, n: nat, sqrt: real -> real)
    requires n <= |s|
    ensures PositionSum(s, Shifted(s, d), n, sqrt) == n as real * (1.0 - Min(1.0, sqrt(d * d)))
    ensures TypeSum(s, Shifted(s, d), n) == n as real
  {
    if n > 0 {
      SumsOfShifted(s, d, n - 1, sqrt);
      var a, b := s[n - 1], Shifted(s, d)[n - 1];
      var t := 1.0 - Min(1.0, sqrt(d * d));
      assert SquaredDistance(a, b) == d * d;
      assert PositionTerm(a, b, sqrt) == t;
      assert (n - 1) as real * t + t == n as real * t;
    }
  }

  /** A copy pushed d to the right scores 0.7 (1 - min(1, |d|)) + 0.3. */
  lemma SimilarityOfShifted(s: seq<MouseEvent>, d: real, sqrt: real -> real)
    requires |s| > 0
    ensures Similarity(s, Shifted(s, d), sqrt) == 0.7 * (1.0 - Min(1.0, sqrt(d * d))) + 0.3
  {
    var c := Shifted(s, d);
    var n := |s| as real;
    var t := 1.0 - Min(1.0, sqrt(d * d));
    assert ShorterLength(s, c) == |s|;
    SumsOfShifted(s, d, |s|, sqrt);
    MeanOfConstant(n, t);
    DivSelf(n);
    assert PositionSum(s, c, |s|, sqrt) / n == t;
    assert TypeSum(s, c, |s|) / n == 1.0;
  }

  lemma MeanOfConstant(n: real, t: real)
    requires n > 0.0
    ensures (n * t) / n == t
  {
  }

  lemma SquareMonotone(u: real, v: real)
    requires 0.0 <= u <= v
    ensures u * u <= v * v
  {
    assert u * u <= u * v <= v * v;
  }

  /** The score degrades monotonically as a copy of the gesture is pushed further away. */
  lemma SimilarityDegradesWithOffset(s: seq<MouseEvent>, d1: real, d2: real, sqrt: real -> real)
    requires Monotone(sqrt) && 0.0 <= d1 <= d2
    ensures Similarity(s, Shifted(s, d2), sqrt) <= Similarity(s, Shifted(s, d1), sqrt)
  {
    if |s| > 0 {
      SimilarityOfShifted(s, d1, sqrt);
      SimilarityOfShifted(s, d2, sqrt);
      SquareMonotone(d1, d2);
      assert sqrt(d1 * d1) <= sqrt(d2 * d2);
    }
  }
}
