/**
 The straight line between two pixels, defined without reference to how it is
 drawn: a pixel is on the line when its distance to the true line, measured along
 the minor axis, is at most half a pixel (ties go one way).
 */
module LineGeometry {

  datatype Point = Point(x: int, y: int)
  datatype Line = Line(x1: int, y1: int, x2: int, y2: int)

  function Dx(l: Line): nat { if l.x2 > l.x1 then l.x2 - l.x1 else l.x1 - l.x2 }
  function Dy(l: Line): nat { if l.y2 > l.y1 then l.y2 - l.y1 else l.y1 - l.y2 }
  /** k counted in the direction from a to b. */
  function Toward(a: int, b: int, k: int): int { if b > a then k else -k }
  predicate Flat(l: Line) { Dx(l) > Dy(l) }
  function Major(l: Line): nat { if Flat(l) then Dx(l) else Dy(l) }
  function Minor(l: Line): nat { if Flat(l) then Dy(l) else Dx(l) }
  function Start(l: Line): Point { Point(l.x1, l.y1) }
  function End(l: Line): Point { Point(l.x2, l.y2) }
  function Reversed(l: Line): Line { Line(l.x2, l.y2, l.x1, l.y1) }

  /** Steps from the start along the major and along the minor axis. */
  function Along(l: Line, p: Point): int {
    if Flat(l) then Toward(l.x1, l.x2, p.x - l.x1) else Toward(l.y1, l.y2, p.y - l.y1)
  }
  function Across(l: Line, p: Point): int {
    if Flat(l) then Toward(l.y1, l.y2, p.y - l.y1) else Toward(l.x1, l.x2, p.x - l.x1)
  }

  /** n * k as a repeated sum, which the solver unfolds one step at a time. */
  function Times(n: int, k: int): int
    decreases if k < 0 then -k else k
  {
    if k == 0 then 0 else if k > 0 then Times(n, k - 1) + n else Times(n, k + 1) - n
  }

  lemma {:induction false} TimesIsProduct(n: int, k: int)
    ensures Times(n, k) == n * k
    decreases if k < 0 then -k else k
  {
    if k > 0 {
      TimesIsProduct(n, k - 1);
    } else if k < 0 {
      TimesIsProduct(n, k + 1);
    }
  }

  /** Twice the length of the major axis times the deviation from the true line. */
  function Deviation(major: int, minor: int, k: int, j: int): int { 2 * Times(minor, k) - 2 * Times(major, j) }

  lemma DeviationProduct(major: int, minor: int, k: int, j: int)
    ensures Deviation(major, minor, k, j) == 2 * minor * k - 2 * major * j
  {
    TimesIsProduct(minor, k);
    TimesIsProduct(major, j);
  }

  /** After k major steps, j is the number of minor steps nearest to the true line. */
  predicate Nearest(major: int, minor: int, k: int, j: int) {
    if major == 0 then j == 0 else -major <= Deviation(major, minor, k, j) < major
  }

  predicate OnLine(l: Line, p: Point) {
    && 0 <= Along(l, p) <= Major(l)
    && Nearest(Major(l), Minor(l), Along(l, p), Across(l, p))
  }

  /** The point k major and j minor steps from the start. */
  function PointAt(l: Line, k: int, j: int): (p: Point)
    ensures Along(l, p) == k && Across(l, p) == j
  {
    if Flat(l) then Point(l.x1 + Toward(l.x1, l.x2, k), l.y1 + Toward(l.y1, l.y2, j))
    else Point(l.x1 + Toward(l.x1, l.x2, j), l.y1 + Toward(l.y1, l.y2, k))
  }

  lemma PointAtInverse(l: Line, p: Point)
    ensures PointAt(l, Along(l, p), Across(l, p)) == p
  {
  }

  lemma TimesMonotone(n: nat, i: int, j: int)
    ensures i <= j ==> Times(n, i) <= Times(n, j)
    ensures n > 0 && Times(n, i) < Times(n, j) ==> i < j
    ensures Times(n, i + 1) == Times(n, i) + n && Times(n, i - 1) == Times(n, i) - n
  {
    TimesIsProduct(n, i);
    TimesIsProduct(n, j);
    ProductMonotone(n, i, j);
    TimesNext(n, i);
    TimesNext(n, i - 1);
  }

  lemma ProductMonotone(n: nat, i: int, j: int)
    ensures i <= j ==> n * i <= n * j
    ensures n > 0 && n * i < n * j ==> i < j
  {
    var d := j - i;
    assert n * j - n * i == n * d;
    if d >= 0 { assert n * d >= 0; } else { assert n * (-d) >= 0; }
  }

  lemma TimesNext(n: nat, i: int)
    ensures Times(n, i + 1) == Times(n, i) + n
  {
  }

  /** Nearest minor steps advance by zero or one for each major step, and are unique for one. */
  lemma NearestTouch(major: nat, minor: nat, k: int, i: int, k': int, j: int)
    requires minor <= major && k <= k' <= k + 1
    requires Nearest(major, minor, k, i) && Nearest(major, minor, k', j)
    ensures i <= j <= i + (k' - k)
  {
    if major > 0 {
      TimesMonotone(minor, k, k');
      TimesMonotone(major, i, i);
      TimesMonotone(major, j, j);
      TimesMonotone(major, i - 1, j);
      TimesMonotone(major, j - 1, i + (k' - k));
    }
  }

  /** A nearest minor step lies between the two end points. */
  lemma NearestBounds(major: nat, minor: nat, k: int, j: int)
    requires minor <= major && 0 <= k <= major
    requires Nearest(major, minor, k, j)
    ensures 0 <= j <= minor
  {
    if major > 0 {
      EndDeviation(major, minor);
      TimesMonotone(minor, 0, k);
      TimesMonotone(minor, k, major);
      TimesMonotone(major, 0, 0);
      TimesMonotone(major, minor, minor);
      TimesMonotone(major, -1, j);
      TimesMonotone(major, j, minor + 1);
    }
  }

  lemma EndDeviation(major: int, minor: int)
    ensures Deviation(major, minor, 0, 0) == 0 && Deviation(major, minor, major, minor) == 0
    ensures Times(minor, major) == Times(major, minor)
  {
    TimesIsProduct(minor, major);
    TimesIsProduct(major, minor);
  }

  /** The line stays inside the box spanned by its end points. */
  lemma InBoundingBox(l: Line, p: Point)
    requires OnLine(l, p)
    ensures (if l.x1 <= l.x2 then l.x1 <= p.x <= l.x2 else l.x2 <= p.x <= l.x1)
    ensures (if l.y1 <= l.y2 then l.y1 <= p.y <= l.y2 else l.y2 <= p.y <= l.y1)
  {
    NearestBounds(Major(l), Minor(l), Along(l, p), Across(l, p));
  }

  /**
   The same in coordinates: between the ends along the longer axis, and with twice the cross product of
   the line and the way to p within the longer distance, one of the two limits excluded.
   */
  lemma OnLineInCoordinates(l: Line, p: Point)
    ensures var dx, dy := l.x2 - l.x1, l.y2 - l.y1;
      var cross := 2 * (dy * (p.x - l.x1) - dx * (p.y - l.y1));
      var e := if (dx > 0) == (dy > 0) then cross else -cross;
      OnLine(l, p) <==>
        if dx == 0 && dy == 0 then p.x == l.x1 && p.y == l.y1
        else if (if dx > 0 then dx else -dx) > (if dy > 0 then dy else -dy) then
          (l.x1 <= p.x <= l.x2 || l.x2 <= p.x <= l.x1) && (if dx > 0 then -dx <= e < dx else dx <= e < -dx)
        else
          (l.y1 <= p.y <= l.y2 || l.y2 <= p.y <= l.y1) && (if dy > 0 then -dy <= -e < dy else dy <= -e < -dy)
  {
    DeviationProduct(Major(l), Minor(l), Along(l, p), Across(l, p));
    CrossProduct(l, p);
  }

  lemma CrossProduct(l: Line, p: Point)
    ensures var dx, dy := l.x2 - l.x1, l.y2 - l.y1;
      var cross := 2 * (dy * (p.x - l.x1) - dx * (p.y - l.y1));
      var e := if (dx > 0) == (dy > 0) then cross else -cross;
      2 * Minor(l) * Along(l, p) - 2 * Major(l) * Across(l, p) == if Flat(l) then e else -e
  {
  }

  /** A level stroke is a row of pixels. */
  lemma LevelStroke(x1: int, x2: int, y: int, p: Point)
    requires x1 <= x2
    ensures OnLine(Line(x1, y, x2, y), p) <==> p.y == y && x1 <= p.x <= x2
  {
    var l := Line(x1, y, x2, y);
    if OnLine(l, p) {
      InBoundingBox(l, p);
    } else if p.y == y && x1 <= p.x <= x2 {
      DeviationProduct(Major(l), 0, Along(l, p), 0);
    }
  }

  /** An upright stroke is a column of pixels. */
  lemma UprightStroke(x: int, y1: int, y2: int, p: Point)
    requires y1 <= y2
    ensures OnLine(Line(x, y1, x, y2), p) <==> p.x == x && y1 <= p.y <= y2
  {
    var l := Line(x, y1, x, y2);
    if OnLine(l, p) {
      InBoundingBox(l, p);
    } else if p.x == x && y1 <= p.y <= y2 {
      DeviationProduct(Major(l), 0, Along(l, p), 0);
    }
  }

  lemma HoldsBothEnds(l: Line)
    ensures OnLine(l, Start(l)) && OnLine(l, End(l))
    ensures Along(l, End(l)) == Major(l)
  {
    assert Along(l, Start(l)) == 0 && Across(l, Start(l)) == 0;
    assert Along(l, End(l)) == Major(l) && Across(l, End(l)) == Minor(l);
    EndDeviation(Major(l), Minor(l));
  }

  /** The one pixel of the line after k major steps. */
  ghost function Step(l: Line, k: int): Point
    requires 0 <= k <= Major(l)
  {
    NearestExists(Major(l), Minor(l), k);
    var j: int :| Nearest(Major(l), Minor(l), k, j);
    PointAt(l, k, j)
  }

  lemma StepMeaning(l: Line, k: int)
    requires 0 <= k <= Major(l)
    ensures OnLine(l, Step(l, k)) && Along(l, Step(l, k)) == k
  {
    NearestExists(Major(l), Minor(l), k);
  }

  lemma NearestExists(major: nat, minor: nat, k: int)
    requires 0 <= k
    ensures exists j: int :: Nearest(major, minor, k, j)
  {
    if major == 0 {
      assert Nearest(major, minor, k, 0);
    } else {
      var n := 2 * minor * k + major;
      assert n >= 0 by { assert minor * k >= 0; }
      var j := n / (2 * major);
      assert n == 2 * major * j + n % (2 * major);
      DeviationProduct(major, minor, k, j);
      assert Nearest(major, minor, k, j);
    }
  }

  lemma StepIsUnique(l: Line, p: Point)
    requires OnLine(l, p)
    ensures p == Step(l, Along(l, p))
  {
    var q := Step(l, Along(l, p));
    StepMeaning(l, Along(l, p));
    NearestTouch(Major(l), Minor(l), Along(l, p), Across(l, p), Along(l, q), Across(l, q));
    PointAtInverse(l, p);
    PointAtInverse(l, q);
  }

  ghost function FirstPixels(l: Line, n: nat): set<Point>
    requires n <= Major(l) + 1
  {
    if n == 0 then {} else FirstPixels(l, n - 1) + {Step(l, n - 1)}
  }

  lemma {:induction false} FirstPixelsMeaning(l: Line, n: nat)
    requires n <= Major(l) + 1
    ensures |FirstPixels(l, n)| == n
    ensures forall p :: p in FirstPixels(l, n) <==> OnLine(l, p) && Along(l, p) < n
  {
    if n > 0 {
      var k: nat := n - 1;
      FirstPixelsMeaning(l, k);
      StepMeaning(l, k);
      OneMore(FirstPixels(l, k), Step(l, k));
      forall p ensures p in FirstPixels(l, n) <==> OnLine(l, p) && Along(l, p) < n {
        OneStepMore(l, k, p);
      }
    }
  }

  lemma OneMore(before: set<Point>, p: Point)
    requires p !in before
    ensures |before + {p}| == |before| + 1
  {
  }

  /** A pixel of the first k + 1 is one of the first k, or the one of step k. */
  lemma OneStepMore(l: Line, k: nat, p: Point)
    requires k <= Major(l)
    ensures OnLine(l, p) && Along(l, p) < k + 1 <==> (OnLine(l, p) && Along(l, p) < k) || p == Step(l, k)
  {
    StepMeaning(l, k);
    if OnLine(l, p) && Along(l, p) == k {
      StepIsUnique(l, p);
    }
  }

  /** The pixels of a line. */
  ghost function LinePixels(l: Line): set<Point> { FirstPixels(l, Major(l) + 1) }

  lemma LinePixelsMeaning(l: Line)
    ensures forall p :: p in LinePixels(l) <==> OnLine(l, p)
  {
    FirstPixelsMeaning(l, Major(l) + 1);
  }

  /** A line has exactly max(dx, dy) + 1 pixels. */
  lemma PixelCount(l: Line)
    ensures |LinePixels(l)| == (if Dx(l) > Dy(l) then Dx(l) else Dy(l)) + 1
  {
    FirstPixelsMeaning(l, Major(l) + 1);
  }

  /** Consecutive pixels touch: both coordinates change by at most one. */
  lemma StepsTouch(l: Line, k: int)
    requires 0 <= k < Major(l)
    ensures var p, q := Step(l, k), Step(l, k + 1); -1 <= q.x - p.x <= 1 && -1 <= q.y - p.y <= 1 && p != q
  {
    var p, q := Step(l, k), Step(l, k + 1);
    StepMeaning(l, k);
    StepMeaning(l, k + 1);
    NearestTouch(Major(l), Minor(l), k, Across(l, p), k + 1, Across(l, q));
    PointAtInverse(l, p);
    PointAtInverse(l, q);
  }

  // ---------------------------------------------------------------- reversal

  /** No pixel column lies exactly half way between two candidates. */
  predicate TieFree(major: nat, minor: nat)
    decreases major
  {
    if major == 0 then true
    else if major % 2 == 0 && minor % 2 == 0 then TieFree(major / 2, minor / 2)
    else major % 2 == 1
  }

  predicate Tie(major: nat, minor: nat, k: int, j: int) { Deviation(major, minor, k, j) == major }

  lemma {:induction false} TieFreeExcludesTies(major: nat, minor: nat, k: int, j: int)
    requires TieFree(major, minor) && major > 0
    ensures !Tie(major, minor, k, j)
    decreases major
  {
    if major % 2 == 0 {
      var h, m := major / 2, minor / 2;
      TieFreeExcludesTies(h, m, k, j);
      DeviationDoubles(h, m, k, j);
    } else {
      OddHasNoTie(major, minor, k, j);
    }
  }

  /** Twice the deviation would have to be odd. */
  lemma OddHasNoTie(major: nat, minor: nat, k: int, j: int)
    requires major % 2 == 1
    ensures !Tie(major, minor, k, j)
  {
    var even, odd := minor * k, major * (2 * j + 1);
    DeviationProduct(major, minor, k, j);
    OddTimesOdd(major, 2 * j + 1);
    assert odd == 2 * major * j + major;
    assert 2 * minor * k == 2 * even;
  }

  lemma OddTimesOdd(a: int, b: int)
    requires a % 2 == 1 && b % 2 == 1
    ensures (a * b) % 2 == 1
  {
    var c, d := a / 2, b / 2;
    assert a == 2 * c + 1 && b == 2 * d + 1;
    assert a * b == 2 * (2 * (c * d) + c + d) + 1;
  }

  lemma {:induction false} TieWitness(major: nat, minor: nat) returns (k: int, j: int)
    requires !TieFree(major, minor)
    ensures 0 <= k <= major && Tie(major, minor, k, j)
    decreases major
  {
    var h, m := major / 2, minor / 2;
    if minor % 2 == 0 {
      k, j := TieWitness(h, m);
      DeviationDoubles(h, m, k, j);
    } else {
      k, j := h, m;
      DeviationProduct(major, minor, k, j);
      assert 2 * (2 * m + 1) * h - 2 * (2 * h) * m == 2 * h;
    }
  }

  lemma DeviationDoubles(major: int, minor: int, k: int, j: int)
    ensures Deviation(2 * major, 2 * minor, k, j) == 2 * Deviation(major, minor, k, j)
  {
    DeviationProduct(major, minor, k, j);
    DeviationProduct(2 * major, 2 * minor, k, j);
    assert 2 * (2 * minor) * k - 2 * (2 * major) * j == 2 * (2 * minor * k - 2 * major * j);
  }

  lemma MirroredDeviation(major: int, minor: int, k: int, j: int)
    ensures Deviation(major, minor, major - k, minor - j) == -Deviation(major, minor, k, j)
  {
    TimesMirrored(minor, major, k);
    TimesMirrored(major, minor, j);
    EndDeviation(major, minor);
  }

  lemma TimesMirrored(n: int, m: int, k: int)
    ensures Times(n, m - k) == Times(n, m) - Times(n, k)
  {
    TimesIsProduct(n, m - k);
    TimesIsProduct(n, m);
    TimesIsProduct(n, k);
    assert n * (m - k) == n * m - n * k;
  }

  /** Reversing the end points mirrors the steps. */
  lemma ReversedSteps(l: Line, p: Point)
    requires Minor(l) > 0
    ensures var r := Reversed(l);
            && Major(r) == Major(l) && Minor(r) == Minor(l)
            && Along(r, p) == Major(l) - Along(l, p) && Across(r, p) == Minor(l) - Across(l, p)
  {
  }

  /** A reversed line keeps every pixel but those that lie exactly half a pixel off. */
  lemma OnReversed(l: Line, p: Point)
    requires OnLine(l, p)
    ensures OnLine(Reversed(l), p) <==> Major(l) == 0 || !Tie(Major(l), Minor(l), Along(l, p), Across(l, p) - 1)
  {
    if Minor(l) > 0 {
      SlopedReversed(l, p);
    } else {
      LevelReversed(l, p);
    }
  }

  lemma SlopedReversed(l: Line, p: Point)
    requires OnLine(l, p) && Minor(l) > 0
    ensures OnLine(Reversed(l), p) <==> !Tie(Major(l), Minor(l), Along(l, p), Across(l, p) - 1)
  {
    var major, minor, k, j := Major(l), Minor(l), Along(l, p), Across(l, p);
    ReversedSteps(l, p);
    MirroredDeviation(major, minor, k, j);
    TimesMonotone(major, j, j);
  }

  /** A line without minor steps has no ties. */
  lemma LevelReversed(l: Line, p: Point)
    requires OnLine(l, p) && Minor(l) == 0
    ensures OnLine(Reversed(l), p)
    ensures Major(l) > 0 ==> !Tie(Major(l), Minor(l), Along(l, p), Across(l, p) - 1)
  {
    var major, k := Major(l), Along(l, p);
    NearestBounds(major, 0, k, Across(l, p));
    DeviationProduct(major, 0, k, 0);
    DeviationProduct(major, 0, major - k, 0);
    TimesMonotone(major, 0, 0);
  }

  lemma ReversalKeeps(l: Line, p: Point)
    requires OnLine(l, p) && TieFree(Major(l), Minor(l))
    ensures OnLine(Reversed(l), p)
  {
    if Major(l) > 0 {
      TieFreeExcludesTies(Major(l), Minor(l), Along(l, p), Across(l, p) - 1);
    }
    OnReversed(l, p);
  }

  lemma NextAfterTie(major: nat, minor: nat, k: int, j: int)
    requires major > 0 && Tie(major, minor, k, j)
    ensures Nearest(major, minor, k, j + 1)
  {
    TimesMonotone(major, j, j);
  }

  lemma ReversalLoses(l: Line) returns (p: Point)
    requires !TieFree(Major(l), Minor(l))
    ensures OnLine(l, p) && !OnLine(Reversed(l), p)
  {
    var major, minor := Major(l), Minor(l);
    var k, j := TieWitness(major, minor);
    p := PointAt(l, k, j + 1);
    NextAfterTie(major, minor, k, j);
    assert Along(l, p) == k && Across(l, p) - 1 == j;
    OnReversed(l, p);
  }

  /** Drawing a line backwards touches the same pixels exactly when no pixel is a tie. */
  lemma ReversalTheorem(l: Line)
    ensures (forall p :: OnLine(l, p) <==> OnLine(Reversed(l), p)) <==> TieFree(Major(l), Minor(l))
  {
    if TieFree(Major(l), Minor(l)) {
      var r := Reversed(l);
      assert Reversed(r) == l && Major(r) == Major(l) && Minor(r) == Minor(l);
      forall p ensures OnLine(l, p) <==> OnLine(r, p) {
        if OnLine(l, p) { ReversalKeeps(l, p); }
        if OnLine(r, p) { ReversalKeeps(r, p); }
      }
    } else {
      var p := ReversalLoses(l);
    }
  }
}
