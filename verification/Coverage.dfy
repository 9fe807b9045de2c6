/** The scanline rasteriser (tools/render-icons.py, `coverage`), over the reals. */
module Coverage {
  datatype Point = Point(x: real, y: real)

  datatype Edge = Edge(x0: real, y0: real, x1: real, y1: real)

  /** Where an edge meets a scanline, and whether it goes up (1) or down (-1) there. */
  datatype Crossing = Crossing(x: real, direction: int)

  const SUBSCANLINES := 16

  // ---------------------------------------------------------------- edges

  function Times(a: real, scale: real): real {
    a * scale
  }

  function ScalePoint(p: Point, sx: real, sy: real): Point {
    Point(Times(p.x, sx), Times(p.y, sy))
  }

  function Scaled(polygon: seq<Point>, sx: real, sy: real): (r: seq<Point>)
    ensures |r| == |polygon|
  {
    seq(|polygon|, i requires 0 <= i < |polygon| => ScalePoint(polygon[i], sx, sy))
  }

  /** The end of side `i` of a closed polygon. */
  function Next(points: seq<Point>, i: nat): Point
    requires i < |points|
  {
    (points[1..] + points[..1])[i]
  }

  /** The sides `0..k` of a closed polygon that are not horizontal. */
  function Sides(points: seq<Point>, k: nat): seq<Edge>
    requires k <= |points|
  {
    if k == 0 then []
    else
      var p, q := points[k - 1], Next(points, k - 1);
      Sides(points, k - 1) + Side(p, q)
  }

  function Side(p: Point, q: Point): seq<Edge> {
    if p.y != q.y then [Edge(p.x, p.y, q.x, q.y)] else []
  }

  function AllSides(polygons: seq<seq<Point>>, sx: real, sy: real): seq<Edge> {
    if polygons == [] then []
    else
      var last := Scaled(polygons[|polygons| - 1], sx, sy);
      AllSides(polygons[..|polygons| - 1], sx, sy) + Sides(last, |last|)
  }

  // ---------------------------------------------------------------- crossings

  predicate Crosses(e: Edge, y: real) {
    e.y0 <= y < e.y1 || e.y1 <= y < e.y0
  }

  function MeetsAt(e: Edge, y: real): real
    requires e.y0 != e.y1
  {
    e.x0 + (y - e.y0) * (e.x1 - e.x0) / (e.y1 - e.y0)
  }

  function CrossingOf(e: Edge, y: real): Crossing
    requires Crosses(e, y)
  {
    Crossing(MeetsAt(e, y), if e.y0 <= y < e.y1 then 1 else -1)
  }

  function Crossings(edges: seq<Edge>, y: real): seq<Crossing> {
    if edges == [] then []
    else
      var e := edges[|edges| - 1];
      Crossings(edges[..|edges| - 1], y) + if Crosses(e, y) then [CrossingOf(e, y)] else []
  }

  /** The crossing is the point of the edge's line at that height, between the edge's ends. */
  lemma {:induction false} CrossingIsOnEdge(e: Edge, y: real)
    requires Crosses(e, y)
    ensures (CrossingOf(e, y).x - e.x0) * (e.y1 - e.y0) == (y - e.y0) * (e.x1 - e.x0)
    ensures e.x0 <= CrossingOf(e, y).x <= e.x1 || e.x1 <= CrossingOf(e, y).x <= e.x0
  {
    var t := (y - e.y0) / (e.y1 - e.y0);
    assert 0.0 <= t <= 1.0 by { FractionIsProper(y - e.y0, e.y1 - e.y0); }
    var d := e.x1 - e.x0;
    assert CrossingOf(e, y).x == e.x0 + t * d by { Regroup(y - e.y0, d, e.y1 - e.y0); }
    assert (t * d) * (e.y1 - e.y0) == (t * (e.y1 - e.y0)) * d by { Swap(t, d, e.y1 - e.y0); }
    Between(t, d);
  }

  lemma {:induction false} FractionIsProper(a: real, b: real)
    requires (b > 0.0 && 0.0 <= a <= b) || (b < 0.0 && b <= a <= 0.0)
    ensures 0.0 <= a / b <= 1.0
  {
  }

  lemma {:induction false} Regroup(a: real, d: real, b: real)
    requires b != 0.0
    ensures a * d / b == (a / b) * d
  {
  }

  lemma {:induction false} Swap(a: real, b: real, c: real)
    ensures (a * b) * c == (a * c) * b
  {
  }

  lemma {:induction false} Between(t: real, d: real)
    requires 0.0 <= t <= 1.0
    ensures 0.0 <= t * d <= d || d <= t * d <= 0.0
  {
  }

  function DirectionSum(cs: seq<Crossing>): int {
    if cs == [] then 0 else DirectionSum(cs[..|cs| - 1]) + cs[|cs| - 1].direction
  }

  lemma {:induction false} DirectionsAdd(a: seq<Crossing>, b: seq<Crossing>)
    ensures DirectionSum(a + b) == DirectionSum(a) + DirectionSum(b)
  {
    if b == [] {
      assert a + b == a;
    } else {
      assert (a + b)[..|a + b| - 1] == a + b[..|b| - 1];
      DirectionsAdd(a, b[..|b| - 1]);
    }
  }

  lemma {:induction false} CrossingsAdd(a: seq<Edge>, b: seq<Edge>, y: real)
    ensures Crossings(a + b, y) == Crossings(a, y) + Crossings(b, y)
  {
    if b == [] {
      assert a + b == a;
    } else {
      assert (a + b)[..|a + b| - 1] == a + b[..|b| - 1];
      CrossingsAdd(a, b[..|b| - 1], y);
    }
  }

  function Above(p: Point, y: real): int {
    if p.y > y then 1 else 0
  }

  lemma {:induction false} SideDirection(p: Point, q: Point, y: real)
    ensures DirectionSum(Crossings(Side(p, q), y)) == Above(q, y) - Above(p, y)
  {
  }

  /** Going round the sides of a polygon, the directions add up to the change of side of the scanline. */
  lemma {:induction false} OneSideMore(points: seq<Point>, k: nat, y: real)
    requires 0 < k <= |points|
    ensures DirectionSum(Crossings(Sides(points, k), y)) ==
      DirectionSum(Crossings(Sides(points, k - 1), y)) + Above(Next(points, k - 1), y) - Above(points[k - 1], y)
  {
    hide Crossings, DirectionSum, Side, Above, Next;
    var p, q := points[k - 1], Next(points, k - 1);
    var before := Sides(points, k - 1);
    CrossingsAdd(before, Side(p, q), y);
    DirectionsAdd(Crossings(before, y), Crossings(Side(p, q), y));
    SideDirection(p, q, y);
  }

  lemma {:induction false} NoSides(points: seq<Point>, y: real)
    ensures DirectionSum(Crossings(Sides(points, 0), y)) == 0
  {
  }

  lemma {:induction false} NextIs(points: seq<Point>, i: nat)
    requires i < |points|
    ensures Next(points, i) == if i + 1 == |points| then points[0] else points[i + 1]
  {
  }

  lemma {:induction false} SidesTelescope(points: seq<Point>, k: nat, y: real)
    requires k <= |points| && points != []
    ensures DirectionSum(Crossings(Sides(points, k), y)) ==
      Above(if k == |points| then points[0] else points[k], y) - Above(points[0], y)
  {
    hide Crossings, DirectionSum, Sides, Above, Next;
    if k == 0 {
      NoSides(points, y);
    } else {
      NextIs(points, k - 1);
      SidesTelescope(points, k - 1, y);
      OneSideMore(points, k, y);
    }
  }
  /** On every scanline, the directions of the crossings of closed polygons cancel. */
  lemma {:induction false} DirectionsCancel(polygons: seq<seq<Point>>, sx: real, sy: real, y: real)
    ensures DirectionSum(Crossings(AllSides(polygons, sx, sy), y)) == 0
  {
    if polygons == [] {
    } else {
      var last := Scaled(polygons[|polygons| - 1], sx, sy);
      var rest := AllSides(polygons[..|polygons| - 1], sx, sy);
      DirectionsCancel(polygons[..|polygons| - 1], sx, sy, y);
      CrossingsAdd(rest, Sides(last, |last|), y);
      DirectionsAdd(Crossings(rest, y), Crossings(Sides(last, |last|), y));
      if last != [] { SidesTelescope(last, |last|, y); }
    }
  }

  // ---------------------------------------------------------------- winding

  /** The winding number just right of `x`: the directions of the crossings at `x` or left of it. */
  function Winding(cs: seq<Crossing>, x: real): int {
    if cs == [] then 0
    else Winding(cs[..|cs| - 1], x) + if cs[|cs| - 1].x <= x then cs[|cs| - 1].direction else 0
  }

  predicate Before(a: Crossing, b: Crossing) {
    a.x < b.x || (a.x == b.x && a.direction <= b.direction)
  }

  predicate Sorted(cs: seq<Crossing>) {
    forall i, j :: 0 <= i < j < |cs| ==> Before(cs[i], cs[j])
  }

  lemma {:induction false} WindingAdds(a: seq<Crossing>, b: seq<Crossing>, x: real)
    ensures Winding(a + b, x) == Winding(a, x) + Winding(b, x)
  {
    if b == [] {
      assert a + b == a;
    } else {
      assert (a + b)[..|a + b| - 1] == a + b[..|b| - 1];
      WindingAdds(a, b[..|b| - 1], x);
    }
  }

  lemma {:induction false} WindingOfOne(c: Crossing, x: real)
    ensures Winding([c], x) == if c.x <= x then c.direction else 0
  {
  }

  /** Sorting changes no winding number. */
  lemma {:induction false} WindingIgnoresOrder(a: seq<Crossing>, b: seq<Crossing>, x: real)
    requires multiset(a) == multiset(b)
    ensures Winding(a, x) == Winding(b, x)
  {
    if a == [] {
      assert |multiset(b)| == |b|;
    } else {
      var n := |a| - 1;
      var c := a[n];
      assert a == a[..n] + [c];
      assert c in multiset(b);
      var i :| 0 <= i < |b| && b[i] == c;
      var rest := b[..i] + b[i + 1..];
      TakenOut(b, i, x);
      assert multiset(a[..n]) == multiset(a) - multiset{c};
      WindingIgnoresOrder(a[..n], rest, x);
    }
  }

  lemma {:induction false} TakenOut(cs: seq<Crossing>, i: nat, x: real)
    requires i < |cs|
    ensures var rest := cs[..i] + cs[i + 1..];
      && multiset(rest) == multiset(cs) - multiset{cs[i]}
      && Winding(cs, x) == Winding(rest, x) + if cs[i].x <= x then cs[i].direction else 0
  {
    var tail := [cs[i]] + cs[i + 1..];
    assert cs == cs[..i] + tail;
    WindingAdds(cs[..i], tail, x);
    WindingAdds([cs[i]], cs[i + 1..], x);
    WindingAdds(cs[..i], cs[i + 1..], x);
    WindingOfOne(cs[i], x);
  }

  /** In sorted order, between two neighbours the winding number is the running sum. */
  lemma {:induction false} WindingIsRunningSum(cs: seq<Crossing>, i: nat, x: real)
    requires Sorted(cs) && i <= |cs|
    requires (i > 0 ==> cs[i - 1].x <= x) && (i < |cs| ==> x < cs[i].x)
    ensures Winding(cs, x) == DirectionSum(cs[..i])
  {
    WindingOfAllLeft(cs[..i], x);
    WindingOfNoneLeft(cs[i..], x);
    WindingAdds(cs[..i], cs[i..], x);
    assert cs == cs[..i] + cs[i..];
  }

  lemma {:induction false} WindingOfAllLeft(cs: seq<Crossing>, x: real)
    requires forall c :: c in cs ==> c.x <= x
    ensures Winding(cs, x) == DirectionSum(cs)
  {
    if cs == [] {
    } else {
      WindingOfAllLeft(cs[..|cs| - 1], x);
    }
  }

  lemma {:induction false} WindingOfNoneLeft(cs: seq<Crossing>, x: real)
    requires forall c :: c in cs ==> x < c.x
    ensures Winding(cs, x) == 0
  {
    if cs == [] {
    } else {
      WindingOfNoneLeft(cs[..|cs| - 1], x);
    }
  }

  // ---------------------------------------------------------------- spans

  /** The crossing at `i` opens a span that ends at the next one. */
  predicate Opens(cs: seq<Crossing>, i: nat)
    requires i < |cs|
  {
    DirectionSum(cs[..i + 1]) != 0 && i + 1 < |cs|
  }

  /** The last crossing at `x` or left of it. */
  lemma {:induction false} LastLeft(cs: seq<Crossing>, x: real) returns (i: nat)
    requires Sorted(cs)
    ensures i <= |cs| && (i > 0 ==> cs[i - 1].x <= x) && (i < |cs| ==> x < cs[i].x)
  {
    i := 0;
    while i < |cs| && cs[i].x <= x
      invariant i <= |cs| && (i > 0 ==> cs[i - 1].x <= x)
    {
      i := i + 1;
    }
  }

  /** A point lies in a span exactly when its winding number is not zero. */
  lemma {:induction false} SpansAreInside(cs: seq<Crossing>, x: real)
    requires Sorted(cs) && DirectionSum(cs) == 0
    ensures Winding(cs, x) != 0 <==> exists i: nat :: i < |cs| && Opens(cs, i) && cs[i].x <= x < cs[i + 1].x
  {
    var k := LastLeft(cs, x);
    WindingIsRunningSum(cs, k, x);
    assert cs[..|cs|] == cs;
    if Winding(cs, x) != 0 {
      assert k != 0 && k != |cs|;
      assert cs[..(k - 1) + 1] == cs[..k];
      assert Opens(cs, k - 1);
    }
    if i: nat :| i < |cs| && Opens(cs, i) && cs[i].x <= x < cs[i + 1].x {
      WindingIsRunningSum(cs, i + 1, x);
    }
  }

  // ---------------------------------------------------------------- lengths

  function Clamp(x: real, a: real, b: real): real {
    if x < a then a else if x > b then b else x
  }

  /** The length of `[left, right]` inside `[a, b]`. */
  function Overlap(left: real, right: real, a: real, b: real): real {
    var l, r := if left < a then a else left, if right > b then b else right;
    if l < r then r - l else 0.0
  }

  /** The length of the first `k` spans inside `[a, b]`. */
  function Covered(cs: seq<Crossing>, k: nat, a: real, b: real): real
    requires k <= |cs|
  {
    if k == 0 then 0.0
    else Covered(cs, k - 1, a, b) + if Opens(cs, k - 1) then Overlap(cs[k - 1].x, cs[k].x, a, b) else 0.0
  }

  lemma {:induction false} CoveredBounds(cs: seq<Crossing>, k: nat, a: real, b: real)
    requires Sorted(cs) && k < |cs| && a <= b
    ensures 0.0 <= Covered(cs, k, a, b) <= Clamp(cs[k].x, a, b) - Clamp(cs[0].x, a, b)
  {
    if k == 0 {
    } else {
      CoveredBounds(cs, k - 1, a, b);
      assert Before(cs[k - 1], cs[k]);
    }
  }

  /** The spans are disjoint: together they never exceed the interval they are measured in. */
  lemma {:induction false} CoveredAtMost(cs: seq<Crossing>, a: real, b: real)
    requires Sorted(cs) && a <= b
    ensures 0.0 <= Covered(cs, |cs|, a, b) <= b - a
  {
    if cs != [] { CoveredBounds(cs, |cs| - 1, a, b); }
  }

  /** Measuring is additive. */
  lemma {:induction false} CoveredSplits(cs: seq<Crossing>, k: nat, a: real, m: real, b: real)
    requires Sorted(cs) && k <= |cs| && a <= m <= b
    ensures Covered(cs, k, a, b) == Covered(cs, k, a, m) + Covered(cs, k, m, b)
  {
    if k == 0 {
    } else {
      CoveredSplits(cs, k - 1, a, m, b);
      if Opens(cs, k - 1) { assert Before(cs[k - 1], cs[k]); }
    }
  }

  /** A span that reaches into `[a, b]` gives its winding number to a point of `[a, b)`. */
  lemma {:induction false} NoReach(cs: seq<Crossing>, i: nat, a: real, b: real)
    requires Sorted(cs) && i + 1 < |cs|
    requires forall x :: a <= x < b ==> Winding(cs, x) != DirectionSum(cs[..i + 1])
    ensures Overlap(cs[i].x, cs[i + 1].x, a, b) == 0.0
  {
    var x := if cs[i].x < a then a else cs[i].x;
    if Overlap(cs[i].x, cs[i + 1].x, a, b) != 0.0 { WindingIsRunningSum(cs, i + 1, x); }
  }

  lemma {:induction false} NothingUpTo(cs: seq<Crossing>, k: nat, a: real, b: real)
    requires Sorted(cs) && k <= |cs| && a <= b
    requires forall x :: a <= x < b ==> Winding(cs, x) == 0
    ensures Covered(cs, k, a, b) == 0.0
  {
    if k == 0 {
    } else {
      NothingUpTo(cs, k - 1, a, b);
      if Opens(cs, k - 1) { NoReach(cs, k - 1, a, b); }
    }
  }

  lemma {:induction false} EverythingUpTo(cs: seq<Crossing>, k: nat, a: real, b: real)
    requires Sorted(cs) && k < |cs| && a <= b
    requires forall x :: a <= x < b ==> Winding(cs, x) != 0
    ensures Covered(cs, k, a, b) == Clamp(cs[k].x, a, b) - Clamp(cs[0].x, a, b)
  {
    if k == 0 {
    } else {
      EverythingUpTo(cs, k - 1, a, b);
      assert Before(cs[k - 1], cs[k]);
      if !Opens(cs, k - 1) { NoReach(cs, k - 1, a, b); }
    }
  }

  lemma {:induction false} CrossingsSurround(cs: seq<Crossing>, a: real, b: real)
    requires Sorted(cs) && DirectionSum(cs) == 0 && a < b
    requires forall x :: a <= x < b ==> Winding(cs, x) != 0
    ensures cs != [] && cs[0].x <= a && b <= cs[|cs| - 1].x
  {
    assert Winding(cs, a) != 0;
    var n := |cs| - 1;
    var x := if cs[n].x < a then a else cs[n].x;
    assert cs[..|cs|] == cs && cs[..0] == [];
    assert x < b ==> Winding(cs, x) != 0;
    if a < cs[0].x { WindingIsRunningSum(cs, 0, a); }
    if cs[n].x < b { WindingIsRunningSum(cs, |cs|, x); }
  }

  /** Where nothing winds, nothing is covered. */
  lemma {:induction false} NothingCovered(cs: seq<Crossing>, a: real, b: real)
    requires Sorted(cs) && a <= b
    requires forall x :: a <= x < b ==> Winding(cs, x) == 0
    ensures Covered(cs, |cs|, a, b) == 0.0
  {
    NothingUpTo(cs, |cs|, a, b);
  }

  /** Where everything winds, everything is covered. */
  lemma {:induction false} EverythingCovered(cs: seq<Crossing>, a: real, b: real)
    requires Sorted(cs) && DirectionSum(cs) == 0 && a < b
    requires forall x :: a <= x < b ==> Winding(cs, x) != 0
    ensures Covered(cs, |cs|, a, b) == b - a
  {
    CrossingsSurround(cs, a, b);
    EverythingUpTo(cs, |cs| - 1, a, b);
  }

  // ---------------------------------------------------------------- one scanline

  function Insert(c: Crossing, cs: seq<Crossing>): seq<Crossing> {
    if cs == [] || Before(c, cs[0]) then [c] + cs else [cs[0]] + Insert(c, cs[1..])
  }

  lemma {:induction false} InsertKeepsAll(c: Crossing, cs: seq<Crossing>)
    ensures multiset(Insert(c, cs)) == multiset(cs) + multiset{c}
  {
    if cs != [] && !Before(c, cs[0]) {
      InsertKeepsAll(c, cs[1..]);
      assert cs == [cs[0]] + cs[1..];
    }
  }

  lemma {:induction false} InsertSorts(c: Crossing, cs: seq<Crossing>)
    requires Sorted(cs)
    ensures Sorted(Insert(c, cs))
  {
    if cs != [] && !Before(c, cs[0]) {
      var rest := Insert(c, cs[1..]);
      InsertSorts(c, cs[1..]);
      InsertKeepsAll(c, cs[1..]);
      forall i | 0 <= i < |rest| ensures Before(cs[0], rest[i]) {
        assert rest[i] in multiset(rest);
        if rest[i] != c { assert rest[i] in cs[1..]; }
      }
    }
  }

  /** Python's order on the pairs (x, direction). */
  function Sort(cs: seq<Crossing>): (r: seq<Crossing>)
    ensures Sorted(r) && multiset(r) == multiset(cs)
  {
    if cs == [] then []
    else
      var c, rest := cs[|cs| - 1], Sort(cs[..|cs| - 1]);
      assert cs == cs[..|cs| - 1] + [c];
      InsertKeepsAll(c, rest);
      InsertSorts(c, rest);
      Insert(c, rest)
  }

  function SortedCrossings(edges: seq<Edge>, y: real): (r: seq<Crossing>)
    ensures Sorted(r)
  {
    Sort(Crossings(edges, y))
  }

  /** The non-zero rule: whether the point is inside the shape. */
  predicate Inside(edges: seq<Edge>, y: real, x: real) {
    Winding(Crossings(edges, y), x) != 0
  }

  function CoveredLength(edges: seq<Edge>, y: real, a: real, b: real): real {
    Covered(SortedCrossings(edges, y), |SortedCrossings(edges, y)|, a, b)
  }

  lemma {:induction false} DirectionsIgnoreOrder(a: seq<Crossing>, b: seq<Crossing>)
    requires multiset(a) == multiset(b)
    ensures DirectionSum(a) == DirectionSum(b)
  {
    var x := Rightmost(a);
    forall c | c in b ensures c.x <= x { assert c in multiset(a); }
    WindingOfAllLeft(a, x);
    WindingOfAllLeft(b, x);
    WindingIgnoresOrder(a, b, x);
  }

  function Rightmost(cs: seq<Crossing>): (x: real)
    ensures forall c :: c in cs ==> c.x <= x
  {
    if cs == [] then 0.0
    else
      var rest := Rightmost(cs[1..]);
      assert forall c :: c in cs ==> c == cs[0] || c in cs[1..];
      if cs[0].x > rest then cs[0].x else rest
  }

  /**
   On a scanline of closed polygons, no span is left open: the last crossing brings the winding number back to zero.
   */
  lemma {:induction false} LastCrossingCloses(polygons: seq<seq<Point>>, sx: real, sy: real, y: real)
    ensures DirectionSum(SortedCrossings(AllSides(polygons, sx, sy), y)) == 0
  {
    var cs := Crossings(AllSides(polygons, sx, sy), y);
    DirectionsCancel(polygons, sx, sy, y);
    DirectionsIgnoreOrder(Sort(cs), cs);
  }

  /**
   What is accumulated on a scanline is the length of the inside of the shape: it is additive over intervals, the
   whole of an interval that lies inside and nothing of one that lies outside.
   */
  lemma {:induction false} CoveredLengthIsExact(polygons: seq<seq<Point>>, sx: real, sy: real, y: real, a: real,
      m: real, b: real)
    requires a <= m <= b
    ensures var edges := AllSides(polygons, sx, sy);
      && CoveredLength(edges, y, a, b) == CoveredLength(edges, y, a, m) + CoveredLength(edges, y, m, b)
      && 0.0 <= CoveredLength(edges, y, a, b) <= b - a
      && ((forall x :: a <= x < b ==> Inside(edges, y, x)) ==> CoveredLength(edges, y, a, b) == b - a)
      && ((forall x :: a <= x < b ==> !Inside(edges, y, x)) ==> CoveredLength(edges, y, a, b) == 0.0)
  {
    var edges := AllSides(polygons, sx, sy);
    var cs := SortedCrossings(edges, y);
    LastCrossingCloses(polygons, sx, sy, y);
    CoveredSplits(cs, |cs|, a, m, b);
    CoveredAtMost(cs, a, b);
    if a < b && forall x :: a <= x < b ==> Inside(edges, y, x) {
      forall x | a <= x < b ensures Winding(cs, x) != 0 {
        assert Inside(edges, y, x);
        WindingIgnoresOrder(cs, Crossings(edges, y), x);
      }
      EverythingCovered(cs, a, b);
    }
    if forall x :: a <= x < b ==> !Inside(edges, y, x) {
      forall x | a <= x < b ensures Winding(cs, x) == 0 {
        assert !Inside(edges, y, x);
        WindingIgnoresOrder(cs, Crossings(edges, y), x);
      }
      NothingCovered(cs, a, b);
    }
  }

  /** The inside of the shape is the union of the spans between neighbouring crossings. */
  lemma {:induction false} InsideIsSpans(polygons: seq<seq<Point>>, sx: real, sy: real, y: real, x: real)
    ensures var edges := AllSides(polygons, sx, sy); var cs := SortedCrossings(edges, y);
      Inside(edges, y, x) <==> exists i: nat :: i < |cs| && Opens(cs, i) && cs[i].x <= x < cs[i + 1].x
  {
    var edges := AllSides(polygons, sx, sy);
    LastCrossingCloses(polygons, sx, sy, y);
    WindingIgnoresOrder(SortedCrossings(edges, y), Crossings(edges, y), x);
    SpansAreInside(SortedCrossings(edges, y), x);
  }

  // ---------------------------------------------------------------- scaling

  function ScaleEdge(e: Edge, sx: real, sy: real): Edge {
    Edge(Times(e.x0, sx), Times(e.y0, sy), Times(e.x1, sx), Times(e.y1, sy))
  }

  function ScaleEdges(edges: seq<Edge>, sx: real, sy: real): (r: seq<Edge>)
    ensures |r| == |edges|
  {
    if edges == [] then []
    else ScaleEdges(edges[..|edges| - 1], sx, sy) + [ScaleEdge(edges[|edges| - 1], sx, sy)]
  }

  lemma {:induction false} OrderScales(a: real, b: real, s: real)
    requires s > 0.0
    ensures a <= b <==> a * s <= b * s
    ensures a < b <==> a * s < b * s
  {
  }

  lemma {:induction false} CrossesScales(e: Edge, y: real, sx: real, sy: real)
    requires sy > 0.0
    ensures Crosses(ScaleEdge(e, sx, sy), y * sy) <==> Crosses(e, y)
    ensures e.y0 <= y < e.y1 <==> e.y0 * sy <= y * sy < e.y1 * sy
  {
    OrderScales(e.y0, y, sy);
    OrderScales(y, e.y1, sy);
    OrderScales(e.y1, y, sy);
    OrderScales(y, e.y0, sy);
  }

  lemma {:induction false} QuotientScales(a: real, d: real, b: real, sx: real, sy: real)
    requires b != 0.0 && sy != 0.0 && b * sy != 0.0
    ensures ((a * sy) * (d * sx)) / (b * sy) == (a * d / b) * sx
  {
    var q := a * d / b;
    assert q * b == a * d;
    Products(q, b, a * d, sx, sy);
    assert (a * sy) * (d * sx) == ((a * d) * sx) * sy by { FourFactors(a, sy, d, sx); }
    Divides((a * sy) * (d * sx), q * sx, b * sy);
  }

  lemma {:induction false} FourFactors(a: real, b: real, c: real, d: real)
    ensures (a * b) * (c * d) == ((a * c) * d) * b
  {
  }

  lemma {:induction false} Products(q: real, b: real, n: real, sx: real, sy: real)
    requires q * b == n
    ensures (q * sx) * (b * sy) == (n * sx) * sy
  {
    FourFactors(q, sx, b, sy);
    Swap(n, sy, sx);
  }

  lemma {:induction false} Divides(n: real, q: real, b: real)
    requires b != 0.0 && q * b == n
    ensures n / b == q
  {
  }

  lemma {:induction false} MeetsAtScales(e: Edge, y: real, sx: real, sy: real)
    requires e.y0 != e.y1 && sy > 0.0
    ensures e.y0 * sy != e.y1 * sy
    ensures MeetsAt(ScaleEdge(e, sx, sy), y * sy) == MeetsAt(e, y) * sx
  {
    OrderScales(e.y0, e.y1, sy);
    OrderScales(e.y1, e.y0, sy);
    var a, d, b := y - e.y0, e.x1 - e.x0, e.y1 - e.y0;
    assert y * sy - e.y0 * sy == a * sy && e.x1 * sx - e.x0 * sx == d * sx && e.y1 * sy - e.y0 * sy == b * sy;
    QuotientScales(a, d, b, sx, sy);
    assert (e.x0 + a * d / b) * sx == e.x0 * sx + (a * d / b) * sx;
  }

  lemma {:induction false} CrossingScales(e: Edge, y: real, x: real, sx: real, sy: real)
    requires sx > 0.0 && sy > 0.0 && Crosses(e, y)
    ensures Crosses(ScaleEdge(e, sx, sy), y * sy)
    ensures var c, d := CrossingOf(ScaleEdge(e, sx, sy), y * sy), CrossingOf(e, y);
      c.direction == d.direction && (c.x <= x * sx <==> d.x <= x)
  {
    CrossesScales(e, y, sx, sy);
    MeetsAtScales(e, y, sx, sy);
    OrderScales(MeetsAt(e, y), x, sx);
  }

  /** Scaling the edges moves every point of the inside with them. */
  lemma {:induction false} WindingScales(edges: seq<Edge>, y: real, x: real, sx: real, sy: real)
    requires sx > 0.0 && sy > 0.0
    ensures Winding(Crossings(ScaleEdges(edges, sx, sy), y * sy), x * sx) == Winding(Crossings(edges, y), x)
  {
    if edges == [] {
    } else {
      var n := |edges| - 1;
      var e, scaled := edges[n], ScaleEdges(edges, sx, sy);
      assert scaled[..n] == ScaleEdges(edges[..n], sx, sy) && scaled[n] == ScaleEdge(e, sx, sy);
      WindingScales(edges[..n], y, x, sx, sy);
      CrossesScales(e, y, sx, sy);
      if Crosses(e, y) {
        CrossingScales(e, y, x, sx, sy);
        LastWinds(Crossings(scaled[..n], y * sy), CrossingOf(scaled[n], y * sy), x * sx);
        LastWinds(Crossings(edges[..n], y), CrossingOf(e, y), x);
      } else {
        assert Crossings(scaled[..n], y * sy) + [] == Crossings(scaled[..n], y * sy);
        assert Crossings(edges[..n], y) + [] == Crossings(edges[..n], y);
      }
    }
  }

  lemma {:induction false} LastWinds(cs: seq<Crossing>, c: Crossing, x: real)
    ensures Winding(cs + [c], x) == Winding(cs, x) + if c.x <= x then c.direction else 0
  {
    assert (cs + [c])[..|cs|] == cs;
  }

  lemma {:induction false} SideScales(p: Point, q: Point, sx: real, sy: real)
    requires sy > 0.0
    ensures Side(ScalePoint(p, sx, sy), ScalePoint(q, sx, sy)) == ScaleEdges(Side(p, q), sx, sy)
  {
    OrderScales(p.y, q.y, sy);
    OrderScales(q.y, p.y, sy);
    if p.y == q.y {
      assert Side(p, q) == [] && Side(ScalePoint(p, sx, sy), ScalePoint(q, sx, sy)) == [];
    } else {
      var e := Edge(p.x, p.y, q.x, q.y);
      assert Side(ScalePoint(p, sx, sy), ScalePoint(q, sx, sy)) == [ScaleEdge(e, sx, sy)];
      OneScales(e, sx, sy);
    }
  }

  lemma {:induction false} OneScales(e: Edge, sx: real, sy: real)
    ensures ScaleEdges([e], sx, sy) == [ScaleEdge(e, sx, sy)]
  {
    assert [e][..|[e]| - 1] == [] && ScaleEdges([], sx, sy) == [];
  }

  lemma {:induction false} NextScales(points: seq<Point>, i: nat, sx: real, sy: real)
    requires i < |points|
    ensures Next(Scaled(points, sx, sy), i) == ScalePoint(Next(points, i), sx, sy)
  {
  }

  lemma {:induction false} SidesScale(points: seq<Point>, k: nat, sx: real, sy: real)
    requires k <= |points| && sy > 0.0
    ensures Sides(Scaled(points, sx, sy), k) == ScaleEdges(Sides(points, k), sx, sy)
  {
    hide ScalePoint, Side, ScaleEdges, Next;
    if k > 0 {
      var p, q := points[k - 1], Next(points, k - 1);
      SidesScale(points, k - 1, sx, sy);
      NextScales(points, k - 1, sx, sy);
      SideScales(p, q, sx, sy);
      OneMoreScales(Sides(points, k - 1), Side(p, q), sx, sy);
    } else {
      OneMoreScales([], [], sx, sy);
    }
  }

  lemma {:induction false} OneMoreScales(a: seq<Edge>, b: seq<Edge>, sx: real, sy: real)
    ensures ScaleEdges(a + b, sx, sy) == ScaleEdges(a, sx, sy) + ScaleEdges(b, sx, sy)
  {
    if b == [] {
      assert a + b == a;
    } else {
      assert (a + b)[..|a + b| - 1] == a + b[..|b| - 1];
      OneMoreScales(a, b[..|b| - 1], sx, sy);
    }
  }

  /** The sides of closed polygons as they are drawn. */
  function Outline(polygons: seq<seq<Point>>): seq<Edge> {
    if polygons == [] then []
    else
      var n := |polygons| - 1;
      Outline(polygons[..n]) + Sides(polygons[n], |polygons[n]|)
  }

  lemma {:induction false} OutlineScales(polygons: seq<seq<Point>>, sx: real, sy: real)
    requires sy > 0.0
    ensures AllSides(polygons, sx, sy) == ScaleEdges(Outline(polygons), sx, sy)
  {
    if polygons == [] {
    } else {
      var n := |polygons| - 1;
      OutlineScales(polygons[..n], sx, sy);
      SidesScale(polygons[n], |polygons[n]|, sx, sy);
      OneMoreScales(Outline(polygons[..n]), Sides(polygons[n], |polygons[n]|), sx, sy);
    }
  }

  /** The picture shows the drawing: a point of the box is inside exactly when its image in the picture is. */
  lemma {:induction false} InsideScales(polygons: seq<seq<Point>>, sx: real, sy: real, y: real, x: real)
    requires sx > 0.0 && sy > 0.0
    ensures Inside(AllSides(polygons, sx, sy), y * sy, x * sx) <==> Inside(Outline(polygons), y, x)
  {
    OutlineScales(polygons, sx, sy);
    WindingScales(Outline(polygons), y, x, sx, sy);
  }

  // ---------------------------------------------------------------- the cells

  /** Adds to each cell the part of a span that lies in it. */
  method AddSpan(cells: array<real>, left: real, right: real, size: nat)
    requires cells.Length == size + 1 && 0.0 <= left < right <= size as real
    modifies cells
    ensures forall c :: 0 <= c < size ==>
      cells[c] == old(cells[c]) + Overlap(left, right, c as real, c as real + 1.0)
    ensures cells[size] == old(cells[size])
  {
    var first := left.Floor;
    var last := if right.Floor < size - 1 then right.Floor else size - 1;
    if first == last {
      cells[first] := cells[first] + (right - left);
      return;
    }
    cells[first] := cells[first] + (first as real + 1.0 - left);
    assert left < first as real + 1.0 && last as real <= right;
    var column := first + 1;
    while column < last
      invariant first + 1 <= column <= last
      invariant forall c :: 0 <= c < column ==>
        cells[c] == old(cells[c]) + Overlap(left, right, c as real, c as real + 1.0)
      invariant forall c :: column <= c <= size ==> cells[c] == old(cells[c])
    {
      assert column as real + 1.0 <= last as real;
      assert Overlap(left, right, column as real, column as real + 1.0) == 1.0;
      cells[column] := cells[column] + 1.0;
      column := column + 1;
    }
    cells[last] := cells[last] + (right - last as real);
  }

  method CrossingsOnScanline(edges: seq<Edge>, y: real) returns (crossings: seq<Crossing>)
    ensures crossings == Crossings(edges, y)
  {
    crossings := [];
    var n := 0;
    while n < |edges|
      invariant 0 <= n <= |edges| && crossings == Crossings(edges[..n], y)
    {
      var e := edges[n];
      ghost var seen := edges[..n + 1];
      assert seen[..|seen| - 1] == edges[..n] && seen[|seen| - 1] == e && crossings + [] == crossings;
      if e.y0 <= y < e.y1 {
        crossings := crossings + [Crossing(MeetsAt(e, y), 1)];
      } else if e.y1 <= y < e.y0 {
        crossings := crossings + [Crossing(MeetsAt(e, y), -1)];
      }
      n := n + 1;
    }
    assert edges[..n] == edges;
  }

  /** A cell inside the row sees as much of a span as of what is left of it after clipping to the row. */
  lemma {:induction false} ClippingLosesNothing(left: real, right: real, size: nat, c: nat)
    requires c < size && left <= right
    ensures var l, r := if left > 0.0 then left else 0.0, if right < size as real then right else size as real;
      Overlap(left, right, c as real, c as real + 1.0) ==
      if r <= l then 0.0 else Overlap(l, r, c as real, c as real + 1.0)
  {
  }

  function InCell(cs: seq<Crossing>, k: nat, c: int): real
    requires k <= |cs|
  {
    Covered(cs, k, c as real, c as real + 1.0)
  }

  method AddScanline(cells: array<real>, edges: seq<Edge>, y: real, size: nat)
    requires cells.Length == size + 1
    modifies cells
    ensures forall c :: 0 <= c < size ==>
      cells[c] == old(cells[c]) + CoveredLength(edges, y, c as real, c as real + 1.0)
    ensures cells[size] == old(cells[size])
  {
    var crossings := CrossingsOnScanline(edges, y);
    crossings := Sort(crossings);
    var winding, i := 0, 0;
    while i < |crossings|
      invariant 0 <= i <= |crossings| && winding == DirectionSum(crossings[..i])
      invariant forall c :: 0 <= c < size ==>
        cells[c] == old(cells[c]) + InCell(crossings, i, c)
      invariant cells[size] == old(cells[size])
    {
      assert crossings[..i + 1][..i] == crossings[..i];
      winding := winding + crossings[i].direction;
      i := i + 1;
      if winding == 0 || i == |crossings| { continue; }
      assert Opens(crossings, i - 1) && Before(crossings[i - 1], crossings[i]);
      var x, following := crossings[i - 1].x, crossings[i].x;
      var left := if x > 0.0 then x else 0.0;
      var right := if following < size as real then following else size as real;
      forall c | 0 <= c < size ensures InCell(crossings, i, c) == InCell(crossings, i - 1, c)
        + if right <= left then 0.0 else Overlap(left, right, c as real, c as real + 1.0)
      {
        ClippingLosesNothing(x, following, size, c);
      }
      if right <= left { continue; }
      AddSpan(cells, left, right, size);
    }
  }

  // ---------------------------------------------------------------- the picture

  function Height(row: nat, sub: nat): real {
    row as real + (sub as real + 0.5) / SUBSCANLINES as real
  }

  /** What the first `k` scanlines of a row add to one of its cells. */
  function PixelSum(edges: seq<Edge>, row: nat, column: nat, k: nat): real {
    if k == 0 then 0.0
    else
      var length := CoveredLength(edges, Height(row, k - 1), column as real, column as real + 1.0);
      PixelSum(edges, row, column, k - 1) + length
  }

  lemma {:induction false} PixelSumAtMost(edges: seq<Edge>, row: nat, column: nat, k: nat)
    ensures 0.0 <= PixelSum(edges, row, column, k) <= k as real
  {
    if k == 0 {
    } else {
      PixelSumAtMost(edges, row, column, k - 1);
      CoveredAtMost(SortedCrossings(edges, Height(row, k - 1)), column as real, column as real + 1.0);
    }
  }

  /** The fraction of a pixel that is covered: the mean over the row's scanlines. */
  function Fraction(edges: seq<Edge>, row: nat, column: nat): real {
    PixelSum(edges, row, column, SUBSCANLINES) / SUBSCANLINES as real
  }

  /** Whether the whole of a pixel, on a scanline, has one answer. */
  ghost predicate Uniform(edges: seq<Edge>, y: real, column: nat, inside: bool) {
    forall x :: column as real <= x < column as real + 1.0 ==> Inside(edges, y, x) == inside
  }

  lemma {:induction false} UniformLength(polygons: seq<seq<Point>>, sx: real, sy: real, y: real, column: nat,
      inside: bool)
    requires Uniform(AllSides(polygons, sx, sy), y, column, inside)
    ensures CoveredLength(AllSides(polygons, sx, sy), y, column as real, column as real + 1.0) ==
            if inside then 1.0 else 0.0
  {
    var edges, a := AllSides(polygons, sx, sy), column as real;
    if inside {
      assert forall x :: a <= x < a + 1.0 ==> Inside(edges, y, x);
    } else {
      assert forall x :: a <= x < a + 1.0 ==> !Inside(edges, y, x);
    }
    CoveredLengthIsExact(polygons, sx, sy, y, a, a, a + 1.0);
  }

  lemma {:induction false} UniformSum(polygons: seq<seq<Point>>, sx: real, sy: real, row: nat, column: nat,
      inside: bool, k: nat)
    requires forall sub: nat :: sub < k ==> Uniform(AllSides(polygons, sx, sy), Height(row, sub), column, inside)
    ensures PixelSum(AllSides(polygons, sx, sy), row, column, k) == if inside then k as real else 0.0
  {
    if k == 0 {
    } else {
      UniformSum(polygons, sx, sy, row, column, inside, k - 1);
      UniformLength(polygons, sx, sy, Height(row, k - 1), column, inside);
    }
  }

  lemma {:induction false} HeightIsInRow(row: nat, sub: nat)
    requires sub < SUBSCANLINES
    ensures row as real <= Height(row, sub) < row as real + 1.0
  {
    assert SUBSCANLINES as real == 16.0 && 0.5 <= sub as real + 0.5 <= 15.5;
  }

  /** A pixel whose square is all inside the shape is wholly covered; one whose square is all outside is not covered. */
  lemma {:induction false} UniformPixel(polygons: seq<seq<Point>>, sx: real, sy: real, row: nat, column: nat,
      inside: bool)
    requires forall y, x :: row as real <= y < row as real + 1.0 && column as real <= x < column as real + 1.0 ==>
      Inside(AllSides(polygons, sx, sy), y, x) == inside
    ensures Fraction(AllSides(polygons, sx, sy), row, column) == if inside then 1.0 else 0.0
  {
    var edges := AllSides(polygons, sx, sy);
    forall sub: nat | sub < SUBSCANLINES ensures Uniform(edges, Height(row, sub), column, inside) {
      HeightIsInRow(row, sub);
    }
    UniformSum(polygons, sx, sy, row, column, inside, SUBSCANLINES);
    assert SUBSCANLINES as real == 16.0;
  }

  // ---------------------------------------------------------------- a rectangle

  function Rectangle(x0: real, y0: real, x1: real, y1: real): seq<Point> {
    [Point(x0, y0), Point(x1, y0), Point(x1, y1), Point(x0, y1)]
  }

  /** Its two sides that are not horizontal: one goes up, one goes down. */
  function Uprights(x0: real, y0: real, x1: real, y1: real): seq<Edge> {
    [Edge(x1, y0, x1, y1), Edge(x0, y1, x0, y0)]
  }

  lemma {:induction false} RectangleSides(x0: real, y0: real, x1: real, y1: real, sx: real, sy: real)
    requires Times(y0, sy) != Times(y1, sy)
    ensures AllSides([Rectangle(x0, y0, x1, y1)], sx, sy) ==
            Uprights(Times(x0, sx), Times(y0, sy), Times(x1, sx), Times(y1, sy))
  {
    hide Times;
    var r := Rectangle(x0, y0, x1, y1);
    var points := Scaled(r, sx, sy);
    assert [r][..0] == [] && [r][0] == r;
    NextIs(points, 0);
    NextIs(points, 1);
    NextIs(points, 2);
    NextIs(points, 3);
    assert Sides(points, 1) == [];
    assert Sides(points, 2) == Side(points[1], points[2]);
    assert Sides(points, 3) == Sides(points, 2);
    assert Sides(points, 4) == Side(points[1], points[2]) + Side(points[3], points[0]);
  }

  lemma {:induction false} UprightsCross(x0: real, y0: real, x1: real, y1: real, y: real)
    requires y0 < y1
    ensures Crossings(Uprights(x0, y0, x1, y1), y) ==
            if y0 <= y < y1 then [Crossing(x1, 1), Crossing(x0, -1)] else []
  {
    var up, down := Edge(x1, y0, x1, y1), Edge(x0, y1, x0, y0);
    var none: seq<Edge> := [];
    assert Uprights(x0, y0, x1, y1)[..1] == [up] && [up][..0] == none;
    assert MeetsAt(up, y) == x1 && MeetsAt(down, y) == x0;
    assert Crossings(none, y) == [];
    assert Crossings([up], y) == if y0 <= y < y1 then [Crossing(x1, 1)] else [];
  }

  /** A point is inside a rectangle exactly when it is between its sides. */
  lemma {:induction false} RectangleInside(x0: real, y0: real, x1: real, y1: real, y: real, x: real)
    requires x0 < x1 && y0 < y1
    ensures Inside(Uprights(x0, y0, x1, y1), y, x) <==> x0 <= x < x1 && y0 <= y < y1
  {
    UprightsCross(x0, y0, x1, y1, y);
    hide Crossings, Uprights;
    var up, none: seq<Crossing> := Crossing(x1, 1), [];
    assert [up, Crossing(x0, -1)][..1] == [up] && [up][..0] == none;
    assert Winding(none, x) == 0;
    assert Winding([up], x) == if x1 <= x then 1 else 0;
  }

  lemma {:induction false} RectangleLength(polygons: seq<seq<Point>>, sx: real, sy: real, x0: real, y0: real, x1: real,
      y1: real, y: real, a: real, b: real)
    requires x0 < x1 && y0 < y1 && a < b && AllSides(polygons, sx, sy) == Uprights(x0, y0, x1, y1)
    ensures CoveredLength(Uprights(x0, y0, x1, y1), y, a, b) == if y0 <= y < y1 then Overlap(x0, x1, a, b) else 0.0
  {
    hide CoveredLength, Inside, AllSides, Uprights;
    var edges := Uprights(x0, y0, x1, y1);
    forall x ensures Inside(edges, y, x) <==> x0 <= x < x1 && y0 <= y < y1 {
      RectangleInside(x0, y0, x1, y1, y, x);
    }
    var l := if x0 <= a then a else if x0 <= b then x0 else b;
    var r := if x1 <= l then l else if x1 <= b then x1 else b;
    CoveredLengthIsExact(polygons, sx, sy, y, a, l, b);
    CoveredLengthIsExact(polygons, sx, sy, y, a, a, l);
    CoveredLengthIsExact(polygons, sx, sy, y, l, r, b);
    CoveredLengthIsExact(polygons, sx, sy, y, l, l, r);
    CoveredLengthIsExact(polygons, sx, sy, y, r, r, b);
    CoveredLengthIsExact(polygons, sx, sy, y, a, a, b);
  }

  /** How many of the midpoints of a row's first `k` sixteenths are between two heights. */
  function Midpoints(y0: real, y1: real, row: nat, k: nat): nat {
    if k == 0 then 0
    else
      var middle := row as real + (2 * k - 1) as real / 32.0;
      Midpoints(y0, y1, row, k - 1) + if y0 <= middle < y1 then 1 else 0
  }

  lemma {:induction false} HeightIsMidpoint(row: nat, k: nat)
    requires k > 0
    ensures Height(row, k - 1) == row as real + (2 * k - 1) as real / 32.0
  {
    assert SUBSCANLINES as real == 16.0;
    assert (k - 1) as real + 0.5 == (2 * k - 1) as real / 2.0;
  }

  lemma {:induction false} RectangleSum(polygons: seq<seq<Point>>, sx: real, sy: real, x0: real, y0: real, x1: real,
      y1: real, row: nat, column: nat, k: nat)
    requires x0 < x1 && y0 < y1 && AllSides(polygons, sx, sy) == Uprights(x0, y0, x1, y1) && k <= SUBSCANLINES
    ensures PixelSum(Uprights(x0, y0, x1, y1), row, column, k) ==
            Times(Midpoints(y0, y1, row, k) as real, Overlap(x0, x1, column as real, column as real + 1.0))
  {
    hide CoveredLength, Height, Overlap, Uprights, AllSides;
    if k == 0 {
    } else {
      RectangleSum(polygons, sx, sy, x0, y0, x1, y1, row, column, k - 1);
      RectangleLength(polygons, sx, sy, x0, y0, x1, y1, Height(row, k - 1), column as real, column as real + 1.0);
      HeightIsMidpoint(row, k);
      OneTimeMore(Midpoints(y0, y1, row, k - 1) as real, Overlap(x0, x1, column as real, column as real + 1.0));
    }
  }

  lemma {:induction false} OneTimeMore(n: real, length: real)
    ensures Times(n + 1.0, length) == Times(n, length) + length
  {
  }

  /**
   A rectangle covers of each pixel the width they share, on the sixteenths of the row whose midpoints it reaches:
   worked out from its corners, for any rectangle, scale and pixel.
   */
  lemma {:induction false} RectanglePixel(x0: real, y0: real, x1: real, y1: real, sx: real, sy: real, row: nat,
      column: nat)
    requires Times(x0, sx) < Times(x1, sx) && Times(y0, sy) < Times(y1, sy)
    ensures Fraction(AllSides([Rectangle(x0, y0, x1, y1)], sx, sy), row, column) ==
            Overlap(Times(x0, sx), Times(x1, sx), column as real, column as real + 1.0)
            * Midpoints(Times(y0, sy), Times(y1, sy), row, 16) as real / 16.0
  {
    RectangleSides(x0, y0, x1, y1, sx, sy);
    RectangleSum([Rectangle(x0, y0, x1, y1)], sx, sy, Times(x0, sx), Times(y0, sy), Times(x1, sx), Times(y1, sy), row,
                 column, SUBSCANLINES);
    assert SUBSCANLINES as real == 16.0;
  }

  method AddSides(before: seq<Edge>, points: seq<Point>) returns (edges: seq<Edge>)
    ensures edges == before + Sides(points, |points|)
  {
    edges := before;
    var i := 0;
    while i < |points|
      invariant 0 <= i <= |points| && edges == before + Sides(points, i)
    {
      var p, q := points[i], Next(points, i);
      if p.y != q.y { edges := edges + [Edge(p.x, p.y, q.x, q.y)]; }
      i := i + 1;
    }
  }

  method ScaledSides(polygons: seq<seq<Point>>, sx: real, sy: real) returns (edges: seq<Edge>)
    ensures edges == AllSides(polygons, sx, sy)
  {
    edges := [];
    var n := 0;
    while n < |polygons|
      invariant 0 <= n <= |polygons| && edges == AllSides(polygons[..n], sx, sy)
    {
      assert polygons[..n + 1][..n] == polygons[..n];
      edges := AddSides(edges, Scaled(polygons[n], sx, sy));
      n := n + 1;
    }
    assert polygons[..n] == polygons;
  }

  lemma {:induction false} FractionIsProperShare(edges: seq<Edge>, row: nat, column: nat)
    ensures 0.0 <= Fraction(edges, row, column) <= 1.0
  {
    PixelSumAtMost(edges, row, column, SUBSCANLINES);
    assert SUBSCANLINES as real == 16.0;
  }

  method RowCells(edges: seq<Edge>, row: nat, size: nat) returns (cells: array<real>)
    ensures fresh(cells) && cells.Length == size + 1
    ensures forall c :: 0 <= c < size ==> cells[c] == PixelSum(edges, row, c, SUBSCANLINES)
  {
    hide CoveredLength, Height;
    cells := new real[size + 1](_ => 0.0);
    var sub := 0;
    while sub < SUBSCANLINES
      invariant 0 <= sub <= SUBSCANLINES && fresh(cells)
      invariant forall c :: 0 <= c < size ==> cells[c] == PixelSum(edges, row, c, sub)
    {
      AddScanline(cells, edges, Height(row, sub), size);
      sub := sub + 1;
    }
  }

  /** One row of the picture. No value ever exceeds 1, so the bound on it changes none. */
  method Row(edges: seq<Edge>, row: nat, size: nat) returns (pixels: seq<real>)
    ensures |pixels| == size
    ensures forall c :: 0 <= c < size ==> pixels[c] == Fraction(edges, row, c) && 0.0 <= pixels[c] <= 1.0
  {
    var cells := RowCells(edges, row, size);
    var sums := cells[..size];
    pixels := [];
    var n := 0;
    while n < size
      invariant n == |pixels| <= size
      invariant forall c :: 0 <= c < n ==> pixels[c] == Fraction(edges, row, c) && 0.0 <= pixels[c] <= 1.0
    {
      FractionIsProperShare(edges, row, n);
      var share := sums[n] / SUBSCANLINES as real;
      assert share == Fraction(edges, row, n);
      pixels := pixels + [if share < 1.0 then share else 1.0];
      n := n + 1;
    }
  }

  /** `coverage`: the picture, row by row from the top. */
  method Picture(polygons: seq<seq<Point>>, box: (real, real), size: nat) returns (rows: seq<seq<real>>)
    requires box.0 != 0.0 && box.1 != 0.0
    ensures |rows| == size
    ensures var edges := AllSides(polygons, size as real / box.0, size as real / box.1);
      forall r :: 0 <= r < size ==>
        |rows[r]| == size
        && forall c :: 0 <= c < size ==> rows[r][c] == Fraction(edges, r, c) && 0.0 <= rows[r][c] <= 1.0
  {
    var edges := ScaledSides(polygons, size as real / box.0, size as real / box.1);
    rows := [];
    while |rows| < size
      invariant |rows| <= size
      invariant forall r :: 0 <= r < |rows| ==>
        |rows[r]| == size
        && forall c :: 0 <= c < size ==> rows[r][c] == Fraction(edges, r, c) && 0.0 <= rows[r][c] <= 1.0
    {
      var pixels := Row(edges, |rows|, size);
      rows := rows + [pixels];
    }
  }
}
