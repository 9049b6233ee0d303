/** The drawing side of the tracing component: the stroke palette, the numbered badge kept
    inside the canvas, the arrow's predecessor point, and the reference rendering of a whole
    letter as a list of drawing operations. */
module TraceGeometry {
  import opened TraceCatalog
  import Strings

  const CanvasSize: real := 300.0
  const BadgeRadius: real := 16.0
  const BadgeMargin: real := 4.0
  /** The smallest and largest badge-centre coordinate on either axis. */
  const BadgeMin: real := BadgeRadius + BadgeMargin
  const BadgeMax: real := CanvasSize - BadgeRadius - BadgeMargin

  /** The stroke colours, cycled by stroke position, and the names the legend shows. */
  const Palette: seq<string> := ["#005587ff", "#0e8ee9ff", "#1c425aff", "#677275ff", "#4c6781ff"]
  const PaletteNames: seq<string> := ["Orange", "Blue", "Green", "Purple", "Red"]

  /** One call on the 2D context: a point marker, a numbered badge, or an arrowhead whose
      direction runs from `tail` to `tip`. */
  datatype Op =
    | Dot(at: Point, colour: string)
    | Badge(number: nat, centre: Point, colour: string)
    | Arrow(tail: Point, tip: Point, colour: string)

  /** Stroke `i` of a letter is drawn in palette entry `i mod 5`, counted down five at a
      time. */
  function StrokeColour(i: nat): (c: string)
    ensures c in Palette
    decreases i
  {
    if i < |Palette| then Palette[i] else StrokeColour(i - |Palette|)
  }

  /** Colours repeat every five strokes and do not depend on the letter. */
  lemma {:induction false} ColourCycle(i: nat)
    ensures StrokeColour(i + |Palette|) == StrokeColour(i)
    ensures i < |Palette| ==> StrokeColour(i) == Palette[i]
    ensures StrokeColour(i) == Palette[i % |Palette|]
    decreases i
  {
    if i >= |Palette| {
      ColourCycle(i - |Palette|);
    }
  }

  /** `Math.min(Math.max(BadgeMin, v), BadgeMax)`. */
  function ClampBadge(v: real): (r: real)
    ensures BadgeMin <= r <= BadgeMax
    ensures BadgeMin <= v <= BadgeMax ==> r == v
    ensures v < BadgeMin ==> r == BadgeMin
    ensures v > BadgeMax ==> r == BadgeMax
  {
    var low := if BadgeMin > v then BadgeMin else v;
    if low < BadgeMax then low else BadgeMax
  }

  /** The badge centre: the host's offset point (26 units along the perpendicular of the last
      segment, computed with trigonometry) clamped into the canvas on both axes. */
  function BadgeCentre(points: Stroke, offset: (Point, Point) -> Point): (c: Point)
    requires |points| >= 2
    ensures BadgeMin <= c.x <= BadgeMax && BadgeMin <= c.y <= BadgeMax
  {
    var raw := offset(points[|points| - 2], points[|points| - 1]);
    Point(ClampBadge(raw.x), ClampBadge(raw.y))
  }

  function Last(points: Stroke): Point
    requires |points| > 0
  {
    points[|points| - 1]
  }

  /** The backward scan for the arrow's predecessor, from index `i` down to 0: the first point
      that differs from the last point, or index `|points| - 2` when every scanned point equals
      the last one. */
  function PredecessorFrom(points: Stroke, i: int): (k: nat)
    requires |points| >= 2 && -1 <= i <= |points| - 2
    ensures k <= |points| - 2
    ensures (exists j :: 0 <= j <= i && points[j] != Last(points)) ==>
              k <= i && points[k] != Last(points)
              && forall j :: k < j <= i ==> points[j] == Last(points)
    ensures (forall j :: 0 <= j <= i ==> points[j] == Last(points)) ==> k == |points| - 2
    decreases i + 1
  {
    if i < 0 then |points| - 2
    else if points[i] != Last(points) then i
    else PredecessorFrom(points, i - 1)
  }

  /** The index of the point that sets the arrow's direction: the highest-indexed earlier point
      that differs from the last point, or the second-to-last point when there is none. */
  function PredecessorIndex(points: Stroke): (k: nat)
    requires |points| >= 2
    ensures k < |points| - 1
    ensures (exists j :: 0 <= j < |points| - 1 && points[j] != Last(points)) ==>
              points[k] != Last(points) && forall j :: k < j < |points| - 1 ==> points[j] == Last(points)
    ensures (forall j :: 0 <= j < |points| - 1 ==> points[j] == Last(points)) ==> k == |points| - 2
  {
    PredecessorFrom(points, |points| - 2)
  }

  /** The arrow of a stroke never degenerates to a zero-length direction unless every point of
      the stroke is the same point. */
  lemma {:induction false} ArrowDirectionNonDegenerate(points: Stroke)
    requires |points| >= 2
    requires exists j :: 0 <= j < |points| && points[j] != Last(points)
    ensures points[PredecessorIndex(points)] != Last(points)
  {
    var j :| 0 <= j < |points| && points[j] != Last(points);
    assert j < |points| - 1;
  }

  /** The badge and the arrow drawn when stroke `i` completes; strokes of fewer than two points
      get neither. */
  function Annotations(points: Stroke, i: nat, offset: (Point, Point) -> Point): seq<Op> {
    if |points| < 2 then []
    else
      [Badge(i + 1, BadgeCentre(points, offset), StrokeColour(i)),
       Arrow(points[PredecessorIndex(points)], Last(points), StrokeColour(i))]
  }

  /** One point marker per point, in array order. */
  function Dots(points: Stroke, colour: string): (r: seq<Op>)
    ensures |r| == |points|
    ensures forall j :: 0 <= j < |points| ==> r[j] == Dot(points[j], colour)
  {
    seq(|points|, j requires 0 <= j < |points| => Dot(points[j], colour))
  }

  /** Everything drawn for stroke `i`: its points, then its annotations. */
  function StrokeOps(points: Stroke, i: nat, offset: (Point, Point) -> Point): seq<Op> {
    Dots(points, StrokeColour(i)) + Annotations(points, i, offset)
  }

  /** The reference drawing of the first `n` strokes of a letter, stroke after stroke. */
  function RenderPrefix(strokes: seq<Stroke>, n: nat, offset: (Point, Point) -> Point): seq<Op>
    requires n <= |strokes|
  {
    if n == 0 then [] else RenderPrefix(strokes, n - 1, offset) + StrokeOps(strokes[n - 1], n - 1, offset)
  }

  /** The reference drawing of a whole letter. */
  function Render(strokes: seq<Stroke>, offset: (Point, Point) -> Point): seq<Op> {
    RenderPrefix(strokes, |strokes|, offset)
  }

  /** The badge numbers of a drawing, in drawing order. */
  function BadgeNumbers(ops: seq<Op>): seq<nat> {
    if ops == [] then []
    else (if ops[0].Badge? then [ops[0].number] else []) + BadgeNumbers(ops[1..])
  }

  lemma {:induction false} BadgeNumbersAppend(a: seq<Op>, b: seq<Op>)
    ensures BadgeNumbers(a + b) == BadgeNumbers(a) + BadgeNumbers(b)
  {
    if a == [] {
      assert a + b == b;
    } else {
      var h := if a[0].Badge? then [a[0].number] else [];
      assert (a + b)[0] == a[0] && (a + b)[1..] == a[1..] + b;
      assert BadgeNumbers(a + b) == h + BadgeNumbers(a[1..] + b);
      BadgeNumbersAppend(a[1..], b);
      assert BadgeNumbers(a) == h + BadgeNumbers(a[1..]);
      Strings.AppendAssoc(h, BadgeNumbers(a[1..]), BadgeNumbers(b));
    }
  }

  lemma {:induction false} BadgeNumbersOfDots(points: Stroke, colour: string)
    ensures BadgeNumbers(Dots(points, colour)) == []
  {
    if points != [] {
      assert Dots(points, colour)[1..] == Dots(points[1..], colour);
      BadgeNumbersOfDots(points[1..], colour);
    }
  }

  predicate StrictlyIncreasing(xs: seq<nat>) {
    forall a, b :: 0 <= a < b < |xs| ==> xs[a] < xs[b]
  }

  /** The badges one stroke contributes: its number when it has at least two points. */
  lemma {:induction false} StrokeBadges(points: Stroke, i: nat, offset: (Point, Point) -> Point)
    ensures BadgeNumbers(StrokeOps(points, i, offset)) == (if |points| >= 2 then [i + 1] else [])
  {
    BadgeNumbersAppend(Dots(points, StrokeColour(i)), Annotations(points, i, offset));
    BadgeNumbersOfDots(points, StrokeColour(i));
    var own := Annotations(points, i, offset);
    if |points| >= 2 {
      assert BadgeNumbers(own[1..]) == [] by {
        assert own[1..][1..] == [];
      }
      assert BadgeNumbers(own) == [i + 1] + BadgeNumbers(own[1..]);
    } else {
      assert own == [];
    }
  }

  /** Stroke `b - 1` is among the first `n` strokes and has at least two points. */
  predicate EarnsBadge(strokes: seq<Stroke>, n: nat, b: int) {
    1 <= b <= n && b <= |strokes| && |strokes[b - 1]| >= 2
  }

  /** `xs` is strictly increasing and every element lies in `1..n`. */
  predicate IncreasingUpTo(xs: seq<nat>, n: nat) {
    StrictlyIncreasing(xs) && forall a :: 0 <= a < |xs| ==> 1 <= xs[a] <= n
  }

  // The step lemmas below take both the count before (`m`) and after (`n = m + 1`) as
  // parameters, so that each fact is stated about the same terms as the next one needs.

  lemma {:induction false} RenderPrefixStep(strokes: seq<Stroke>, m: nat, n: nat, offset: (Point, Point) -> Point)
    requires n == m + 1 && n <= |strokes|
    ensures RenderPrefix(strokes, n, offset) == RenderPrefix(strokes, m, offset) + StrokeOps(strokes[m], m, offset)
  {
  }

  /** Stroke `m` earns badge `n = m + 1` when it has two points. */
  lemma {:induction false} OwnBadge(points: Stroke, m: nat, n: nat, offset: (Point, Point) -> Point)
    requires n == m + 1
    ensures BadgeNumbers(StrokeOps(points, m, offset)) == (if |points| >= 2 then [n] else [])
  {
    StrokeBadges(points, m, offset);
  }

  /** Drawing stroke `m` after the first `m` adds its own badge, numbered `m + 1`, when it has
      two points. */
  lemma {:induction false} BadgesStep(strokes: seq<Stroke>, m: nat, n: nat, offset: (Point, Point) -> Point)
    requires n == m + 1 && n <= |strokes|
    ensures BadgeNumbers(RenderPrefix(strokes, n, offset))
            == BadgeNumbers(RenderPrefix(strokes, m, offset)) + (if |strokes[m]| >= 2 then [n] else [])
  {
    RenderPrefixStep(strokes, m, n, offset);
    BadgeNumbersAppend(RenderPrefix(strokes, m, offset), StrokeOps(strokes[m], m, offset));
    OwnBadge(strokes[m], m, n, offset);
  }

  lemma {:induction false} BadgeSetStep(strokes: seq<Stroke>, m: nat, n: nat, all: seq<nat>, prev: seq<nat>, own: seq<nat>)
    requires n == m + 1 && n <= |strokes|
    requires all == prev + own
    requires forall b :: b in prev <==> EarnsBadge(strokes, m, b)
    requires own == (if |strokes[m]| >= 2 then [n] else [])
    ensures forall b :: b in all <==> EarnsBadge(strokes, n, b)
  {
  }

  /** Appending nothing, or the next number `n = m + 1`, to a sequence increasing up to `m`. */
  lemma {:induction false} IncreasingStep(all: seq<nat>, prev: seq<nat>, own: seq<nat>, m: nat, n: nat)
    requires n == m + 1
    requires all == prev + own
    requires IncreasingUpTo(prev, m)
    requires own == [] || own == [n]
    ensures IncreasingUpTo(all, n)
  {
    if own == [n] {
      forall a, b | 0 <= a < b < |all| ensures all[a] < all[b] {
        assert all[a] == prev[a];
      }
    }
  }

  /** Badge `b` is drawn for the first `n` strokes exactly when stroke `b - 1` is among them and
      has at least two points. */
  lemma {:induction false} RenderBadgeSet(strokes: seq<Stroke>, n: nat, offset: (Point, Point) -> Point)
    requires n <= |strokes|
    ensures forall b :: b in BadgeNumbers(RenderPrefix(strokes, n, offset)) <==> EarnsBadge(strokes, n, b)
    decreases n, 1
  {
    if n > 0 {
      BadgeSetAfter(strokes, n - 1, n, offset);
    }
  }

  lemma {:induction false} BadgeSetAfter(strokes: seq<Stroke>, m: nat, n: nat, offset: (Point, Point) -> Point)
    requires n == m + 1 && n <= |strokes|
    ensures forall b :: b in BadgeNumbers(RenderPrefix(strokes, n, offset)) <==> EarnsBadge(strokes, n, b)
    decreases n, 0
  {
    var own: seq<nat> := if |strokes[m]| >= 2 then [n] else [];
    RenderBadgeSet(strokes, m, offset);
    BadgesStep(strokes, m, n, offset);
    BadgeSetStep(strokes, m, n, BadgeNumbers(RenderPrefix(strokes, n, offset)), BadgeNumbers(RenderPrefix(strokes, m, offset)), own);
  }

  /** The badges of a drawing appear in strictly increasing order of their numbers, all
      between 1 and the number of strokes drawn. */
  lemma {:induction false} RenderBadgesIncrease(strokes: seq<Stroke>, n: nat, offset: (Point, Point) -> Point)
    requires n <= |strokes|
    ensures IncreasingUpTo(BadgeNumbers(RenderPrefix(strokes, n, offset)), n)
    decreases n, 1
  {
    if n > 0 {
      BadgesIncreaseAfter(strokes, n - 1, n, offset);
    }
  }

  lemma {:induction false} BadgesIncreaseAfter(strokes: seq<Stroke>, m: nat, n: nat, offset: (Point, Point) -> Point)
    requires n == m + 1 && n <= |strokes|
    ensures IncreasingUpTo(BadgeNumbers(RenderPrefix(strokes, n, offset)), n)
    decreases n, 0
  {
    var own: seq<nat> := if |strokes[m]| >= 2 then [n] else [];
    RenderBadgesIncrease(strokes, m, offset);
    BadgesStep(strokes, m, n, offset);
    IncreasingStep(BadgeNumbers(RenderPrefix(strokes, n, offset)), BadgeNumbers(RenderPrefix(strokes, m, offset)), own, m, n);
  }

  /** A finished letter shows its badges in strictly increasing order. */
  lemma {:induction false} RenderBadgesOrdered(strokes: seq<Stroke>, offset: (Point, Point) -> Point)
    ensures StrictlyIncreasing(BadgeNumbers(Render(strokes, offset)))
  {
    RenderBadgesIncrease(strokes, |strokes|, offset);
  }
}
