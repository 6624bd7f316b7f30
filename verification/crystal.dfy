/**
 * The rotating crystal (`Crystal`): twelve icosahedron vertices generated
 * once, and a per-frame `draw` that is skipped while the page is hidden,
 * otherwise advances the time parameter and strokes an edge for every pair
 * of projected points closer than 260 pixels, fading with distance. Every
 * call schedules exactly one next frame.
 *
 * The projection and the trigonometry are not modelled: a frame's input is
 * the table of screen distances between the projected points.
 */
module Crystal {

  /** A vertex `{x, y, z}`. */
  datatype Point = Point(x: real, y: real, z: real)

  /** The factor every unit coordinate is scaled by. */
  const Size: real := 140.0
  /** Edges are drawn only between points closer than this. */
  const Threshold: real := 260.0
  /** How much the time parameter advances on a drawn frame. */
  const Step: real := 0.0042

  /** The unit coordinates, in the order the script lists them; `phi` is the golden ratio. */
  function Raw(phi: real): seq<Point> {
    [ Point(-1.0, phi, 0.0), Point(1.0, phi, 0.0), Point(-1.0, -phi, 0.0), Point(1.0, -phi, 0.0),
      Point(0.0, -1.0, phi), Point(0.0, 1.0, phi), Point(0.0, -1.0, -phi), Point(0.0, 1.0, -phi),
      Point(phi, 0.0, -1.0), Point(phi, 0.0, 1.0), Point(-phi, 0.0, -1.0), Point(-phi, 0.0, 1.0) ]
  }

  function Scaled(p: Point): Point {
    Point(p.x * Size, p.y * Size, p.z * Size)
  }

  /** The vertex set: each unit coordinate scaled by `Size`. */
  function Vertices(phi: real): seq<Point> {
    seq(|Raw(phi)|, k requires 0 <= k < |Raw(phi)| => Scaled(Raw(phi)[k]))
  }

  /** Squared distance from the centre. */
  function NormSq(p: Point): real {
    p.x * p.x + p.y * p.y + p.z * p.z
  }

  lemma ScaledNormSq(p: Point)
    ensures NormSq(Scaled(p)) == Size * Size * NormSq(p)
  {
  }

  /** There are twelve vertices, and all of them lie on one sphere around the centre. */
  lemma {:induction false} VerticesOnSphere(phi: real)
    ensures |Vertices(phi)| == 12
    ensures forall k :: 0 <= k < 12 ==> NormSq(Vertices(phi)[k]) == Size * Size * (1.0 + phi * phi)
  {
    var raw := Raw(phi);
    assert forall k :: 0 <= k < 12 ==> NormSq(raw[k]) == 1.0 + phi * phi;
    forall k | 0 <= k < 12
      ensures NormSq(Vertices(phi)[k]) == Size * Size * (1.0 + phi * phi)
    {
      ScaledNormSq(raw[k]);
    }
  }

  /** `generatePoints`: push each scaled unit coordinate in turn. */
  method GeneratePoints(phi: real) returns (pts: seq<Point>)
    ensures pts == Vertices(phi)
    ensures |pts| == 12
    ensures forall k :: 0 <= k < |pts| ==> NormSq(pts[k]) == Size * Size * (1.0 + phi * phi)
  {
    var raw := Raw(phi);
    pts := [];
    var k := 0;
    while k < |raw|
      invariant 0 <= k <= |raw|
      invariant pts == Vertices(phi)[..k]
    {
      var p := raw[k];
      pts := pts + [Point(p.x * Size, p.y * Size, p.z * Size)];
      k := k + 1;
    }
    VerticesOnSphere(phi);
  }

  // ---------------------------------------------------------------------------
  // The pairs the edge loop visits.
  // ---------------------------------------------------------------------------

  /** The pairs `(i, i+1) … (i, j-1)`: the inner loop for row `i`, up to column `j`. */
  function Row(i: nat, j: nat): seq<(nat, nat)>
    decreases j
  {
    if j <= i + 1 then [] else Row(i, j - 1) + [(i, j - 1)]
  }

  /** The pairs of rows `0 … i-1` over `n` points, in the order the loops visit them. */
  function PairsBelow(i: nat, n: nat): seq<(nat, nat)> {
    if i == 0 then [] else PairsBelow(i - 1, n) + Row(i - 1, n)
  }

  /** Row `i` up to column `j` holds only pairs `(i, b)` with `i < b < j`. */
  lemma {:induction false} RowBounds(i: nat, j: nat)
    ensures forall k :: 0 <= k < |Row(i, j)| ==> Row(i, j)[k].0 == i && i < Row(i, j)[k].1 < j
  {
    if j > i + 1 { RowBounds(i, j - 1); }
  }

  /** The rows below `i` hold only pairs `(a, b)` with `a < i` and `a < b < n`. */
  lemma {:induction false} PairsBelowBounds(i: nat, n: nat)
    ensures forall k :: 0 <= k < |PairsBelow(i, n)| ==>
      PairsBelow(i, n)[k].0 < i && PairsBelow(i, n)[k].0 < PairsBelow(i, n)[k].1 < n
  {
    if i > 0 {
      PairsBelowBounds(i - 1, n);
      RowBounds(i - 1, n);
    }
  }

  /** Every pair `i < j` of `n` points, in the order `for i, for j = i+1` visits them. */
  function Pairs(n: nat): seq<(nat, nat)> {
    PairsBelow(n, n)
  }

  lemma {:induction false} RowContains(i: nat, j: nat, b: nat)
    requires i < b < j
    ensures (i, b) in Row(i, j)
  {
    if b < j - 1 { RowContains(i, j - 1, b); }
  }

  lemma {:induction false} PairsBelowContains(i: nat, n: nat, a: nat, b: nat)
    requires a < i && a < b < n
    ensures (a, b) in PairsBelow(i, n)
  {
    if a == i - 1 { RowContains(a, n, b); } else { PairsBelowContains(i - 1, n, a, b); }
  }

  /** `(a, b)` precedes `(c, d)` in the loops' order. */
  predicate Before(p: (nat, nat), q: (nat, nat)) {
    p.0 < q.0 || (p.0 == q.0 && p.1 < q.1)
  }

  /** Each pair comes strictly before the next: no pair is visited twice. */
  predicate Increasing(ps: seq<(nat, nat)>) {
    forall k, l :: 0 <= k < l < |ps| ==> Before(ps[k], ps[l])
  }

  lemma {:induction false} RowIncreasing(i: nat, j: nat)
    ensures Increasing(Row(i, j))
  {
    if j > i + 1 {
      RowIncreasing(i, j - 1);
      RowBounds(i, j - 1);
    }
  }

  lemma {:induction false} PairsBelowIncreasing(i: nat, n: nat)
    ensures Increasing(PairsBelow(i, n))
  {
    if i > 0 {
      PairsBelowIncreasing(i - 1, n);
      RowIncreasing(i - 1, n);
      PairsBelowBounds(i - 1, n);
      RowBounds(i - 1, n);
      var a, b := PairsBelow(i - 1, n), Row(i - 1, n);
      forall k, l | 0 <= k < l < |a + b| ensures Before((a + b)[k], (a + b)[l]) {
        if l < |a| {
        } else if k >= |a| {
          assert (a + b)[k] == b[k - |a|] && (a + b)[l] == b[l - |a|];
        } else {
          assert (a + b)[k] == a[k] && (a + b)[l] == b[l - |a|];
        }
      }
    }
  }

  lemma {:induction false} RowLength(i: nat, j: nat)
    ensures |Row(i, j)| == if j <= i + 1 then 0 else j - i - 1
  {
    if j > i + 1 { RowLength(i, j - 1); }
  }

  lemma {:induction false} PairsBelowLength(i: nat, n: nat)
    requires i <= n
    ensures 2 * |PairsBelow(i, n)| == i * (2 * n - i - 1)
  {
    if i > 0 {
      PairsBelowLength(i - 1, n);
      RowLength(i - 1, n);
      assert |PairsBelow(i, n)| == |PairsBelow(i - 1, n)| + (n - i);
      PairsBelowLengthStep(i, n);
    }
  }

  /** The arithmetic of one step of `PairsBelowLength`: adding row `i-1`'s `n-i` pairs. */
  lemma PairsBelowLengthStep(i: nat, n: nat)
    requires 1 <= i <= n
    ensures (i - 1) * (2 * n - (i - 1) - 1) + 2 * (n - i) == i * (2 * n - i - 1)
  {
    var m := 2 * n - i;
    assert (i - 1) * m == i * m - m;
    assert i * (m - 1) == i * m - i;
  }

  /**
   * The loops visit exactly the unordered pairs `a < b` of the `n` points,
   * each once and in increasing order: `n(n-1)/2` of them.
   */
  lemma PairsVisitedOnce(n: nat)
    ensures forall p: (nat, nat) :: p in Pairs(n) <==> p.0 < p.1 < n
    ensures Increasing(Pairs(n))
    ensures 2 * |Pairs(n)| == n * (n - 1)
  {
    forall p: (nat, nat) | p.0 < p.1 < n ensures p in Pairs(n) {
      PairsBelowContains(n, n, p.0, p.1);
    }
    PairsBelowBounds(n, n);
    PairsBelowIncreasing(n, n);
    PairsBelowLength(n, n);
  }

  /** The twelve generated points give 66 pairs. */
  lemma TwelvePointsSixtySixPairs()
    ensures |Pairs(12)| == 66
  {
    PairsVisitedOnce(12);
  }

  // ---------------------------------------------------------------------------
  // The edge rule.
  // ---------------------------------------------------------------------------

  /** A stroked edge from point `i` to point `j` with opacity factor `alpha`. */
  datatype Edge = Edge(i: nat, j: nat, alpha: real)

  /** A frame's input: screen distances between the projected points, which `Math.hypot` makes non-negative. */
  predicate DistanceTable(dist: seq<seq<real>>, n: nat) {
    && |dist| == n
    && forall a :: 0 <= a < n ==> |dist[a]| == n && forall b :: 0 <= b < n ==> dist[a][b] >= 0.0
  }

  /** `1 - dist / 260`: the opacity factor of an edge, in (0, 1] below the threshold. */
  function Alpha(d: real): (alpha: real)
    ensures 0.0 <= d < Threshold ==> 0.0 < alpha <= 1.0
    ensures d == 0.0 ==> alpha == 1.0
  {
    1.0 - d / 260.0
  }

  /**
   * What the loop body does for the pair `(i, j)`: an edge iff the two points
   * are closer than the threshold. (A pair outside the table, which the loops
   * never visit, gives nothing.)
   */
  function EdgeFor(dist: seq<seq<real>>, i: nat, j: nat): seq<Edge> {
    if i < |dist| && j < |dist[i]| && dist[i][j] < Threshold then [Edge(i, j, Alpha(dist[i][j]))] else []
  }

  /** The edges of row `i` up to column `j`: those of the pairs `Row(i, j)`, in order. */
  function RowEdges(dist: seq<seq<real>>, i: nat, j: nat): seq<Edge>
    decreases j
  {
    if j <= i + 1 then [] else RowEdges(dist, i, j - 1) + EdgeFor(dist, i, j - 1)
  }

  /** The edges of rows `0 … i-1`: those of the pairs `PairsBelow(i, |dist|)`, in order. */
  function BelowEdges(dist: seq<seq<real>>, i: nat): seq<Edge> {
    if i == 0 then [] else BelowEdges(dist, i - 1) + RowEdges(dist, i - 1, |dist|)
  }

  /** The edges a visible frame strokes over `dist`. */
  function FrameEdges(dist: seq<seq<real>>): seq<Edge> {
    BelowEdges(dist, |dist|)
  }

  /** The rule for one edge: the pair is in the table, closer than 260, and the alpha is `1 - dist/260`. */
  predicate Drawn(dist: seq<seq<real>>, e: Edge) {
    e.i < |dist| && e.j < |dist[e.i]| && dist[e.i][e.j] < Threshold && e.alpha == Alpha(dist[e.i][e.j])
  }

  lemma {:induction false} RowEdgesMembers(dist: seq<seq<real>>, i: nat, j: nat, e: Edge)
    ensures e in RowEdges(dist, i, j) <==> e.i == i && i < e.j < j && Drawn(dist, e)
    decreases j
  {
    if j > i + 1 { RowEdgesMembers(dist, i, j - 1, e); }
  }

  lemma {:induction false} BelowEdgesMembers(dist: seq<seq<real>>, i: nat, e: Edge)
    ensures e in BelowEdges(dist, i) <==> e.i < i && e.i < e.j < |dist| && Drawn(dist, e)
  {
    if i > 0 {
      BelowEdgesMembers(dist, i - 1, e);
      RowEdgesMembers(dist, i - 1, |dist|, e);
    }
  }

  /**
   * The edge rule over a whole frame: an edge from `a` to `b` is stroked
   * exactly when `a < b` and their distance is below 260, and its alpha is
   * then `1 - dist/260`, which lies in (0, 1].
   */
  lemma EdgeDrawnIff(dist: seq<seq<real>>, e: Edge)
    requires DistanceTable(dist, |dist|)
    ensures e in FrameEdges(dist) <==>
      e.i < e.j < |dist| && dist[e.i][e.j] < Threshold && e.alpha == 1.0 - dist[e.i][e.j] / Threshold
    ensures e in FrameEdges(dist) ==> 0.0 < e.alpha <= 1.0
    ensures e in FrameEdges(dist) <==> (e.i, e.j) in Pairs(|dist|) && Drawn(dist, e)
  {
    BelowEdgesMembers(dist, |dist|, e);
    PairsVisitedOnce(|dist|);
  }

  /** The point pairs `(i, j)` of a run of edges, in order. */
  function Ends(es: seq<Edge>): (ps: seq<(nat, nat)>)
    ensures |ps| == |es|
  {
    seq(|es|, k requires 0 <= k < |es| => (es[k].i, es[k].j))
  }

  lemma EndsAppend(a: seq<Edge>, b: seq<Edge>)
    ensures Ends(a + b) == Ends(a) + Ends(b)
  {
    forall k | 0 <= k < |a + b| ensures Ends(a + b)[k] == (Ends(a) + Ends(b))[k] {
      if k < |a| { assert (a + b)[k] == a[k]; } else { assert (a + b)[k] == b[k - |a|]; }
    }
  }

  lemma EndsJoin(a: seq<Edge>, b: seq<Edge>, p: seq<(nat, nat)>, q: seq<(nat, nat)>)
    requires Ends(a) == p && Ends(b) == q
    ensures Ends(a + b) == p + q
  {
    EndsAppend(a, b);
  }

  /** Every pair of distinct points is closer than the threshold. */
  predicate AllClose(dist: seq<seq<real>>)
    requires DistanceTable(dist, |dist|)
  {
    forall a, b :: 0 <= a < b < |dist| ==> dist[a][b] < Threshold
  }

  lemma {:induction false} RowEdgesAllClose(dist: seq<seq<real>>, i: nat, j: nat)
    requires DistanceTable(dist, |dist|) && AllClose(dist) && i < |dist| && j <= |dist|
    ensures Ends(RowEdges(dist, i, j)) == Row(i, j)
    decreases j
  {
    if j > i + 1 {
      var e := Edge(i, j - 1, Alpha(dist[i][j - 1]));
      assert EdgeFor(dist, i, j - 1) == [e];
      RowEdgesAllClose(dist, i, j - 1);
      EndsAppend(RowEdges(dist, i, j - 1), [e]);
    }
  }

  lemma {:induction false} BelowEdgesAllClose(dist: seq<seq<real>>, i: nat)
    requires DistanceTable(dist, |dist|) && AllClose(dist) && i <= |dist|
    ensures Ends(BelowEdges(dist, i)) == PairsBelow(i, |dist|)
  {
    if i > 0 {
      var init, row := BelowEdges(dist, i - 1), RowEdges(dist, i - 1, |dist|);
      BelowEdgesAllClose(dist, i - 1);
      RowEdgesAllClose(dist, i - 1, |dist|);
      EndsJoin(init, row, PairsBelow(i - 1, |dist|), Row(i - 1, |dist|));
    } else {
      assert Ends(BelowEdges(dist, 0)) == [];
    }
  }

  /**
   * When every pair is closer than the threshold, the frame strokes one edge
   * for each visited pair, in the loops' order: `n(n-1)/2` edges.
   */
  lemma AllCloseStrokesEveryPair(dist: seq<seq<real>>)
    requires DistanceTable(dist, |dist|) && AllClose(dist)
    ensures Ends(FrameEdges(dist)) == Pairs(|dist|)
    ensures 2 * |FrameEdges(dist)| == |dist| * (|dist| - 1)
  {
    BelowEdgesAllClose(dist, |dist|);
    PairsVisitedOnce(|dist|);
  }

  /** `e` is stroked before `f` in the loops' order. */
  predicate EdgeBefore(e: Edge, f: Edge) {
    Before((e.i, e.j), (f.i, f.j))
  }

  /** Each edge comes strictly after the one before: no pair is stroked twice. */
  predicate EdgesIncreasing(es: seq<Edge>) {
    forall k, l :: 0 <= k < l < |es| ==> EdgeBefore(es[k], es[l])
  }

  /** Two increasing runs whose every element of the first precedes every element of the second. */
  lemma ConcatIncreasing(a: seq<Edge>, b: seq<Edge>)
    requires EdgesIncreasing(a) && EdgesIncreasing(b)
    requires forall x, y :: x in a && y in b ==> EdgeBefore(x, y)
    ensures EdgesIncreasing(a + b)
  {
    forall k, l | 0 <= k < l < |a + b| ensures EdgeBefore((a + b)[k], (a + b)[l]) {
      if l < |a| {
        assert (a + b)[k] == a[k] && (a + b)[l] == a[l];
      } else if k >= |a| {
        assert (a + b)[k] == b[k - |a|] && (a + b)[l] == b[l - |a|];
      } else {
        assert (a + b)[k] == a[k] && (a + b)[l] == b[l - |a|];
      }
    }
  }

  lemma {:induction false} RowEdgesIncreasing(dist: seq<seq<real>>, i: nat, j: nat)
    ensures EdgesIncreasing(RowEdges(dist, i, j))
    decreases j
  {
    if j > i + 1 {
      var init := RowEdges(dist, i, j - 1);
      forall x | x in init ensures x.i == i && x.j < j - 1 {
        RowEdgesMembers(dist, i, j - 1, x);
      }
      RowEdgesIncreasing(dist, i, j - 1);
      ConcatIncreasing(init, EdgeFor(dist, i, j - 1));
    }
  }

  /** A frame strokes its edges in the loops' order, each pair at most once. */
  lemma {:induction false} BelowEdgesIncreasing(dist: seq<seq<real>>, i: nat)
    ensures EdgesIncreasing(BelowEdges(dist, i))
  {
    if i > 0 {
      var init, row := BelowEdges(dist, i - 1), RowEdges(dist, i - 1, |dist|);
      forall x | x in init ensures x.i < i - 1 {
        BelowEdgesMembers(dist, i - 1, x);
      }
      forall y | y in row ensures y.i == i - 1 {
        RowEdgesMembers(dist, i - 1, |dist|, y);
      }
      BelowEdgesIncreasing(dist, i - 1);
      RowEdgesIncreasing(dist, i - 1, |dist|);
      ConcatIncreasing(init, row);
    }
  }

  /** The nested `for (i…) for (j = i+1…)` loop of `draw`. */
  method StrokeEdges(dist: seq<seq<real>>) returns (edges: seq<Edge>)
    requires DistanceTable(dist, |dist|)
    ensures edges == FrameEdges(dist)
  {
    var n := |dist|;
    edges := [];
    var i: nat := 0;
    while i < n
      invariant i <= n
      invariant edges == BelowEdges(dist, i)
    {
      var row := StrokeRow(dist, i);
      edges := edges + row;
      i := i + 1;
    }
  }

  /** One pass of the inner loop: the edges of `(i, i+1) … (i, n-1)`, in order. */
  method StrokeRow(dist: seq<seq<real>>, i: nat) returns (row: seq<Edge>)
    requires i < |dist| && |dist[i]| == |dist|
    ensures row == RowEdges(dist, i, |dist|)
  {
    var n := |dist|;
    row := [];
    var j: nat := i + 1;
    while j < n
      invariant i + 1 <= j <= n
      invariant row == RowEdges(dist, i, j)
    {
      var d := dist[i][j];
      if d < Threshold {
        var alpha := Alpha(d);
        row := row + [Edge(i, j, alpha)];
      }
      j := j + 1;
    }
  }

  /**
   * The radius of the centre glow, `140 + pulse * 20` with `pulse = (sin(2t) + 1) / 2`;
   * `sin2t` is the value `Math.sin(t * 2)` returns.
   */
  function GlowRadius(sin2t: real): (r: real)
    requires -1.0 <= sin2t <= 1.0
    ensures 140.0 <= r <= 160.0
    ensures r == 140.0 <==> sin2t == -1.0
    ensures r == 160.0 <==> sin2t == 1.0
  {
    var pulse := (sin2t + 1.0) / 2.0;
    140.0 + pulse * 20.0
  }

  /** What one call of `draw` puts on the canvas. */
  datatype FrameOutput =
    | Skipped                                  // the page is hidden: nothing cleared or drawn
    | Painted(edges: seq<Edge>, glow: real)    // cleared, these edges stroked, then a glow of this radius

  /**
   * The crystal: its fixed vertices, the time parameter `t`, and the animation
   * frames requested and run so far.
   */
  class Crystal {
    const points: seq<Point>
    var t: real
    var framesRequested: nat
    var framesRun: nat

    /** Twelve vertices, and always exactly one frame callback pending. */
    ghost predicate Valid()
      reads this
    {
      |points| == 12 && framesRequested == framesRun + 1
    }

    /** `new Crystal(canvas)`: generate the points once, start at `t = 0`, request the first frame. */
    constructor (phi: real)
      ensures Valid() && points == Vertices(phi) && t == 0.0 && framesRun == 0
    {
      var pts := GeneratePoints(phi);
      points := pts;
      t := 0.0;
      framesRequested := 1;
      framesRun := 0;
    }

    /**
     * One animation-frame callback, `draw()`. `hidden` is `document.hidden`;
     * `dist` holds the screen distances of this frame's projected points and
     * `sin2t` the sine of twice the advanced time parameter.
     */
    method Draw(hidden: bool, dist: seq<seq<real>>, sin2t: real) returns (frame: FrameOutput)
      requires Valid() && DistanceTable(dist, |points|) && -1.0 <= sin2t <= 1.0
      modifies this
      ensures Valid()
      ensures framesRun == old(framesRun) + 1 && framesRequested == old(framesRequested) + 1
      ensures hidden ==> t == old(t) && frame == Skipped
      ensures !hidden ==> t == old(t) + Step && frame == Painted(FrameEdges(dist), GlowRadius(sin2t))
    {
      framesRun := framesRun + 1;
      if hidden {
        framesRequested := framesRequested + 1;
        frame := Skipped;
        return;
      }
      t := t + Step;
      var edges := StrokeEdges(dist);
      frame := Painted(edges, GlowRadius(sin2t));
      framesRequested := framesRequested + 1;
    }
  }
}
