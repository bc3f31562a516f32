/** The value-level description of a spline: the curve pieces between
    consecutive control points, the sampled arc-length table, the inverse
    lookup from a distance to a curve parameter, and the point-list edits.
    The `Spline` class (spline.dfy) is proved to compute exactly these. */
module SplineCurves {
  import opened Vectors
  import opened ControlPoints

  /** Samples per curve piece in the arc-length table. */
  const TableSize: int := 100

  /** Position on curve piece `c` (from point c to point c + 1) at local `t`. */
  function CurvePoint(g: Geometry, ps: seq<PointState>, c: int, t: real): Vec3
    requires 0 <= c < |ps| - 1
  {
    g.bezierPoint(ps[c].anchor, ps[c].HandlePosition(1), ps[c + 1].HandlePosition(0), ps[c + 1].anchor, t)
  }

  /** First derivative on curve piece `c` at local `t`. */
  function CurveDirection(g: Geometry, ps: seq<PointState>, c: int, t: real): Vec3
    requires 0 <= c < |ps| - 1
  {
    g.bezierDerivative(ps[c].anchor, ps[c].HandlePosition(1), ps[c + 1].HandlePosition(0), ps[c + 1].anchor, t)
  }

  /** A curve piece is fixed by its two end points: two point lists that
      agree at `c` and `c + 1` give the same position and direction there. */
  lemma PieceDependsOnEnds(g: Geometry, ps: seq<PointState>, qs: seq<PointState>, c: int, t: real)
    requires 0 <= c < |ps| - 1 && 0 <= c < |qs| - 1
    requires ps[c] == qs[c] && ps[c + 1] == qs[c + 1]
    ensures CurvePoint(g, ps, c, t) == CurvePoint(g, qs, c, t)
    ensures CurveDirection(g, ps, c, t) == CurveDirection(g, qs, c, t)
  {
  }

  /** Appending a point leaves every existing curve piece as it was. */
  lemma AppendKeepsPieces(g: Geometry, ps: seq<PointState>, p: PointState, c: int, t: real)
    requires 0 <= c < |ps| - 1
    ensures CurvePoint(g, ps + [p], c, t) == CurvePoint(g, ps, c, t)
    ensures CurveDirection(g, ps + [p], c, t) == CurveDirection(g, ps, c, t)
  {
    PieceDependsOnEnds(g, ps + [p], ps, c, t);
  }

  /** The table step `j` as a parameter on the unit interval. */
  function Step(j: int): real {
    j as real / TableSize as real
  }

  /** Straight-line distance between two positions. */
  function Distance(g: Geometry, a: Vec3, b: Vec3): (r: real)
    ensures g.Valid() ==> r >= 0.0
  {
    g.magnitude(Sub(a, b))
  }

  /** Length of the table for `n` points. */
  function TableLength(n: int): int {
    (n - 1) * TableSize + 1
  }

  /** Table entry `k` as (curve piece, step within the piece), counted off
      one piece at a time. */
  function PieceIndex(k: nat): (r: (nat, nat))
    ensures r.1 < TableSize
    decreases k
  {
    if k < TableSize then (0, k)
    else
      var (c, j) := PieceIndex(k - TableSize);
      (c + 1, j)
  }

  /** PieceIndex is division with remainder by the table size. */
  lemma {:induction false} PieceIndexBound(k: nat)
    ensures PieceIndex(k).0 * TableSize + PieceIndex(k).1 == k
  {
    if k >= TableSize {
      PieceIndexBound(k - TableSize);
    }
  }

  /** Step `j` of piece `c` is entry `c * 100 + j`. */
  lemma {:induction false} PieceIndexOf(c: nat, j: nat)
    requires j < TableSize
    ensures PieceIndex(c * TableSize + j) == (c, j)
  {
    if c > 0 {
      PieceIndexOf(c - 1, j);
      assert c * TableSize + j - TableSize == (c - 1) * TableSize + j;
    }
  }

  /** The table entry of step `j` on curve piece `c`. */
  function Entry(c: int, j: int): int {
    c * TableSize + j
  }

  /** Entry `c * 100 + j` lies strictly inside the table of `n` points. */
  lemma PieceEntryInside(n: int, c: int, j: int)
    requires 0 <= c < n - 1 && 0 <= j < TableSize && c + j != 0
    ensures 0 < Entry(c, j) < TableLength(n) - 1
  {
  }

  /** The point sampled for table entry `k`: the first anchor, then step
      `k % 100` of curve piece `k / 100`, and the last anchor for the final entry. */
  function Sample(g: Geometry, ps: seq<PointState>, k: int): Vec3
    requires |ps| >= 2 && 0 <= k < TableLength(|ps|)
  {
    if k == 0 then ps[0].anchor
    else if k == TableLength(|ps|) - 1 then ps[|ps| - 1].anchor
    else
      var (c, j) := PieceIndex(k);
      PieceIndexBound(k);
      assert c < |ps| - 1;
      CurvePoint(g, ps, c, Step(j))
  }

  /** A sample strictly inside the table is a point of its curve piece. */
  lemma SampleAt(g: Geometry, ps: seq<PointState>, c: int, j: int)
    requires 0 <= c < |ps| - 1 && 0 <= j < TableSize && c + j != 0
    ensures 0 < Entry(c, j) < TableLength(|ps|) - 1
    ensures Sample(g, ps, Entry(c, j)) == CurvePoint(g, ps, c, Step(j))
  {
    PieceIndexOf(c, j);
  }

  /** `samples` holds the sampled points of the table: the first anchor,
      step `j` of curve piece `c` at entry `c * 100 + j`, and the last anchor. */
  ghost predicate SamplesOf(g: Geometry, ps: seq<PointState>, samples: seq<Vec3>) {
    |ps| >= 2 && |samples| == TableLength(|ps|) &&
    samples[0] == ps[0].anchor && samples[|samples| - 1] == ps[|ps| - 1].anchor &&
    forall c, j {:trigger Entry(c, j)} :: 0 <= c < |ps| - 1 && 0 <= j < TableSize && c + j != 0 ==>
      (PieceEntryInside(|ps|, c, j); samples[Entry(c, j)] == CurvePoint(g, ps, c, Step(j)))
  }

  /** All sampled points of the table, in order. */
  function Samples(g: Geometry, ps: seq<PointState>): (r: seq<Vec3>)
    requires |ps| >= 2
    ensures SamplesOf(g, ps, r)
  {
    var r := seq(TableLength(|ps|), k requires 0 <= k < TableLength(|ps|) => Sample(g, ps, k));
    assert forall c, j {:trigger Entry(c, j)} :: 0 <= c < |ps| - 1 && 0 <= j < TableSize && c + j != 0 ==>
      (PieceEntryInside(|ps|, c, j); r[Entry(c, j)] == CurvePoint(g, ps, c, Step(j))) by {
      forall c, j | 0 <= c < |ps| - 1 && 0 <= j < TableSize && c + j != 0 {
        SampleAt(g, ps, c, j);
      }
    }
    r
  }

  /** The samples are determined by the points: Samples is the only
      sequence that satisfies SamplesOf. */
  lemma SamplesUnique(g: Geometry, ps: seq<PointState>, samples: seq<Vec3>)
    requires SamplesOf(g, ps, samples)
    ensures samples == Samples(g, ps)
  {
    var r := Samples(g, ps);
    forall k | 0 <= k < |samples| ensures samples[k] == r[k] {
      if 0 < k < |samples| - 1 {
        PieceIndexBound(k);
        var (c, j) := PieceIndex(k);
        assert Entry(c, j) == k;
        PieceIndexBelow(k, |ps|);
        assert samples[k] == CurvePoint(g, ps, c, Step(j)) == r[k];
      }
    }
  }

  /** Entries before the last one of a table for `n` points fall on one of
      its `n - 1` curve pieces. */
  lemma {:induction false} PieceIndexBelow(k: nat, n: int)
    requires k < (n - 1) * TableSize
    ensures PieceIndex(k).0 < n - 1
  {
    if k >= TableSize {
      PieceIndexBelow(k - TableSize, n - 1);
    }
  }

  /** Step `j` of curve piece `c` is sample `c * 100 + j`. */
  lemma SampleOfPiece(g: Geometry, ps: seq<PointState>, samples: seq<Vec3>, c: int, j: int)
    requires SamplesOf(g, ps, samples)
    requires 0 <= c < |ps| - 1 && 0 <= j < TableSize && c + j != 0
    ensures 0 < c * TableSize + j < |samples| - 1
    ensures samples[c * TableSize + j] == CurvePoint(g, ps, c, Step(j))
  {
    PieceEntryInside(|ps|, c, j);
    assert samples[Entry(c, j)] == CurvePoint(g, ps, c, Step(j));
  }

  /** Length of the polyline through `pts[0..k]`: the straight-line
      distances between consecutive points added up. */
  function PathLength(g: Geometry, pts: seq<Vec3>, k: int): (r: real)
    requires 0 <= k < |pts|
    ensures k == 0 ==> r == 0.0
    ensures g.Valid() ==> r >= 0.0
  {
    if k == 0 then 0.0
    else PathLength(g, pts, k - 1) + Distance(g, pts[k], pts[k - 1])
  }

  /** Entry `k` of the arc-length table: the length of the polyline through
      samples 0..k. */
  function ArcLengthAt(g: Geometry, ps: seq<PointState>, k: int): (r: real)
    requires |ps| >= 2 && 0 <= k < TableLength(|ps|)
    ensures k == 0 ==> r == 0.0
    ensures g.Valid() ==> r >= 0.0
  {
    PathLength(g, Samples(g, ps), k)
  }

  /** A polyline only grows as points are added. */
  lemma {:induction false} PathLengthMonotone(g: Geometry, pts: seq<Vec3>, j: int, k: int)
    requires g.Valid()
    requires 0 <= j <= k < |pts|
    ensures PathLength(g, pts, j) <= PathLength(g, pts, k)
  {
    if j < k {
      PathLengthMonotone(g, pts, j, k - 1);
    }
  }

  /** Index of the first entry of `table` greater than `t`, or `|table|`. */
  function FirstAbove(table: seq<real>, t: real): (i: int)
    ensures 0 <= i <= |table|
    ensures forall k :: 0 <= k < i ==> table[k] <= t
    ensures i < |table| ==> table[i] > t
  {
    if |table| == 0 then 0
    else if table[0] > t then 0
    else 1 + FirstAbove(table[1..], t)
  }

  /** FirstAbove is the position a left-to-right scan stops at. */
  lemma {:induction false} FirstAboveAt(table: seq<real>, t: real, i: int)
    requires 0 <= i <= |table|
    requires forall k :: 0 <= k < i ==> table[k] <= t
    requires i < |table| ==> table[i] > t
    ensures FirstAbove(table, t) == i
  {
    if |table| > 0 && table[0] <= t {
      FirstAboveAt(table[1..], t, i - 1);
    }
  }

  function Clamp01(t: real): real {
    if t < 0.0 then 0.0 else if t > 1.0 then 1.0 else t
  }

  /** The engine's `Mathf.Lerp`, which clamps its parameter to [0, 1]. */
  function Lerp(a: real, b: real, t: real): real {
    a + (b - a) * Clamp01(t)
  }

  /** Inverse of the table: the curve parameter (piece index plus local
      parameter) at arc distance `t`. Between the two entries that bracket
      `t` the parameter is interpolated linearly; past the last entry it is
      the number of pieces. */
  function ArcPos(table: seq<real>, n: int, t: real): (r: real)
    requires 0 < |table| && table[0] <= t
    ensures var i := FirstAbove(table, t);
      i < |table| ==>
        1 <= i && table[i - 1] <= t < table[i] &&
        Step(i - 1) <= r < Step(i)
    ensures FirstAbove(table, t) == |table| ==> r == (n - 1) as real
    ensures |table| == TableLength(n) ==> 0.0 <= r <= (n - 1) as real
  {
    var i := FirstAbove(table, t);
    if i < |table| then
      var dT := (t - table[i - 1]) / (table[i] - table[i - 1]);
      FractionBelowOne(t - table[i - 1], table[i] - table[i - 1]);
      Lerp(Step(i - 1), Step(i), dT)
    else
      (n - 1) as real
  }

  lemma FractionBelowOne(a: real, b: real)
    requires 0.0 <= a < b
    ensures 0.0 <= a / b < 1.0
  {
  }

  /** Split a curve parameter into a piece index and a local parameter; the
      parameter at the very end of the spline is reported as the end (local
      1) of the last piece, so the piece index always names a real piece. */
  function Locate(n: int, r: real): (loc: (int, real))
    requires n >= 2 && 0.0 <= r <= (n - 1) as real
    ensures 0 <= loc.0 <= n - 2 && 0.0 <= loc.1 <= 1.0
    ensures loc.0 as real + loc.1 == r
    ensures r < (n - 1) as real ==> loc.0 == r.Floor
  {
    var curve := r.Floor;
    var t := r - curve as real;
    if curve == n - 1 then (n - 2, 1.0) else (curve, t)
  }

  /** The two points of a fresh spline: at `position` and one unit further
      along the forward axis, both facing forward. */
  function InitialPoints(position: Vec3): (ps: seq<PointState>)
    ensures |ps| == 2 && ps[0].anchor == position && ps[1].anchor == Add(position, Forward)
    ensures ps[0].connectedIndex == -1 && ps[1].connectedIndex == -1
  {
    [NewPoint(position, Forward), NewPoint(Add(position, Forward), Forward)]
  }

  /** The point `AddControlPoint` appends: one normalised outgoing-handle
      step beyond the last anchor, with half that step as its handle. */
  function AppendedPoint(g: Geometry, ps: seq<PointState>): (p: PointState)
    requires |ps| >= 1
    ensures var step := g.normalized(ps[|ps| - 1].handle1);
      p.anchor == Add(ps[|ps| - 1].anchor, step) && p.handle1 == Times(0.5, Times(0.5, step))
    ensures p.IsMirrored() && p.mode == Mirrored && p.connectedIndex == -1
  {
    NewPointIsMirrored(Add(ps[|ps| - 1].anchor, g.normalized(ps[|ps| - 1].handle1)), Times(0.5, g.normalized(ps[|ps| - 1].handle1)));
    var step := g.normalized(ps[|ps| - 1].handle1);
    NewPoint(Add(ps[|ps| - 1].anchor, step), Times(0.5, step))
  }

  /** The points after `InsertControlPoint(index)`. At 0 a point is put in
      front, one normalised step back along the first point's incoming
      handle. Otherwise the new point goes at the parametric middle of
      piece `index - 1`, both neighbours switch to Aligned, and the
      neighbours' handles facing the new point are halved. */
  function InsertedPoints(g: Geometry, ps: seq<PointState>, index: int): (r: seq<PointState>)
    requires |ps| >= 2 && 0 <= index < |ps|
    ensures |r| == |ps| + 1
    ensures index == 0 ==>
      r[1..] == ps && r[0].anchor == Add(ps[0].anchor, g.normalized(ps[0].handle0)) && r[0].IsMirrored()
    ensures index > 0 ==>
      r[..index - 1] == ps[..index - 1] && r[index + 2..] == ps[index + 1..] &&
      r[index].anchor == CurvePoint(g, ps, index - 1, 0.5) &&
      r[index - 1].mode == Aligned && r[index + 1].mode == Aligned &&
      r[index - 1].anchor == ps[index - 1].anchor && r[index + 1].anchor == ps[index].anchor &&
      r[index - 1].handle1 == Times(0.5, ps[index - 1].handle1) &&
      r[index + 1].handle0 == Times(0.5, Times(g.magnitude(ps[index].handle0), g.normalized(Neg(ps[index].handle1)))) &&
      r[index - 1].connectedIndex == ps[index - 1].connectedIndex &&
      r[index + 1].connectedIndex == ps[index].connectedIndex
  {
    var neighbours := AlignedAround(g, ps, index);
    neighbours[..index] + [InsertedPoint(g, ps, index)] + neighbours[index..]
  }

  /** The existing points once the neighbours of an insertion at `index`
      have been aligned and halved; nothing changes for an insertion at 0. */
  function AlignedAround(g: Geometry, ps: seq<PointState>, index: int): (r: seq<PointState>)
    requires 0 <= index < |ps|
    ensures |r| == |ps|
  {
    if index == 0 then ps
    else ps[index - 1 := HalvedOutgoing(g, ps[index - 1])][index := HalvedIncoming(g, ps[index])]
  }

  /** The point `InsertControlPoint(index)` creates, from the points before
      the neighbours are touched. */
  function InsertedPoint(g: Geometry, ps: seq<PointState>, index: int): (p: PointState)
    requires |ps| >= 2 && 0 <= index < |ps|
    ensures p.IsMirrored() && p.mode == Mirrored && p.connectedIndex == -1
    ensures index == 0 ==> p.anchor == Add(ps[0].anchor, g.normalized(ps[0].handle0))
    ensures index > 0 ==> p.anchor == CurvePoint(g, ps, index - 1, 0.5)
  {
    var (newAnchor, newDirection) :=
      if index == 0 then
        (Add(ps[0].anchor, g.normalized(ps[0].handle0)), Times(5.0, g.normalized(ps[0].handle1)))
      else
        (CurvePoint(g, ps, index - 1, 0.5),
         Times(0.5, Times(g.magnitude(ps[index].handle0), CurveDirection(g, ps, index - 1, 0.5))));
    NewPointIsMirrored(newAnchor, newDirection);
    NewPoint(newAnchor, newDirection)
  }

  /** The point before an inserted one: switched to Aligned, then its
      outgoing handle halved. */
  function HalvedOutgoing(g: Geometry, p: PointState): PointState {
    var aligned := WithMode(g, p, Aligned);
    WithRelativeHandle(g, aligned, 1, Times(0.5, aligned.handle1))
  }

  /** The point after an inserted one: switched to Aligned, then its
      incoming handle halved. */
  function HalvedIncoming(g: Geometry, p: PointState): PointState {
    var aligned := WithMode(g, p, Aligned);
    WithRelativeHandle(g, aligned, 0, Times(0.5, aligned.handle0))
  }
}
