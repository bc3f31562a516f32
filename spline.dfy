/** The mutable spline: an ordered list of control-point objects and the
    arc-length table rebuilt after every structural change. Its methods are
    proved to compute the values described in SplineCurves. */
module Splines {
  import opened Vectors
  import opened ControlPoints
  import opened SplineCurves
  import Lists

  class Spline {
    var points: seq<ControlPoint>
    var arcLengthTable: array<real>

    /** The handle arrays of all points. */
    ghost function HandleArrays(): set<array<Vec3>>
      reads this
    {
      set p | p in points :: p.handles
    }

    /** Every point is well formed, and no two positions share a point
        object or a handle array. */
    ghost predicate PointsValid()
      reads this
    {
      DistinctPoints(points)
    }

    /** At least two points, and a table of the right length that starts at
        zero and never decreases. */
    ghost predicate Valid()
      reads this, arcLengthTable
    {
      PointsValid() && |points| >= 2 &&
      arcLengthTable.Length == TableLength(|points|) &&
      arcLengthTable[0] == 0.0 &&
      forall j, k :: 0 <= j <= k < arcLengthTable.Length ==> arcLengthTable[j] <= arcLengthTable[k]
    }

    /** The values of the points, in order. */
    function States(): (r: seq<PointState>)
      reads this, points, HandleArrays()
      requires PointsValid()
      ensures |r| == |points|
      ensures forall i :: 0 <= i < |points| ==> r[i] == points[i].State()
    {
      StatesOf(points)
    }

    /** The spline of the parameterless constructor: anchors one and two
        units along the forward axis. */
    constructor Default(g: Geometry)
      ensures PointsValid() && fresh(points) && TableOf(g) && (g.Valid() ==> Valid())
      ensures States() == InitialPoints(Forward)
    {
      var first := new ControlPoint(Forward, Forward);
      var second := new ControlPoint(Times(2.0, Forward), Forward);
      points := [first, second];
      arcLengthTable := new real[1];
      new;
      assert second.State() == NewPoint(Add(Forward, Forward), Forward) by {
        assert Times(2.0, Forward) == Add(Forward, Forward);
      }
      assert PointsValid();
      ResetArcLengthTable(g);
    }

    /** A spline starting at `position` (the name the source derives from
        its index is not modelled). */
    constructor (g: Geometry, position: Vec3)
      ensures PointsValid() && fresh(points) && TableOf(g) && (g.Valid() ==> Valid())
      ensures States() == InitialPoints(position)
    {
      var first := new ControlPoint(position, Forward);
      var second := new ControlPoint(Add(position, Forward), Forward);
      points := [first, second];
      arcLengthTable := new real[1];
      new;
      ResetArcLengthTable(g);
    }

    /** The table holds the arc lengths of the current points. */
    ghost predicate TableOf(g: Geometry)
      reads this, points, HandleArrays(), arcLengthTable
    {
      PointsValid() && |points| >= 2 && arcLengthTable.Length == TableLength(|points|) &&
      forall k {:trigger arcLengthTable[k]} :: 0 <= k < arcLengthTable.Length ==> arcLengthTable[k] == ArcLengthAt(g, States(), k)
    }

    /** Rebuild the table from the current points. With fewer than two
        points the source reads the table at index -1, so two points are
        required here. */
    method ResetArcLengthTable(g: Geometry)
      requires PointsValid() && |points| >= 2
      modifies this
      ensures points == old(points) && fresh(arcLengthTable) && States() == old(States())
      ensures TableOf(g) && (g.Valid() ==> Valid())
    {
      var ps := States();
      arcLengthTable := BuildArcLengthTable(g, ps, Samples(g, ps));
      assert States() == ps;
    }

    /** The curve parameter at arc distance `t` along the spline. A
        negative distance makes the source read the table at index -1, so
        `t` must not be negative. */
    method GetArcPos(t: real) returns (r: real)
      requires Valid() && 0.0 <= t
      ensures r == ArcPos(arcLengthTable[..], |points|, t)
      ensures 0.0 <= r <= (|points| - 1) as real
    {
      var i := 0;
      while i < arcLengthTable.Length
        invariant 0 <= i <= arcLengthTable.Length
        invariant forall k :: 0 <= k < i ==> arcLengthTable[k] <= t
      {
        if arcLengthTable[i] > t {
          FirstAboveAt(arcLengthTable[..], t, i);
          var t1 := Step(i - 1);
          var t2 := Step(i);
          var dT := (t - arcLengthTable[i - 1]) / (arcLengthTable[i] - arcLengthTable[i - 1]);
          return Lerp(t1, t2, dT);
        }
        i := i + 1;
      }
      FirstAboveAt(arcLengthTable[..], t, i);
      return (|points| - 1) as real;
    }

    /** The total length: the last table entry, the largest one. */
    function GetArcLength(): (r: real)
      reads this, arcLengthTable
      requires Valid()
      ensures r >= 0.0
      ensures forall k :: 0 <= k < arcLengthTable.Length ==> arcLengthTable[k] <= r
      ensures exists k :: 0 <= k < arcLengthTable.Length && arcLengthTable[k] == r
    {
      arcLengthTable[arcLengthTable.Length - 1]
    }

    /** The position at arc distance `t`: the curve point at the piece and
        local parameter that Locate reads off GetArcPos. */
    method GetPoint(g: Geometry, t: real) returns (p: Vec3)
      requires Valid() && 0.0 <= t
      ensures var loc := Locate(|points|, ArcPos(arcLengthTable[..], |points|, t));
        p == CurvePoint(g, States(), loc.0, loc.1)
    {
      var u := GetArcPos(t);
      var curve := u.Floor;
      var s := u - curve as real;
      if curve == |points| - 1 {
        curve := |points| - 2;
        s := 1.0;
      }
      p := g.bezierPoint(points[curve].GetAnchorPosition(), points[curve].GetHandlePosition(1),
        points[curve + 1].GetHandlePosition(0), points[curve + 1].GetAnchorPosition(), s);
    }

    /** The first derivative at arc distance `t`, located as in GetPoint. */
    method GetDirection(g: Geometry, t: real) returns (d: Vec3)
      requires Valid() && 0.0 <= t
      ensures var loc := Locate(|points|, ArcPos(arcLengthTable[..], |points|, t));
        d == CurveDirection(g, States(), loc.0, loc.1)
    {
      var u := GetArcPos(t);
      var curve := u.Floor;
      var s := u - curve as real;
      if curve == |points| - 1 {
        curve := |points| - 2;
        s := 1.0;
      }
      d := g.bezierDerivative(points[curve].GetAnchorPosition(), points[curve].GetHandlePosition(1),
        points[curve + 1].GetHandlePosition(0), points[curve + 1].GetAnchorPosition(), s);
    }

    /** Append a point one normalised step beyond the last one. */
    method AddControlPoint(g: Geometry)
      requires Valid()
      modifies this
      ensures |points| == |old(points)| + 1 && points[..|old(points)|] == old(points) && fresh(points[|points| - 1])
      ensures TableOf(g) && (g.Valid() ==> Valid())
      ensures States() == old(States()) + [AppendedPoint(g, old(States()))]
    {
      ghost var ps := States();
      var last := points[|points| - 1];
      var step := g.normalized(last.GetRelativeHandlePosition(1));
      var p := new ControlPoint(Add(last.GetAnchorPosition(), step), Times(0.5, step));
      InsertPoint(|points|, p);
      assert ps[..|ps|] + [p.State()] + ps[|ps|..] == ps + [AppendedPoint(g, ps)];
      ResetArcLengthTable(g);
    }

    /** Insert a new point before position `index`, or in front of the first
        point when `index` is 0. The source reads `points[index]` on both
        branches, so `index` must name an existing point. */
    method InsertControlPoint(g: Geometry, index: int)
      requires Valid() && 0 <= index < |points|
      modifies this, points, HandleArrays()
      ensures |points| == |old(points)| + 1 && fresh(points[index])
      ensures points == Lists.InsertAt(old(points), index, points[index])
      ensures TableOf(g) && (g.Valid() ==> Valid())
      ensures States() == InsertedPoints(g, old(States()), index)
    {
      ghost var ps := States();
      var p := NewInsertedPoint(g, index);
      InsertPoint(index, p);
      assert States() == InsertedPoints(g, ps, index);
      ResetArcLengthTable(g);
    }

    /** The first half of InsertControlPoint: compute the new point from the
        current points, then align the neighbours. */
    method NewInsertedPoint(g: Geometry, index: int) returns (p: ControlPoint)
      requires PointsValid() && |points| >= 2 && 0 <= index < |points|
      modifies points, HandleArrays()
      ensures fresh(p) && fresh(p.handles) && p.Valid() && PointsValid()
      ensures p.State() == InsertedPoint(g, old(States()), index)
      ensures States() == AlignedAround(g, old(States()), index)
    {
      var newAnchor, newDirection;
      if index == 0 {
        newAnchor := Add(points[0].GetAnchorPosition(), g.normalized(points[0].GetRelativeHandlePosition(0)));
        newDirection := Times(5.0, g.normalized(points[0].GetRelativeHandlePosition(1)));
      } else {
        var current := States();
        newAnchor := CurvePoint(g, current, index - 1, 0.5);
        newDirection := Times(0.5, Times(points[index].GetHandleMagnitude(g, 0), CurveDirection(g, current, index - 1, 0.5)));
        AlignNeighbours(g, index);
      }
      p := new ControlPoint(newAnchor, newDirection);
    }

    /** Switch the two points around piece `index - 1` to Aligned and halve
        the handles that face each other. */
    method AlignNeighbours(g: Geometry, index: int)
      requires PointsValid() && 0 < index < |points|
      modifies points[index - 1], points[index], points[index - 1].handles, points[index].handles
      ensures PointsValid()
      ensures States() == AlignedAround(g, old(States()), index)
    {
      var before := points[index - 1];
      var after := points[index];
      before.SetMode(g, Aligned);
      before.SetRelativeHandlePosition(g, 1, Times(0.5, before.GetRelativeHandlePosition(1)));
      after.SetMode(g, Aligned);
      after.SetRelativeHandlePosition(g, 0, Times(0.5, after.GetRelativeHandlePosition(0)));
    }

    /** Put `p`, which shares nothing with the current points, at position `i`. */
    method InsertPoint(i: int, p: ControlPoint)
      requires PointsValid() && 0 <= i <= |points| && p.Valid()
      requires forall k :: 0 <= k < |points| ==> points[k] != p && points[k].handles != p.handles
      modifies this
      ensures PointsValid() && points == old(points[..i] + [p] + points[i..])
      ensures States() == old(States()[..i] + [p.State()] + States()[i..])
    {
      StatesAfterInsert(points, i, p);
      points := points[..i] + [p] + points[i..];
    }

    /** Remove the first occurrence of `point`. The table rebuild that
        follows needs two points, so removing one of the last two is
        excluded. */
    method RemoveControlPoint(g: Geometry, point: ControlPoint)
      requires Valid()
      requires point in points ==> |points| > 2
      modifies this
      ensures points == Lists.RemoveFirst(old(points), point)
      ensures TableOf(g) && (g.Valid() ==> Valid())
      ensures point in old(points) ==>
        var i := Lists.IndexOf(old(points), point);
        States() == old(States())[..i] + old(States())[i + 1..]
    {
      var i := Lists.IndexOf(points, point);
      if i >= 0 {
        DropPoint(i);
      }
      ResetArcLengthTable(g);
    }

    /** Drop the point at position `i`, leaving the table alone. */
    method DropPoint(i: int)
      requires PointsValid() && 0 <= i < |points|
      modifies this
      ensures PointsValid() && points == old(points[..i] + points[i + 1..])
      ensures States() == old(States()[..i] + States()[i + 1..])
    {
      StatesAfterRemove(points, i);
      points := points[..i] + points[i + 1..];
    }
  }

  /** Every point is well formed, and no two positions share a point object
      or a handle array, so updating one point leaves the others alone. */
  ghost predicate DistinctPoints(s: seq<ControlPoint>) {
    (forall i :: 0 <= i < |s| ==> s[i].Valid()) &&
    (forall i, j :: 0 <= i < |s| && 0 <= j < |s| && i != j ==> s[i] != s[j] && s[i].handles != s[j].handles)
  }

  /** The values of a list of points, in order. */
  function StatesOf(s: seq<ControlPoint>): (r: seq<PointState>)
    reads s, set p | p in s :: p.handles
    requires forall i :: 0 <= i < |s| ==> s[i].Valid()
    ensures |r| == |s|
    ensures forall i :: 0 <= i < |s| ==> r[i] == s[i].State()
  {
    seq(|s|, i reads s, set p | p in s :: p.handles requires 0 <= i < |s| && s[i].Valid() => s[i].State())
  }

  /** Dropping one position keeps the points distinct and drops that
      position's value. */
  lemma StatesAfterRemove(s: seq<ControlPoint>, i: int)
    requires DistinctPoints(s) && 0 <= i < |s|
    ensures DistinctPoints(s[..i] + s[i + 1..])
    ensures StatesOf(s[..i] + s[i + 1..]) == StatesOf(s)[..i] + StatesOf(s)[i + 1..]
  {
    var r := s[..i] + s[i + 1..];
    forall a, b | 0 <= a < |r| && 0 <= b < |r| && a != b
      ensures r[a] != r[b] && r[a].handles != r[b].handles
    {
      var a' := if a < i then a else a + 1;
      var b' := if b < i then b else b + 1;
      assert r[a] == s[a'] && r[b] == s[b'];
    }
    var ps := StatesOf(s);
    forall a | 0 <= a < |r| ensures StatesOf(r)[a] == (ps[..i] + ps[i + 1..])[a] {
      if a >= i {
        assert r[a] == s[a + 1];
      }
    }
  }

  /** A point that shares neither its object nor its handle array with any
      of `s` can be inserted anywhere, and its value appears there. */
  lemma StatesAfterInsert(s: seq<ControlPoint>, i: int, p: ControlPoint)
    requires DistinctPoints(s) && 0 <= i <= |s| && p.Valid()
    requires forall k :: 0 <= k < |s| ==> s[k] != p && s[k].handles != p.handles
    ensures DistinctPoints(s[..i] + [p] + s[i..])
    ensures StatesOf(s[..i] + [p] + s[i..]) == StatesOf(s)[..i] + [p.State()] + StatesOf(s)[i..]
  {
    var r := s[..i] + [p] + s[i..];
    forall a, b | 0 <= a < |r| && 0 <= b < |r| && a != b
      ensures r[a] != r[b] && r[a].handles != r[b].handles
    {
      if a != i && b != i {
        var a' := if a < i then a else a - 1;
        var b' := if b < i then b else b - 1;
        assert r[a] == s[a'] && r[b] == s[b'];
      }
    }
    var ps := StatesOf(s);
    forall a | 0 <= a < |r| ensures StatesOf(r)[a] == (ps[..i] + [p.State()] + ps[i..])[a] {
      if a > i {
        assert r[a] == s[a - 1];
      }
    }
  }

  /** The loop of ResetArcLengthTable over the values of the points: 100
      samples per segment, each entry the previous one plus the chord from
      the previous sample, and the last entry closed at the last anchor. */
  method BuildArcLengthTable(g: Geometry, ps: seq<PointState>, ghost samples: seq<Vec3>) returns (table: array<real>)
    requires SamplesOf(g, ps, samples)
    ensures fresh(table) && table.Length == |samples|
    ensures forall k {:trigger table[k]} :: 0 <= k < table.Length ==> table[k] == PathLength(g, samples, k)
    ensures g.Valid() ==> table[0] == 0.0 && forall j, k :: 0 <= j <= k < table.Length ==> table[j] <= table[k]
  {
    var n := |ps|;
    table := new real[(n - 1) * TableSize + 1];
    table[0] := 0.0;
    var lastPos := ps[0].anchor;
    var i := 0;
    while i < n - 1
      invariant 0 <= i <= n - 1
      invariant forall k {:trigger table[k]} :: 0 <= k < i * TableSize || k == 0 ==> table[k] == PathLength(g, samples, k)
      invariant lastPos == samples[if i == 0 then 0 else i * TableSize - 1]
    {
      lastPos := FillPiece(g, ps, samples, table, i, lastPos);
      i := i + 1;
    }
    var last := table.Length - 1;
    table[last] := table[last - 1] + Distance(g, ps[n - 1].anchor, lastPos);
    if g.Valid() {
      TableMonotone(g, samples, table[..]);
    }
  }

  /** The inner loop of ResetArcLengthTable: the entries of curve piece `i`,
      each the entry before it plus the distance from the previous sample. */
  method FillPiece(g: Geometry, ps: seq<PointState>, ghost samples: seq<Vec3>, table: array<real>, i: int, lastPos: Vec3)
    returns (nextLast: Vec3)
    requires 0 <= i < |ps| - 1 && SamplesOf(g, ps, samples) && table.Length == |samples|
    requires forall k {:trigger table[k]} :: 0 <= k < i * TableSize || k == 0 ==> table[k] == PathLength(g, samples, k)
    requires lastPos == samples[if i == 0 then 0 else i * TableSize - 1]
    modifies table
    ensures forall k {:trigger table[k]} :: 0 <= k < (i + 1) * TableSize ==> table[k] == PathLength(g, samples, k)
    ensures nextLast == samples[(i + 1) * TableSize - 1]
  {
    nextLast := lastPos;
    var start := i * TableSize;
    var j := 0;
    while j < TableSize
      invariant 0 <= j <= TableSize
      invariant forall k {:trigger table[k]} :: 0 <= k < start + j || k == 0 ==> table[k] == PathLength(g, samples, k)
      invariant nextLast == samples[if i + j == 0 then 0 else start + j - 1]
    {
      if i + j != 0 {
        var nextPos := CurvePoint(g, ps, i, Step(j));
        SampleOfPiece(g, ps, samples, i, j);
        table[start + j] := table[start + j - 1] + Distance(g, nextPos, nextLast);
        nextLast := nextPos;
      }
      j := j + 1;
    }
    assert start + TableSize == (i + 1) * TableSize;
  }

  lemma TableMonotone(g: Geometry, pts: seq<Vec3>, table: seq<real>)
    requires g.Valid() && 0 < |table| <= |pts|
    requires forall k :: 0 <= k < |table| ==> table[k] == PathLength(g, pts, k)
    ensures table[0] == 0.0 && forall j, k :: 0 <= j <= k < |table| ==> table[j] <= table[k]
  {
    forall j, k | 0 <= j <= k < |table| ensures table[j] <= table[k] {
      PathLengthMonotone(g, pts, j, k);
    }
  }
}
