/** The spline component: the list of splines, the junction list, and the
    operations that keep the two in step.

    A spline is the sequence of ids of its points, and every point lives
    in the arena `points` under the id of its object. Arc-length tables and
    generated scene content are not part of this state; the one place a
    table rebuild matters, a spline left with fewer than two points, is
    reported as an outcome. */
module Components {
  import opened Vectors
  import opened ControlPoints
  import opened SplineCurves
  import opened Junctions
  import Lists

  /** How an operation ended: normally, or with the exception the table
      rebuild of a spline left with fewer than two points throws. */
  datatype Outcome = Completed | TableFault

  /** The points map with the two initial points of a new spline, starting
      at `anchor`, added under ids `a` and `a + 1`. */
  function WithNewSpline(pts: map<PointId, PointState>, a: PointId, anchor: Vec3): (r: map<PointId, PointState>)
    ensures r.Keys == pts.Keys + {a, a + 1}
    ensures r[a] == InitialPoints(anchor)[0] && r[a + 1] == InitialPoints(anchor)[1]
    ensures forall x :: x in pts && x != a && x != a + 1 ==> r[x] == pts[x]
  {
    pts[a := InitialPoints(anchor)[0]][a + 1 := InitialPoints(anchor)[1]]
  }

  /** The loop of `ScaleConnection`: scale every listed point whose index
      is `c`, once per list occurrence. */
  method ScaleListed(pts: map<PointId, PointState>, cp: seq<PointId>, c: int, s: Vec3) returns (r: map<PointId, PointState>)
    requires Known(pts, cp)
    ensures r == ScaledConnection(pts, cp, c, s)
  {
    r := pts;
    var i := 0;
    while i < |cp|
      invariant 0 <= i <= |cp|
      invariant r == ScaledConnection(pts, cp[..i], c, s)
    {
      var id := cp[i];
      ScaledConnectionStep(pts, cp, c, s, i);
      if Index(r, id) == c {
        r := r[id := Scaled(r[id], s)];
      }
      i := i + 1;
    }
    assert cp[..i] == cp;
  }

  class SplineComponent {
    var points: map<PointId, PointState>
    var splines: seq<seq<PointId>>
    var connectedPoints: seq<PointId>
    /** The id the next new point object gets. */
    var nextId: nat

    /** Every listed id names a point, every spline keeps at least two
        points, and no point has an id at or beyond `nextId`. */
    ghost predicate Valid()
      reads this
    {
      Known(points, connectedPoints) &&
      (forall i :: 0 <= i < |splines| ==> |splines[i]| >= 2 && Known(points, splines[i])) &&
      (forall id :: id in points ==> id < nextId)
    }

    /** `Reset`: one spline starting one unit along the forward axis, and
        no junctions. */
    constructor ()
      ensures Valid() && splines == [[0, 1]] && connectedPoints == [] && nextId == 2
      ensures points == map[0 := InitialPoints(Forward)[0], 1 := InitialPoints(Forward)[1]]
    {
      var ps := InitialPoints(Forward);
      points := map[0 := ps[0], 1 := ps[1]];
      splines := [[0, 1]];
      connectedPoints := [];
      nextId := 2;
    }

    /** The first spline that contains `point`, or -1. */
    method GetSpline(point: PointId) returns (r: int)
      ensures -1 <= r < |splines|
      ensures r >= 0 ==> point in splines[r] && forall j :: 0 <= j < r ==> point !in splines[j]
      ensures r == -1 <==> forall j :: 0 <= j < |splines| ==> point !in splines[j]
    {
      var i := 0;
      while i < |splines|
        invariant 0 <= i <= |splines|
        invariant forall j :: 0 <= j < i ==> point !in splines[j]
      {
        if point in splines[i] {
          return i;
        }
        i := i + 1;
      }
      return -1;
    }

    /** The position of `point` in spline `spline`, or -1. */
    function GetIndex(spline: int, point: PointId): (r: int)
      reads this
      requires 0 <= spline < |splines|
      ensures -1 <= r < |splines[spline]|
      ensures r >= 0 ==> splines[spline][r] == point && point !in splines[spline][..r]
      ensures r == -1 <==> point !in splines[spline]
    {
      Lists.IndexOf(splines[spline], point)
    }

    /** The number of points of a spline, never fewer than two. */
    function PointCount(spline: int): (r: int)
      reads this
      requires Valid() && 0 <= spline < |splines|
      ensures r >= 2 && r == |splines[spline]|
    {
      |splines[spline]|
    }

    /** The junction index of a point. In a grouped list, a listed point's
        index is a list position at or before the point's own entry. */
    function GetConnectedIndex(spline: int, point: int): (r: int)
      reads this
      requires Valid() && 0 <= spline < |splines| && 0 <= point < |splines[spline]|
      ensures var id := splines[spline][point];
        r == Index(points, id) &&
        (Grouped(points, connectedPoints) && id in connectedPoints ==> 0 <= r <= Lists.IndexOf(connectedPoints, id))
    {
      var id := splines[spline][point];
      OffsetInsideRun(points, connectedPoints, id);
      Index(points, id)
    }

    /** Count the entries from position `c` on whose index is `c`. A
        negative `c` makes the source index the list at a negative
        position, so `c` must not be negative. */
    method GetConnectionPointCount(c: int) returns (count: nat)
      requires Valid() && 0 <= c
      ensures count == RunLength(points, connectedPoints, c)
    {
      var i := c;
      count := 0;
      while |connectedPoints| > i && Index(points, connectedPoints[i]) == c
        invariant c <= i && count == i - c
        invariant RunFrom(points, connectedPoints, c, c) == count + RunFrom(points, connectedPoints, c, i)
        decreases |connectedPoints| - i
      {
        i := i + 1;
        count := count + 1;
      }
    }

    /** The offset of a point from its junction index in the junction list;
        in a grouped list, a position inside the junction's run. */
    function GetIndexInConnection(spline: int, point: int): (r: int)
      reads this
      requires Valid() && 0 <= spline < |splines| && 0 <= point < |splines[spline]|
      ensures var id := splines[spline][point];
        var c := Index(points, id);
        (id !in connectedPoints ==> r == -1 - c) &&
        (Grouped(points, connectedPoints) && id in connectedPoints ==> 0 <= c && 0 <= r < RunLength(points, connectedPoints, c))
    {
      var id := splines[spline][point];
      OffsetInsideRun(points, connectedPoints, id);
      Lists.IndexOf(connectedPoints, id) - Index(points, id)
    }

    /** The entry `offset` places from the point in the junction list when
        it carries the same index, and otherwise the point itself. A point
        that is not listed makes the source index the list at -1. */
    function GetConnectedPoint(spline: int, point: int, offset: int): (r: PointId)
      reads this
      requires Valid() && 0 <= spline < |splines| && 0 <= point < |splines[spline]|
      requires splines[spline][point] in connectedPoints
      ensures var id := splines[spline][point];
        var j := Lists.IndexOf(connectedPoints, id) + offset;
        r in connectedPoints && Index(points, r) == Index(points, id) &&
        (if 0 <= j < |connectedPoints| && Index(points, connectedPoints[j]) == Index(points, id)
         then r == connectedPoints[j] else r == id)
    {
      var index := Lists.IndexOf(connectedPoints, splines[spline][point]);
      var newIndex := index + offset;
      if 0 <= newIndex < |connectedPoints| &&
         Index(points, connectedPoints[newIndex]) == Index(points, connectedPoints[index])
      then connectedPoints[newIndex]
      else connectedPoints[index]
    }

    /** Move a point's anchor; a point in a junction moves every listed
        point with its index. */
    method SetAnchorPosition(spline: int, index: int, position: Vec3)
      requires Valid() && 0 <= spline < |splines| && 0 <= index < |splines[spline]|
      modifies this
      ensures Valid() && splines == old(splines) && connectedPoints == old(connectedPoints) && nextId == old(nextId)
      ensures points == MovedAnchors(old(points), connectedPoints, old(splines[spline][index]), position)
    {
      var point := splines[spline][index];
      ghost var pts := points;
      if Index(points, point) >= 0 {
        var i := 0;
        while i < |connectedPoints|
          invariant splines == old(splines) && connectedPoints == old(connectedPoints) && nextId == old(nextId)
          invariant 0 <= i <= |connectedPoints|
          invariant points == MovedAnchors(pts, connectedPoints[..i], point, position)
        {
          var id := connectedPoints[i];
          MovedAnchorsStep(pts, connectedPoints, point, position, i);
          if Index(points, id) == Index(points, point) {
            points := points[id := WithAnchor(points[id], position)];
          }
          i := i + 1;
        }
        assert connectedPoints[..i] == connectedPoints;
      } else {
        points := points[point := WithAnchor(points[point], position)];
        assert points == MovedAnchors(pts, connectedPoints, point, position);
      }
    }

    /** Scale the handles of every listed point sharing the point's index,
        after raising negative scale components to zero. */
    method ScaleConnection(spline: int, point: int, scale: Vec3)
      requires Valid() && 0 <= spline < |splines| && 0 <= point < |splines[spline]|
      modifies this
      ensures Valid() && splines == old(splines) && connectedPoints == old(connectedPoints) && nextId == old(nextId)
      ensures points == ScaledConnection(old(points), connectedPoints, old(GetConnectedIndex(spline, point)), ClampScale(scale))
    {
      var index := GetConnectedIndex(spline, point);
      var scaled := ScaleListed(points, connectedPoints, index, ClampScale(scale));
      assert scaled.Keys == points.Keys;
      points := scaled;
    }

    /** Put two points in one junction, as Connect says. False when the
        junction index is beyond the list and the insertion throws. */
    method ConnectPoints(first: PointId, second: PointId) returns (ok: bool)
      requires Valid() && first in points && second in points
      modifies this
      ensures var c := Connect(old(points), old(connectedPoints), first, second);
        ok == c.Connected? &&
        (ok ==> points == c.registry.points && connectedPoints == c.registry.connected) &&
        (!ok ==> points == old(points) && connectedPoints == old(connectedPoints))
      ensures Valid() && splines == old(splines) && nextId == old(nextId)
    {
      var c1 := Index(points, first);
      var c2 := Index(points, second);
      if c1 >= 0 && c2 >= 0 {
        return true;
      } else if c1 >= 0 {
        if c1 > |connectedPoints| {
          return false;
        }
        connectedPoints := Lists.InsertAt(connectedPoints, c1, second);
        points := WithIndex(points, second, c1);
      } else if c2 >= 0 {
        if c2 > |connectedPoints| {
          return false;
        }
        connectedPoints := Lists.InsertAt(connectedPoints, c2, first);
        points := WithIndex(points, first, c2);
      } else {
        connectedPoints := connectedPoints + [first];
        connectedPoints := connectedPoints + [second];
        assert connectedPoints == old(connectedPoints) + [first, second];
        var c := Lists.IndexOf(connectedPoints, first);
        points := WithIndex(points, first, c);
        points := WithIndex(points, second, Index(points, first));
      }
      return true;
    }

    /** A new spline starting at the anchor of the given point, whose first
        point joins that point's junction. */
    method AddSpline(spline: int, index: int) returns (ok: bool)
      requires Valid() && 0 <= spline < |splines| && 0 <= index < |splines[spline]|
      modifies this
      ensures nextId == old(nextId) + 2 && old(nextId) !in old(points) && old(nextId) + 1 !in old(points)
      ensures points.Keys == old(points.Keys) + {old(nextId), old(nextId) + 1}
      ensures forall q :: q in old(points) && q != old(splines[spline][index]) ==> points[q] == old(points)[q]
      ensures Valid() && |splines| == |old(splines)| + 1 && splines[..|old(splines)|] == old(splines)
      ensures splines[|splines| - 1] == [old(nextId), old(nextId) + 1]
      ensures var p := old(splines[spline][index]);
        var added := WithNewSpline(old(points), old(nextId), old(points[p].anchor));
        var c := Connect(added, old(connectedPoints), p, old(nextId));
        ok == c.Connected? &&
        (ok ==> points == c.registry.points && connectedPoints == c.registry.connected) &&
        (!ok ==> points == added && connectedPoints == old(connectedPoints))
      ensures var a := old(nextId);
        var p := old(splines[spline][index]);
        points[a + 1] == InitialPoints(old(points[p].anchor))[1] &&
        (ok ==> Index(points, a) == Index(points, p) >= 0 && points[a].anchor == points[p].anchor == old(points[p].anchor)) &&
        (Index(old(points), p) <= |old(connectedPoints)| ==> ok)
    {
      var point := splines[spline][index];
      var a := nextId;
      points := WithNewSpline(points, a, points[point].anchor);
      nextId := nextId + 2;
      splines := splines + [[a, a + 1]];
      ok := ConnectPoints(point, a);
      if ok {
        if Index(old(points), point) < 0 {
          ConnectTwoFree(WithNewSpline(old(points), a, old(points[point].anchor)), old(connectedPoints), point, a);
        }
      }
    }

    /** The counting loop of `RemovePoint`: how many listed points carry
        index `c`, and the last of them (unused when there is none). */
    method CountMembers(c: int) returns (count: nat, lastPoint: PointId)
      requires Known(points, connectedPoints)
      ensures count == |Members(points, connectedPoints, c)|
      ensures count > 0 ==> lastPoint == Members(points, connectedPoints, c)[count - 1]
    {
      count := 0;
      lastPoint := 0;
      var i := 0;
      while i < |connectedPoints|
        invariant 0 <= i <= |connectedPoints|
        invariant count == |Members(points, connectedPoints[..i], c)|
        invariant count > 0 ==> lastPoint == Members(points, connectedPoints[..i], c)[count - 1]
      {
        MembersStep(points, connectedPoints, c, i);
        if Index(points, connectedPoints[i]) == c {
          count := count + 1;
          lastPoint := connectedPoints[i];
        }
        i := i + 1;
      }
      assert connectedPoints[..i] == connectedPoints;
    }

    /** The junction bookkeeping of `RemovePoint`: the point leaves the
        list, and a junction left with one listed point is dissolved. */
    method LeaveJunctionOf(point: PointId)
      requires Known(points, connectedPoints) && point in points
      modifies this
      ensures Registry(points, connectedPoints) == LeaveJunction(old(points), old(connectedPoints), point)
      ensures splines == old(splines) && nextId == old(nextId)
    {
      var connectedIndex := Index(points, point);
      if connectedIndex >= 0 {
        connectedPoints := Lists.RemoveFirst(connectedPoints, point);
        DissolveIfSole(connectedIndex);
      }
    }

    /** A junction `c` with exactly one listed point left is dissolved: that
        point's index becomes -1 and it leaves the list. */
    method DissolveIfSole(c: int)
      requires Known(points, connectedPoints)
      modifies this
      ensures var m := Members(old(points), old(connectedPoints), c);
        Registry(points, connectedPoints) ==
          if |m| == 1 then Registry(WithIndex(old(points), m[0], -1), Lists.RemoveFirst(old(connectedPoints), m[0]))
          else Registry(old(points), old(connectedPoints))
      ensures splines == old(splines) && nextId == old(nextId)
    {
      var count, lastPoint := CountMembers(c);
      if count == 1 {
        points := WithIndex(points, lastPoint, -1);
        connectedPoints := Lists.RemoveFirst(connectedPoints, lastPoint);
      }
    }

    /** `RemovePoint` as written: the point leaves its junction and its
        spline; when that spline is left with a single point, rebuilding its
        table throws, so the cascade that would delete the spline is never
        reached. */
    method RemovePoint(spline: int, index: int) returns (outcome: Outcome)
      requires Valid() && 0 <= spline < |splines| && 0 <= index < |splines[spline]|
      modifies this
      ensures var p := old(splines[spline][index]);
        Registry(points, connectedPoints) == LeaveJunction(old(points), old(connectedPoints), p) &&
        splines == old(splines)[spline := Lists.RemoveFirst(old(splines[spline]), p)]
      ensures outcome == TableFault <==> |old(splines[spline])| == 2
      ensures outcome == Completed ==> Valid()
    {
      var point := splines[spline][index];
      LeaveJunctionOf(point);
      splines := splines[spline := Lists.RemoveFirst(splines[spline], point)];
      if |splines[spline]| < 2 {
        return TableFault;
      }
      return Completed;
    }

    /** `RemovePoint` as evidently intended: a spline left with one point
        loses that point too, leaving its junction as well, and is removed,
        so every spline keeps at least two points. */
    method RemovePointCascading(spline: int, index: int)
      requires Valid() && 0 <= spline < |splines| && 0 <= index < |splines[spline]|
      modifies this
      ensures Valid()
      ensures var p := old(splines[spline][index]);
        var rest := Lists.RemoveFirst(old(splines[spline]), p);
        var left := LeaveJunction(old(points), old(connectedPoints), p);
        if |rest| >= 2 then
          Registry(points, connectedPoints) == left && splines == old(splines)[spline := rest]
        else
          Registry(points, connectedPoints) == LeaveJunction(left.points, left.connected, rest[0]) &&
          splines == old(splines[..spline] + splines[spline + 1..])
    {
      var point := splines[spline][index];
      LeaveJunctionOf(point);
      splines := splines[spline := Lists.RemoveFirst(splines[spline], point)];
      if |splines[spline]| == 1 {
        LeaveJunctionOf(splines[spline][0]);
        RemoveSpline(spline);
      }
    }

    /** Delete a spline. Junction entries of its points stay listed. */
    method RemoveSpline(index: int)
      requires 0 <= index < |splines|
      requires Known(points, connectedPoints) && (forall id :: id in points ==> id < nextId)
      requires forall i :: 0 <= i < |splines| && i != index ==> |splines[i]| >= 2 && Known(points, splines[i])
      modifies this
      ensures Valid() && splines == old(splines[..index] + splines[index + 1..])
      ensures points == old(points) && connectedPoints == old(connectedPoints) && nextId == old(nextId)
    {
      splines := splines[..index] + splines[index + 1..];
    }

    /** The points of one spline that carry a junction index, in order. */
    method CollectJunctioned(s: seq<PointId>) returns (r: seq<PointId>)
      requires Known(points, s)
      ensures r == JunctionedOf(points, s)
    {
      r := [];
      var j := 0;
      while j < |s|
        invariant 0 <= j <= |s|
        invariant r == JunctionedOf(points, s[..j])
      {
        JunctionedOfStep(points, s, j);
        if Index(points, s[j]) >= 0 {
          r := r + [s[j]];
        }
        j := j + 1;
      }
      assert s[..j] == s;
    }

    /** Rebuild the junction list after loading: every point of every spline
        with a junction index, sorted by that index. */
    method OnAfterDeserialize()
      requires Valid()
      modifies this
      ensures Valid() && points == old(points) && splines == old(splines) && nextId == old(nextId)
      ensures SortedByIndex(points, connectedPoints)
      ensures multiset(connectedPoints) == multiset(Junctioned(points, splines))
      ensures forall x :: x in connectedPoints <==> x in points && Index(points, x) >= 0 && OnSpline(splines, x)
    {
      var collected := [];
      var i := 0;
      while i < |splines|
        invariant Valid() && points == old(points) && splines == old(splines) && nextId == old(nextId)
        invariant 0 <= i <= |splines|
        invariant collected == Junctioned(points, splines[..i])
      {
        JunctionedStep(points, splines, i);
        var more := CollectJunctioned(splines[i]);
        collected := collected + more;
        i := i + 1;
      }
      assert splines[..i] == splines;
      connectedPoints := SortByIndex(points, collected);
      assert forall x :: x in connectedPoints <==> x in collected by {
        assert forall x :: x in connectedPoints <==> multiset(connectedPoints)[x] > 0;
      }
    }
  }
}
