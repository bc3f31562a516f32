/** The junction registry of a spline component, as values.

    Points live in an arena keyed by `PointId` (the identity of a
    `ControlPoint` object). `connected` is the flat junction list: each entry
    names a point, and a point's `connectedIndex` is meant to be the list
    position where its junction's run of entries starts. The functions here
    say what each list operation of the component does; the component's
    methods are proved to perform exactly these. */
module Junctions {
  import opened Vectors
  import opened ControlPoints
  import Lists

  type PointId = nat

  /** The point arena and the junction list. */
  datatype Registry = Registry(points: map<PointId, PointState>, connected: seq<PointId>)

  /** The result of `ConnectPoints`: the new registry, or the exception
      `List.Insert` throws for a junction index beyond the list. */
  datatype Connection = Connected(registry: Registry) | InsertOutOfRange

  /** Every id of `ids` names a point of the arena. */
  predicate Known(pts: map<PointId, PointState>, ids: seq<PointId>) {
    forall x :: x in ids ==> x in pts
  }

  function Index(pts: map<PointId, PointState>, id: PointId): int
    requires id in pts
  {
    pts[id].connectedIndex
  }

  function WithIndex(pts: map<PointId, PointState>, id: PointId, c: int): (r: map<PointId, PointState>)
    requires id in pts
    ensures r.Keys == pts.Keys && Index(r, id) == c
    ensures r[id].anchor == pts[id].anchor
    ensures forall x :: x in pts && x != id ==> r[x] == pts[x]
  {
    pts[id := pts[id].(connectedIndex := c)]
  }

  /** The intended shape of the list: every entry's index is a position at
      or before it, and every entry from that position up to it carries the
      same index, so each junction is one run starting at its index. */
  ghost predicate Grouped(pts: map<PointId, PointState>, cp: seq<PointId>) {
    Known(pts, cp) &&
    forall j :: 0 <= j < |cp| ==>
      0 <= Index(pts, cp[j]) <= j &&
      forall k :: Index(pts, cp[j]) <= k <= j ==> Index(pts, cp[k]) == Index(pts, cp[j])
  }

  /** The entries of `cp` with index `c`, in list order. */
  function Members(pts: map<PointId, PointState>, cp: seq<PointId>, c: int): (r: seq<PointId>)
    requires Known(pts, cp)
    ensures |r| <= |cp|
    ensures forall x :: x in r <==> x in cp && Index(pts, x) == c
  {
    if |cp| == 0 then []
    else
      var rest := Members(pts, cp[..|cp| - 1], c);
      assert forall x :: x in cp <==> x in cp[..|cp| - 1] || x == cp[|cp| - 1];
      if Index(pts, cp[|cp| - 1]) == c then rest + [cp[|cp| - 1]] else rest
  }

  lemma MembersStep(pts: map<PointId, PointState>, cp: seq<PointId>, c: int, i: int)
    requires Known(pts, cp) && 0 <= i < |cp|
    ensures Members(pts, cp[..i + 1], c) ==
      Members(pts, cp[..i], c) + if Index(pts, cp[i]) == c then [cp[i]] else []
  {
    assert cp[..i + 1][..i] == cp[..i];
  }

  /** The number of consecutive entries from position `i` whose index is `c`. */
  function RunFrom(pts: map<PointId, PointState>, cp: seq<PointId>, c: int, i: nat): (r: nat)
    requires Known(pts, cp)
    ensures i + r <= |cp| || r == 0
    ensures forall j :: i <= j < i + r ==> Index(pts, cp[j]) == c
    ensures i + r < |cp| ==> Index(pts, cp[i + r]) != c
    decreases |cp| - i
  {
    if i < |cp| && Index(pts, cp[i]) == c then 1 + RunFrom(pts, cp, c, i + 1) else 0
  }

  /** What `GetConnectionPointCount(c)` counts: the run of entries with
      index `c` starting at position `c`. */
  function RunLength(pts: map<PointId, PointState>, cp: seq<PointId>, c: nat): (r: nat)
    requires Known(pts, cp)
    ensures c + r <= |cp| || r == 0
    ensures forall j :: c <= j < c + r ==> Index(pts, cp[j]) == c
    ensures c + r < |cp| ==> Index(pts, cp[c + r]) != c
  {
    RunFrom(pts, cp, c, c)
  }

  /** In a grouped list an entry's offset from its index lies inside the run
      that `GetConnectionPointCount` reports for that index. */
  lemma OffsetInsideRun(pts: map<PointId, PointState>, cp: seq<PointId>, id: PointId)
    requires Known(pts, cp) && id in pts
    ensures Grouped(pts, cp) && id in cp ==>
      var c := Index(pts, id);
      0 <= c && 0 <= Lists.IndexOf(cp, id) - c < RunLength(pts, cp, c)
  {
    if Grouped(pts, cp) && id in cp {
      var p := Lists.IndexOf(cp, id);
      var c := Index(pts, id);
      var n := RunLength(pts, cp, c);
      if n <= p - c {
        assert false;
      }
    }
  }

  /** `ConnectPoints(first, second)` as written. Both already in junctions:
      nothing happens. One in a junction: the other is inserted at that
      junction's index and takes the index, with no renumbering of the
      entries that move up. Neither: both are appended and take the
      position of `first`'s first occurrence in the list. */
  function Connect(pts: map<PointId, PointState>, cp: seq<PointId>, first: PointId, second: PointId): (r: Connection)
    requires first in pts && second in pts
    ensures r.Connected? ==> r.registry.points.Keys == pts.Keys
  {
    var c1 := Index(pts, first);
    var c2 := Index(pts, second);
    if c1 >= 0 && c2 >= 0 then Connected(Registry(pts, cp))
    else if c1 >= 0 then
      if c1 > |cp| then InsertOutOfRange
      else Connected(Registry(WithIndex(pts, second, c1), Lists.InsertAt(cp, c1, second)))
    else if c2 >= 0 then
      if c2 > |cp| then InsertOutOfRange
      else Connected(Registry(WithIndex(pts, first, c2), Lists.InsertAt(cp, c2, first)))
    else
      var list := cp + [first, second];
      var c := Lists.IndexOf(list, first);
      Connected(Registry(WithIndex(WithIndex(pts, first, c), second, c), list))
  }

  /** Connecting two points that are both in junctions changes nothing. */
  lemma ConnectTwoJunctions(pts: map<PointId, PointState>, cp: seq<PointId>, first: PointId, second: PointId)
    requires first in pts && second in pts
    requires Index(pts, first) >= 0 && Index(pts, second) >= 0
    ensures Connect(pts, cp, first, second) == Connected(Registry(pts, cp))
  {
  }

  /** Connecting two free points appends `first` then `second`; when
      `first` was not listed yet both take the former list length. */
  lemma ConnectTwoFree(pts: map<PointId, PointState>, cp: seq<PointId>, first: PointId, second: PointId)
    requires first in pts && second in pts
    requires Index(pts, first) < 0 && Index(pts, second) < 0
    ensures Connect(pts, cp, first, second).Connected?
    ensures var r := Connect(pts, cp, first, second).registry;
      r.connected == cp + [first, second] &&
      Index(r.points, first) == Index(r.points, second) == Lists.IndexOf(cp + [first, second], first) &&
      (first !in cp ==> Index(r.points, first) == |cp|)
  {
    var list := cp + [first, second];
    if first !in cp {
      assert list[|cp|] == first;
      assert first !in list[..|cp|] by { assert list[..|cp|] == cp; }
    }
  }

  /** Connecting a free point to a junction inserts it at the junction's
      index, which it takes; the other entries keep their order. */
  lemma ConnectToJunction(pts: map<PointId, PointState>, cp: seq<PointId>, member: PointId, joining: PointId)
    requires member in pts && joining in pts
    requires 0 <= Index(pts, member) <= |cp| && Index(pts, joining) < 0
    ensures var c := Index(pts, member);
      Connect(pts, cp, member, joining).Connected? && Connect(pts, cp, joining, member).Connected? &&
      Connect(pts, cp, member, joining) == Connect(pts, cp, joining, member) &&
      var r := Connect(pts, cp, member, joining).registry;
      |r.connected| == |cp| + 1 && r.connected[c] == joining &&
      r.connected[..c] == cp[..c] && r.connected[c + 1..] == cp[c..] &&
      Index(r.points, joining) == c &&
      forall x :: x in pts && x != joining ==> r.points[x] == pts[x]
  {
  }

  /** An index beyond the list makes the insertion throw. */
  lemma ConnectOutOfRange(pts: map<PointId, PointState>, cp: seq<PointId>, member: PointId, joining: PointId)
    requires member in pts && joining in pts
    requires Index(pts, member) > |cp| && Index(pts, joining) < 0
    ensures Connect(pts, cp, member, joining) == InsertOutOfRange
    ensures Connect(pts, cp, joining, member) == InsertOutOfRange
  {
  }

  /** A point with junction index `c`. */
  function Listed(c: int): PointState {
    PointState(Zero, Zero, Zero, Up, Mirrored, c)
  }

  /** Two junctions: points 0 and 1 at index 0, points 2 and 3 at index 2;
      point 4 is free. */
  function ExamplePoints(): map<PointId, PointState> {
    map[0 := Listed(0), 1 := Listed(0), 2 := Listed(2), 3 := Listed(2), 4 := Listed(-1)]
  }

  function ExampleList(): seq<PointId> {
    [0, 1, 2, 3]
  }

  lemma ExampleIndices()
    ensures var pts := ExamplePoints();
      pts.Keys == {0, 1, 2, 3, 4} &&
      Index(pts, 0) == Index(pts, 1) == 0 && Index(pts, 2) == Index(pts, 3) == 2 && Index(pts, 4) == -1
  {
  }

  lemma ExampleGrouped()
    ensures Grouped(ExamplePoints(), ExampleList()) && RunLength(ExamplePoints(), ExampleList(), 2) == 2
  {
    var pts, cp := ExamplePoints(), ExampleList();
    ExampleIndices();
    assert RunFrom(pts, cp, 2, 4) == 0;
    assert RunFrom(pts, cp, 2, 3) == 1;
  }

  /** Joining point 4 to point 0 inserts it at position 0 without moving
      the index of the second junction, which then starts at position 3:
      the list is no longer grouped, and the count for index 2 drops from
      two to zero. */
  lemma ConnectBreaksGrouping()
    ensures Grouped(ExamplePoints(), ExampleList()) && RunLength(ExamplePoints(), ExampleList(), 2) == 2
    ensures Connect(ExamplePoints(), ExampleList(), 4, 0).Connected?
    ensures var r := Connect(ExamplePoints(), ExampleList(), 4, 0).registry;
      !Grouped(r.points, r.connected) && RunLength(r.points, r.connected, 2) == 0
  {
    ExampleGrouped();
    ExampleIndices();
    var pts := WithIndex(ExamplePoints(), 4, 0);
    var cp := [4, 0, 1, 2, 3];
    assert Lists.InsertAt(ExampleList(), 0, 4) == cp;
    assert Connect(ExamplePoints(), ExampleList(), 4, 0) == Connected(Registry(pts, cp));
    assert Index(pts, 2) == 2 && Index(pts, 1) == 0;
    assert RunFrom(pts, cp, 2, 2) == 0;
  }

  /** The index of every listed point beyond junction `c` goes up by one. */
  function ShiftAfter(pts: map<PointId, PointState>, cp: seq<PointId>, c: int): (r: map<PointId, PointState>)
    ensures r.Keys == pts.Keys
    ensures forall x :: x in pts ==>
      r[x] == if x in cp && pts[x].connectedIndex > c then pts[x].(connectedIndex := pts[x].connectedIndex + 1) else pts[x]
  {
    map x | x in pts :: if x in cp && pts[x].connectedIndex > c then pts[x].(connectedIndex := pts[x].connectedIndex + 1) else pts[x]
  }

  /** `joining` enters the junction of `member` at the junction's first
      position, and every later junction's index moves up with its entries. */
  function JoinRenumbered(pts: map<PointId, PointState>, cp: seq<PointId>, member: PointId, joining: PointId): (r: Registry)
    requires Grouped(pts, cp) && member in cp && joining in pts && Index(pts, joining) < 0
    ensures r.points.Keys == pts.Keys && Grouped(r.points, r.connected)
    ensures r.connected == Lists.InsertAt(cp, Index(pts, member), joining)
    ensures Index(r.points, joining) == Index(r.points, member) == Index(pts, member)
  {
    var c := Index(pts, member);
    var p := Lists.IndexOf(cp, member);
    assert c <= p < |cp| && Index(pts, cp[c]) == c;
    var r := Registry(WithIndex(ShiftAfter(pts, cp, c), joining, c), Lists.InsertAt(cp, c, joining));
    JoinKeepsGrouped(pts, cp, c, joining, r.points, r.connected);
    r
  }

  lemma JoinKeepsGrouped(pts: map<PointId, PointState>, cp: seq<PointId>, c: int, joining: PointId,
                         pts': map<PointId, PointState>, r: seq<PointId>)
    requires Grouped(pts, cp) && 0 <= c < |cp| && Index(pts, cp[c]) == c
    requires joining in pts && Index(pts, joining) < 0
    requires pts' == WithIndex(ShiftAfter(pts, cp, c), joining, c) && r == Lists.InsertAt(cp, c, joining)
    ensures Grouped(pts', r)
  {
    assert joining !in cp;
    JoinShape(pts, cp, c, joining, pts', r);
    assert Known(pts', r) by {
      forall x | x in r ensures x in pts' {
        var k :| 0 <= k < |r| && r[k] == x;
        if k < c { assert r[k] == cp[k]; } else if k > c { assert r[k] == cp[k - 1]; }
      }
    }
    forall j | 0 <= j < |r|
      ensures 0 <= Index(pts', r[j]) <= j
      ensures forall k :: Index(pts', r[j]) <= k <= j ==> Index(pts', r[k]) == Index(pts', r[j])
    {
      if j < c {
        JoinBefore(pts, cp, c, joining, pts', r, j);
      } else if j > c {
        JoinAfter(pts, cp, c, joining, pts', r, j);
      }
    }
  }

  /** Inserting `joining` at position `c` with index `c`, and moving every
      later junction up by one, described entry by entry. */
  ghost predicate ShiftedJoin(pts: map<PointId, PointState>, cp: seq<PointId>, c: int, joining: PointId,
                              pts': map<PointId, PointState>, r: seq<PointId>) {
    Known(pts, cp) && 0 <= c < |cp| && joining in pts' && joining !in cp && Index(pts', joining) == c &&
    (forall x :: x in cp ==> x in pts' && Index(pts', x) == if Index(pts, x) > c then Index(pts, x) + 1 else Index(pts, x)) &&
    |r| == |cp| + 1 && r[c] == joining &&
    (forall k :: 0 <= k < c ==> r[k] == cp[k]) &&
    (forall k :: c < k < |r| ==> r[k] == cp[k - 1])
  }

  lemma JoinShape(pts: map<PointId, PointState>, cp: seq<PointId>, c: int, joining: PointId,
                  pts': map<PointId, PointState>, r: seq<PointId>)
    requires Known(pts, cp) && 0 <= c < |cp| && joining in pts && joining !in cp
    requires pts' == WithIndex(ShiftAfter(pts, cp, c), joining, c) && r == Lists.InsertAt(cp, c, joining)
    ensures ShiftedJoin(pts, cp, c, joining, pts', r)
  {
    forall k | c < k < |r| ensures r[k] == cp[k - 1] {
      assert r[k] == r[c + 1..][k - c - 1];
    }
  }

  lemma JoinBefore(pts: map<PointId, PointState>, cp: seq<PointId>, c: int, joining: PointId,
                   pts': map<PointId, PointState>, r: seq<PointId>, j: int)
    requires Grouped(pts, cp) && ShiftedJoin(pts, cp, c, joining, pts', r)
    requires 0 <= j < c
    ensures 0 <= Index(pts', r[j]) <= j
    ensures forall k :: Index(pts', r[j]) <= k <= j ==> Index(pts', r[k]) == Index(pts', r[j])
  {
    assert r[j] == cp[j];
    var d := Index(pts, cp[j]);
    assert d <= j < c;
    forall k | d <= k <= j ensures Index(pts', r[k]) == d {
      assert r[k] == cp[k];
      assert Index(pts, cp[k]) == d;
    }
  }

  lemma JoinAfter(pts: map<PointId, PointState>, cp: seq<PointId>, c: int, joining: PointId,
                  pts': map<PointId, PointState>, r: seq<PointId>, j: int)
    requires Grouped(pts, cp) && ShiftedJoin(pts, cp, c, joining, pts', r) && Index(pts, cp[c]) == c
    requires c < j < |r|
    ensures 0 <= Index(pts', r[j]) <= j
    ensures forall k :: Index(pts', r[j]) <= k <= j ==> Index(pts', r[k]) == Index(pts', r[j])
  {
    assert r[j] == cp[j - 1];
    var d := Index(pts, cp[j - 1]);
    assert d <= c ==> Index(pts, cp[c]) == d;
    if d < c {
      assert false;
    }
    forall k | Index(pts', r[j]) <= k <= j ensures Index(pts', r[k]) == Index(pts', r[j]) {
      if k > c {
        assert r[k] == cp[k - 1];
        assert Index(pts, cp[k - 1]) == d;
      }
    }
  }

  /** `ConnectPoints` as evidently intended: the junction list stays grouped
      because the indices of the junctions behind an insertion move up. */
  function ConnectRenumbered(pts: map<PointId, PointState>, cp: seq<PointId>, first: PointId, second: PointId): (r: Registry)
    requires Grouped(pts, cp) && first in pts && second in pts
    requires Index(pts, first) >= 0 ==> first in cp
    requires Index(pts, second) >= 0 ==> second in cp
    ensures r.points.Keys == pts.Keys && Grouped(r.points, r.connected)
    ensures Index(pts, first) < 0 || Index(pts, second) < 0 ==>
      Index(r.points, first) == Index(r.points, second) >= 0 && first in r.connected && second in r.connected
  {
    var c1 := Index(pts, first);
    var c2 := Index(pts, second);
    if c1 >= 0 && c2 >= 0 then Registry(pts, cp)
    else if c1 >= 0 then JoinRenumbered(pts, cp, first, second)
    else if c2 >= 0 then JoinRenumbered(pts, cp, second, first)
    else
      assert first !in cp && second !in cp;
      var list := cp + [first, second];
      assert list[|cp|] == first && list[|cp| + 1] == second;
      var pts' := WithIndex(WithIndex(pts, first, |cp|), second, |cp|);
      assert forall x :: x in cp ==> pts'[x] == pts[x];
      Registry(pts', list)
  }

  /** The junction bookkeeping of `RemovePoint` as written: a point in a
      junction leaves the list (its own index is kept); when exactly one
      entry with that index remains, that entry's index becomes -1 and it
      leaves the list too. No other index is renumbered. */
  function LeaveJunction(pts: map<PointId, PointState>, cp: seq<PointId>, id: PointId): (r: Registry)
    requires id in pts && Known(pts, cp)
    ensures r.points.Keys == pts.Keys && Known(r.points, r.connected) && |r.connected| <= |cp|
    ensures Index(pts, id) < 0 ==> r == Registry(pts, cp)
    ensures Index(pts, id) >= 0 ==>
      var m := Members(pts, Lists.RemoveFirst(cp, id), Index(pts, id));
      multiset(r.connected) == multiset(cp) - multiset{id} - (if |m| == 1 then multiset{m[0]} else multiset{})
    ensures forall x :: x in pts && Index(pts, x) != Index(pts, id) ==> r.points[x] == pts[x]
  {
    var c := Index(pts, id);
    if c < 0 then Registry(pts, cp)
    else
      var rest := Lists.RemoveFirst(cp, id);
      var m := Members(pts, rest, c);
      if |m| == 1 then Registry(WithIndex(pts, m[0], -1), Lists.RemoveFirst(rest, m[0]))
      else Registry(pts, rest)
  }

  /** A junction left with a single member is dissolved: that member's
      index becomes -1 and no listed point keeps the junction's index.
      Otherwise no point changes. */
  lemma LeaveJunctionDissolves(pts: map<PointId, PointState>, cp: seq<PointId>, id: PointId)
    requires id in pts && Known(pts, cp) && Index(pts, id) >= 0
    ensures var c := Index(pts, id);
      var m := Members(pts, Lists.RemoveFirst(cp, id), c);
      var r := LeaveJunction(pts, cp, id);
      (|m| == 1 ==> Index(r.points, m[0]) == -1 && forall x :: x in r.connected ==> Index(r.points, x) != c) &&
      (|m| != 1 ==> r.points == pts)
  {
    var c := Index(pts, id);
    var rest := Lists.RemoveFirst(cp, id);
    var m := Members(pts, rest, c);
    if |m| == 1 {
      SoleMemberGone(pts, rest, c);
    }
  }

  lemma SoleMemberGone(pts: map<PointId, PointState>, rest: seq<PointId>, c: int)
    requires Known(pts, rest) && c >= 0 && |Members(pts, rest, c)| == 1
    ensures var x0 := Members(pts, rest, c)[0];
      var pts' := WithIndex(pts, x0, -1);
      forall x :: x in Lists.RemoveFirst(rest, x0) ==> Index(pts', x) != c
  {
    var m := Members(pts, rest, c);
    assert m == [m[0]];
  }

  /** Removing point 1 from the example dissolves junction 0: point 0 gets
      index -1 and both leave the list. */
  lemma ExampleLeave()
    ensures LeaveJunction(ExamplePoints(), ExampleList(), 1) == Registry(WithIndex(ExamplePoints(), 0, -1), [2, 3])
  {
    ExampleIndices();
    ExampleRemoveSecond();
    ExampleMembers();
    ExampleRemoveFirst();
  }

  lemma ExampleRemoveSecond()
    ensures Lists.RemoveFirst(ExampleList(), 1) == [0, 2, 3]
  {
    var s := ExampleList();
    assert s[0] == 0 && s[1..] == [1, 2, 3];
    assert Lists.IndexOf(s, 1) == 1;
    assert s[..1] + s[2..] == [0] + [2, 3];
  }

  lemma ExampleRemoveFirst()
    ensures Lists.RemoveFirst([0, 2, 3], 0) == [2, 3]
  {
    var s: seq<PointId> := [0, 2, 3];
    assert Lists.IndexOf(s, 0) == 0;
    assert s[..0] + s[1..] == [2, 3];
  }

  lemma ExampleMembers()
    ensures Members(ExamplePoints(), [0, 2, 3], 0) == [0]
  {
    ExampleIndices();
    var pts := ExamplePoints();
    assert [0, 2, 3][..2] == [0, 2] && [0, 2][..1] == [0];
    assert Members(pts, [0], 0) == [0];
    assert Members(pts, [0, 2], 0) == [0];
  }

  /** After that removal junction 2 keeps index 2 although it now starts at
      position 0: the list is no longer grouped, the count for index 2
      drops from two to zero, and the stale index equals the list length,
      the index the next pair of free points will be given. */
  lemma LeaveBreaksGrouping()
    ensures Grouped(ExamplePoints(), ExampleList()) && RunLength(ExamplePoints(), ExampleList(), 2) == 2
    ensures var r := LeaveJunction(ExamplePoints(), ExampleList(), 1);
      r.connected == [2, 3] && !Grouped(r.points, r.connected) && RunLength(r.points, r.connected, 2) == 0 &&
      Index(r.points, 2) == Index(r.points, 3) == |r.connected|
  {
    ExampleGrouped();
    ExampleLeave();
    ExampleIndices();
    var pts := WithIndex(ExamplePoints(), 0, -1);
    assert Index(pts, 2) == 2 && Index(pts, 3) == 2;
    assert RunFrom(pts, [2, 3], 2, 2) == 0;
  }

  /** Connecting two free points hands out the list length as their index;
      a listed point left with that index by an earlier removal ends up in
      the same junction as the new pair. */
  lemma StaleIndexCollides(pts: map<PointId, PointState>, cp: seq<PointId>, first: PointId, second: PointId, x: PointId)
    requires first in pts && second in pts && x in pts && x in cp && first !in cp
    requires Index(pts, first) < 0 && Index(pts, second) < 0 && Index(pts, x) == |cp|
    ensures Connect(pts, cp, first, second).Connected?
    ensures var r := Connect(pts, cp, first, second).registry;
      Index(r.points, first) == Index(r.points, second) == Index(r.points, x) == |cp| &&
      first in r.connected && second in r.connected && x in r.connected
  {
    ConnectTwoFree(pts, cp, first, second);
  }

  /** Every listed point beyond junction `c` moves down one index. */
  function ShiftBefore(pts: map<PointId, PointState>, cp: seq<PointId>, c: int): (r: map<PointId, PointState>)
    ensures r.Keys == pts.Keys
    ensures forall x :: x in pts ==>
      r[x] == if x in cp && pts[x].connectedIndex > c then pts[x].(connectedIndex := pts[x].connectedIndex - 1) else pts[x]
  {
    map x | x in pts :: if x in cp && pts[x].connectedIndex > c then pts[x].(connectedIndex := pts[x].connectedIndex - 1) else pts[x]
  }

  /** Drop the entry at position `q` and move every later junction down
      with its entries, so that each still starts at its index. */
  function DropRenumbered(pts: map<PointId, PointState>, cp: seq<PointId>, q: int): (r: Registry)
    requires Known(pts, cp) && 0 <= q < |cp|
    ensures r.points.Keys == pts.Keys && (Grouped(pts, cp) ==> Grouped(r.points, r.connected))
    ensures r.connected == cp[..q] + cp[q + 1..]
    ensures forall x :: x in pts && Index(pts, x) <= Index(pts, cp[q]) ==> r.points[x] == pts[x]
  {
    var c := Index(pts, cp[q]);
    var r := Registry(ShiftBefore(pts, cp, c), cp[..q] + cp[q + 1..]);
    DropShape(pts, cp, q, r.points, r.connected);
    DropKeepsGrouped(pts, cp, q, r.points, r.connected);
    r
  }

  function ShiftedDown(d: int, c: int): int {
    if d > c then d - 1 else d
  }

  /** Dropping position `q` (index `c`) and moving later junctions down,
      described entry by entry. */
  ghost predicate ShiftedDrop(pts: map<PointId, PointState>, cp: seq<PointId>, q: int,
                              pts': map<PointId, PointState>, r: seq<PointId>) {
    Known(pts, cp) && 0 <= q < |cp| &&
    (forall x :: x in cp ==> x in pts' && Index(pts', x) == ShiftedDown(Index(pts, x), Index(pts, cp[q]))) &&
    |r| == |cp| - 1 &&
    (forall k :: 0 <= k < q ==> r[k] == cp[k]) &&
    (forall k :: q <= k < |r| ==> r[k] == cp[k + 1])
  }

  lemma DropShape(pts: map<PointId, PointState>, cp: seq<PointId>, q: int,
                  pts': map<PointId, PointState>, r: seq<PointId>)
    requires Known(pts, cp) && 0 <= q < |cp|
    requires pts' == ShiftBefore(pts, cp, Index(pts, cp[q])) && r == cp[..q] + cp[q + 1..]
    ensures ShiftedDrop(pts, cp, q, pts', r)
  {
  }

  lemma DropKeepsGrouped(pts: map<PointId, PointState>, cp: seq<PointId>, q: int,
                         pts': map<PointId, PointState>, r: seq<PointId>)
    requires ShiftedDrop(pts, cp, q, pts', r)
    ensures Grouped(pts, cp) ==> Grouped(pts', r)
  {
    if !Grouped(pts, cp) {
      return;
    }
    assert Known(pts', r) by {
      forall x | x in r ensures x in pts' {
        var k :| 0 <= k < |r| && r[k] == x;
        if k < q { assert r[k] == cp[k]; } else { assert r[k] == cp[k + 1]; }
      }
    }
    forall j | 0 <= j < |r|
      ensures 0 <= Index(pts', r[j]) <= j
      ensures forall k :: Index(pts', r[j]) <= k <= j ==> Index(pts', r[k]) == Index(pts', r[j])
    {
      if j < q {
        DropBefore(pts, cp, q, pts', r, j);
      } else {
        DropAfter(pts, cp, q, pts', r, j);
      }
    }
  }

  lemma DropBefore(pts: map<PointId, PointState>, cp: seq<PointId>, q: int,
                   pts': map<PointId, PointState>, r: seq<PointId>, j: int)
    requires Grouped(pts, cp) && ShiftedDrop(pts, cp, q, pts', r)
    requires 0 <= j < q
    ensures 0 <= Index(pts', r[j]) <= j
    ensures forall k :: Index(pts', r[j]) <= k <= j ==> Index(pts', r[k]) == Index(pts', r[j])
  {
    var c := Index(pts, cp[q]);
    assert r[j] == cp[j];
    var d := Index(pts, cp[j]);
    assert c <= j ==> Index(pts, cp[j]) == c;
    assert d <= c;
    forall k | d <= k <= j ensures Index(pts', r[k]) == d {
      assert r[k] == cp[k];
      assert Index(pts, cp[k]) == d;
    }
  }

  lemma DropAfter(pts: map<PointId, PointState>, cp: seq<PointId>, q: int,
                  pts': map<PointId, PointState>, r: seq<PointId>, j: int)
    requires Grouped(pts, cp) && ShiftedDrop(pts, cp, q, pts', r)
    requires q <= j < |r|
    ensures 0 <= Index(pts', r[j]) <= j
    ensures forall k :: Index(pts', r[j]) <= k <= j ==> Index(pts', r[k]) == Index(pts', r[j])
  {
    var c := Index(pts, cp[q]);
    assert r[j] == cp[j + 1];
    var d := Index(pts, cp[j + 1]);
    assert d <= q ==> Index(pts, cp[q]) == d;
    if d <= c {
      forall k | c <= k <= j ensures Index(pts', r[k]) == c {
        if k < q {
          assert r[k] == cp[k];
        } else {
          assert r[k] == cp[k + 1];
        }
      }
    } else {
      forall k | d - 1 <= k <= j ensures Index(pts', r[k]) == d - 1 {
        assert r[k] == cp[k + 1];
      }
    }
  }

  /** An id with index `c` occurs among the members of `c` exactly as often
      as in the list. */
  lemma {:induction false} MembersCount(pts: map<PointId, PointState>, cp: seq<PointId>, c: int, x: PointId)
    requires Known(pts, cp) && x in pts && Index(pts, x) == c
    ensures multiset(Members(pts, cp, c))[x] == multiset(cp)[x]
  {
    if |cp| > 0 {
      var init := cp[..|cp| - 1];
      MembersCount(pts, init, c, x);
      assert cp == init + [cp[|cp| - 1]];
    }
  }

  /** The only member of a junction occurs once in the list. */
  lemma SoleMemberCount(pts: map<PointId, PointState>, cp: seq<PointId>, c: int)
    requires Known(pts, cp) && |Members(pts, cp, c)| == 1
    ensures var x := Members(pts, cp, c)[0];
      x in cp && Index(pts, x) == c && multiset(cp)[x] == 1
  {
    var m := Members(pts, cp, c);
    assert m[0] in m;
    MembersCount(pts, cp, c, m[0]);
    assert m == [m[0]];
  }

  /** `RemovePoint`'s junction bookkeeping as evidently intended: the
      list changes exactly as in the source, but each removal moves the
      later junctions down, and a dissolved junction's last entry gets
      index -1. The list stays grouped. */
  function LeaveRenumbered(pts: map<PointId, PointState>, cp: seq<PointId>, id: PointId): (r: Registry)
    requires Known(pts, cp) && id in pts && (Index(pts, id) >= 0 ==> id in cp)
    ensures r.points.Keys == pts.Keys && (Grouped(pts, cp) ==> Grouped(r.points, r.connected))
    ensures r.connected == LeaveJunction(pts, cp, id).connected
    ensures Index(pts, id) < 0 ==> r == Registry(pts, cp)
    ensures Index(pts, id) >= 0 ==>
      var m := Members(pts, Lists.RemoveFirst(cp, id), Index(pts, id));
      |m| == 1 ==> m[0] !in r.connected && Index(r.points, m[0]) == -1
  {
    var c := Index(pts, id);
    if c < 0 then Registry(pts, cp)
    else
      LeaveListed(pts, cp, id)
  }

  function LeaveListed(pts: map<PointId, PointState>, cp: seq<PointId>, id: PointId): (r: Registry)
    requires Known(pts, cp) && id in cp && Index(pts, id) >= 0
    ensures r.points.Keys == pts.Keys && (Grouped(pts, cp) ==> Grouped(r.points, r.connected))
    ensures r.connected == LeaveJunction(pts, cp, id).connected
    ensures var m := Members(pts, Lists.RemoveFirst(cp, id), Index(pts, id));
      |m| == 1 ==> m[0] !in r.connected && Index(r.points, m[0]) == -1
  {
    var q := Lists.IndexOf(cp, id);
    var rest := Lists.RemoveFirst(cp, id);
    var m := Members(pts, rest, Index(pts, id));
    LeaveJunctionList(pts, cp, id);
    assert rest == cp[..q] + cp[q + 1..];
    if |m| == 1 then
      SoleMemberCount(pts, rest, Index(pts, id));
      LeaveSole(pts, cp, q, m[0])
    else DropRenumbered(pts, cp, q)
  }

  /** The list `LeaveJunction` leaves for a listed point. */
  lemma LeaveJunctionList(pts: map<PointId, PointState>, cp: seq<PointId>, id: PointId)
    requires Known(pts, cp) && id in cp && Index(pts, id) >= 0
    ensures var rest := Lists.RemoveFirst(cp, id);
      var m := Members(pts, rest, Index(pts, id));
      LeaveJunction(pts, cp, id).connected == if |m| == 1 then Lists.RemoveFirst(rest, m[0]) else rest
  {
  }

  /** The junction keeps a single member `x`: drop entry `q`, then
      dissolve `x`. */
  function LeaveSole(pts: map<PointId, PointState>, cp: seq<PointId>, q: int, x: PointId): (r: Registry)
    requires Known(pts, cp) && 0 <= q < |cp| && x in cp[..q] + cp[q + 1..]
    requires multiset(cp[..q] + cp[q + 1..])[x] == 1
    ensures r.points.Keys == pts.Keys && (Grouped(pts, cp) ==> Grouped(r.points, r.connected))
    ensures r.connected == Lists.RemoveFirst(cp[..q] + cp[q + 1..], x)
    ensures x !in r.connected && Index(r.points, x) == -1
  {
    var first := DropRenumbered(pts, cp, q);
    DissolveRenumbered(first.points, first.connected, x)
  }

  /** Drop the one entry of `x` with renumbering, then give `x` index -1. */
  function DissolveRenumbered(pts: map<PointId, PointState>, cp: seq<PointId>, x: PointId): (r: Registry)
    requires Known(pts, cp) && x in cp && multiset(cp)[x] == 1
    ensures r.points.Keys == pts.Keys && (Grouped(pts, cp) ==> Grouped(r.points, r.connected))
    ensures r.connected == Lists.RemoveFirst(cp, x) && x !in r.connected && Index(r.points, x) == -1
  {
    var q := Lists.IndexOf(cp, x);
    var dropped := DropRenumbered(pts, cp, q);
    DropUnique(cp, q);
    var pts' := WithIndex(dropped.points, x, -1);
    GroupedWithoutListed(dropped.points, dropped.connected, x, pts');
    Registry(pts', dropped.connected)
  }

  /** Dropping the only occurrence of an entry leaves it unlisted. */
  lemma DropUnique<T>(s: seq<T>, q: int)
    requires 0 <= q < |s| && multiset(s)[s[q]] == 1
    ensures s[q] !in s[..q] + s[q + 1..]
  {
    assert s == s[..q] + [s[q]] + s[q + 1..];
    assert multiset(s[..q] + s[q + 1..])[s[q]] == 0;
  }

  /** Changing the index of a point that is not listed keeps a list grouped. */
  lemma GroupedWithoutListed(pts: map<PointId, PointState>, cp: seq<PointId>, x: PointId, pts': map<PointId, PointState>)
    requires Known(pts, cp) && x in pts && x !in cp
    requires pts'.Keys == pts.Keys && forall y :: y in pts && y != x ==> pts'[y] == pts[y]
    ensures Grouped(pts, cp) ==> Grouped(pts', cp)
  {
    assert forall j :: 0 <= j < |cp| ==> Index(pts', cp[j]) == Index(pts, cp[j]);
  }

  /** Moving the anchor of a point fans out to its junction: with a
      junction index, every listed point sharing it moves (the point itself
      only if it is listed); without one, only the point moves. */
  function MovedAnchors(pts: map<PointId, PointState>, cp: seq<PointId>, id: PointId, position: Vec3): (r: map<PointId, PointState>)
    requires id in pts
    ensures r.Keys == pts.Keys
    ensures forall x :: x in pts ==>
      if (Index(pts, id) >= 0 && x in cp && Index(pts, x) == Index(pts, id)) || (Index(pts, id) < 0 && x == id)
      then r[x] == WithAnchor(pts[x], position) && r[x].anchor == position
      else r[x] == pts[x]
  {
    var c := Index(pts, id);
    map x | x in pts :: if (c >= 0 && x in cp && Index(pts, x) == c) || (c < 0 && x == id) then WithAnchor(pts[x], position) else pts[x]
  }

  lemma MovedAnchorsStep(pts: map<PointId, PointState>, cp: seq<PointId>, id: PointId, position: Vec3, i: int)
    requires id in pts && Index(pts, id) >= 0 && Known(pts, cp) && 0 <= i < |cp|
    ensures var m := MovedAnchors(pts, cp[..i], id, position);
      MovedAnchors(pts, cp[..i + 1], id, position) ==
        if Index(m, cp[i]) == Index(m, id) then m[cp[i] := WithAnchor(m[cp[i]], position)] else m
  {
    assert cp[..i + 1] == cp[..i] + [cp[i]];
  }

  /** The points of a junction share one anchor once it has been moved. */
  lemma MovedJunctionShares(pts: map<PointId, PointState>, cp: seq<PointId>, id: PointId, position: Vec3, x: PointId, y: PointId)
    requires id in pts && x in cp && y in cp && x in pts && y in pts
    requires Index(pts, id) >= 0 && Index(pts, x) == Index(pts, id) == Index(pts, y)
    ensures MovedAnchors(pts, cp, id, position)[x].anchor == MovedAnchors(pts, cp, id, position)[y].anchor == position
  {
  }

  /** `ScaleConnection` first raises negative scale components to zero. */
  function ClampScale(s: Vec3): (r: Vec3)
    ensures r.x >= 0.0 && r.y >= 0.0 && r.z >= 0.0
    ensures (s.x >= 0.0 ==> r.x == s.x) && (s.x < 0.0 ==> r.x == 0.0)
    ensures (s.y >= 0.0 ==> r.y == s.y) && (s.y < 0.0 ==> r.y == 0.0)
    ensures (s.z >= 0.0 ==> r.z == s.z) && (s.z < 0.0 ==> r.z == 0.0)
  {
    Vec3(if s.x < 0.0 then 0.0 else s.x, if s.y < 0.0 then 0.0 else s.y, if s.z < 0.0 then 0.0 else s.z)
  }

  /** A point scaled `n` times. */
  function ScaledTimes(p: PointState, s: Vec3, n: nat): (r: PointState)
    ensures r.anchor == p.anchor && r.mode == p.mode && r.connectedIndex == p.connectedIndex
    ensures p.IsMirrored() ==> r.IsMirrored()
  {
    if n == 0 then p else Scaled(ScaledTimes(p, s, n - 1), s)
  }

  /** Every list entry with index `c` is scaled once per occurrence. */
  function ScaledConnection(pts: map<PointId, PointState>, cp: seq<PointId>, c: int, s: Vec3): (r: map<PointId, PointState>)
    ensures r.Keys == pts.Keys
    ensures forall x :: x in pts ==>
      r[x] == if pts[x].connectedIndex == c then ScaledTimes(pts[x], s, multiset(cp)[x]) else pts[x]
    ensures forall x :: x in pts && x !in cp ==> r[x] == pts[x]
  {
    map x | x in pts :: if pts[x].connectedIndex == c then ScaledTimes(pts[x], s, multiset(cp)[x]) else pts[x]
  }

  lemma ScaledConnectionStep(pts: map<PointId, PointState>, cp: seq<PointId>, c: int, s: Vec3, i: int)
    requires Known(pts, cp) && 0 <= i < |cp|
    ensures var m := ScaledConnection(pts, cp[..i], c, s);
      ScaledConnection(pts, cp[..i + 1], c, s) ==
        if Index(m, cp[i]) == c then m[cp[i] := Scaled(m[cp[i]], s)] else m
  {
    var y := cp[i];
    assert cp[..i + 1] == cp[..i] + [y];
    assert multiset(cp[..i + 1]) == multiset(cp[..i]) + multiset{y};
  }

  /** `x` is a point of one of the splines. */
  predicate OnSpline(splines: seq<seq<PointId>>, x: PointId) {
    exists i :: 0 <= i < |splines| && x in splines[i]
  }

  lemma OnSplineLast(splines: seq<seq<PointId>>, x: PointId)
    requires |splines| > 0
    ensures OnSpline(splines, x) <==> OnSpline(splines[..|splines| - 1], x) || x in splines[|splines| - 1]
  {
    if OnSpline(splines, x) {
      var i :| 0 <= i < |splines| && x in splines[i];
      if i < |splines| - 1 {
        assert x in splines[..|splines| - 1][i];
      }
    }
    if OnSpline(splines[..|splines| - 1], x) {
      var i :| 0 <= i < |splines| - 1 && x in splines[..|splines| - 1][i];
      assert x in splines[i];
    }
  }

  lemma JunctionedStep(pts: map<PointId, PointState>, splines: seq<seq<PointId>>, i: int)
    requires forall k :: 0 <= k < |splines| ==> Known(pts, splines[k])
    requires 0 <= i < |splines|
    ensures Junctioned(pts, splines[..i + 1]) == Junctioned(pts, splines[..i]) + JunctionedOf(pts, splines[i])
  {
    assert splines[..i + 1][..i] == splines[..i];
  }

  lemma JunctionedOfStep(pts: map<PointId, PointState>, s: seq<PointId>, j: int)
    requires Known(pts, s) && 0 <= j < |s|
    ensures JunctionedOf(pts, s[..j + 1]) == JunctionedOf(pts, s[..j]) + if Index(pts, s[j]) >= 0 then [s[j]] else []
  {
    assert s[..j + 1][..j] == s[..j];
  }

  /** The points of all splines, spline by spline, whose junction index is
      not negative: what `OnAfterDeserialize` collects before sorting. */
  function Junctioned(pts: map<PointId, PointState>, splines: seq<seq<PointId>>): (r: seq<PointId>)
    requires forall i :: 0 <= i < |splines| ==> Known(pts, splines[i])
    ensures Known(pts, r)
    ensures forall x :: x in r <==> x in pts && Index(pts, x) >= 0 && OnSpline(splines, x)
  {
    if |splines| == 0 then []
    else
      var r := Junctioned(pts, splines[..|splines| - 1]) + JunctionedOf(pts, splines[|splines| - 1]);
      forall x ensures OnSpline(splines, x) <==> OnSpline(splines[..|splines| - 1], x) || x in splines[|splines| - 1] {
        OnSplineLast(splines, x);
      }
      r
  }

  /** The points of one spline whose junction index is not negative. */
  function JunctionedOf(pts: map<PointId, PointState>, s: seq<PointId>): (r: seq<PointId>)
    requires Known(pts, s)
    ensures Known(pts, r)
    ensures forall x :: x in r <==> x in s && Index(pts, x) >= 0
  {
    if |s| == 0 then []
    else
      var r := JunctionedOf(pts, s[..|s| - 1]);
      assert forall x :: x in s <==> x in s[..|s| - 1] || x == s[|s| - 1];
      if Index(pts, s[|s| - 1]) >= 0 then r + [s[|s| - 1]] else r
  }

  predicate SortedByIndex(pts: map<PointId, PointState>, s: seq<PointId>)
    requires Known(pts, s)
  {
    forall i, j :: 0 <= i < j < |s| ==> Index(pts, s[i]) <= Index(pts, s[j])
  }

  /** Insert `x` into a list sorted by index, keeping it sorted. */
  function InsertByIndex(pts: map<PointId, PointState>, s: seq<PointId>, x: PointId): (r: seq<PointId>)
    requires Known(pts, s) && x in pts && SortedByIndex(pts, s)
    ensures Known(pts, r) && SortedByIndex(pts, r)
    ensures forall y :: y in r ==> y in s || y == x
    ensures multiset(r) == multiset(s) + multiset{x}
  {
    if |s| == 0 then [x]
    else if Index(pts, x) <= Index(pts, s[0]) then [x] + s
    else
      var rest := InsertByIndex(pts, s[1..], x);
      assert s == [s[0]] + s[1..];
      var r := [s[0]] + rest;
      ConsSorted(pts, s, x, rest);
      r
  }

  /** Putting an entry with a smaller index than `x` in front of a sorted
      list drawn from the rest of `s` and `x` keeps it sorted. */
  lemma ConsSorted(pts: map<PointId, PointState>, s: seq<PointId>, x: PointId, rest: seq<PointId>)
    requires Known(pts, s) && x in pts && SortedByIndex(pts, s) && |s| > 0 && Index(pts, s[0]) < Index(pts, x)
    requires Known(pts, rest) && SortedByIndex(pts, rest) && forall y :: y in rest ==> y in s[1..] || y == x
    ensures Known(pts, [s[0]] + rest) && SortedByIndex(pts, [s[0]] + rest)
  {
    var r := [s[0]] + rest;
    forall i, j | 0 <= i < j < |r| ensures Index(pts, r[i]) <= Index(pts, r[j]) {
      if i == 0 {
        assert r[j] in rest;
      } else {
        assert r[i] == rest[i - 1] && r[j] == rest[j - 1];
      }
    }
  }

  /** `List.Sort` by junction index. The library sort is not stable, so only
      the order of the indices and the contents are specified. */
  function SortByIndex(pts: map<PointId, PointState>, s: seq<PointId>): (r: seq<PointId>)
    requires Known(pts, s)
    ensures Known(pts, r) && SortedByIndex(pts, r)
    ensures multiset(r) == multiset(s)
  {
    if |s| == 0 then []
    else
      assert s == s[..|s| - 1] + [s[|s| - 1]];
      InsertByIndex(pts, SortByIndex(pts, s[..|s| - 1]), s[|s| - 1])
  }
}
