/** A spline control point: an anchor, two tangent handles stored relative to
    the anchor (0 = incoming, 1 = outgoing), an up vector, a coupling mode and
    the junction index (-1 when the point is in no junction).

    `PointState` is the value of a point and the functions on it say what each
    setter does; `ControlPoint` is the mutable object, whose methods are proved
    to perform exactly those transformations. */
module ControlPoints {
  import opened Vectors

  /** How editing one handle rewrites the opposite one. */
  datatype Mode = Aligned | Mirrored

  type HandleIndex = i: int | 0 <= i < 2

  /** Shortest handle `SetHandleMagnitude` will produce a request for. */
  const MinHandleMagnitude: real := 0.01

  datatype PointState = PointState(
    anchor: Vec3,
    handle0: Vec3,
    handle1: Vec3,
    up: Vec3,
    mode: Mode,
    connectedIndex: int)
  {
    /** Relative offset of handle `i` from the anchor. */
    function Handle(i: HandleIndex): Vec3 {
      if i == 0 then handle0 else handle1
    }

    /** Absolute position of handle `i`. */
    function HandlePosition(i: HandleIndex): Vec3 {
      Add(anchor, Handle(i))
    }

    function WithHandle(i: HandleIndex, v: Vec3): (r: PointState)
      ensures r.Handle(i) == v && r.Handle(1 - i) == Handle(1 - i)
      ensures r.anchor == anchor && r.up == up && r.mode == mode && r.connectedIndex == connectedIndex
    {
      if i == 0 then this.(handle0 := v) else this.(handle1 := v)
    }

    /** The two handles point in exactly opposite directions with equal length. */
    predicate IsMirrored() {
      handle0 == Neg(handle1)
    }
  }

  /** The point built by the constructor taking a position and a direction. */
  function NewPoint(position: Vec3, forward: Vec3): (p: PointState)
    ensures p.anchor == position && p.up == Up
    ensures p.handle0 == Times(-0.5, forward) && p.handle1 == Times(0.5, forward)
    ensures p.mode == Mirrored && p.connectedIndex == -1
  {
    PointState(position, Times(-0.5, forward), Times(0.5, forward), Up, Mirrored, -1)
  }

  /** A new point's handles are mirror images of each other. */
  lemma NewPointIsMirrored(position: Vec3, forward: Vec3)
    ensures NewPoint(position, forward).IsMirrored()
  {
  }

  /** Moving the anchor keeps the relative handles, so both absolute handle
      positions move by the same offset as the anchor. */
  function WithAnchor(p: PointState, position: Vec3): (r: PointState)
    ensures r.anchor == position && r.(anchor := p.anchor) == p
    ensures forall i: HandleIndex :: r.HandlePosition(i) == Add(p.HandlePosition(i), Sub(position, p.anchor))
  {
    p.(anchor := position)
  }

  /** Store `v` as handle `i`, then couple the opposite handle: mirrored makes
      it `-v`; aligned points it along `-v` and keeps its former length. */
  function WithRelativeHandle(g: Geometry, p: PointState, i: HandleIndex, v: Vec3): (r: PointState)
    ensures r.Handle(i) == v
    ensures p.mode == Mirrored ==> r.Handle(1 - i) == Neg(v) && r.IsMirrored()
    ensures p.mode == Aligned ==> r.Handle(1 - i) == Times(g.magnitude(p.Handle(1 - i)), g.normalized(Neg(v)))
    ensures r.anchor == p.anchor && r.up == p.up && r.mode == p.mode && r.connectedIndex == p.connectedIndex
  {
    var q := p.WithHandle(i, v);
    match p.mode
    case Aligned => q.WithHandle(1 - i, Times(g.magnitude(q.Handle(1 - i)), g.normalized(Neg(v))))
    case Mirrored => q.WithHandle(1 - i, Neg(v))
  }

  /** Place handle `i` at an absolute position; reading it back gives that position. */
  function WithHandlePosition(g: Geometry, p: PointState, i: HandleIndex, position: Vec3): (r: PointState)
    ensures r.HandlePosition(i) == position
    ensures r == WithRelativeHandle(g, p, i, Sub(position, p.anchor))
  {
    WithRelativeHandle(g, p, i, Sub(position, p.anchor))
  }

  /** A requested handle length, raised to the minimum when it is smaller. */
  function ClampMagnitude(m: real): (r: real)
    ensures r >= MinHandleMagnitude
    ensures m >= MinHandleMagnitude ==> r == m
    ensures m < MinHandleMagnitude ==> r == MinHandleMagnitude
  {
    if m < MinHandleMagnitude then MinHandleMagnitude else m
  }

  /** Rescale handle `i` to the clamped length along its own direction; a
      mirrored point copies the negation to the other handle, an aligned one
      leaves it alone. */
  function WithHandleMagnitude(g: Geometry, p: PointState, i: HandleIndex, m: real): (r: PointState)
    ensures exists m' :: m' >= MinHandleMagnitude && r.Handle(i) == Times(m', g.normalized(p.Handle(i)))
    ensures r.Handle(i) == Times(ClampMagnitude(m), g.normalized(p.Handle(i)))
    ensures p.mode == Mirrored ==> r.Handle(1 - i) == Neg(r.Handle(i)) && r.IsMirrored()
    ensures p.mode == Aligned ==> r.Handle(1 - i) == p.Handle(1 - i)
    ensures r.anchor == p.anchor && r.up == p.up && r.mode == p.mode && r.connectedIndex == p.connectedIndex
  {
    var q := p.WithHandle(i, Times(ClampMagnitude(m), g.normalized(p.Handle(i))));
    if p.mode == Mirrored then q.WithHandle(1 - i, Neg(q.Handle(i))) else q
  }

  /** Multiply both handle offsets component-wise; the anchor stays. A
      mirrored pair stays mirrored. */
  function Scaled(p: PointState, s: Vec3): (r: PointState)
    ensures r.handle0 == CompMul(p.handle0, s) && r.handle1 == CompMul(p.handle1, s)
    ensures r.anchor == p.anchor && r.up == p.up && r.mode == p.mode && r.connectedIndex == p.connectedIndex
    ensures p.IsMirrored() ==> r.IsMirrored()
  {
    p.(handle0 := CompMul(p.handle0, s), handle1 := CompMul(p.handle1, s))
  }

  /** Switch mode and re-apply the coupling from handle 1, which is kept. */
  function WithMode(g: Geometry, p: PointState, newMode: Mode): (r: PointState)
    ensures r.mode == newMode && r.handle1 == p.handle1
    ensures newMode == Mirrored ==> r.handle0 == Neg(p.handle1) && r.IsMirrored()
    ensures newMode == Aligned ==> r.handle0 == Times(g.magnitude(p.handle0), g.normalized(Neg(p.handle1)))
    ensures r.anchor == p.anchor && r.up == p.up && r.connectedIndex == p.connectedIndex
  {
    WithRelativeHandle(g, p.(mode := newMode), 1, p.handle1)
  }

  /** Every handle edit of a mirrored point leaves it mirrored. */
  lemma MirroredStaysMirrored(g: Geometry, p: PointState, i: HandleIndex, v: Vec3, m: real, s: Vec3)
    requires p.mode == Mirrored
    ensures WithRelativeHandle(g, p, i, v).IsMirrored()
    ensures WithHandleMagnitude(g, p, i, m).IsMirrored()
    ensures p.IsMirrored() ==> Scaled(p, s).IsMirrored()
    ensures WithMode(g, p, Mirrored).IsMirrored()
  {
  }

  class ControlPoint {
    var anchor: Vec3
    /** The two relative handles; the array itself is never replaced. */
    const handles: array<Vec3>
    var up: Vec3
    var mode: Mode
    var connectedIndex: int

    ghost predicate Valid() {
      handles.Length == 2
    }

    /** The point's current value. */
    function State(): PointState
      reads this, handles
      requires Valid()
    {
      PointState(anchor, handles[0], handles[1], up, mode, connectedIndex)
    }

    /** The parameterless constructor: at the origin, facing forward. */
    constructor Default()
      ensures Valid() && fresh(handles)
      ensures State() == NewPoint(Zero, Forward)
    {
      anchor := Zero;
      handles := new Vec3[2] [Vec3(0.0, 0.0, -0.5), Vec3(0.0, 0.0, 0.5)];
      up := Up;
      mode := Mirrored;
      connectedIndex := -1;
      new;
      assert State() == PointState(Zero, Vec3(0.0, 0.0, -0.5), Vec3(0.0, 0.0, 0.5), Up, Mirrored, -1);
      assert NewPoint(Zero, Forward) == State();
    }

    constructor (position: Vec3, forward: Vec3)
      ensures Valid() && fresh(handles)
      ensures State() == NewPoint(position, forward)
    {
      anchor := position;
      handles := new Vec3[2] [Times(-0.5, forward), Times(0.5, forward)];
      up := Up;
      mode := Mirrored;
      connectedIndex := -1;
    }

    /** The anchor, the origin both relative handles are measured from. */
    function GetAnchorPosition(): (r: Vec3)
      reads this, handles
      requires Valid()
      ensures r == State().anchor
      ensures forall i: HandleIndex :: Add(r, State().Handle(i)) == State().HandlePosition(i)
    {
      anchor
    }

    /** Handle `index` relative to the anchor: its absolute position minus
        the anchor. */
    function GetRelativeHandlePosition(index: HandleIndex): (r: Vec3)
      reads this, handles
      requires Valid()
      ensures r == State().Handle(index)
      ensures r == Sub(State().HandlePosition(index), State().anchor)
    {
      handles[index]
    }

    function GetHandlePosition(index: HandleIndex): (r: Vec3)
      reads this, handles
      requires Valid()
      ensures r == State().HandlePosition(index)
    {
      Add(anchor, GetRelativeHandlePosition(index))
    }

    function GetHandleMagnitude(g: Geometry, index: HandleIndex): (r: real)
      reads this, handles
      requires Valid()
      ensures g.Valid() ==> r >= 0.0
    {
      g.magnitude(handles[index])
    }

    function GetMode(): (r: Mode)
      reads this, handles
      requires Valid()
      ensures r == State().mode
    {
      mode
    }

    method SetAnchorPosition(position: Vec3)
      requires Valid()
      modifies this
      ensures Valid() && State() == WithAnchor(old(State()), position)
    {
      anchor := position;
    }

    method SetHandlePosition(g: Geometry, index: HandleIndex, position: Vec3)
      requires Valid()
      modifies handles
      ensures Valid() && State() == WithHandlePosition(g, old(State()), index, position)
      ensures GetHandlePosition(index) == position
    {
      SetRelativeHandlePosition(g, index, Sub(position, anchor));
    }

    method SetRelativeHandlePosition(g: Geometry, index: HandleIndex, position: Vec3)
      requires Valid()
      modifies handles
      ensures Valid() && State() == WithRelativeHandle(g, old(State()), index, position)
    {
      handles[index] := position;
      match mode {
        case Aligned =>
          var direction := Neg(position);
          handles[1 - index] := Times(g.magnitude(handles[1 - index]), g.normalized(direction));
        case Mirrored =>
          handles[1 - index] := Neg(position);
      }
    }

    method SetHandleMagnitude(g: Geometry, index: HandleIndex, magnitude: real)
      requires Valid()
      modifies handles
      ensures Valid() && State() == WithHandleMagnitude(g, old(State()), index, magnitude)
    {
      var m := magnitude;
      if m < MinHandleMagnitude {
        m := MinHandleMagnitude;
      }
      handles[index] := Times(m, g.normalized(handles[index]));
      if mode == Mirrored {
        handles[1 - index] := Neg(handles[index]);
      }
    }

    method Scale(s: Vec3)
      requires Valid()
      modifies handles
      ensures Valid() && State() == Scaled(old(State()), s)
    {
      handles[0] := CompMul(handles[0], s);
      handles[1] := CompMul(handles[1], s);
    }

    method SetMode(g: Geometry, newMode: Mode)
      requires Valid()
      modifies this, handles
      ensures Valid() && State() == WithMode(g, old(State()), newMode)
    {
      mode := newMode;
      SetRelativeHandlePosition(g, 1, GetRelativeHandlePosition(1));
    }
  }
}
