/** The earlier control point (SplineTool/ControlPoint.cs): three coupling
    modes including Free, no up vector, and lower-case setter names in the
    original. It declares the same global names as the later point, so it
    lives in a module of its own. */
module LegacyControlPoints {
  import opened Vectors

  datatype Mode = Free | Aligned | Mirrored

  type HandleIndex = i: int | 0 <= i < 2

  class ControlPoint {
    var anchor: Vec3
    /** The two relative handles; the array itself is never replaced. */
    const handles: array<Vec3>
    var mode: Mode
    var connectedIndex: int

    ghost predicate Valid() {
      handles.Length == 2
    }

    constructor (position: Vec3, forward: Vec3)
      ensures Valid() && fresh(handles)
      ensures anchor == position && mode == Mirrored && connectedIndex == -1
      ensures handles[0] == Times(-0.5, forward) && handles[1] == Times(0.5, forward)
      ensures handles[0] == Neg(handles[1])
    {
      anchor := position;
      handles := new Vec3[2] [Times(-0.5, forward), Times(0.5, forward)];
      mode := Mirrored;
      connectedIndex := -1;
    }

    function GetAnchorPosition(): Vec3
      reads this
    {
      anchor
    }

    /** The absolute position of handle `index`; subtracting the anchor
        gives the stored relative handle back. */
    function GetHandlePosition(index: HandleIndex): (r: Vec3)
      reads this, handles
      requires Valid()
      ensures Sub(r, anchor) == handles[index]
    {
      Add(anchor, handles[index])
    }

    function GetRelativeHandlePosition(index: HandleIndex): Vec3
      reads this, handles
      requires Valid()
    {
      handles[index]
    }

    /** Only the anchor moves; relative handles follow it. */
    method SetAnchorPosition(position: Vec3)
      requires Valid()
      modifies this
      ensures anchor == position
      ensures mode == old(mode) && connectedIndex == old(connectedIndex)
      ensures forall i: HandleIndex :: GetHandlePosition(i) == Add(old(GetHandlePosition(i)), Sub(position, old(anchor)))
    {
      anchor := position;
    }

    /** Put handle `index` at an absolute position and couple the other one:
        untouched when Free, along `anchor - position` with its old length
        when Aligned, exactly `anchor - position` when Mirrored. */
    method SetHandlePosition(g: Geometry, index: HandleIndex, position: Vec3)
      requires Valid()
      modifies handles
      ensures handles[index] == Sub(position, anchor)
      ensures GetHandlePosition(index) == position
      ensures mode == Free ==> handles[1 - index] == old(handles[1 - index])
      ensures mode == Aligned ==>
        handles[1 - index] == Times(g.magnitude(old(handles[1 - index])), g.normalized(Sub(anchor, position)))
      ensures mode == Mirrored ==> handles[1 - index] == Sub(anchor, position) && handles[1 - index] == Neg(handles[index])
    {
      handles[index] := Sub(position, anchor);
      match mode {
        case Free =>
        case Aligned =>
          var direction := Sub(anchor, position);
          handles[1 - index] := Times(g.magnitude(handles[1 - index]), g.normalized(direction));
        case Mirrored =>
          handles[1 - index] := Sub(anchor, position);
      }
    }

    /** The length of the outgoing handle. */
    function GetHandleScale(g: Geometry): (r: real)
      reads this, handles
      requires Valid()
      ensures g.Valid() ==> r >= 0.0
    {
      g.magnitude(handles[1])
    }

    /** Both handles keep their direction and are given length `scale`. */
    method SetHandleScale(g: Geometry, scale: real)
      requires Valid()
      modifies handles
      ensures handles[0] == Times(scale, g.normalized(old(handles[0])))
      ensures handles[1] == Times(scale, g.normalized(old(handles[1])))
      ensures GetHandleScale(g) == g.magnitude(Times(scale, g.normalized(old(handles[1]))))
    {
      handles[0] := Times(scale, g.normalized(handles[0]));
      handles[1] := Times(scale, g.normalized(handles[1]));
    }
  }
}
