# Spline tool core, modelled in Dafny

This project models the core of a Unity spline editing tool. It covers four
pieces of the tool.

- **Control points.** A control point has an anchor, two tangent handles
  stored relative to the anchor, an up vector, a coupling mode and a
  junction index (`connectedIndex`, -1 when the point is in no junction).
  Each setter rewrites the opposite handle according to the mode.
  `ControlPoints.PointState` is the value of a point, and the functions on
  it say what each setter does. `ControlPoints.ControlPoint` is the mutable
  object; its `handles` field is an `array<Vec3>` updated in place. Each of
  its methods is proved to perform exactly the matching transformation.
- **The older control point.** `LegacyControlPoints.ControlPoint` is the
  earlier class, with a third mode, Free, and lower-case setter names.
- **Splines.** `Splines.Spline` is a list of point objects with an
  arc-length table. The table holds 100 samples per curve piece; each entry
  is the previous one plus a chord length. `SplineCurves` gives the
  value-level meaning:
  - the samples, and the polyline length through them;
  - the inverse lookup from a distance to a curve parameter;
  - the point lists that adding, inserting and removing produce.

  The table loop, the lookup loop and the list edits are proved against
  these definitions.
- **Junctions.** `Components.SplineComponent` holds the list of splines and
  the junction list `connectedPoints`. In this model the points live in an
  arena: a map from point id to point state. A spline is a sequence of ids,
  and the junction list is a sequence of ids. `Junctions` says as values
  what each list operation does:
  - `Connect` and `LeaveJunction` describe the code as written;
  - `ConnectRenumbered` and `LeaveRenumbered` describe it as evidently
    intended.

  `Grouped` is the intended shape of the list: each junction's entries form
  one run that starts at the position its index names. The as-written code
  does not keep this shape (see Findings), so it is never assumed as an
  invariant of the component.

Vector length, `normalized` and cubic Bezier evaluation belong to the host
engine. They are fields of the `Vectors.Geometry` parameter, and the only
fact assumed of them is that a length is never negative.

## Model

| member | source | states |
|---|---|---|
| ControlPoints.NewPoint | SplineTool/Assets/SplineTool/Splines/ControlPoint.cs:37-46 | A new point sits at the given position. Its handles are -0.5 and +0.5 times the direction, its up vector is the up axis, its mode is Mirrored and its junction index is -1. |
| ControlPoints.NewPointIsMirrored | SplineTool/Assets/SplineTool/Splines/ControlPoint.cs:37-46 | A new point's two handles are exact opposites. |
| ControlPoints.WithAnchor | SplineTool/Assets/SplineTool/Splines/ControlPoint.cs:72-74 | Only the anchor changes. Both absolute handle positions move by the anchor's displacement. |
| ControlPoints.WithRelativeHandle | SplineTool/Assets/SplineTool/Splines/ControlPoint.cs:81-92 | Handle i becomes v. In Mirrored mode the other handle becomes -v and the pair is mirrored. In Aligned mode the other handle points along -v with its former length. Anchor, up, mode and junction index are kept. |
| ControlPoints.WithHandlePosition | SplineTool/Assets/SplineTool/Splines/ControlPoint.cs:77-79 | Round trip: the absolute position of handle i reads back as the position that was set. |
| ControlPoints.ClampMagnitude | SplineTool/Assets/SplineTool/Splines/ControlPoint.cs:95-96 | The length used is at least 0.01. It equals the request when the request is at least 0.01, and is 0.01 otherwise. |
| ControlPoints.WithHandleMagnitude | SplineTool/Assets/SplineTool/Splines/ControlPoint.cs:94-101 | Handle i becomes the clamped length (never below 0.01) times the engine's `normalized` of the old handle i. Mirrored mode sets the other handle to its exact negation. Aligned mode leaves the other handle alone. |
| ControlPoints.Scaled | SplineTool/Assets/SplineTool/Splines/ControlPoint.cs:103-106 | Both handles are multiplied component-wise. Anchor, up, mode and index are kept, and a mirrored pair stays mirrored. |
| ControlPoints.WithMode | SplineTool/Assets/SplineTool/Splines/ControlPoint.cs:108-111 | The mode changes and handle 1 is kept. Handle 0 is recoupled: it becomes -handle1 for Mirrored, and lies along -handle1 with its old length for Aligned. |
| ControlPoints.MirroredStaysMirrored | SplineTool/Assets/SplineTool/Splines/ControlPoint.cs:81-111 | Every handle edit of a Mirrored point leaves the handles exact opposites: the setter, magnitude, scale and mode changes. |
| ControlPoints.ControlPoint.Default | SplineTool/Assets/SplineTool/Splines/ControlPoint.cs:25-34 | The parameterless constructor builds the new point at the origin facing forward. |
| ControlPoints.ControlPoint.constructor | SplineTool/Assets/SplineTool/Splines/ControlPoint.cs:37-46 | The object's value is NewPoint(position, forward), with a fresh two-element handle array. |
| ControlPoints.ControlPoint.GetAnchorPosition | SplineTool/Assets/SplineTool/Splines/ControlPoint.cs:49-51 | Returns the anchor of the point's value; adding a relative handle to it gives that handle's absolute position. |
| ControlPoints.ControlPoint.GetRelativeHandlePosition | SplineTool/Assets/SplineTool/Splines/ControlPoint.cs:59-61 | Returns handle i of the point's value, which is its absolute position minus the anchor. |
| ControlPoints.ControlPoint.GetMode | SplineTool/Assets/SplineTool/Splines/ControlPoint.cs:67-69 | Returns the mode of the point's value. |
| ControlPoints.ControlPoint.GetHandlePosition | SplineTool/Assets/SplineTool/Splines/ControlPoint.cs:54-56 | Returns the anchor plus the relative handle, which is the absolute handle position of the point's value. |
| ControlPoints.ControlPoint.GetHandleMagnitude | SplineTool/Assets/SplineTool/Splines/ControlPoint.cs:63-65 | The handle length is never negative. |
| ControlPoints.ControlPoint.SetAnchorPosition | SplineTool/Assets/SplineTool/Splines/ControlPoint.cs:72-74 | The new value is WithAnchor of the old value. |
| ControlPoints.ControlPoint.SetHandlePosition | SplineTool/Assets/SplineTool/Splines/ControlPoint.cs:77-79 | The new value is WithHandlePosition of the old value, and GetHandlePosition(index) returns the position just set. |
| ControlPoints.ControlPoint.SetRelativeHandlePosition | SplineTool/Assets/SplineTool/Splines/ControlPoint.cs:81-92 | The handle array is updated in place to WithRelativeHandle of the old value. |
| ControlPoints.ControlPoint.SetHandleMagnitude | SplineTool/Assets/SplineTool/Splines/ControlPoint.cs:94-101 | The new value is WithHandleMagnitude of the old value. |
| ControlPoints.ControlPoint.Scale | SplineTool/Assets/SplineTool/Splines/ControlPoint.cs:103-106 | The new value is Scaled of the old value. |
| ControlPoints.ControlPoint.SetMode | SplineTool/Assets/SplineTool/Splines/ControlPoint.cs:108-111 | The new value is WithMode of the old value. |
| LegacyControlPoints.ControlPoint.constructor | SplineTool/Assets/SplineTool/ControlPoint.cs:23-31 | The handles are -0.5 and +0.5 times the direction, and so are opposites. The mode is Mirrored and the index is -1. |
| LegacyControlPoints.ControlPoint.GetHandlePosition | SplineTool/Assets/SplineTool/ControlPoint.cs:39-41 | The absolute handle position; subtracting the anchor gives back the stored relative handle. |
| LegacyControlPoints.ControlPoint.SetAnchorPosition | SplineTool/Assets/SplineTool/ControlPoint.cs:49-51 | Only the anchor changes; both absolute handle positions move by the anchor's displacement. |
| LegacyControlPoints.ControlPoint.SetHandlePosition | SplineTool/Assets/SplineTool/ControlPoint.cs:54-67 | Handle i becomes position - anchor and reads back as the position. The other handle is untouched in Free mode. In Aligned mode it lies along anchor - position with its old length. In Mirrored mode it is exactly anchor - position, the negation of handle i. |
| LegacyControlPoints.ControlPoint.GetHandleScale | SplineTool/Assets/SplineTool/ControlPoint.cs:78-80 | The length of the outgoing handle, never negative. |
| LegacyControlPoints.ControlPoint.SetHandleScale | SplineTool/Assets/SplineTool/ControlPoint.cs:82-85 | Each handle becomes scale times the engine's `normalized` of its old value. GetHandleScale then reports the length of that product for handle 1. |
| SplineCurves.Distance | SplineTool/Assets/SplineTool/Splines/Spline.cs:155 | A chord length is never negative. |
| SplineCurves.PieceDependsOnEnds | SplineTool/Assets/SplineTool/Splines/Spline.cs:130-139 | CurvePoint and CurveDirection, the private GetPoint(curve, t) and GetDirection(curve, t), depend only on points curve and curve+1. |
| SplineCurves.AppendKeepsPieces | SplineTool/Assets/SplineTool/Splines/Spline.cs:130-139 | Appending a point leaves the position and direction of every existing curve piece unchanged. |
| SplineCurves.PieceIndexBound | SplineTool/Assets/SplineTool/Splines/Spline.cs:151-158 | Splitting a table entry into (piece, step) is division with remainder by the table size 100. |
| SplineCurves.PieceIndexOf | SplineTool/Assets/SplineTool/Splines/Spline.cs:151-158 | Step j of piece i is table entry i * 100 + j. |
| SplineCurves.SamplesUnique | SplineTool/Assets/SplineTool/Splines/Spline.cs:147-161 | The sampled points of the table are determined by the control points. |
| SplineCurves.PathLength | SplineTool/Assets/SplineTool/Splines/Spline.cs:149-160 | The polyline length through the first samples is 0 at the start and never negative. |
| SplineCurves.ArcLengthAt | SplineTool/Assets/SplineTool/Splines/Spline.cs:147-161 | Table entry 0 is 0, and every entry is non-negative. |
| SplineCurves.PathLengthMonotone | SplineTool/Assets/SplineTool/Splines/Spline.cs:155-160 | The accumulated length never decreases along the table. |
| SplineCurves.FirstAbove | SplineTool/Assets/SplineTool/Splines/Spline.cs:118-119 | Every entry before the result is at most t, and the entry at the result, if any, exceeds t. |
| SplineCurves.FirstAboveAt | SplineTool/Assets/SplineTool/Splines/Spline.cs:118-125 | A left-to-right scan stops exactly at FirstAbove. |
| SplineCurves.ArcPos | SplineTool/Assets/SplineTool/Splines/Spline.cs:117-127 | When some entry exceeds t: the bracket index i is at least 1, entry i-1 ≤ t < entry i (so the denominator is positive), and the result lies in [(i-1)/100, i/100). Otherwise the result is the number of pieces. For a full table the result lies in [0, n-1]. |
| SplineCurves.Locate | SplineTool/Assets/SplineTool/Splines/Spline.cs:75-99 | The piece index lies in [0, n-2] and the local parameter in [0, 1]. Together they add up to the curve parameter. The very end of the spline is reported as the end of the last piece. |
| SplineCurves.InitialPoints | SplineTool/Assets/SplineTool/Splines/Spline.cs:32-35 | A new spline has two points in no junction (index -1): one at the position and one a unit further along forward. |
| SplineCurves.AppendedPoint | SplineTool/Assets/SplineTool/Splines/Spline.cs:44-46 | The appended point lies one normalised outgoing-handle step beyond the last anchor, with a quarter of that step as its outgoing handle. It is Mirrored and in no junction (index -1). |
| SplineCurves.InsertedPoints | SplineTool/Assets/SplineTool/Splines/Spline.cs:56-72 | Exactly one point is added. At index 0 it goes in front and the old points follow unchanged. Otherwise the new point sits at the midpoint parameter of piece index-1, and the points outside the two neighbours are kept. Both neighbours switch to Aligned with their anchors and indices kept, and their facing handles are halved. |
| SplineCurves.InsertedPoint | SplineTool/Assets/SplineTool/Splines/Spline.cs:57-70 | The new point is Mirrored and in no junction (index -1). At index 0 it lies one normalised step along the first incoming handle; otherwise it lies on piece index-1 at parameter 0.5. |
| Splines.Spline.Default | SplineTool/Assets/SplineTool/Splines/Spline.cs:19-28 | The parameterless constructor builds two points at one and two units along forward. The table holds the arc lengths of those points (TableOf), and is valid. |
| Splines.Spline.constructor | SplineTool/Assets/SplineTool/Splines/Spline.cs:31-40 | The points are InitialPoints(position) and the objects are fresh. The table holds the arc lengths of those points (TableOf), and is valid. |
| Splines.Spline.ResetArcLengthTable | SplineTool/Assets/SplineTool/Splines/Spline.cs:147-161 | The points are unchanged. The new table has (n-1)*100+1 entries, entry k is ArcLengthAt(k), and the table starts at 0 and never decreases. |
| Splines.BuildArcLengthTable | SplineTool/Assets/SplineTool/Splines/Spline.cs:148-160 | The nested loop writes entry k as the polyline length through samples 0..k. The table starts at 0 and never decreases. |
| Splines.FillPiece | SplineTool/Assets/SplineTool/Splines/Spline.cs:152-158 | The inner loop writes the entries of one curve piece from the previous entry and sample. |
| Splines.TableMonotone | SplineTool/Assets/SplineTool/Splines/Spline.cs:147-161 | A table of accumulated chord lengths starts at 0 and never decreases. |
| Splines.Spline.GetArcPos | SplineTool/Assets/SplineTool/Splines/Spline.cs:117-127 | The scan returns ArcPos of the table, which lies in [0, n-1]. |
| Splines.Spline.GetArcLength | SplineTool/Assets/SplineTool/Splines/Spline.cs:142-144 | The total length is non-negative, is a table entry, and is at least every entry. |
| Splines.Spline.GetPoint | SplineTool/Assets/SplineTool/Splines/Spline.cs:75-86 | Evaluates the Bezier point at the piece and local parameter that Locate reads off GetArcPos, so the piece index is always in range. |
| Splines.Spline.GetDirection | SplineTool/Assets/SplineTool/Splines/Spline.cs:89-99 | Evaluates the Bezier derivative, located as in GetPoint. |
| Splines.Spline.AddControlPoint | SplineTool/Assets/SplineTool/Splines/Spline.cs:43-48 | One fresh point is appended, earlier points and their order are kept, the values become old + [AppendedPoint], and the table is rebuilt. |
| Splines.Spline.InsertControlPoint | SplineTool/Assets/SplineTool/Splines/Spline.cs:56-72 | One fresh point object is inserted at position index. The values become InsertedPoints of the old values, and the table is rebuilt. |
| Splines.Spline.RemoveControlPoint | SplineTool/Assets/SplineTool/Splines/Spline.cs:50-53 | The first occurrence of the point is removed and the order of the rest is kept. The values lose exactly that position, and the table is rebuilt. |
| Splines.StatesAfterRemove | SplineTool/Assets/SplineTool/Splines/Spline.cs:51 | Removing one point object from the list removes exactly its value from the list of values. |
| Splines.StatesAfterInsert | SplineTool/Assets/SplineTool/Splines/Spline.cs:70 | Inserting a new point object adds exactly its value at that position. |
| Junctions.Members | SplineTool/Assets/SplineTool/Splines/SplineComponent.cs:319-324 | The entries with index c, in list order: an id is a member exactly when it is listed and has index c. |
| Junctions.RunLength | SplineTool/Assets/SplineTool/Splines/SplineComponent.cs:146-154 | The maximal run of entries with index c starting at position c. It fits in the list, and the entry after it does not have index c. |
| Junctions.OffsetInsideRun | SplineTool/Assets/SplineTool/Splines/SplineComponent.cs:157-159 | In a grouped list, a listed point's position minus its index lies inside its junction's run. |
| Junctions.ConnectTwoJunctions | SplineTool/Assets/SplineTool/Splines/SplineComponent.cs:268-270 | Connecting two points that are both in junctions changes nothing. |
| Junctions.ConnectToJunction | SplineTool/Assets/SplineTool/Splines/SplineComponent.cs:271-278 | The free point is inserted at the junction's index and takes that index. The list grows by one, the other entries keep their order, and no other point changes, whichever argument is the free one. |
| Junctions.ConnectOutOfRange | SplineTool/Assets/SplineTool/Splines/SplineComponent.cs:271-278 | An index beyond the list makes the insertion fail. |
| Junctions.ConnectTwoFree | SplineTool/Assets/SplineTool/Splines/SplineComponent.cs:279-284 | First and second are appended and both get the position of first in the list. That position is the former list length when first was not listed. |
| Junctions.ConnectBreaksGrouping | SplineTool/Assets/SplineTool/Splines/SplineComponent.cs:271-278 | A grouped list stops being grouped after a connect, and the count for a later junction drops from 2 to 0. |
| Junctions.ConnectRenumbered | SplineTool/Assets/SplineTool/Splines/SplineComponent.cs:267-285 | Intended connect: the list stays grouped, and a connected pair ends with one shared non-negative index with both points listed. |
| Junctions.JoinRenumbered | SplineTool/Assets/SplineTool/Splines/SplineComponent.cs:271-278 | The joining point is inserted at the junction's start as in the source and takes its index. Later junctions move up, and the list stays grouped. |
| Junctions.LeaveJunction | SplineTool/Assets/SplineTool/Splines/SplineComponent.cs:312-331 | A point without a junction changes nothing. Otherwise the list loses the point, plus the sole remaining member when exactly one is left (as a multiset). Points with another index are untouched. |
| Junctions.LeaveJunctionDissolves | SplineTool/Assets/SplineTool/Splines/SplineComponent.cs:326-330 | A sole remaining member gets index -1 and no listed point keeps the junction's index. Otherwise no point changes. |
| Junctions.ExampleLeave | SplineTool/Assets/SplineTool/Splines/SplineComponent.cs:312-331 | Removing a point from a two-member junction dissolves it and leaves the later junction's entries unrenumbered. |
| Junctions.LeaveBreaksGrouping | SplineTool/Assets/SplineTool/Splines/SplineComponent.cs:312-331 | After a removal a grouped list stops being grouped. The count for the later junction drops from 2 to 0, and its stale index equals the list length. |
| Junctions.StaleIndexCollides | SplineTool/Assets/SplineTool/Splines/SplineComponent.cs:280-283 | Two free points connected next take the list length as their index, and so join a listed point that kept that stale index. |
| Junctions.DropRenumbered | SplineTool/Assets/SplineTool/Splines/SplineComponent.cs:314-316 | Dropping one entry and moving later junctions down keeps a grouped list grouped. Points of earlier junctions are unchanged. |
| Junctions.LeaveRenumbered | SplineTool/Assets/SplineTool/Splines/SplineComponent.cs:312-331 | Intended removal: the list changes exactly as LeaveJunction's does, a grouped list stays grouped, and a sole remaining member gets index -1 and is unlisted. |
| Junctions.MovedAnchors | SplineTool/Assets/SplineTool/Splines/SplineComponent.cs:182-196 | For a point in a junction, every listed point sharing its index gets the new anchor and nothing else changes. For a free point, only that point moves. |
| Junctions.MovedJunctionShares | SplineTool/Assets/SplineTool/Splines/SplineComponent.cs:183-187 | After a move, all listed points of the junction share the new anchor. |
| Junctions.ClampScale | SplineTool/Assets/SplineTool/Splines/SplineComponent.cs:239-243 | Negative scale components become 0 and the others are kept. |
| Junctions.ScaledConnection | SplineTool/Assets/SplineTool/Splines/SplineComponent.cs:244-249 | Every point with the index is scaled once per list occurrence. Unlisted points and points with other indices are unchanged. |
| Junctions.Junctioned | SplineTool/Assets/SplineTool/Splines/SplineComponent.cs:383-389 | The collected ids are exactly the points on some spline with a non-negative index. |
| Junctions.JunctionedOf | SplineTool/Assets/SplineTool/Splines/SplineComponent.cs:384-388 | The ids of one spline with a non-negative index. |
| Junctions.InsertByIndex | SplineTool/Assets/SplineTool/Splines/SplineComponent.cs:390 | Inserting into a list sorted by index keeps it sorted and adds exactly the one id (as a multiset). |
| Junctions.SortByIndex | SplineTool/Assets/SplineTool/Splines/SplineComponent.cs:390 | The result is sorted by index and is a permutation of the input. |
| Components.SplineComponent.constructor | SplineTool/Assets/SplineTool/Splines/SplineComponent.cs:32-38 | Reset: one spline with the two initial points at forward, and an empty junction list. |
| Components.SplineComponent.GetSpline | SplineTool/Assets/SplineTool/Splines/SplineComponent.cs:65-72 | Returns the first spline containing the point, or -1 exactly when no spline contains it. |
| Components.SplineComponent.GetIndex | SplineTool/Assets/SplineTool/Splines/SplineComponent.cs:75-77 | Returns the first position of the point in the spline, or -1 exactly when it is absent. |
| Components.SplineComponent.PointCount | SplineTool/Assets/SplineTool/Splines/SplineComponent.cs:85-87 | The number of points, at least two in a valid component. |
| Components.SplineComponent.GetConnectedIndex | SplineTool/Assets/SplineTool/Splines/SplineComponent.cs:114-124 | The point's junction index. In a grouped list a listed point's index is a list position at or before its own entry. |
| Components.SplineComponent.GetConnectionPointCount | SplineTool/Assets/SplineTool/Splines/SplineComponent.cs:146-154 | The counting loop returns RunLength. |
| Components.SplineComponent.GetIndexInConnection | SplineTool/Assets/SplineTool/Splines/SplineComponent.cs:157-159 | For an unlisted point the result is -1 - index. In a grouped list a listed point's result lies inside its run. |
| Components.SplineComponent.GetConnectedPoint | SplineTool/Assets/SplineTool/Splines/SplineComponent.cs:127-136 | Returns the entry offset places away when it is in range and has the same index, and the point itself otherwise. The result is always listed with the same index. |
| Components.SplineComponent.SetAnchorPosition | SplineTool/Assets/SplineTool/Splines/SplineComponent.cs:178-197 | The fan-out loop leaves the points as MovedAnchors says. Lists and splines are unchanged. |
| Components.SplineComponent.ScaleConnection | SplineTool/Assets/SplineTool/Splines/SplineComponent.cs:238-254 | The scale is clamped, then the loop leaves the points as ScaledConnection says. |
| Components.ScaleListed | SplineTool/Assets/SplineTool/Splines/SplineComponent.cs:244-249 | The loop over the junction list leaves the points exactly as ScaledConnection says. |
| Components.SplineComponent.ConnectPoints | SplineTool/Assets/SplineTool/Splines/SplineComponent.cs:267-285 | The new state is Connect's registry, or is unchanged when the insertion fails. |
| Components.SplineComponent.AddSpline | SplineTool/Assets/SplineTool/Splines/SplineComponent.cs:301-306 | A spline of two fresh points is appended, starting at the given point's anchor. The points and junction list become Connect's registry for the given point and the new first point, or stay as they were after adding the two points when the insertion fails. Every other existing point is unchanged. When the connect succeeds, the new first point shares the given point's junction index. It always succeeds when that index is within the list. |
| Components.SplineComponent.CountMembers | SplineTool/Assets/SplineTool/Splines/SplineComponent.cs:317-324 | The loop counts Members and remembers the last one. |
| Components.SplineComponent.LeaveJunctionOf | SplineTool/Assets/SplineTool/Splines/SplineComponent.cs:312-331 | The registry becomes LeaveJunction of the old one. |
| Components.SplineComponent.DissolveIfSole | SplineTool/Assets/SplineTool/Splines/SplineComponent.cs:326-330 | A junction with exactly one listed member left is dissolved; otherwise nothing changes. |
| Components.SplineComponent.RemovePoint | SplineTool/Assets/SplineTool/Splines/SplineComponent.cs:308-344 | As written: the point leaves its junction and its spline. The outcome is a table fault exactly when the spline had two points. |
| Components.SplineComponent.RemovePointCascading | SplineTool/Assets/SplineTool/Splines/SplineComponent.cs:308-344 | As intended: a spline left with one point also loses that point from its junction and is deleted. Every spline keeps at least two points. |
| Components.SplineComponent.RemoveSpline | SplineTool/Assets/SplineTool/Splines/SplineComponent.cs:346-349 | The spline is removed; points and junction list are unchanged. |
| Components.SplineComponent.CollectJunctioned | SplineTool/Assets/SplineTool/Splines/SplineComponent.cs:384-388 | The inner collection loop computes JunctionedOf. |
| Components.SplineComponent.OnAfterDeserialize | SplineTool/Assets/SplineTool/Splines/SplineComponent.cs:377-391 | The rebuilt list is sorted by index and is a permutation of the collected points. An id is listed exactly when it is on a spline with a non-negative index. |

## Left out

- Unity transforms (`TransformPoint`, `InverseTransformPoint`, `TransformDirection`) are treated as the identity. Component getters that only wrap a transform around a spline call (`GetPoint`, `GetDirection`, `GetHandle`, `GetArcLength` on the component) are not modelled separately.
- Rotations and angles are not modelled: `GetRotation`, `SetRotation`, `GetUp`, `RotateConnection`, `GetEulerAngles`, and the legacy `GetHandleRotation` and `SetHandleRotation`. They are quaternion and trigonometric floating-point geometry with no exact statement to make.
- Generated scene content, spline settings, names and active-asset flags are not modelled. This covers `UpdateSpline`'s regeneration, `ResetGeneratedContent`, `AddGeneratedBranch`, `RemoveGeneratedBranch`, `SetSettings`, `SetSplineName` and similar. Persistence (`SaveInfo`, `LoadInfo`, JSON and XML import and export) is file I/O and is not modelled either.
- The component keeps no arc-length tables. The table rebuild `UpdateSpline` triggers is modelled on `Splines.Spline`. The one place it matters to the component, a spline left with fewer than two points, is reported as the `TableFault` outcome of `RemovePoint`.
- The component's delegating setters (`SetHandleMagnitude`, `SetHandlePosition`, `SetMode`, `InsertControlPoint`, `AddControlPoint` on the component) are not modelled separately. They only call the modelled `ControlPoint` and `Spline` methods on one point or spline, then regenerate content.
- Floating point is modelled as exact reals, so `float` rounding and the arc-length accuracy are not modelled.
- Vector length, `normalized` and Bezier evaluation are uninterpreted. The only fact assumed is that a length is never negative.
- Point objects are modelled as ids in an arena, so aliasing between the junction list and the splines is by id. `List.Remove` on a point object removes the first occurrence of its id.
- Components.SplineComponent.GetConnectedIndex: requires the spline and point indices in range. Out of range, the `List<T>` indexer throws `ArgumentOutOfRangeException`, which the `catch` for `IndexOutOfRangeException` does not handle, so the source never returns its `-1` fallback. The throw is not modelled.
- Components.SplineComponent.GetIndex, Components.SplineComponent.PointCount, Components.SplineComponent.GetIndexInConnection, Components.SplineComponent.SetAnchorPosition, Components.SplineComponent.ScaleConnection, Components.SplineComponent.AddSpline, Components.SplineComponent.RemovePoint, Components.SplineComponent.RemovePointCascading and Components.SplineComponent.RemoveSpline: require their spline and point indices in range. Where the source would throw `ArgumentOutOfRangeException` from a `List<T>` indexer, the throw is not modelled.
- Components.SplineComponent.CountMembers: `lastPoint` starts as id 0 where the source starts it as `null`. It is read only when the count is positive.
- Junctions.SortByIndex: `List.Sort` is not stable, so only sortedness by index and being a permutation are stated, not the order among equal indices.
- Junctions.ClampScale: the three-iteration clamping loop over vector components is written as one expression per component.
- Splines.Spline.ResetArcLengthTable: requires at least two points, because with one point the source reads the table at index -1 (Spline.cs:160).
- Splines.Spline.RemoveControlPoint: requires more than two points when the point is present, for the same table read.
- Splines.Spline.GetArcPos: requires t ≥ 0, because a negative distance makes the source read the table at index -1 (Spline.cs:122).
- Splines.Spline.InsertControlPoint: requires `index` to name an existing point, because both branches of the source read `points[index]` and throw otherwise.
- ControlPoints.HandleIndex: handle indices are the subset type 0..1, so the `IndexOutOfRangeException` the source's handle array throws for any other index is not modelled. The same holds for LegacyControlPoints.HandleIndex.
- Splines.Spline.InsertControlPoint: index 0 uses the factor `5f` for the new point's direction, where `AddControlPoint` uses `.5f`. It is modelled as written.
- Components.SplineComponent.GetConnectedPoint: requires the point to be listed, because otherwise the source reads the list at index -1.
- Components.SplineComponent.GetConnectionPointCount: requires a non-negative index, because the source indexes the list at it.
- Splines.Spline.constructor: the spline name derived from the index is not modelled.

## Findings

| source | as written | input that shows it | evidently intended | confidence | as-written member | corrected member |
|---|---|---|---|---|---|---|
| SplineTool/Assets/SplineTool/Splines/SplineComponent.cs:332-343 | `RemovePoint` calls `RemoveControlPoint` before the cascade. With one point left, `ResetArcLengthTable` reads table index -1 (Spline.cs:160) and throws, so the cascade that removes the last point and the spline never runs. | `RemovePoint(s, 0)` on a spline with exactly two points | A spline left with one point loses it as well, and the spline is removed | high, not executed | Components.SplineComponent.RemovePoint | Components.SplineComponent.RemovePointCascading |
| SplineTool/Assets/SplineTool/Splines/SplineComponent.cs:271-278 | `ConnectPoints` inserts at a junction's start without raising the indices of the junctions behind it, so they no longer start at their index. | Junctions {0,1} at index 0 and {2,3} at index 2, list [0,1,2,3]; connect free point 4 to point 0. `GetConnectionPointCount(2)` then returns 0 instead of 2. | Later junction indices move up by one, keeping each junction's run at its index | high, not executed | Junctions.ConnectBreaksGrouping | Junctions.ConnectRenumbered |
| SplineTool/Assets/SplineTool/Splines/SplineComponent.cs:312-331 | `RemovePoint` removes list entries without lowering later junction indices, although the comment at :316 says indices are updated. A stale index can equal the list length, which `ConnectPoints` hands to the next pair of free points, merging two junctions. | Same list; remove point 1. The list becomes [2,3] with both still at index 2, so the count for 2 is 0, and the next two free points connected also get index 2. | Later junction indices move down with each removed entry | high, not executed | Junctions.LeaveBreaksGrouping | Junctions.LeaveRenumbered |
