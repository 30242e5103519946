# GUI layout and ownership core, in Dafny

This project models the layout and ownership core of a small SDL-based C++ GUI
library. The core has four parts.

- **Relative geometry.** `GUIPosition`, `GUISize` and `GUIRect` describe a
  place relative to a parent rectangle, as an anchor (a fraction of the
  parent's size) plus an offset. The helpers in `Lerp.hpp` interpolate, invert,
  remap and clamp.
- **The container tree.** `IContainer`, and its template twin `Groupable<T>`,
  keep every container's `parent` pointer consistent with its parent's child
  list. The kind-specific hooks come from three kinds of container:
  - the default leaf;
  - `ContainerGroup`;
  - the single handle slot of `FloatSlider`, `IntSlider` and `Toggle`.

  `SetParentShape` hands each child the rectangle it lays itself out in.
- **Widget state machines.** These are:
  - the `Toggle` animation counter and its click handler;
  - the press, release and drag machine of the two sliders;
  - the `ContainerLimiter` minimum-width rule.
- **Registries.** Two static registries:
  - `IRenderable` keeps a map from render order to the renderables of that
    order, read by `RenderAllGUI`;
  - `IUpdateable` keeps a vector read by `UpdateAll`.

How the model represents these:

- **Coordinates** are `real`.
- **The container tree** is an arena, `map<Id, Node>`.
  - A `shared_ptr` becomes an id, and `nullptr` becomes `None`.
  - The `NOT_FOUND` sentinel `~(size_t)0` of `ChildPosition` becomes `None`.
  - Each node also records the last parent rectangle `SetParentShape` gave it, as `parentShape`. The release build does not store it (the source keeps `parent_shape` only under `DEBUG_GUI_CONTAINERS`); the model keeps it so that the layout a call produces can be stated about the arena.
- **Widgets** are classes whose fields are the widget's fields.
  - A hit test (`FRect::contains`) is a boolean input.
  - The cursor offset the slider keeps from the click is a `grab` parameter.
- **Registries** are classes over maps and sequences of ids.
  - A call to `RenderGUI` or `Update` is represented by the sequence of ids it is made on, in call order.

The modules are:

- `Wrappers` (`wrappers.dfy`): `Option`.
- `Geometry` (`geometry.dfy`): points, rectangles and `GUI.hpp`'s relative types.
- `Interpolation` (`lerp.dfy`): `Lerp.hpp`.
- `Containers` (`containers.dfy`): the tree protocol, the hooks, and the `Arena` class.
- `Widgets` (`widgets.dfy`): `Toggle`, `FloatSlider`, `IntSlider` and `ContainerLimiter`.
- `Registries` (`registries.dfy`): `IRenderable` and `IUpdateable`.

## Model

| member | source | states |
|---|---|---|
| Geometry.PositionGetCorners | GUI/GUI.hpp:21-24 | The zero anchor with the zero offset resolves to the parent's origin. Anchor (1,1) resolves to the parent's far corner. |
| Geometry.SizeGetIgnoresParentPos | GUI/GUI.hpp:88-91 | A resolved size does not depend on where the parent is. |
| Geometry.SizeGetFull | GUI/GUI.hpp:88-91 | Anchor (1,1) with zero offset resolves to the parent's size. |
| Geometry.RectOperatorsAct | GUI/GUI.hpp:162-189 | Shifting a rectangle by a position moves only its resolved corner, by that position's resolved offset from the parent origin. Growing it by a size changes only its resolved size, by the resolved size. |
| Geometry.ScalarAffine | GUI/GUI.hpp:21-24 | The resolving map is affine: the resolution of a+(b-a)t is the interpolation of the resolved ends. Stated here for one coordinate. |
| Geometry.PositionGetAffine | GUI/GUI.hpp:21-44 | Resolving `a + (b - a) * t` equals interpolating the resolved `a` and `b` by `t`. |
| Geometry.SizeGetAffine | GUI/GUI.hpp:88-111 | The same affine law for sizes. |
| Geometry.PositionAddAssign | GUI/GUI.hpp:46-51 | `+=` produces the value of the binary `+`. |
| Geometry.PositionSubAssign | GUI/GUI.hpp:53-58 | `-=` produces the value of the binary `-`. |
| Geometry.PositionScaleAssign | GUI/GUI.hpp:60-65 | `*=` produces the value of the binary `*`. |
| Geometry.PositionDivAssign | GUI/GUI.hpp:67-72 | `/=` produces the value of the binary `/`, for a non-zero factor. |
| Geometry.SizeAddAssign | GUI/GUI.hpp:113-118 | `+=` on sizes equals the binary form. |
| Geometry.SizeSubAssign | GUI/GUI.hpp:120-125 | `-=` on sizes equals the binary form. |
| Geometry.SizeScaleAssign | GUI/GUI.hpp:127-132 | `*=` on sizes equals the binary form. |
| Geometry.SizeDivAssign | GUI/GUI.hpp:134-139 | `/=` on sizes equals the binary form, for a non-zero factor. |
| Geometry.RectAddPositionAssign | GUI/GUI.hpp:191-195 | A rectangle's `+=` with a position equals its binary form. |
| Geometry.RectSubPositionAssign | GUI/GUI.hpp:197-201 | A rectangle's `-=` with a position equals its binary form. |
| Geometry.RectAddSizeAssign | GUI/GUI.hpp:203-207 | A rectangle's `+=` with a size equals its binary form. |
| Geometry.RectSubSizeAssign | GUI/GUI.hpp:209-213 | A rectangle's `-=` with a size equals its binary form. |
| Interpolation.Clamp01 | GUI/Lerp.hpp:55-79 | The clamped parameter lies in [0,1], and a parameter already in [0,1] is unchanged. |
| Interpolation.LerpEndpoints | GUI/Lerp.hpp:38 | Real Lerp gives `min` at t = 0 and `max` at t = 1. |
| Interpolation.LerpBetween | GUI/Lerp.hpp:38 | For t in [0,1], real Lerp stays between the two ends, whichever end is larger. |
| Interpolation.LerpBetweenRising | GUI/Lerp.hpp:38 | The rising case of LerpBetween. |
| Interpolation.LerpBetweenFalling | GUI/Lerp.hpp:38 | The falling case of LerpBetween. |
| Interpolation.LerpClampedSaturates | GUI/Lerp.hpp:55-79 | LerpClamped is Lerp of the clamped parameter. It is `min` for t <= 0 and `max` for t >= 1, and it stays between the ends. |
| Interpolation.RoundIsNearest | GUI/Lerp.hpp:34 | The model of `std::round` is within one half of its argument, with ties going away from zero. |
| Interpolation.RoundOfInteger | GUI/Lerp.hpp:34 | Rounding an integer gives that integer. |
| Interpolation.RoundMonotone | GUI/Lerp.hpp:34 | Rounding is monotone. |
| Interpolation.LerpIntWithin | GUI/Lerp.hpp:32-35 | For t in [0,1] and min <= max, integer Lerp lies in [min, max]. |
| Interpolation.LerpIntEndpoints | GUI/Lerp.hpp:32-35 | Integer Lerp and LerpClamped give `min` at t = 0 and `max` at t = 1. |
| Interpolation.LerpClampedIntSaturates | GUI/Lerp.hpp:55-79 | Integer LerpClamped is integer Lerp of the clamped parameter, and saturates at both ends. |
| Interpolation.PositionLerpEndpoints | GUI/Lerp.hpp:42-53 | Lerp of relative positions gives the ends at 0 and 1. |
| Interpolation.PositionGetLerp | GUI/Lerp.hpp:42-79 | Resolving commutes with Lerp and with LerpClamped. Toggle relies on this when it interpolates its relative and absolute handle positions side by side. |
| Interpolation.InverseLerpClamped | GUI/Lerp.hpp:97-100 | For min != max, the scalar clamped inverse lies in [0,1]. |
| Interpolation.InverseLerpRoundTrip | GUI/Lerp.hpp:102-105 | For min != max, InverseLerp undoes Lerp, and Lerp undoes InverseLerp. |
| Interpolation.InverseLerpClampedOfLerp | GUI/Lerp.hpp:97-100 | For t in [0,1], the clamped inverse of Lerp(t) is t. |
| Interpolation.DotSelfPositive | GUI/Lerp.hpp:81-95 | A non-zero direction has a positive squared length, so the 2-D inverse is defined. |
| Interpolation.InverseLerpClamped2D | GUI/Lerp.hpp:81-87 | For distinct ends, the 2-D clamped inverse lies in [0,1]. |
| Interpolation.InverseLerp2DOnSegment | GUI/Lerp.hpp:81-95 | The 2-D inverse is 0 at `min`, 1 at `max`, and `t` at Lerp(t). When t is in [0,1], so is the clamped form. |
| Interpolation.MapRangeEnds | GUI/Lerp.hpp:129-139 | MapRange sends `min_in` to `min_out` and `max_in` to `max_out`. MapRangeClamped stays between the output ends. |
| Interpolation.MapRangeToPositionEnds | GUI/Lerp.hpp:129-133 | MapRange onto relative positions sends the input ends to the output ends. |
| Interpolation.ClampInt | GUI/Lerp.hpp:5-15 | As written: x lies in [min.x, max.x], y is only bounded above. |
| Interpolation.ClampPoint | GUI/Lerp.hpp:17-27 | As written: x lies in [min.x, max.x], y is only bounded above. |
| Interpolation.ClampYEscapes | GUI/Lerp.hpp:13 | Concrete inputs whose y leaves [min.y, max.y], for both overloads, and a y that is moved although it is in range. |
| Interpolation.ClampPointFixed | GUI/Lerp.hpp:17-27 | Corrected clamp: both coordinates lie in the box, and a point inside the box is unchanged. |
| Interpolation.ClampIntFixed | GUI/Lerp.hpp:5-15 | Corrected clamp for integer points, with the same two guarantees. |
| Interpolation.ClampFixedAgreesOnX | GUI/Lerp.hpp:24 | The corrected clamp agrees with the written one on x, and is idempotent. |
| Containers.NumChildren | GUI/Groupable.hpp:5-14 | A leaf has no children. A slot has at most one child, and has one exactly when it holds a handle. A group has as many as its vector. |
| Containers.Find | GUI/GUIElements.hpp:837-841 | The first index that holds the child, or not found exactly when the child is absent. |
| Containers.ChildPosition | GUI/GUIElements.hpp:141-178 | The position is a valid index that holds the child, and not found means absent. A leaf never finds a child. A slot finds a child, at 0, exactly when it is the held handle. |
| Containers.AddHook | GUI/GUIElements.hpp:818 | `_AddChild` succeeds exactly for a group or an empty slot, and then appends the child. On failure the kind is unchanged. |
| Containers.RemoveHook | GUI/GUIElements.hpp:819 | `_RemoveChild(i)` takes out index i and shifts the later children down. The count drops by one. |
| Containers.ClearHook | GUI/GUIElements.hpp:820-828 | `_ClearChildren` leaves no children and keeps the kind's sort. |
| Containers.Prefix | GUI/GUI.hpp:296-311 | The first n children, which is the state DeleteTree passes through. |
| Containers.RemoveLastOfPrefix | GUI/GUI.hpp:303-306 | Removing the last of the first n+1 children leaves the first n. So each DeleteTree step lowers NumChildren by one. |
| Containers.FindUnique | GUI/GUI.hpp:262-270 | In a list without duplicates, the child at index i is found at i. |
| Containers.EraseNoDuplicates | GUI/GUIElements.hpp:819 | Erasing an index keeps the list free of duplicates and removes exactly that child. |
| Containers.ParentIffFound | GUI/GUI.hpp:220-229 | In a consistent arena, `c.parent == p` exactly when `p.ChildPosition(c)` is found. |
| Containers.DetachCorrect | GUI/GUI.hpp:272-279 | RemoveChild(child) keeps the arena consistent. The child loses its parent, no one holds it any more, and only its former parent's list changes. |
| Containers.DetachFrame | GUI/GUI.hpp:272-279 | What detaching changes, node by node. |
| Containers.DetachRanked | GUI/GUI.hpp:272-279 | Detaching keeps an acyclicity witness valid. |
| Containers.AttachLinked | GUI/GUI.hpp:241-259 | Offering a detached child to `_AddChild` keeps the arena consistent, whichever way the hook decides. |
| Containers.AddChildCorrect | GUI/GUI.hpp:231-260 | AddChild(null) is false with no effect. Re-adding a current child is true with no effect. Otherwise the result is true exactly when the hook accepts. On success the child's parent is this container, the child is found here, and its list is the old list plus the child. On failure the child has no parent and nobody holds it. Either way no other container still holds it. |
| Containers.ClearedCorrect | GUI/GUI.hpp:290-294 | ClearChildren keeps the arena consistent and leaves NumChildren() == 0. Every former child is parentless. Clearing is idempotent, and changes nothing on a childless container. |
| Containers.ClearedTwice | GUI/GUI.hpp:290-294 | ClearChildren is idempotent. |
| Containers.ClearedRanked | GUI/GUI.hpp:290-294 | Clearing keeps an acyclicity witness valid. |
| Containers.Arena.constructor | GUI/GUI.hpp:318 | An empty arena is consistent. |
| Containers.Arena.Create | GUI/GUI.hpp:318 | A new container has no parent and no children, and the arena stays consistent. |
| Containers.Arena.Destroy | GUI/GUI.hpp:319-323 | A parentless container's destructor first clears its children and then leaves the arena, as the widget destructors do before the IContainer asserts. |
| Containers.Arena.GetChild | GUI/GUI.hpp:262-270 | For i < NumChildren(): the child at index i, not this container, found at i, with this container as parent. |
| Containers.Arena.AddChild | GUI/GUI.hpp:231-260 | The result and new arena are AddChildOutcome's, so AddChildCorrect's guarantees hold for them. |
| Containers.Arena.RemoveChild | GUI/GUI.hpp:272-279 | The arena becomes `Detach(old, child)`. |
| Containers.Arena.RemoveChildAt | GUI/GUI.hpp:281-288 | RemoveChild(index) detaches the child at that index. |
| Containers.Arena.ClearChildren | GUI/GUIElements.hpp:820-828 | The arena becomes `Cleared(old, p)`, covering every kind's `_ClearChildren`. |
| Containers.Arena.ClearParents | GUI/GUIElements.hpp:822-825 | The loop clears exactly the listed children's parent pointers. |
| Containers.Arena.DeleteTree | GUI/GUI.hpp:296-311 | DeleteTree(null) changes nothing. Otherwise the root ends childless, every former descendant ends parentless and childless, and every other node is unchanged. The loop invariant is that the root holds exactly its first `num` children. |
| Containers.DeletingDone | GUI/Groupable.hpp:83-98 | When the count reaches zero, the loop's state is DeleteTree's end state. |
| Containers.DeleteStep | GUI/Groupable.hpp:91-96 | One turn of the countdown, which removes the last child and deletes its subtree, keeps the loop invariant with one fewer child. |
| Containers.DeleteStepClosed | GUI/GUI.hpp:303-309 | Adding a deleted child's subtree keeps the visited set closed under the old child lists. |
| Containers.Arena.SetCursor | GUI/GUIElements.hpp:746-751 | A slotted widget's new cursor is recorded in its slot and nothing else changes. The links are kept, and the handle's frame keeps its size and moves to the cursor. |
| Containers.Arena.SetParentShape | GUI/GUIElements.hpp:852-863 | The node records the new parent rectangle. Every descendant records the rectangle its parent now hands it. Only recorded rectangles change, and only those of this subtree. |
| Containers.Arena.LayOutChild | GUI/GUIElements.hpp:859-862 | One turn of the group's layout loop: after it, the first i+1 children and their subtrees are laid out. |
| Containers.LayStep | GUI/GUIElements.hpp:859-862 | Laying out child i after the first i keeps the layout invariant. |
| Containers.LayingDone | GUI/GUIElements.hpp:852-863 | When every child is laid out, the node's subtree is laid out. |
| Containers.OnlyParentShapesLinked | GUI/GUI.hpp:327-337 | Changing only recorded rectangles keeps consistency, the acyclicity witness and subtree closure. |
| Widgets.ToggleStep | GUI/GUIElements.hpp:738-745 | When on, the counter rises by dT and saturates at `scroll_time`. When off, it falls by dT and saturates at 0. It stays within [0, scroll_time]. |
| Widgets.Fraction | GUI/GUIElements.hpp:747-748 | `_t / scroll_time` lies in [0,1]. It is 0 exactly at 0 and 1 exactly at `scroll_time`. |
| Widgets.ToggleStepCompose | GUI/GUIElements.hpp:738-745 | Two updates by a and b equal one update by a+b. |
| Widgets.ToggleRun | GUI/GUIElements.hpp:719-752 | Any run of updates keeps the counter within `scroll_time`. |
| Widgets.ToggleRunIsOneStep | GUI/GUIElements.hpp:738-745 | A run of updates equals one update by their total time. |
| Widgets.ToggleArrives | GUI/GUIElements.hpp:738-748 | Once enough time has passed, the counter reaches its end and the handle sits at `on_position` or `off_position`. |
| Widgets.ToggleHalfWay | GUI/GUIElements.hpp:698 | With `scroll_time` 500, turned on from 0: 250 ms reaches 250 and half way, a further 250 reaches 500, and 500 then holds. |
| Widgets.Toggle.constructor | GUI/GUIElements.hpp:689-699 | The handle starts at `on_pos` or `off_pos` according to `state`, and `_t` starts at `scroll_time` or 0. |
| Widgets.Toggle.SetParentShape | GUI/GUIElements.hpp:706-717 | The toggle's own shape is resolved against the parent, and every absolute point agrees with it. The handle is handed HandleFrame. |
| Widgets.Toggle.Update | GUI/GUIElements.hpp:719-752 | With no scroll time, `_t` is 0 and the handle snaps to the end that `state` selects. Otherwise `_t` takes one saturating step. The handle stays on its track at `LerpClamped(_t / scroll_time)`, and the absolute positions stay in step. |
| Widgets.Toggle.Notify | GUI/GUIElements.hpp:799-808 | The state flips exactly for the configured button inside the click area. |
| Widgets.ToggleFrameIsSlotFrame | GUI/GUIElements.hpp:716 | The rectangle Toggle hands its handle is the slot kind's Frame in the container model. |
| Widgets.SliderArea | GUI/GUIElements.hpp:190-194 | The track area spans the handle rectangle swept from the min end to the max end. |
| Widgets.FloatSlider.GetValueNorm | GUI/GUIElements.hpp:265 | The norm is the parameter at which Lerp gives the current value. |
| Widgets.FloatSliderFrameIsSlotFrame | GUI/GUIElements.hpp:196 | The rectangle FloatSlider hands its handle is the slot kind's Frame in the container model, with the slider's cursor as the slot's cursor. |
| Widgets.FloatSlider.constructor | GUI/GUIElements.hpp:245-258 | The handle starts where `MapRange` puts the initial value. |
| Widgets.FloatSlider.SetParentShape | GUI/GUIElements.hpp:180-201 | The own shape is resolved, and every absolute point and rectangle agrees with it. |
| Widgets.FloatSlider.SetFromNorm | GUI/GUIElements.hpp:278-288 | The value becomes Lerp(t), so its norm is t, and the handle moves to position Lerp(t). |
| Widgets.FloatSlider.SetFromPosition | GUI/GUIElements.hpp:290-293 | The norm becomes the clamped 2-D inverse of the grabbed point, so the value stays between the ends. |
| Widgets.FloatSlider.Notify | GUI/GUIElements.hpp:321-360 | A wrong button does nothing. A release clears `is_clicked` and ends a drag the click started. A press on the handle, or inside the track with `click_warp`, sets `is_clicked` and starts the drag. A warp press sets the norm from the click. Anything else leaves the value alone. |
| Widgets.FloatSlider.MouseMotion | GUI/GUIElements.hpp:377-380 | While dragging, the norm follows the pointer. Otherwise nothing moves. |
| Widgets.TruncDiv | GUI/GUIElements.hpp:502 | C++ integer division, which truncates toward zero. |
| Widgets.IntValueNormCollapses | GUI/GUIElements.hpp:502 | As written, every value below `max` has norm 0.0. For example 5 in 0..10 gives 0.0, against the intended 0.5. |
| Widgets.IntValueNorm | GUI/GUIElements.hpp:502 | The corrected norm is the parameter at which Lerp gives the value, and lies in [0,1] for a value in range. |
| Widgets.IntNormNear | GUI/GUIElements.hpp:515-525 | After rounding, the norm of the value is within half a step of the parameter it came from. |
| Widgets.IntSlider.Snapped | GUI/GUIElements.hpp:613-620 | The resting handle position is where the value maps, and is the min or max end at those values. |
| Widgets.IntSlider.GetValueNorm | GUI/GUIElements.hpp:502 | Using the corrected norm, Lerp of the norm gives the current value. |
| Widgets.IntSliderFrameIsSlotFrame | GUI/GUIElements.hpp:457 | The rectangle IntSlider hands its handle is the slot kind's Frame in the container model, with the slider's cursor as the slot's cursor. |
| Widgets.IntSlider.constructor | GUI/GUIElements.hpp:482-495 | The handle starts where MapRange puts the initial value, at rest. |
| Widgets.IntSlider.SetParentShape | GUI/GUIElements.hpp:441-458 | The own shape is resolved, and every absolute point and rectangle agrees with it. |
| Widgets.IntSlider.SetFromNorm | GUI/GUIElements.hpp:515-525 | The value becomes the rounded Lerp(t) and the handle moves to Lerp(t). It stays in [min, max] for t in [0,1], and its norm is within half a step of t. |
| Widgets.IntSlider.SetFromPosition | GUI/GUIElements.hpp:527-530 | The value is the rounded Lerp of the clamped 2-D inverse of the grabbed point, so it stays in range. |
| Widgets.IntSlider.OnRelease | GUI/GUIElements.hpp:609-625 | Letting go ends the drag and snaps the handle to the position the value maps to. |
| Widgets.IntSlider.Grab | GUI/GUIElements.hpp:605-608 | Grabbing a resting handle starts the drag at the value's own norm. |
| Widgets.IntSlider.Notify | GUI/GUIElements.hpp:558-597 | The FloatSlider machine with a rounded value. A release that ends a click snaps the handle to its value. |
| Widgets.IntSlider.Release | GUI/GUIElements.hpp:562-569 | A release clears `is_clicked` and keeps the value. After a click it ends the drag, snaps the handle to its value and reports the new handle frame; otherwise nothing moves. |
| Widgets.IntSlider.Press | GUI/GUIElements.hpp:570-595 | A press sets `is_clicked` when it hits the handle, or the track with `click_warp`, and then starts a drag. Only a warp press moves the handle; the value becomes the rounded interpolation at the clamped click parameter. |
| Widgets.IntSlider.MouseMotion | GUI/GUIElements.hpp:627-630 | While dragging, the value follows the pointer through the rounded Lerp. Otherwise nothing moves. |
| Widgets.LimitShapeAsWrittenMisses | GUI/GUIElements.hpp:103 | As written the test reads the parent's width. A half-width child of a wide parent stays under the minimum, and a child widened by an offset is stretched needlessly. |
| Widgets.LimitShape | GUI/GUIElements.hpp:100-109 | Corrected rule: the width is at least the minimum. A shape already wide enough is unchanged. A narrow one is widened to exactly the minimum, keeping its height. |
| Widgets.LimitShapeGrowDirection | GUI/GUIElements.hpp:105-108 | `grow_direction.x` 1 keeps the left edge, -1 keeps the right edge, and 0 keeps the centre. |
| Widgets.LimitShapeAgreesAtFullWidth | GUI/GUIElements.hpp:103 | When the shape spans the parent's full width, the written and corrected rules agree. |
| Registries.EraseMembers | GUI/GUI.hpp:563-568 | Erasing x keeps exactly the entries other than x. |
| Registries.Erase | GUI/GUI.hpp:563-568 | The corrected removal never lengthens the list. |
| Registries.EraseContents | GUI/GUI.hpp:563-568 | Erasing x removes all of it and keeps every other entry, with its multiplicity. It keeps the list free of duplicates, and changes nothing when x is absent. |
| Registries.EraseAppend | GUI/GUI.hpp:616-619 | Erasing distributes over concatenation. |
| Registries.NoDuplicatesSnoc | GUI/GUI.hpp:554-562 | Appending a new entry keeps a list free of duplicates. |
| Registries.RemoveAsWritten | GUI/GUI.hpp:567 | `std::remove` without `erase` keeps the length: the kept entries come first and the old tail stays. If x was present, the result is not the erased list. |
| Registries.RemoveAsWrittenKeepsLast | GUI/GUI.hpp:618 | Removing the last entry as written leaves it in place. |
| Registries.RemoveAsWrittenDuplicates | GUI/GUI.hpp:618 | Removing the first of two entries as written duplicates the second. |
| Registries.ActiveContents | GUI/GUI.hpp:541-546 | A pass visits exactly the enabled entries, each as often as it is listed. |
| Registries.ActiveAppend | GUI/GUI.hpp:541-546 | The enabled entries of a concatenation are the concatenation of each part's enabled entries. |
| Registries.ActiveSnoc | GUI/GUI.hpp:541-546 | One more entry adds itself exactly when it is enabled. |
| Registries.ActiveIgnoresOthers | GUI/GUI.hpp:598-605 | The flag of an object that is not listed does not change a pass. |
| Registries.NoDuplicatesCount | GUI/GUI.hpp:554-562 | A list free of duplicates holds each entry at most once. |
| Registries.Push | GUI/GUI.hpp:554-562 | `_Add` creates the bucket if needed and appends r to it. No other bucket changes. |
| Registries.LeastExists | GUI/GUI.hpp:539 | A non-empty set of render orders has a least element, where `std::map` starts. |
| Registries.Least | GUI/GUI.hpp:539 | The least render order, which is unique. |
| Registries.AscendingConcat | GUI/GUI.hpp:539-547 | One bucket's entries drawn before those of higher orders keep the render orders ascending. |
| Registries.DrawOrderSorted | GUI/GUI.hpp:537-548 | Every drawn entry is filed under a visited order, and the drawn orders ascend. |
| Registries.DrawOrderOnce | GUI/GUI.hpp:537-548 | An entry is drawn once when enabled and filed under one of the visited orders, and otherwise never. |
| Registries.RenderOnce | GUI/GUI.hpp:537-548 | In a consistent registry, each enabled renderable is drawn exactly once, no disabled one is drawn, and orders ascend. |
| Registries.SetOrderAsWritten | GUI/GUI.hpp:511-516 | As written, SetOrder files r under its new order while the old bucket keeps its length. |
| Registries.SetOrderAsWrittenDrawsTwice | GUI/GUI.hpp:511-516 | With two renderables at order 0, moving the second to order 1 as written makes the next pass draw it twice. |
| Registries.EraseFiled | GUI/GUI.hpp:563-568 | Erasing r from its bucket keeps every other renderable filed under its order. |
| Registries.EraseFound | GUI/GUI.hpp:563-568 | After erasing, every filed entry is still a registered renderable of that order. |
| Registries.EraseKeeps | GUI/GUI.hpp:531-534 | Erasing r and forgetting it keeps the registry consistent, and r is filed nowhere. |
| Registries.PushKeeps | GUI/GUI.hpp:504-508 | Registering a new renderable and filing it keeps the registry consistent. |
| Registries.RenderRegistry.constructor | GUI/GUI.hpp:551 | The static map starts empty. |
| Registries.RenderRegistry.Add | GUI/GUI.hpp:554-562 | `_Add` appends r to the bucket of its order, leaving order and flags unchanged. |
| Registries.RenderRegistry.Remove | GUI/GUI.hpp:563-568 | The corrected `_Remove` erases r from the bucket of its order, creating that bucket empty if absent as `operator[]` does. |
| Registries.RenderRegistry.Register | GUI/GUI.hpp:504-508 | The constructor records order and flag and files r, and the registry stays consistent. |
| Registries.RenderRegistry.Unregister | GUI/GUI.hpp:531-534 | The destructor erases r from its bucket. The registry stays consistent and r is filed nowhere. |
| Registries.MoveKeeps | GUI/GUI.hpp:511-516 | Refiling a renderable under another order keeps the registry consistent. |
| Registries.RenderRegistry.SetOrder | GUI/GUI.hpp:511-516 | The corrected move: r is erased from its old bucket and joins the back of the new one. Only its order changes, and the registry stays consistent. |
| Registries.RenderRegistry.SetEnable | GUI/GUI.hpp:519-527 | Only r's flag changes, and setting the same flag is a no-op. |
| Registries.RenderRegistry.DrawBucket | GUI/GUI.hpp:541-546 | The inner loop draws exactly the bucket's enabled entries, in insertion order. |
| Registries.RenderRegistry.RenderAllGUI | GUI/GUI.hpp:537-548 | A pass draws the buckets in ascending order, each in insertion order, skipping disabled entries. In a consistent registry every enabled renderable is drawn exactly once and orders ascend. |
| Registries.UpdateAllAsWrittenTwice | GUI/GUI.hpp:618 | After unregistering the first of two updateables as written, the next pass updates the second twice. |
| Registries.UpdateAllAsWrittenDangling | GUI/GUI.hpp:618 | Unregistering the last updateable as written leaves it in the pass, although it is destroyed. |
| Registries.UpdateOnce | GUI/GUI.hpp:598-605 | In a consistent registry, each enabled updateable is updated exactly once. |
| Registries.UpdateRegistry.constructor | GUI/GUI.hpp:608 | The static vector starts empty. |
| Registries.UpdateRegistry.Register | GUI/GUI.hpp:573-576 | The constructor appends u, enabled, so u is updated last in every later pass. |
| Registries.UpdateRegistry.Unregister | GUI/GUI.hpp:578-581 | The corrected destructor erases u from the vector and forgets its flag. |
| Registries.UpdateRegistry.SetEnable | GUI/GUI.hpp:584-591 | Only u's flag changes. |
| Registries.UpdateRegistry.UpdateAll | GUI/GUI.hpp:598-605 | A pass updates the enabled updateables in registration order. In a consistent registry each is updated exactly once. |

## Left out

- Rendering: every `RenderGUI` body, the SDL renderer, and the `DEBUG_GUI_CONTAINERS` / `DEBUG_GUI_RENDER` builds are drawing calls into a library outside the model. The release layout is modelled.
- Input: registering and unregistering observers with `SDL::Input` is a foreign library. Whether the Dragger is subscribed is the `dragging` field.
- `FRect::contains`, `pointToNorm` and `normToPoint` belong to the SDL wrapper. Hit tests are boolean inputs, and the handle-relative grab offset (`click_relative`) is the `grab` point parameter.
- Floating point: `float` and `double` are `real`. The model does not capture rounding error, NaN, or which overload is selected.
- InverseLerp2D: the model divides by the squared length. The source divides by `mag()` twice, which uses `sqrt`; the two agree over the reals.
- Interpolation.InverseLerp: requires `min != max`. The source divides by zero there, and over floats that gives an infinity or NaN that the model cannot represent.
- Widgets.FloatSlider.constructor: requires `min_val != max_val`, the case in which `GetValueNorm` divides by zero.
- Widgets.IntSlider.constructor: requires `min_val != max_val`, the case in which `GetValueNorm` divides by zero.
- `Uint64` wrap-around of `scroll_time` and `_t` is not modelled. The counter never exceeds `scroll_time`, so only a `_t + dT` past 2^64 could wrap, and the code guards that comparison by subtracting first.
- `int` overflow in the integer Lerp and the cast back from `double` is not modelled.
- `shared_ptr` reference counting and the timing of destructors: ownership is arena membership, and destructor asserts are preconditions of `Arena.Destroy`.
- Containers.Arena.DeleteTree: the code never checks for cycles, so acyclicity is a precondition, through the ghost `rank` witness, rather than something proved.
- Containers.Arena.AddChild: requires the child to differ from the parent. The source's `AddChild` accepts a container as its own child, which makes a one-node cycle; the model leaves that call out rather than represent the cycle.
- Containers.Arena.SetParentShape: this also takes the acyclicity witness. A leaf's base-class loop counts down, but a leaf has no children, so the order does not matter for it.
- Groupable's `T Contents` payload is not modelled; `Groupable<T>` duplicates the IContainer protocol, and both are modelled by `Containers`.
- ContainerLimiter passes its limited rectangle on to its own `containers` vector, which is not part of the arena. Only the limiting rule is modelled.
- The simple rectangles (`FilledRect`, `BorderedRect`, `BorderedFilledRect`) only cache an absolute shape for drawing, so they are not modelled.
- Widgets.IntSlider.constructor: the `handle` parameter is dropped, because the source's constructor ignores it. FloatSlider and Toggle take no handle. In both the source and the model the handle is attached with `AddChild` (`Arena.AddChild`).
- Widgets.Toggle.Update: the arena's slot cursor is a snapshot. The widget methods return the handle's new rectangle; the caller records the widget's new cursor with `Arena.SetCursor` and lays out the handle with `Arena.SetParentShape`. The same applies to the sliders' SetFromNorm, SetFromPosition, Notify, Press, Release, OnRelease and MouseMotion.
- Widgets.FloatSlider.SetFromPosition: requires `minAbs != maxAbs`, as do FloatSlider.Notify and FloatSlider.MouseMotion on their drag or warp path, IntSlider.SetFromPosition, IntSlider.Notify, IntSlider.Press and IntSlider.MouseMotion, and InverseLerp2D. pointToNorm divides by the track's length, which is zero when the two ends coincide, and the result over floats is NaN.
- `OnEnable` and `OnDisable` are empty virtual hooks, so SetEnable only changes the flag.
- Widgets.IntSlider.SetFromNorm: requires `dragging`. The source's click-warp path calls it just before `OnClick`; the model starts the drag first (`Grab`) and then sets the value, which leaves the same final state.
- Registries: a `RenderGUI` or `Update(dT)` call is represented by the id it is made on; `dT` is passed through unchanged and is not modelled in the pass.
- Registries.RemoveAsWritten: the entries past the kept prefix are modelled as the original tail, which is what common `std::remove` implementations leave; the standard leaves them unspecified.
- Registries.RenderRegistry.SetOrder: models the corrected move, which erases r from its old bucket. The code as written is SetOrderAsWritten, whose old bucket keeps its length, and SetOrderAsWrittenDrawsTwice shows the next pass drawing r twice.
- Registries.RenderRegistry.Remove: models the corrected `_Remove` with `erase`. The written `std::remove` without `erase` is RemoveAsWritten, shown wrong by RemoveAsWrittenKeepsLast and RemoveAsWrittenDuplicates.
- Registries.UpdateRegistry.Unregister: models the corrected removal. The written one is RemoveAsWritten, and UpdateAllAsWrittenTwice and UpdateAllAsWrittenDangling show the passes that follow it.
- Widgets.IntSlider.GetValueNorm: models the corrected norm IntValueNorm, with real division. The written integer division is IntValueNormAsWritten, and IntValueNormCollapses shows every value below `max` getting norm 0.0.
- Registries.RenderRegistry.Unregister: uses the corrected removal. The pass that follows the written removal is covered by SetOrderAsWrittenDrawsTwice and by UpdateAllAsWrittenTwice.
- GUI/main.cpp builds an example window and runs the frame loop. That is I/O bootstrap, so it is not part of this model.

## Findings

| source | as written | input that shows it | evidently intended | confidence | as-written member | corrected member |
|---|---|---|---|---|---|---|
| GUI/Lerp.hpp:13 and GUI/Lerp.hpp:25 | The y component tests `value.x < min.y`. | value (5,-3), min (0,0), max (10,10) gives y = -3. | Test `value.y < min.y`, so that y lies in [min.y, max.y]. | not executed | Interpolation.ClampYEscapes | Interpolation.ClampPointFixed |
| GUI/GUI.hpp:563-568 | `_Remove` calls `std::remove` without `erase`, so the bucket keeps its length and its old tail. | Renderables 1 and 2 at order 0; SetOrder(2, 1) gives buckets {0: [1,2], 1: [2]}. The next pass draws 1, 2, 2. | Erase the removed entry, so that each enabled renderable is drawn once. | not executed | Registries.SetOrderAsWrittenDrawsTwice | Registries.RenderRegistry.SetOrder |
| GUI/GUI.hpp:616-619 | `_Remove` calls `std::remove` without `erase` on the updateables. | Updateables [u, b]; destroying u leaves [b, b], so b is updated twice. | Erase the removed entry. | not executed | Registries.UpdateAllAsWrittenTwice | Registries.UpdateRegistry.Unregister |
| GUI/GUIElements.hpp:502 | `GetValueNorm` divides two `int`s, so the quotient truncates before it becomes a `double`. | min 0, max 10, value 5 gives 0.0. | Divide as `double`, giving 0.5. | not executed | Widgets.IntValueNormCollapses | Widgets.IntValueNorm |
| GUI/GUIElements.hpp:103 | The minimum-width rule tests the parent's width instead of the limited shape's own width. | Shape of half the width, parent 200 wide, minimum 150: the test fails, and the width stays 100. | Test `_shape.w < min_size.w`; the widening already uses `_shape.w`. | not executed | Widgets.LimitShapeAsWrittenMisses | Widgets.LimitShape |
