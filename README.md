# IPlot: the XY point editor of open-stage-control, in Dafny

This project models `IPlot`, the XY coordinates plot widget of open-stage-control
(`src/client/widgets/graphs/iplot.js`), and proves properties of it. The widget shows
a series of `[x, y]` points on a canvas. The user edits the series with the pointer:
- a press picks the point under the pointer;
- shift-press inserts a point;
- ctrl-press deletes the picked point;
- a move drags the picked point between its neighbours;
- releasing commits the series to the host.

`setValue` replaces the series, patches some of its entries, or ignores its input.
The canvas drawing is not modelled.

The modules follow the widget's structure:

- `Coords` (`coords.dfy`): `clamp`, `transCoeff`, `transformCoefficients`,
  `fromLocalX/Y` and `toLocalX/Y` as functions of an explicit `Geometry`. The
  geometry holds `PXSCALE`, `cssVars.padding`, `width`, `height`, `rangeX`
  and `rangeY`. In the table below, pad is `cssVars.padding + PXSCALE` (line 105),
  the padding the transforms use (`Coords.Pad`). `transCoeff` MULTIPLIES the two interval widths instead of dividing
  them. The model keeps this as written, and `TransCoeffEndpointsIff` proves that the
  map sends the range ends to the pixel ends exactly when the range is [0, 1].
- `Space` (`space.dfy`): the converters `fromLocalSpace` and `toLocalSpace` as loop
  methods. They accept a list of pairs or a flat list, and they always return a
  flat list. Both are proved against the functions `ToPixels` and `ToLogical`.
- `Labels` (`labels.dfy`): the corner labels ("pips"). A range end of magnitude
  at least 1000 is shown in thousands with a "k".
- `Gesture` (`gesture.dfy`): the pointer state machine over `value`, `hit`, `x0`
  and `y0`, written as state functions, with the lemmas about it.
- `Intake` (`intake.dfy`): what `setValue` does with already-parsed input.
- `Widget` (`widget.dfy`): the class `IPlot`. Its fields are updated in place by
  `DragInit`, `Drag`, `DragEnd` and `SetValue`, which use loops that mirror the
  source's. Each method's postcondition ties the new state to the `Gesture` or
  `Intake` function for the old state. Host effects are recorded in ghost fields:
  - `pendingDraw` for `batchDraw`;
  - `sent` and `synced` for `sendValue` and `changed`.

The code departs from an idealised point editor in three ways, and the model follows the code:
- The hit test keeps the LAST point within the radius, not the nearest.
  `dmem = 16` is re-declared on every pass of the loop.
- Shift-insert ignores an earlier hit. When no point lies at or right of the
  pointer, it does nothing: it does not append, and it does not move the anchor.
- A drag that would leave the neighbour interval is rejected, not clamped to it.
  The anchor stays where it was.

The constructor sets `hit` to -1, and so do ctrl-delete and pointer-up. A
pointer-down may still leave a stale `hit` in place. The model therefore allows any
start state whose `hit` is -1 or a valid index (`HitValid`), and proves that every
operation keeps this.

## Model

| member | source | states |
|---|---|---|
| Coords.Clamp | src/client/widgets/graphs/iplot.js:6 | the result is x, min or max; it lies in [min, max] when min <= max; it is x itself when x already lies there; a value below min goes to min even when the bounds are out of order; a value above max goes to max when min <= max |
| Coords.ClampMonotone | src/client/widgets/graphs/iplot.js:6 | clamping to a non-empty interval preserves <= |
| Coords.TransCoeff | src/client/widgets/graphs/iplot.js:91-99 | the returned map is v ↦ (c1-c0)v + c0 followed by the map of [0,1] onto [d0, d1] |
| Coords.TransCoeffEndpointsIff | src/client/widgets/graphs/iplot.js:91-99 | for c0 < c1 and d0 ≠ d1, the map sends c0 to d0 and c1 to d1 if and only if c0 = 0 and c1 = 1 |
| Coords.TransCoeffWideRangeExample | src/client/widgets/graphs/iplot.js:91-99 | with range [0,2] and target [0,10], the end 2 lands on 40, not 10 |
| Coords.TransformCoefficients | src/client/widgets/graphs/iplot.js:103-110 | no contract of its own; `Coords.CoefficientsClosedForm` gives both axes' coefficients in closed form, and `Coords.SaneSigns` their signs |
| Coords.CoefficientsClosedForm | src/client/widgets/graphs/iplot.js:103-110 | xa = (maxX-minX)(width-2pad), xm = (width-2pad)·minX + pad; for Y the target runs from height-2PXSCALE-pad down to 2PXSCALE+pad |
| Coords.FromLocalX | src/client/widgets/graphs/iplot.js:112-115 | no contract of its own; `Coords.FromLocalXIncreasingIff` proves it strictly increasing exactly when width > 2·pad, and `Coords.ToFromLocalX` that toLocalX undoes it |
| Coords.FromLocalY | src/client/widgets/graphs/iplot.js:117-120 | no contract of its own; `Coords.FromLocalYDecreasingIff` proves it strictly decreasing exactly when height > 4·PXSCALE + 2·pad, and `Coords.ToFromLocalY` that toLocalY undoes it |
| Coords.ToLocalX | src/client/widgets/graphs/iplot.js:122-125 | when xa ≠ 0, fromLocalX of the result is the given pixel |
| Coords.ToLocalY | src/client/widgets/graphs/iplot.js:127-130 | when ya ≠ 0, fromLocalY of the result is the given pixel |
| Coords.ToFromLocalX | src/client/widgets/graphs/iplot.js:112-125 | toLocalX(fromLocalX(x)) = x whenever xa ≠ 0 |
| Coords.ToFromLocalY | src/client/widgets/graphs/iplot.js:117-130 | toLocalY(fromLocalY(y)) = y whenever ya ≠ 0 |
| Coords.SaneSigns | src/client/widgets/graphs/iplot.js:103-110 | with non-empty ranges and room inside the padding, xa > 0 and ya < 0 |
| Coords.FromLocalXIncreasingIff | src/client/widgets/graphs/iplot.js:105-115 | with minX < maxX, fromLocalX is strictly increasing if and only if width > 2·pad |
| Coords.FromLocalYDecreasingIff | src/client/widgets/graphs/iplot.js:105-120 | with minY < maxY, fromLocalY is strictly decreasing if and only if height > 4·PXSCALE + 2·pad, and then fromLocalY(maxY) < fromLocalY(minY) |
| Coords.ToLocalXOrder | src/client/widgets/graphs/iplot.js:112-125 | with xa > 0, a point's pixel X is below a pixel exactly when its X is below toLocalX of that pixel |
| Coords.MidpointExample | src/client/widgets/graphs/iplot.js:103-115 | unit ranges in a 100 × 100 canvas with total padding 10 put x = 0.5 on pixel 50 |
| Space.Convert | src/client/widgets/graphs/iplot.js:132-174 | whichever the input shape, the output is the per-axis map applied to the input's flat coordinates |
| Space.ConvertPairs | src/client/widgets/graphs/iplot.js:140-144 | pushing the images of x and y pair by pair gives the mapped flattening of the pairs |
| Space.ConvertFlat | src/client/widgets/graphs/iplot.js:145-150 | stepping two at a time gives the mapped flat list |
| Space.FromLocalSpace | src/client/widgets/graphs/iplot.js:132-152 | the result is the flat pixel image of the input, for pairs and flat lists alike |
| Space.ToLocalSpace | src/client/widgets/graphs/iplot.js:154-174 | the result is the flat logical image of the input, for pairs and flat lists alike |
| Space.PixelsAt | src/client/widgets/graphs/iplot.js:145-150 | element j of the pixel image is fromLocalX of element j at even j and fromLocalY of it at odd j |
| Space.LogicalAt | src/client/widgets/graphs/iplot.js:167-172 | element j of the logical image is toLocalX of pixel j at even j and toLocalY of it at odd j |
| Space.PixelsOfPairs | src/client/widgets/graphs/iplot.js:132-152 | n pairs give 2n numbers, with out[2i] = fromLocalX(p[i].x) and out[2i+1] = fromLocalY(p[i].y) |
| Space.PixelsOfAllPairs | src/client/widgets/graphs/iplot.js:132-152 | the same layout, for all i at once |
| Space.LogicalOfPixels | src/client/widgets/graphs/iplot.js:132-174 | toLocalSpace of fromLocalSpace of a flat list gives the list back |
| Space.LogicalOfPixelPairs | src/client/widgets/graphs/iplot.js:132-174 | toLocalSpace of fromLocalSpace of pairs gives the flattened pairs |
| Labels.PipLabel | src/client/widgets/graphs/iplot.js:56-65 | a label is abbreviated if and only if the magnitude of the value is at least 1000 |
| Labels.PipLabelDenotes | src/client/widgets/graphs/iplot.js:56-65 | every label stands for its value; an abbreviated one shows magnitude ≥ 1, a plain one magnitude < 1000 |
| Labels.PipLabelExamples | src/client/widgets/graphs/iplot.js:56-65 | 1500 ↦ 1.5k, 500 and -999 stay plain, -2000 ↦ -2k |
| Labels.PipsFor | src/client/widgets/graphs/iplot.js:56-65 | each of the four labels stands for its range end, and is abbreviated with "k" exactly when that end has magnitude at least 1000 |
| Gesture.LastWhere | src/client/widgets/graphs/iplot.js:183-192 | the result is the largest passing index, or -1 exactly when none passes |
| Gesture.FirstWhere | src/client/widgets/graphs/iplot.js:196-197 | the result is the smallest passing index, or -1 exactly when none passes |
| Gesture.ScanHit | src/client/widgets/graphs/iplot.js:183-192 | no contract of its own; `Gesture.HitTestSpec` proves it is the largest index within squared pixel distance 16, or the old hit when there is none |
| Gesture.Pointed | src/client/widgets/graphs/iplot.js:205-207 | no contract of its own; `Gesture.ShiftInsertSpec` proves the inserted entry is the clamped (toLocalX, toLocalY) of the pointer, and `Gesture.PointedBetween` that its X lies between the entries around the insertion index |
| Gesture.Candidate | src/client/widgets/graphs/iplot.js:235-238 | no contract of its own; `Gesture.CandidateX` proves it is the held point moved by dx / xa and dy / ya |
| Gesture.DragAccepted | src/client/widgets/graphs/iplot.js:239-242 | no contract of its own; `Gesture.DragSpec` proves an accepted move stores the clamped candidate and a rejected one changes nothing, and `Gesture.DragScenario` gives one accepted and one rejected move |
| Gesture.AfterHitTest | src/client/widgets/graphs/iplot.js:183-192 | the hit test leaves hit at -1 or at a valid index |
| Gesture.AfterInsert | src/client/widgets/graphs/iplot.js:194-213 | shift-insert leaves hit at -1 or at a valid index |
| Gesture.AfterDelete | src/client/widgets/graphs/iplot.js:215-221 | ctrl-delete leaves hit at -1 or at a valid index |
| Gesture.AfterDragInit | src/client/widgets/graphs/iplot.js:176-227 | pointer-down leaves hit at -1 or at a valid index |
| Gesture.AfterDrag | src/client/widgets/graphs/iplot.js:229-250 | pointer-move leaves hit at -1 or at a valid index |
| Gesture.AfterDragEnd | src/client/widgets/graphs/iplot.js:252-254 | pointer-up leaves hit at -1 and keeps the series |
| Gesture.HitTestSpec | src/client/widgets/graphs/iplot.js:183-192 | if some point is within squared pixel distance 16, hit becomes the largest such index; otherwise hit is unchanged |
| Gesture.EmptyPressSpec | src/client/widgets/graphs/iplot.js:178 | pointer-down on an empty series changes nothing |
| Gesture.ShiftInsertSpec | src/client/widgets/graphs/iplot.js:194-213 | when a point lies at or right of the pointer: the length grows by 1; hit is the first such index; the new entry is the clamped (toLocalX, toLocalY) of the pointer; earlier entries stay and later ones shift by one; the anchor becomes the pointer |
| Gesture.ShiftMissSpec | src/client/widgets/graphs/iplot.js:194-213 | when every point lies left of the pointer, the series and the anchor are unchanged and only the hit test's result remains |
| Gesture.CtrlDeleteSpec | src/client/widgets/graphs/iplot.js:215-221 | with a hit, exactly that entry is removed, hit becomes -1 and the next move is a no-op; without a hit nothing changes |
| Gesture.PlainPressSpec | src/client/widgets/graphs/iplot.js:223-226 | without a single modifier, the series is kept, hit is the hit test's result and the anchor becomes the pointer |
| Gesture.CandidateX | src/client/widgets/graphs/iplot.js:235-238 | the candidate X is old x + dx / xa, and the candidate Y is old y + dy / ya |
| Gesture.DragSpec | src/client/widgets/graphs/iplot.js:229-250 | only the held entry can change; an accepted move stores the clamped candidate and moves the anchor; a rejected one, or one with no held point, changes nothing |
| Gesture.InsertKeepsOrder | src/client/widgets/graphs/iplot.js:201-207 | inserting between neighbours whose X bound the new X keeps X non-decreasing |
| Gesture.RemoveKeepsOrder | src/client/widgets/graphs/iplot.js:218 | splicing out one entry keeps X non-decreasing and every entry in range |
| Gesture.PointedBetween | src/client/widgets/graphs/iplot.js:196-207 | the clamped pointer X lies between the entries around the insertion index |
| Gesture.InsertKeepsRanges | src/client/widgets/graphs/iplot.js:205-207 | inserting an in-range point keeps every entry in range |
| Gesture.InsertKeepsOrderAndRanges | src/client/widgets/graphs/iplot.js:194-213 | shift-insert keeps the series ordered by X and in range |
| Gesture.DragInitKeepsOrder | src/client/widgets/graphs/iplot.js:176-227 | pointer-down keeps the series ordered by X and in range |
| Gesture.DragKeepsOrder | src/client/widgets/graphs/iplot.js:239-249 | pointer-move keeps the series ordered by X and in range |
| Gesture.Step | src/client/widgets/graphs/iplot.js:70-80 | one pointer event keeps hit at -1 or at a valid index |
| Gesture.Replay | src/client/widgets/graphs/iplot.js:70-80 | any sequence of pointer events keeps hit at -1 or at a valid index |
| Gesture.StepKeepsOrder | src/client/widgets/graphs/iplot.js:176-258 | one pointer event keeps the series ordered by X and in range |
| Gesture.ReplayKeepsOrder | src/client/widgets/graphs/iplot.js:176-258 | any sequence of presses, moves and releases keeps an ordered in-range series ordered and in range |
| Gesture.DragEndSpec | src/client/widgets/graphs/iplot.js:252-254 | pointer-up clears hit and keeps the series, so a later move changes nothing |
| Gesture.DragScenario | src/client/widgets/graphs/iplot.js:229-250 | in the series [[0,0],[0.5,0.8],[1,0.2]], dragging the middle point 20 pixels right stores x = 0.75, while 50 pixels would pass the right neighbour and is rejected |
| Intake.Patched | src/client/widgets/graphs/iplot.js:397-399 | a partial update keeps the series length |
| Intake.Applied | src/client/widgets/graphs/iplot.js:389-401 | no contract of its own; `Intake.AppliedWholeOrIgnored` proves an array replaces the series and ignored input keeps it, and `Intake.PatchedSpec` what an object does entry by entry |
| Intake.AppliedWholeOrIgnored | src/client/widgets/graphs/iplot.js:389-393 | an array replaces the series; any other non-object input leaves it unchanged and triggers nothing |
| Intake.PatchedSpec | src/client/widgets/graphs/iplot.js:395-401 | keys within range keep the length; each numeric key stores its value; every entry without a key is unchanged |
| Intake.OtherKeysIrrelevant | src/client/widgets/graphs/iplot.js:397-399 | keys that are not array indices have no effect on the entries |
| Intake.PatchedOneMore | src/client/widgets/graphs/iplot.js:397-399 | handling one more key extends the update applied so far by that key |
| Intake.PatchedEnds | src/client/widgets/graphs/iplot.js:397-399 | no keys handled leaves the series; all keys handled is the whole update |
| Widget.RangeOr | src/client/widgets/graphs/iplot.js:52-53 | a missing range becomes {min: 0, max: 1}; a given one is kept |
| Widget.IPlot.constructor | src/client/widgets/graphs/iplot.js:51-68 | empty series, hit = -1, anchor (-1, -1), defaulted ranges, labels from the range ends |
| Widget.IPlot.DragInit | src/client/widgets/graphs/iplot.js:176-227 | the new state is AfterDragInit of the old one; a redraw is requested exactly when the length changed |
| Widget.IPlot.PixelPoints | src/client/widgets/graphs/iplot.js:180 | the pixel list has pair i's pixel X at 2i and its pixel Y at 2i + 1 |
| Widget.IPlot.HitTest | src/client/widgets/graphs/iplot.js:183-192 | the loop leaves hit at the last index within the radius, or unchanged |
| Widget.IPlot.ShiftInsert | src/client/widgets/graphs/iplot.js:194-213 | the new state is AfterInsert of the old one; a redraw is requested exactly when a point was inserted |
| Widget.IPlot.PlacePointer | src/client/widgets/graphs/iplot.js:198-211 | the series becomes the insertion of the clamped pointer at k, hit = k, the anchor is the pointer |
| Widget.IPlot.ShiftRight | src/client/widgets/graphs/iplot.js:201-203 | the shift loop leaves the old series with entry k doubled |
| Widget.IPlot.DeleteHit | src/client/widgets/graphs/iplot.js:217-221 | the new state is AfterDelete of the old one; a redraw is requested exactly when an entry was removed |
| Widget.IPlot.Drag | src/client/widgets/graphs/iplot.js:229-250 | the new state is AfterDrag of the old one; a redraw is requested exactly when the move is accepted |
| Widget.IPlot.MovedPoint | src/client/widgets/graphs/iplot.js:235-238 | the converters' round trip yields the candidate point |
| Widget.IPlot.DragEnd | src/client/widgets/graphs/iplot.js:252-255 | hit becomes -1, the series is kept, and it is committed once to sendValue and to changed |
| Widget.IPlot.SetValue | src/client/widgets/graphs/iplot.js:381-410 | the series becomes Applied of the old one; accepted input requests a redraw and the send and sync selected by the options; ignored input triggers nothing |
| Widget.IPlot.PatchAll | src/client/widgets/graphs/iplot.js:397-399 | the key loop leaves the series patched by the whole object, whatever the key order |
| Widget.HitTestStep | src/client/widgets/graphs/iplot.js:184-191 | one pass moves hit to index k exactly when the squared pixel distance is below 16 |

## Left out

- Canvas drawing (`draw`, `draw_line`, `draw_dots`, `draw_pips`, lines 260-379) is not modelled. It consists of 2D-context calls and the `mapToScale` helper, whose source is not part of this model.
- Implicit y-only series: the gesture handlers would misread them as flat coordinates, and they are drawn only through `mapToScale`. The series holds explicit pairs only.
- `logScaleX` and `logScaleY` are left out. The transforms never use them; they are only passed to `mapToScale`.
- `JSON.parseFlex` is a foreign parser. `SetValue` takes the input already parsed: an array, an object, or anything else (a string that did not parse, null, a number).
- `SetValue`: requires every index key of a partial update to name an existing entry (`Intake.FitsWithin`). In the source, a key equal to the current length appends an entry, and a run of consecutive keys from there appends several (integer keys are visited in ascending order). A key further out leaves holes. The model excludes all of these, so growing the series through a partial update is not modelled.
- `SetValue`: requires a replacement array to still contain the held point. In the source, a shorter array would make the next move read a missing entry.
- A numeric object key that is not an array index (such as "1.5") sets a property of the array, not an element. The model treats it like a skipped key.
- `ToLocalX` and `ToLocalY` require a non-zero scale coefficient. A degenerate geometry would give Infinity or NaN in the source. So `DragInit` requires an invertible geometry when shift inserts, and `Drag` requires one when a point is held.
- Flat lists given to the converters must have even length. In the source, an odd final coordinate reads `undefined` and produces NaN.
- Arithmetic is over `real`: floating-point rounding and NaN are not modelled.
- The values of `value` are modelled as values. Aliasing is not modelled: the caller's array kept by `this.value = v`, and pairs shared between arrays that an in-place drag write would change.
- Host calls `batchDraw`, `sendValue` and `changed` appear only as the ghost fields `pendingDraw`, `sent` and `synced`. Redraw coalescing is not modelled.
- Event wiring (lines 70-80) is not modelled; `Gesture.Replay` stands in for a sequence of events. The `console.log` of line 241 is left out.
- The labels are tagged values (`Plain` or `Kilo`). Turning them into text is not modelled.
- Width, height and padding are fixed per instance. A resize by the canvas base class is not modelled.
- The `!this.value` test of line 178 is left out: the series is always a sequence.
- `src/client/widgets/scripts/script.js`, `src/client/ui/context-menu.js`, `scripts/package.js` and `src/python/list.py` are not part of this model. They are script-VM glue, DOM construction, packaging and MIDI port listing, none of which touches the editor.
