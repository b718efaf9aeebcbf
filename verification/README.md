# Precision Drawing Tools — a verified model of the core

Precision Drawing Tools (PDT) is a Blender add-on for placing the 3D cursor,
the PDT pivot point, vertices and objects at exact coordinates. This project
models the parts of the add-on that are ordinary sequential logic rather than
calls into Blender, and proves what they promise:

- the **command line** (`command_run` in `pdt_command.py`): a typed string
  such as `CD0.4,0.6,1.1` is checked letter by letter, its values are split on
  commas and normalised, value counts are checked per mode, and it is
  dispatched to the cursor, pivot, grab, new-vertex, split, extrude,
  duplicate, fillet and maths actions, each error ending in its own message;
- the **placement helpers** of `clockworxpdt/pdt_functions.py`: working-plane
  axis permutations (`setMode`, `setAxis`), selection-history queries and
  resets (`checkSelection`, `updateSel`), percentage interpolation
  (`getPercent`) and the two-line intersection in the working plane
  (`intersection`);
- the **placement and tool operators** in two revisions: the newer
  `pdt_design.py` and the older `clockworxpdt/clockworx_pdt_ui.py`. These are
  Absolute, Delta, Direction, Percent, Intersect and Arc Centre, plus Join,
  Fillet, the two measure operators, Origin to Cursor and Taper. One
  definition, parametrised by `Placement.Revision`, covers both revisions
  wherever they agree, and the branch points where they differ;
- the **pivot point** (`clockworxpdt/clockworx_pivot_point.py`): the
  show/hide toggle, scaling about the pivot, the copies between pivot and
  cursor, and storing the pivot on an object;
- the **wave generator** (`pdt_trig_waves.py`): a polyline of
  `trig_res * trig_cycles + 1` vertices with fixed spacing, absolute values
  and a clamp on tangent values;
- the **registration data** of `clockworxpdt/__init__.py`: the declared
  property bounds and enumerations, the parts-library name filter, and the
  reverse order of `unregister`.

The model is functional throughout. A `World` holds:
- the scene variables, as a `Properties.Scene` record;
- the objects, each with a location, a mode and a `BMesh.Mesh` (vertex
  coordinates, edges, a face count, selection sets and the selection
  history);
- the selected and active objects;
- the log of reports and popups the add-on shows;
- the log of host mesh operations (`HostCall`) it asks Blender for.

Every operator is a total function from a world to an `Outcome`, which holds
the new world and a status:
- `Finished`, `Cancelled` or `NoReturn`, as the Python returns them;
- or `Raised(fault)` where the Python code raises. Examples are an unbound
  local variable, a missing custom property, an index past the selection
  history, or an attribute missing on a non-vertex history element.

Several findings in the source have two readings, selected by
`World.Reading`:
- `AsWritten` models what the code does;
- `Intended` models the corrected behaviour.

Coordinates are `real`. The trigonometric and square-root functions of
Python's `math` and numpy are fields of a `Numerics` / `Measures` record
passed in, and are unconstrained unless a lemma says otherwise. The view
matrix of the "LO" (view) plane is likewise a `View` parameter.

Modules:
- `Vectors` and `Wrappers` hold vectors over `real`, axes and `Option`.
- `Text` covers the Python string handling the command line relies on:
  `split`, `in`, `strip`, `float()` and `int()`.
- `Properties` holds the scene record, enumerations, bounds, the library
  filter and registration.
- `Messages` holds the error messages as tags.
- `BMesh` is the mesh and its selection.
- `World` holds the objects, outcomes and reports.
- `Edits` and `Steps` hold the mesh edits that the operators share.
- `PdtFunctions` holds the helpers.
- `CommandLine` and `CommandLineFacts` cover the command line.
- `Placement` and `PlacementFacts` cover Absolute, Delta, Direction and
  Percent.
- `Convergence`, `Shuffles` and `ConvergenceFacts` cover Intersect and Arc
  Centre.
- `Tools` and `ToolsFacts` cover Join, Fillet, the measures, Origin and
  Taper.
- `PivotPoint` and `PivotFacts` cover the pivot point.
- `Waves` and `WavesFacts` cover the wave generator.

## Model

| member | source | states |
|---|---|---|
| CommandLine.ModeLettersAsWritten | pdt_command.py:146-162 | a mode letter passes the check exactly when it is one of a A d D e G i I p P v V x X y Y z Z — the list as the code builds it, where the adjacent literals "E" "g" fuse into one two-letter entry |
| CommandLine.ModeLettersIntended | pdt_command.py:146-162 | with the missing comma restored, the accepted mode letters are both cases of A D E G I P V X Y Z |
| CommandLine.MissingCommaDropsTwoLetters | pdt_command.py:150-151 | as written, "E" and "g" alone are refused while "e" and "G" pass; the intended list accepts "E" and "g" |
| CommandLine.JoinedLettersRefused | pdt_command.py:150-151 | neither "E" nor "g" is an accepted mode letter in the list as written |
| CommandLine.CaseMatesAccepted | pdt_command.py:150-151 | the other-case partners "e" and "G" are still accepted as written |
| CommandLine.IntendedAcceptsBoth | pdt_command.py:150-151 | the corrected list accepts "E" and "g" |
| CommandLine.LowerChar | pdt_command.py:117 | `str.lower` on one ASCII character: the capitals A–Z map to the letter 32 code points on, every other ASCII character is unchanged |
| CommandLine.Lower | pdt_command.py:117 | `str.lower` keeps the length and lowers each character independently |
| CommandLine.HelpIgnoresCase | pdt_command.py:117 | for every string, `cmd.lower() == "help"` holds exactly when it has four characters h, e, l, p, each in either case |
| CommandLine.Keep | pdt_command.py:199-205 | a field that Python's `float()` accepts is kept unchanged; any other field becomes "0" |
| CommandLine.Normalise | pdt_command.py:198-205 | normalising keeps the number of comma-separated fields |
| CommandLine.NormaliseParses | pdt_command.py:198-205 | after normalising every field is a float literal, and each field denotes the number the original denoted (0 for a non-number) |
| CommandLine.NormaliseIdempotent | pdt_command.py:198-205 | normalising an already normalised list changes nothing |
| CommandLine.Parse | pdt_command.py:115-206 | the parse result is help exactly for "?" or "help" in any case; too short exactly for other strings under 3 characters; a bad operation exactly when the first letter is not one of C D E F G N M P S V in either case; a bad mode exactly when the second letter fails the mode list; maths keeps the raw expression; X/Y/Z modes outside maths are refused; otherwise a command whose values are the normalised comma-split fields |
| CommandLine.ParseCommand | pdt_command.py:115-206 | for any operation and accepted mode outside maths and X/Y/Z, the values are exactly the normalised split of everything after the first two characters |
| CommandLine.ParseLetters | pdt_command.py:115-206 | every string of three or more characters whose first letter is an operation other than maths and whose second is an accepted mode other than X/Y/Z is a command; it is never the help request |
| CommandLine.MissingValuesAreZero | pdt_command.py:101-103 | for every command whose values leave gaps, the command parses exactly as the one with "0" written in each gap, and each gap becomes the value "0" |
| CommandLine.NumbersKeptVerbatim | pdt_command.py:198-205 | for every command whose comma-separated values are all numbers, the values reach the command exactly as typed |
| CommandLine.NormaliseKeepsFloats | pdt_command.py:198-205 | normalising a list of numbers changes nothing |
| CommandLine.DocumentedExample | pdt_command.py:103 | "CA,,3" parses exactly as "CA0,0,3" |
| CommandLine.Fail | pdt_command.py:123-126 | an error writes `pdt_error` and adds the popup, and changes no other scene variable, object, selection or host call; the command returns nothing |
| CommandLine.MathsSlot | pdt_command.py:176-189 | the maths modes with a target are exactly X Y Z D A P in either case |
| CommandLine.Store | pdt_command.py:176-187 | storing a maths result writes exactly one scene variable: delta x/y/z, distance and percent take the value, and the angle is held in its declared range [-180, 180] |
| CommandLine.RunMaths | pdt_command.py:165-191 | maths never moves an object or calls the host, and ends without a return value unless the expression evaluator raises |
| CommandLine.PlaceTarget | pdt_command.py:235-238 | placing sets the cursor (C) or the pivot (P) and leaves the other one where it was |
| CommandLine.RunCursor | pdt_command.py:226-311 | cursor and pivot commands never touch objects or the host, and with an active object never raise the unbound `obj` error |
| CommandLine.CursorFrom | pdt_command.py:251-263 | a selected-origin delta in Edit mode fails with an index error exactly when the selection history is empty |
| CommandLine.CursorPercent | pdt_command.py:289-306 | a percent placement moves the cursor or pivot only through `getPercent`, stopping without change when `getPercent` reports an error |
| CommandLine.RunGrab | pdt_command.py:313-383 | grab keeps the world valid, and with an active object never raises the unbound `obj` error |
| CommandLine.GrabVerts | pdt_command.py:315-351 | moving vertices by grab always completes |
| CommandLine.GrabObjects | pdt_command.py:315-351 | moving objects by grab always completes |
| CommandLine.GrabPercent | pdt_command.py:370-379 | grab-percent never raises the unbound `obj` error |
| CommandLine.RunNew | pdt_command.py:385-447 | new-vertex commands keep the world valid and issue no host call |
| CommandLine.RunSplit | pdt_command.py:449-558 | split commands keep the world valid, and with an active object never raise the unbound `obj` error |
| CommandLine.RunExtrudeVerts | pdt_command.py:562-642 | extrude-vertex commands keep the world valid, and with an active object never raise the unbound `obj` error |
| CommandLine.ExtrudeToPoint | pdt_command.py:565-581 | extruding to an absolute point always completes with a valid world |
| CommandLine.ExtrudeBy | pdt_command.py:582-619 | extruding by an offset always completes with a valid world |
| CommandLine.ExtrudePercent | pdt_command.py:620-636 | extruding at a percentage never raises the unbound `obj` error; without extend, an empty or non-vertex history raises an index or type error with the new vertex at the percentage point already in the mesh and nothing else changed |
| CommandLine.RunRegion | pdt_command.py:646-780 | extrude-geometry and duplicate commands keep the world valid, and with an active object never raise the unbound `obj` error |
| CommandLine.FilletSegments | pdt_command.py:807-810 | the segment count is at least 1, and any requested count of 1 or more is used unchanged |
| CommandLine.FilletProfileAsWritten | pdt_command.py:811-814 | as written, the profile is a one-element tuple exactly when the value is 0 (the only float in `range(0,1)`); every other value, 0.25 included, becomes 0.5 |
| CommandLine.FilletProfileIntended | pdt_command.py:811-814 | the intended profile is a plain value in [0, 1] that equals the requested value whenever that is in [0, 1] |
| CommandLine.RunFillet | pdt_command.py:782-826 | fillet never moves an object, issues at most one bevel call, and with an active object never raises the unbound `obj` error |
| CommandLine.Dispatch | pdt_command.py:208-826 | the per-operation dispatch ends without a return value or with a raised fault, and with an active object never raises the unbound `obj` error |
| CommandLine.RunCommand | pdt_command.py:208-826 | a validated command ends without a return value or with a raised fault |
| CommandLine.Run | pdt_command.py:78-826 | the whole command line ends without a return value or with a raised fault |
| CommandLineFacts.ShortCommandOnlySetsError | pdt_command.py:123-126 | a command shorter than 3 characters that is not "?" sets the not-enough-characters error and changes nothing else |
| CommandLineFacts.BadOperationOnlySetsError | pdt_command.py:128-145 | an operation letter outside the list sets the bad-operation error and changes nothing else |
| CommandLineFacts.CoordinateLetterRefused | pdt_command.py:193-196 | a mode X, Y or Z with any operation but maths sets the coordinate-letter error and changes nothing else |
| CommandLineFacts.MathsWritesOneVariable | pdt_command.py:165-187 | maths with a target mode stores the evaluated number in that one variable; a comma in the expression also sets the no-commas error without stopping the evaluation |
| CommandLineFacts.MathsOtherModeRefused | pdt_command.py:188-191 | maths with any other mode sets the non-valid error and stores nothing |
| CommandLineFacts.ArityErrorMovesNothing | pdt_command.py:230-233 | modes A and D need exactly 3 values, I exactly 2 and P exactly 1; otherwise the matching BAD3/BAD2/BAD1 error is set and nothing else changes |
| CommandLineFacts.CursorAbsolute | pdt_command.py:228-238 | cursor-absolute with three values puts the cursor at those values and changes nothing else |
| CommandLineFacts.RelativeDeltaAccumulates | pdt_command.py:239-250 | a relative cursor/pivot delta adds the values to the old location |
| CommandLineFacts.ModeAObjectUnbound | pdt_command.py:211-224 | as written, every operation with mode A that needs the active object, other than split, raises the unbound `obj` error |
| CommandLineFacts.UnboundAdding | pdt_command.py:385-400 | new-vertex and extrude-vertex with mode A raise the unbound `obj` error as written |
| CommandLineFacts.UnboundRegion | pdt_command.py:646-648 | extrude-geometry and duplicate with mode A raise the unbound `obj` error as written |
| CommandLineFacts.UnboundFillet | pdt_command.py:782-784 | fillet with mode A raises the unbound `obj` error as written |
| CommandLineFacts.UnboundMoving | pdt_command.py:313-336 | grab with mode A raises the unbound `obj` error as written |
| CommandLineFacts.ObjectAlwaysBound | pdt_command.py:211-224 | with the active object always looked up, no command raises the unbound `obj` error |
| CommandLineFacts.GrabPercentOb | pdt_command.py:370-379 | as written, grab-percent on an object raises the unbound `ob` error; intended, it moves the active object to the percentage point |
| CommandLineFacts.FilletEdgesRefused | pdt_command.py:146-162 | as written, "FE" is refused with the bad-mode error; the intended parse accepts it |
| PdtFunctions.SetMode | clockworxpdt/pdt_functions.py:37-46 | XY, XZ and YZ give a permutation of the three axes whose first two are the plane's letters, and the view plane gives none |
| PdtFunctions.SetModeNormal | clockworxpdt/pdt_functions.py:37-46 | the third axis of a world plane is the one normal to it |
| PdtFunctions.SetAxis | clockworxpdt/pdt_functions.py:48-61 | each taper code gives a permutation of the axes whose first and second axes are the code's letters |
| PdtFunctions.SetAxisInjective | clockworxpdt/pdt_functions.py:48-61 | distinct taper codes give distinct permutations |
| PdtFunctions.SetAxisSurjective | clockworxpdt/pdt_functions.py:48-61 | every permutation of the three axes is given by some taper code |
| PdtFunctions.HistoryCoords | clockworxpdt/pdt_functions.py:67-83 | the newest `num` history entries' coordinates, newest first, exist exactly when all are vertices |
| PdtFunctions.CheckSelection | clockworxpdt/pdt_functions.py:63-93 | a history shorter than `num` gives nothing; with enough history and a vertex last, the coordinates of the newest `num` entries, newest first (for 1 to 4); with a non-vertex last, everything deselected, the history cleared and nothing returned |
| PdtFunctions.UpdateSel | clockworxpdt/pdt_functions.py:95-108 | afterwards exactly the given vertices, edges and faces are selected, and geometry and history are unchanged |
| PdtFunctions.UpdateSelIdempotent | clockworxpdt/pdt_functions.py:95-108 | applying the same update twice is the same as once |
| PdtFunctions.UpdateSelForgetsSelection | clockworxpdt/pdt_functions.py:95-108 | the result does not depend on what was selected before |
| PdtFunctions.PercentFraction | clockworxpdt/pdt_functions.py:242-254 | the fraction is (100 - per)/100 exactly when the flip flag differs from "data is MV", and per/100 otherwise |
| PdtFunctions.PercentPointOnLine | clockworxpdt/pdt_functions.py:242-254 | the percentage point is p1 + t(p2 - p1) with t the fraction |
| PdtFunctions.PercentEndpoints | clockworxpdt/pdt_functions.py:242-254 | unflipped and not MV, 0 % gives p1 and 100 % gives p2 |
| PdtFunctions.PercentFlipCancelsMove | clockworxpdt/pdt_functions.py:242-254 | a flipped MV lands where an unflipped cursor placement does, and vice versa |
| PdtFunctions.PercentFlipIsComplement | clockworxpdt/pdt_functions.py:242-254 | flipping is the same as taking 100 - per |
| PdtFunctions.GetPercent | clockworxpdt/pdt_functions.py:212-254 | in Edit mode an error (with the pdt_error set) exactly unless two vertices are selected; in Object mode exactly unless two objects are selected; other modes raise the unbound `p2`, the left operand of `p2-p1` (pdt_functions.py:243); a success is the percentage point between the two |
| PdtFunctions.Meet2 | clockworxpdt/pdt_functions.py:183-209 | two lines are parallel exactly when their direction cross product is 0; otherwise the meeting point lies on both lines |
| PdtFunctions.OnBothLines | clockworxpdt/pdt_functions.py:183-209 | the dehomogenised cross of the two line vectors lies on both lines |
| PdtFunctions.ParallelIsZero | clockworxpdt/pdt_functions.py:196-202 | the homogeneous third component is the 2D cross product of the two directions |
| PdtFunctions.Intersection | clockworxpdt/pdt_functions.py:169-210 | in a world plane, parallel lines give no point; otherwise a point whose in-plane coordinates lie on line fst–lst and on line oth–act and whose off-plane coordinate is that of actV. In the view plane LO, with each point taken relative to actV through the inverse view, parallel lines give no point; otherwise the point is the view image of a point on both view lines, offset by actV |
| PdtFunctions.Place | clockworxpdt/pdt_functions.py:203-209 | the placed vector has the two in-plane coordinates and the off-plane height on the given axes |
| Placement.VertexGuard | pdt_design.py:119-133 | as written, no active-object error is raised only in Edit mode with a vertex selected; in Object mode the unbound `bm` raises; intended, Object mode continues |
| Placement.Absolute | pdt_design.py:83-194 | CU puts the cursor at the deltas (rotation reset) and PP the pivot, with no active object needed; every other operation keeps the scene; a raise changes nothing (the older revision is clockworxpdt/clockworx_pdt_ui.py:60-149) |
| Placement.AbsoluteNew | pdt_design.py:164-180 | NV raises the unbound `obj` only in the older revision as written, and otherwise completes with the scene kept |
| Placement.AbsoluteEdit | pdt_design.py:139-188 | the Edit-mode Absolute operations complete with the scene kept |
| Placement.FlipAngle | pdt_design.py:411-416 | the flipped angle differs from the angle by 180 either way, and stays in [-180, 180] when the angle is in that range |
| Placement.DirectionOffset | pdt_design.py:420-423 | in a world plane the offset is d·cos a on the first axis, d·sin a on the second and 0 on the normal |
| Placement.Delta | pdt_design.py:197-369 | Delta keeps the world valid and finishes or raises |
| Placement.Direction | pdt_design.py:372-553 | a flipped angle in range is replaced by its flip and written back; unflipped, the angle is kept |
| Placement.Offsetting | pdt_design.py:240-369 | REL with CU or PP moves the cursor or pivot by the offset; a raise changes nothing; only the chosen operation's target changes |
| Placement.OffsetFromVertex | pdt_design.py:254-263 | with an empty selection history the newer revision reports the one-vertex error |
| Placement.OffsetFrom | pdt_design.py:266-365 | offsetting from a known point keeps all but the operated scene variable |
| Placement.OffsetPoint | pdt_design.py:270-279 | CU and PP change only the scene |
| Placement.OffsetNew | pdt_design.py:306-318 | a new vertex at an offset completes with the scene kept |
| Placement.OffsetEdit | pdt_design.py:280-365 | the Edit-mode offset operations complete with the scene kept |
| Placement.Percent | pdt_design.py:556-662 | Percent finishes or raises; only the operated variable and the error change in the scene; a raise changes nothing, except that Edit-mode EV leaves one new vertex at the percentage point between the two selected vertices |
| Placement.PercentAt | pdt_design.py:600-658 | placing at a computed percentage point keeps all but the operated scene variable; a raise changes nothing, except that EV leaves one new vertex at the point |
| Placement.PercentPoint | pdt_design.py:604-613 | CU and PP change only the scene |
| Placement.PercentMove | pdt_design.py:614-620 | moving at a percentage keeps the scene and changes nothing when it raises |
| Placement.PercentEdit | pdt_design.py:621-658 | the Edit-mode percent operations keep the scene; they raise exactly for EV without extend on an empty or non-vertex history, leaving only the new vertex at the point added to the mesh |
| PlacementFacts.FlipAngleTwice | pdt_design.py:411-416 | flipping twice restores any angle in (-180, 180], and -180 comes back as 180 |
| PlacementFacts.DirectionLength | pdt_design.py:420-423 | when cos²+sin² is 1 the direction offset has length equal to the distance |
| PlacementFacts.RelativeIsAbsoluteOfSum | pdt_design.py:240-243 | a relative cursor delta lands where Absolute would with the sum of the cursor and the deltas |
| PlacementFacts.OffsetFromActiveVertex | pdt_design.py:254-279 | a selected-origin cursor offset lands at object location + newest vertex + offset and changes nothing else |
| PlacementFacts.OffsetNeedsHistory | pdt_design.py:254-263 | in the newer revision an empty history reports the one-vertex error and changes nothing |
| PlacementFacts.AbsoluteMovePlacesVertices | pdt_design.py:139-145 | Absolute MV puts every selected vertex at the deltas (object location + vertex), leaves the rest and clears the history |
| PlacementFacts.DeltaMoveShiftsVertices | pdt_design.py:280-287 | Delta MV shifts exactly the selected vertices by the offset and clears the history |
| PlacementFacts.ObjectModeRaises | pdt_design.py:127-133 | as written, Absolute, Delta and Direction on an active object in Object mode raise the unbound `bm` |
| PlacementFacts.ObjectModeMoves | pdt_design.py:146-148 | intended, Object-mode MV moves the selected objects: Absolute to the deltas, Delta to the active location plus the offset, Direction each by the direction offset |
| PlacementFacts.ObjectModeAbsolute | pdt_design.py:146-148 | intended, Absolute MV in Object mode puts every selected object at the deltas |
| PlacementFacts.ObjectModeDelta | pdt_design.py:285-287 | intended, Delta MV in Object mode puts the selected objects at the active location plus the offset |
| PlacementFacts.ObjectModeDirection | pdt_design.py:469-471 | intended, Direction MV in Object mode shifts each selected object by the direction offset and no other |
| PlacementFacts.LegacyAbsoluteNewRaises | clockworxpdt/clockworx_pdt_ui.py:91-92 | in the older revision, Absolute NV raises the unbound `obj` and changes nothing |
| PlacementFacts.AbsoluteNewAtPoint | clockworxpdt/clockworx_pdt_ui.py:132-136 | intended, Absolute NV adds exactly one vertex at the deltas (object location + vertex) and clears the history; the newer revision also selects it |
| PlacementFacts.PercentSplitNeedsOneEdge | clockworxpdt/clockworx_pdt_ui.py:537-542 | Percent SE with other than one selected edge reports an error naming the count and changes nothing |
| PlacementFacts.PercentMovesObject | pdt_design.py:614-620 | Percent MV in Object mode moves the active object to the percentage point of the two selected objects |
| PlacementFacts.PercentMovesNewestVertex | pdt_design.py:614-620 | Percent MV in Edit mode raises on an empty or non-vertex history and otherwise moves only the newest vertex to the percentage point |
| Convergence.AllVerts | pdt_design.py:909 | the list of all vertex indices in order |
| Convergence.EditEnds | pdt_design.py:822-856 | the four line ends come from two selected edges or a four-entry vertex history; otherwise a report naming both counts; a newest history entry that is not a vertex raises `TypeError` as written and reports `VERT_MODE` after resetting the selection as intended |
| Convergence.Intersect | pdt_design.py:785-976 | with no active object the no-object error; another mode returns nothing and changes nothing; only the operated scene variable may change; a raise changes nothing, except the ValueError of Edit-mode EV, which leaves the scene, selection and reports as they were and one more vertex in the active mesh (the older revision is clockworxpdt/clockworx_pdt_ui.py:675-849) |
| Convergence.IntersectEdit | pdt_design.py:857-933 | parallel lines report the error; otherwise the operation acts on the intersection point; a raise is EV's ValueError, leaving the new vertex at the point joined to the first line's end |
| Convergence.IntersectEditAt | pdt_design.py:863-933 | CU, PP, NV, MV and EV at a computed intersection keep all but the operated variable; only EV with all four ends raises, leaving the new vertex joined to the first line's end |
| Convergence.IntersectMark | pdt_design.py:863-878 | CU, PP and NV at the intersection complete |
| Convergence.IntersectJoin | pdt_design.py:879-930 | MV and EV keep the scene; only EV with all four ends raises, with a ValueError that leaves the new vertex at the crossing joined to the nearer end of the first line and nothing else changed |
| Convergence.MovedEnds | pdt_design.py:883-906 | moving ends changes at most the four ends, each either kept or put on the intersection |
| Convergence.ExtendedEnds | pdt_design.py:883-907 | extending keeps the old vertices and adds at most one new vertex at the intersection; the second `edges.new` is refused exactly when, with all four ends, the second line's nearer end is the vertex the first edge joined, and then the new vertex and first edge stay |
| Convergence.HalfJoined | pdt_design.py:883-889 | what EV leaves when the second `edges.new` raises: the old mesh plus the vertex at the crossing and one edge from it to the first line's nearer end |
| Convergence.FreshOnlyJoined | pdt_design.py:888-907 | after the first edge, an old vertex is connected to the new one exactly when it is the first line's end, so the second `edges.new` raises exactly when both lines' nearer ends coincide |
| Convergence.Converge | pdt_design.py:908-930 | the converge step completes with the scene kept |
| Convergence.NameLeTotal | clockworxpdt/clockworx_pdt_ui.py:815-817 | name order is total |
| Convergence.InsertByName | clockworxpdt/clockworx_pdt_ui.py:815-817 | inserting keeps the list sorted by name and adds exactly the one object |
| Convergence.SortByName | clockworxpdt/clockworx_pdt_ui.py:815-817 | `sorted(key=name)` gives a name-sorted permutation of the objects |
| Convergence.Chosen | clockworxpdt/clockworx_pdt_ui.py:830-833 | the four line ends are the objects at the 1-based positions `pdt_oborder` names |
| Convergence.SelectedObjects | clockworxpdt/clockworx_pdt_ui.py:816 | the selected objects in selection order |
| Convergence.IntersectObjects | pdt_design.py:934-976 | Object mode needs exactly four selected objects and otherwise reports the count |
| Convergence.IntersectObjectsAt | pdt_design.py:960-976 | CU, PP and MV put the cursor, pivot or active object at the intersection, after the order report |
| Convergence.Centre | pdt_design.py:979-1105 | with no active object the no-object error; another mode returns nothing; the scene keeps all but the radius and the operated variable; only Edit-mode MV or EV without extend raises, after the radius is written, and MV then changes nothing else (the older revision is clockworxpdt/clockworx_pdt_ui.py:852-967) |
| Convergence.CentreEdit | pdt_design.py:1018-1084 | other than three selected vertices reports the count; a straight line reports the error; otherwise the radius is written and the operation acts on the centre; a raise keeps the radius, and for EV a new vertex at the centre |
| Convergence.CentreEditAt | pdt_design.py:1036-1084 | the radius is written to `pdt_distance` whether the operation completes or raises; only MV or EV without extend raises, MV with nothing else changed and EV with the new vertex at the centre left in the mesh |
| Convergence.CentreMark | pdt_design.py:1037-1049 | CU, PP and NV at the centre complete |
| Convergence.CentreMove | pdt_design.py:1050-1064 | MV writes the radius; it raises exactly without extend on an empty or non-vertex history, and then nothing but the radius has changed |
| Convergence.CentreExtrude | pdt_design.py:1065-1081 | EV writes the radius; it raises exactly without extend on an empty or non-vertex history, and then the radius and one unjoined vertex at the centre are all that changed |
| Convergence.CentreObjects | pdt_design.py:1085-1105 | Object mode needs exactly three selected objects and otherwise reports the count |
| Convergence.CentreObjectsAt | pdt_design.py:1096-1104 | CU, PP and MV put the cursor, pivot or active object at the centre |
| ConvergenceFacts.IntersectNeedsTwoLines | pdt_design.py:826-856 | without two selected edges or four history entries, Intersect reports an error naming both counts and changes nothing |
| ConvergenceFacts.TwoEdgesAreTheLines | pdt_design.py:826-835 | with two selected edges, their ends are the two lines |
| ConvergenceFacts.IntersectNonVertexRaises | pdt_design.py:836-846 | as written, a four-entry history whose newest entry is an edge makes Intersect raise `TypeError` |
| ConvergenceFacts.IntersectNonVertexReports | pdt_design.py:836-846 | as intended, the same selection is reset and `VERT_MODE` reported |
| ConvergenceFacts.IntersectMoveNearest | pdt_design.py:883-915 | MV moves the active end to the crossing only when it is nearer than its partner; without pdt_extend nothing else moves, and when it is not nearer nothing moves and the nothing-done error is reported; with pdt_extend one end of each line goes to the crossing |
| ConvergenceFacts.JoinMoves | pdt_design.py:883-915 | the MV step moves ends as above for any crossing point |
| ConvergenceFacts.IntersectExtendNearest | pdt_design.py:883-915 | EV without pdt_extend adds one selected vertex at the crossing, joined to the active end, only when it is nearer; otherwise nothing is added and the nothing-done error is reported |
| ConvergenceFacts.JoinExtends | pdt_design.py:883-915 | the EV step extends as above for any crossing point |
| ConvergenceFacts.ObjectLinesUseEachOnce | clockworxpdt/clockworx_pdt_ui.py:814-833 | every allowed `pdt_oborder` uses each of the four name-sorted objects exactly once |
| ConvergenceFacts.ChosenIsPermutation | clockworxpdt/clockworx_pdt_ui.py:830-833 | the chosen four are a permutation of the objects |
| ConvergenceFacts.ObjectOrderReported | clockworxpdt/clockworx_pdt_ui.py:815-828 | with four objects, the name-sorted order is reported before anything else |
| ConvergenceFacts.CentreNeedsThreeVertices | pdt_design.py:1022-1030 | Arc Centre in Edit mode with other than three selected vertices reports the count and changes nothing |
| ConvergenceFacts.CentreRefusesStraightLine | pdt_design.py:1031-1035 | an infinite radius reports the straight-line error before any change |
| ConvergenceFacts.CentreGathersVertices | pdt_design.py:1050-1062 | MV with pdt_extend puts every selected vertex on the centre, writes the radius and asks for one remove_doubles |
| ConvergenceFacts.MoveGathers | pdt_design.py:1050-1062 | the MV step gathers as above for any centre |
| ConvergenceFacts.CentreJoinsNewest | pdt_design.py:1065-1081 | EV without pdt_extend raises on an empty history, keeping the radius and an unjoined vertex at the centre, and otherwise adds one vertex at the centre joined to the newest vertex |
| Edits.EdgeToFresh | pdt_design.py:887-889 | an edge from an old vertex to a fresh one is always accepted |
| Edits.NewVertexAlone | pdt_design.py:867-878 | a new vertex at the point, selected alone, the rest unchanged and the history cleared |
| Edits.NewVertexSelected | pdt_design.py:170-176 | a new vertex at the point added to the selection, the rest unchanged and the history cleared |
| Edits.NewVertexOnly | clockworxpdt/clockworx_pdt_ui.py:132-136 | a new vertex at the point with the selection unchanged and the history cleared |
| Edits.ExtrudeSteps | pdt_design.py:319-327 | extruding the listed vertices adds one vertex per listed vertex and keeps the old ones |
| Edits.ExtrudeStepsIsExtrudeEach | pdt_design.py:319-327 | the vertex-by-vertex loop equals the closed-form extrusion |
| Edits.ExtrudeEachValid | pdt_design.py:319-327 | extrusion keeps the mesh well formed |
| Edits.JoinSteps | pdt_design.py:181-187 | joining to a new vertex keeps the coordinates |
| Edits.JoinStepsSpec | pdt_design.py:181-187 | the edge-by-edge loop equals the closed-form fan of edges to the new vertex |
| Edits.FanStepsIsFanToNew | pdt_design.py:181-190 | the loop creating a vertex and joining each listed vertex equals the closed form |
| Edits.FanToNewValid | pdt_design.py:181-190 | the fan keeps the mesh well formed |
| Steps.Subdivided | pdt_design.py:621-635 | a host call is logged and the active mesh changes only in the selection and history, nothing else changes |
| Steps.JoinToNewest | pdt_design.py:1075-1080 | one new vertex at the point in every case; an empty history then raises an index error and a non-vertex newest entry a type error, with the vertex left unjoined and unselected; otherwise it is joined to the newest vertex |
| Steps.MoveNewest | pdt_design.py:1059-1061 | an empty history raises an index error, a non-vertex newest entry an attribute error, both before any change; otherwise only the newest vertex moves to the point and the history is cleared |
| Tools.Join | pdt_design.py:1108-1153 | Join never changes the scene; it is cancelled exactly when the newer revision's poll fails; two unconnected selected vertices get one edge between them; anything else leaves the objects unchanged (the older revision is clockworxpdt/clockworx_pdt_ui.py:970-1013) |
| Tools.JoinEdit | pdt_design.py:1135-1153 | other than two selected vertices reports the count; two connected vertices report the connected error; otherwise one new edge |
| Tools.Fillet | pdt_design.py:1156-1203 | Fillet never moves objects or changes the scene; it calls the bevel once exactly when there is an active Edit-mode object with a selected vertex; with none selected it reports the one-vertex error. It is only a guard around a host call, so no partner lemma relates it to another definition |
| Tools.NotAVertex | clockworxpdt/pdt_functions.py:84-93 | a non-vertex newest entry raises `TypeError` as written, changing nothing; as intended it empties the selection and history and adds the `VERT_MODE` report |
| Tools.EditPoints | pdt_design.py:1235-1252 | the measure points are the newest history vertices exactly when the selection count and history count match and all are vertices; a non-vertex newest entry stops as Tools.NotAVertex states |
| Tools.Others | clockworxpdt/clockworx_pdt_ui.py:1163 | the other selected objects keep order and drop every object named like the active one |
| Tools.ObjectPoints | pdt_design.py:1253-1261 | fewer selected objects than the guard report the count; otherwise the active object and the last others |
| Tools.Measure2 | pdt_design.py:1262-1287 | the measured angle is clamped to [-180, 180] and flipped when asked, the distance is the in-plane length, and the deltas are othV - actV |
| Tools.Measure3 | pdt_design.py:1347-1362 | the angle between the two arms, flipped when asked, the distance is the 3D length, and actV plus the deltas is othV |
| Tools.Angle2 | pdt_design.py:1206-1287 | the no-object error with no active object, no host call, a raise changes nothing, and only the measure variables change (the older revision is clockworxpdt/clockworx_pdt_ui.py:1048-1118) |
| Tools.Measuring2 | pdt_design.py:1262-1287 | a stopped selection is passed through; otherwise only the measure variables change |
| Tools.Angle3 | pdt_design.py:1290-1362 | the no-object error with no active object, another mode raises the unbound `othV`, and only the measure variables change (the older revision is clockworxpdt/clockworx_pdt_ui.py:1121-1184) |
| Tools.Angle3Of | pdt_design.py:1319-1362 | in Edit or Object mode only the measure variables change, and a raise changes nothing |
| Tools.Origin | pdt_design.py:1365-1410 | the no-object error with no active object; another mode reports the mode error; in Edit or Object mode the object moves to the cursor and location + co of every vertex is kept (the older revision is clockworxpdt/clockworx_pdt_ui.py:1187-1223) |
| Tools.OriginMoved | pdt_design.py:1392-1405 | the object is at the cursor and location + vertex is unchanged for every vertex |
| Tools.TaperLoop | pdt_design.py:1468-1477 | only the listed vertices change, and in a world plane only their second coordinate |
| Tools.Taper | pdt_design.py:1413-1480 | an angle outside [-80, 80] reports an error before any change; geometry changes only with an allowed angle and the Edit-mode poll holding (the older revision is clockworxpdt/clockworx_pdt_ui.py:1226-1284) |
| Tools.TaperEdit | pdt_design.py:1459-1480 | an empty history reports the count, a non-vertex newest entry raises, and otherwise the taper is applied about the newest vertex |
| ToolsFacts.JoinTwiceRefuses | pdt_design.py:1140-1149 | after a join, joining the same two vertices again reports the connected error |
| ToolsFacts.OriginIdempotent | pdt_design.py:1392-1405 | a second Origin to Cursor leaves the objects as the first left them |
| ToolsFacts.MeasuredDeltasReachOther | clockworxpdt/clockworx_pdt_ui.py:1115-1117 | the measured deltas, applied as a Delta offset from actV, reach othV |
| ToolsFacts.Angle2MeasuresNewestFirst | pdt_design.py:1238-1252 | in Edit mode the active vertex is the newest history entry and the other is the one before |
| ToolsFacts.Angle2NonVertexRaises | pdt_design.py:1240-1244 | as written, two selected vertices with an edge newest in the history make Measure 2D raise `TypeError` |
| ToolsFacts.Angle2NonVertexReports | pdt_design.py:1240-1244 | as intended, the same selection is reset and `VERT_MODE` reported, with no measure written |
| ToolsFacts.Angle3NonVertexRaises | pdt_design.py:1324-1328 | as written, three selected vertices with an edge newest in the history make Measure 3D raise `TypeError` |
| ToolsFacts.OthersKeepsAll | clockworxpdt/clockworx_pdt_ui.py:1163 | no object named like the active one means no object is dropped |
| ToolsFacts.OthersDropsAtMostOne | clockworxpdt/clockworx_pdt_ui.py:1163 | with distinct names at most one object is dropped |
| ToolsFacts.LegacyAngle3TwoObjectsRaise | clockworxpdt/clockworx_pdt_ui.py:1160-1166 | in the older revision, two selected objects pass the `< 2` guard and `objs_s[-2]` raises an index error |
| ToolsFacts.Angle3ObjectsFinish | pdt_design.py:1337-1346 | in the newer revision, with distinct names, Angle3 in Object mode always finishes |
| ToolsFacts.Angle2ObjectsFinish | pdt_design.py:1253-1261 | with distinct names, Angle2 in Object mode always finishes |
| ToolsFacts.TaperFixesRotation | pdt_design.py:1476-1477 | the rotation vertex itself does not move |
| ToolsFacts.TaperLoopPointwise | pdt_design.py:1468-1477 | each listed vertex is tapered about the rotation vertex and every other vertex is unchanged |
| ToolsFacts.TaperZeroAngleStill | pdt_design.py:1476-1477 | a zero-tangent angle moves nothing |
| PivotPoint.HandleAdd | clockworxpdt/clockworx_pivot_point.py:40-56 | afterwards a handler is installed; an installed handler is left as is, and a fresh install sets the run flag |
| PivotPoint.HandleRemove | clockworxpdt/clockworx_pivot_point.py:59-74 | afterwards no handler is installed and the run flag is off |
| PivotPoint.ModalDraw | clockworxpdt/clockworx_pivot_point.py:76-101 | outside the 3D view nothing changes and the operator is cancelled; inside, flag off adds and flag on removes, and handler and flag stay in step |
| PivotPoint.EditGuard | clockworxpdt/clockworx_pivot_point.py:171-178 | no object and non-Edit mode each report their error; as written Edit mode raises the missing `bmesh` name; intended, it passes |
| PivotPoint.ViewRotate | clockworxpdt/clockworx_pivot_point.py:104-144 | the host rotate is called exactly when the guard passes, and objects and scene are kept |
| PivotPoint.ScaledIsAboutPivot | clockworxpdt/clockworx_pivot_point.py:181-186 | the per-axis formula v + (pivot - loc - v)(1 - s) is scaling the world point about the pivot by s |
| PivotPoint.ScaleSelected | clockworxpdt/clockworx_pivot_point.py:179-186 | every selected vertex's location + co is scaled about the pivot and every other vertex is unchanged |
| PivotPoint.ViewScale | clockworxpdt/clockworx_pivot_point.py:147-188 | objects change only when the guard passes, a failing guard is the whole outcome, and otherwise the selected vertices are scaled |
| PivotPoint.PivotToCursor | clockworxpdt/clockworx_pivot_point.py:191-210 | the pivot becomes the cursor and nothing else changes |
| PivotPoint.CursorToPivot | clockworxpdt/clockworx_pivot_point.py:213-232 | the cursor becomes the pivot and nothing else changes |
| PivotPoint.PivotSelected | clockworxpdt/clockworx_pivot_point.py:236-276 | the cursor and the objects are left as they were, and the pivot takes the snapped point only when the guard passes |
| PivotPoint.PivotOrigin | clockworxpdt/clockworx_pivot_point.py:279-305 | the pivot goes to the active object's location, or the no-object error |
| PivotPoint.PivotWrite | clockworxpdt/clockworx_pivot_point.py:308-348 | the active object stores the pivot under PDT_PP_LOC, or the no-object error |
| PivotPoint.PivotRead | clockworxpdt/clockworx_pivot_point.py:351-386 | a stored pivot is restored; a missing one raises a KeyError as written and reports the error intended |
| PivotFacts.ToggleTwiceRestores | clockworxpdt/clockworx_pivot_point.py:88-101 | toggling twice in the 3D view restores a state whose handler and flag agree |
| PivotFacts.ToggleOutOfStepIsStuck | clockworxpdt/clockworx_pivot_point.py:40-56 | a handler with the flag off stays that way when toggled |
| PivotFacts.ScaleUnitAndZero | clockworxpdt/clockworx_pivot_point.py:181-186 | scale 1 leaves a point fixed and scale 0 puts it on the pivot |
| PivotFacts.ScalesCompose | clockworxpdt/clockworx_pivot_point.py:181-186 | two scalings about the pivot are one scaling by the product |
| PivotFacts.ScaleRaisesAsWritten | clockworxpdt/clockworx_pivot_point.py:179 | as written, scaling in Edit mode raises a NameError for the unimported `bmesh` |
| PivotFacts.ScaleZeroGathersOnPivot | clockworxpdt/clockworx_pivot_point.py:181-186 | intended, scale 0 puts every selected vertex's location + co on the pivot |
| PivotFacts.PivotCursorRoundTrip | clockworxpdt/clockworx_pivot_point.py:210 | cursor-to-pivot after pivot-to-cursor changes nothing more |
| PivotFacts.WriteThenReadRestores | clockworxpdt/clockworx_pivot_point.py:340 | writing then reading on the same object restores the pivot, whatever it was moved to in between |
| PivotFacts.ReadMissingRaises | clockworxpdt/clockworx_pivot_point.py:379-381 | as written, reading from an object without PDT_PP_LOC raises a KeyError |
| PivotFacts.ReadMissingReports | clockworxpdt/clockworx_pivot_point.py:379-386 | intended, it reports the not-found error and changes nothing |
| Waves.WaveAxes | pdt_trig_waves.py:61 | the axes are a permutation, and `set_mode`'s for a world plane |
| Waves.Range | pdt_trig_waves.py:78 | Python's `range(n)`: the integers 0 to n − 1 in order, none when n is not positive |
| Waves.VertexCount | pdt_trig_waves.py:78 | the vertex count is the number of indices `range(trig_res * trig_cycles + 1)` yields |
| Waves.TanClamp | pdt_trig_waves.py:95-102 | the clamped value has size at most trig_tanmax, is unchanged when within it, and keeps its sign unless abs is set |
| Waves.WaveValue | pdt_trig_waves.py:78-102 | with abs set the value is at least 0; tan values are within trig_tanmax; sin and cos values are amplitude times the shape |
| Waves.WavePoint | pdt_trig_waves.py:104-108 | vertex i sits at the offset plus i·x_inc on the first axis and the value on the second, the normal coordinate unchanged |
| Waves.Chain | pdt_trig_waves.py:108-111 | n vertices give n - 1 edges, each from one vertex to the next |
| Waves.WavePoints | pdt_trig_waves.py:78-108 | the list holds every vertex position in order |
| Waves.Extend | pdt_trig_waves.py:108-111 | one vertex is appended, joined to the previous one when asked |
| Waves.Polyline | pdt_trig_waves.py:78-112 | the loop gives the old vertices plus the points, and the old edges plus the chain |
| Waves.WaveGenerator | pdt_trig_waves.py:40-117 | no object cancels; trig_res 0 raises a division by zero after every object is deselected and `trig_obj` made active, nothing else changed; otherwise the object holds the polyline |
| WavesFacts.WaveIsPolyline | pdt_trig_waves.py:78-112 | the wave adds trig_res·trig_cycles + 1 vertices and an edge from each to the next |
| WavesFacts.WaveSpacing | pdt_trig_waves.py:65 | consecutive vertices are trig_len / trig_res apart on the first axis |
| WavesFacts.PointStep | pdt_trig_waves.py:104-106 | one step in i moves the first coordinate by x_inc |
| WavesFacts.WaveIsFlat | pdt_trig_waves.py:104-106 | every vertex keeps the offset's normal coordinate |
| WavesFacts.AbsoluteWaveAbove | pdt_trig_waves.py:80-100 | with abs set every vertex is at or above the offset on the second axis |
| WavesFacts.TangentWaveCapped | pdt_trig_waves.py:95-102 | every tan vertex is within trig_tanmax of the offset on the second axis |
| Properties.ParseFields | clockworxpdt/clockworx_pdt_ui.py:814-833 | parsing integer fields keeps their count |
| Properties.ObOrderIsPermutation | clockworxpdt/__init__.py:384-393 | each allowed `pdt_oborder` parses to a permutation of 1..4 |
| Properties.ObOrderParses | clockworxpdt/__init__.py:384-393 | each allowed `pdt_oborder` parses to its positions |
| Properties.FieldsOf | clockworxpdt/__init__.py:384-393 | the decimal text of each position |
| Properties.OrderTextIsJoin | clockworxpdt/__init__.py:384-393 | each order string is its four positions joined by commas |
| Properties.ParseFieldsOfNumbers | clockworxpdt/__init__.py:384-393 | printing numbers and parsing them back gives the numbers |
| Properties.DefaultsWithinBounds | clockworxpdt/__init__.py:266-442 | the declared defaults lie within the declared bounds: angle in [-180, 180], at least 1 fillet segment, profile in [0, 1] |
| Properties.Clamp | clockworxpdt/__init__.py:278-280 | Blender's clamp to a declared range lands in the range and keeps a value already inside |
| Properties.AssignAngle | clockworxpdt/__init__.py:278-280 | assigning pdt_angle stores it when in range and keeps the scene within bounds |
| Properties.FilterNames | clockworxpdt/__init__.py:184-188 | the filtered names are exactly the names containing the search string |
| Properties.FilterAppend | clockworxpdt/__init__.py:184-188 | the filter keeps library order: filtering a concatenation filters each part |
| Properties.FilterEmptyKeepsAll | clockworxpdt/__init__.py:184-186 | an empty search returns every name in order |
| Properties.Items | clockworxpdt/__init__.py:189-192 | every item is (name, name, "") |
| Properties.EnumList | clockworxpdt/__init__.py:168-252 | a missing library gives the single MISSING item; otherwise one item per filtered name (objects, collections and materials alike) |
| Properties.Reverse | clockworxpdt/__init__.py:464 | `reversed` gives the same names last to first |
| Properties.Unregister | clockworxpdt/__init__.py:465 | unregistering the newest class removes it |
| Properties.UnregisterUndoesRegister | clockworxpdt/__init__.py:456-465 | unregistering in reverse order undoes registration exactly |
| Text.Split | pdt_command.py:198 | `split(",")` gives one more field than there are commas, none containing a comma |
| Text.JoinSplit | pdt_command.py:198 | joining the split fields with commas gives the original string |
| Text.SplitJoin | pdt_command.py:198 | splitting comma-free fields joined by commas gives the fields |
| Text.Contains | clockworxpdt/__init__.py:188 | the `in` test holds exactly when the search string occurs at some position |
| Text.IntLiteralIsFloatLiteral | pdt_command.py:807-811 | a string `int()` accepts is accepted by `float()` with the same value |
| Text.ParseIntOfNatToString | clockworxpdt/clockworx_pdt_ui.py:830-833 | `int(str(n))` is n |
| World.MoveSelectedObjects | pdt_design.py:146-148 | every selected object is put at the point and every other object is kept |
| World.ShiftSelectedObjects | pdt_design.py:469-471 | every selected object is shifted by the offset and every other object is kept |

## Left out

- User interface: the panels, menus and their drawing, the `pdt_help` and `oops` popups (an error popup is recorded as a report), and `update_panel`.
- `pdt_view.py` and the view-rotation operators: they only forward to Blender's view operators.
- The parts-library Append and Link operators: file I/O through Blender. The library contents are a parameter of the name filter.
- The OpenGL draw callback of the pivot point: only the handler and flag state is modelled.
- `PDT_OT_PlacementNormal` is not part of this model.
- The view plane "LO": the view matrix (`viewCoords`, `viewCoordsI`, `viewDir`) is the `View` parameter, with no relation between a view function and its inverse assumed.
- Trigonometry, `sqrt`, `arctan2`, `arccos` and `arcCentre` are parameters (`Numerics`, `Measures`, the `arc` function). Floating-point rounding is not modelled; coordinates are exact reals.
- `eval` of a maths expression is a hook; its result or its ValueError is a parameter.
- `objCheck` and `disAng` from the top-level helpers are hooks; the top-level `pdt_functions.py` and `pdt_msg_strings.py` are not part of this model, and messages are tags.
- Host mesh operations (`remove_doubles`, `subdivide_edges`, `duplicate`, `extrude_face_region`, `bevel`, `snap_cursor_to_selected`, `translate`, `rotate`, the wave's vertex delete) are logged as `HostCall` values, not executed.
- Changes made before a raised exception: Blender keeps them, and so does the model: the scene variables and popups written first (the angle flip of Placement.Direction, the `pdt_error` set before a command-line `TypeError`, Arc Centre's radius), the vertex `bm.verts.new` makes before a failing `edges.new` (Steps.JoinToNewest, Convergence.HalfJoined), and the wave generator's deselection. The one exception is the selection reset that `checkSelection` performs before its callers' `TypeError`: there the raised outcome holds the mesh as it was (Tools.NotAVertex, Convergence.EditEnds).
- Object rotation and scale: an object has a location only, and a vertex's world position is its object's location + co, as the operators that add a world-space difference to local coordinates (Origin to Cursor, Absolute, the pivot scaling) themselves assume.
- Message texts of the older revision: where it writes a message inline that differs only in wording from the newer revision's constant ("Select an Object" at clockworxpdt/clockworx_pdt_ui.py:703 and the other operators, the one-or-three-objects text at :883, "Lines Between Objects Do Not Intersect in" at :837, "Lines Do Not Intersect in" at :734, the taper text at :1253), the model reports the newer revision's tag.
- Tools.Taper: the newer revision's refusal of the angle appends the angle and a parenthesis (pdt_design.py:1452); the model reports the message tag without that detail, since float-to-text formatting is not modelled.
- Mode switches (`mode_set`) are modelled only by their final mode.
- Blender's selection flushing between vertices, edges and faces: selecting or deselecting a vertex does not change the selection of the edges and faces that use it, and the reverse. Each of the three selection sets changes only where an operator sets it directly.
- An object's world position: `matrix_world.decompose()[0]` is the object's `location`, so parenting and constraints are not modelled.
- CommandLine.LowerChar: lowers only the ASCII capitals A–Z, whereas Python's `str.lower` also lowers non-ASCII capitals. No non-ASCII character lowers to any of h, e, l or p, so CommandLine.HelpIgnoresCase holds for Python's `str.lower` too.
- Waves.WaveAxes: in the view plane LO it takes the axes (0, 1, 2). The packaged `setMode` (clockworxpdt/pdt_functions.py:37-46) has no LO case, and the top-level `set_mode` that pdt_trig_waves.py imports is not part of this model. The LO branch of the wave (pdt_trig_waves.py:107-108) maps points through the view and so presupposes an identity permutation.
- Convergence.CentreObjects: for three collinear objects the source writes the infinite radius into `pdt_distance` (pdt_design.py:1094-1095). The model's distance is a real number, so the distance is left unchanged in that case; the cursor, pivot or object placement that follows is modelled.
- Convergence.CentreObjectsAt: the dispatch after the radius is written; the infinite radius of collinear objects is not written, as stated for Convergence.CentreObjects.
- Python's `float()` spellings `inf`, `nan`, `infinity` and digit-group underscores are treated as not numeric.
- CommandLine.RunCursor: states the effects common to every branch; the per-branch positions are stated by CommandLineFacts.CursorAbsolute and CommandLineFacts.RelativeDeltaAccumulates.
- CommandLine.RunGrab, CommandLine.RunNew, CommandLine.RunSplit, CommandLine.RunExtrudeVerts, CommandLine.RunRegion, CommandLine.RunFillet: state validity and the unbound-object behaviour only; the geometry is stated by the Placement, Edits and Steps members they share.
- Placement.Delta: states validity and the status only; its effects are stated by PlacementFacts.RelativeIsAbsoluteOfSum, PlacementFacts.DeltaMoveShiftsVertices and Placement.Offsetting.

## Findings

| source | as written | input that shows it | evidently intended | confidence | as-written member | corrected member |
|---|---|---|---|---|---|---|
| pdt_command.py:150-151 | a missing comma between "E" and "g" fuses them into "Eg", so neither is an accepted mode letter | the command "FE" (fillet edges) is refused with the bad-mode error | both "E" and "g" accepted, as the help text lists | high, not executed | CommandLine.MissingCommaDropsTwoLetters | CommandLine.ModeLettersIntended |
| pdt_command.py:211-224 | with mode A (except split), `obj` is never assigned but is then used by grab, new vertex, extrude, duplicate and fillet | "GA1,2,3" with an active mesh object | the active object looked up for every mode that uses it | high, not executed | CommandLineFacts.ModeAObjectUnbound | CommandLineFacts.ObjectAlwaysBound |
| pdt_command.py:811-814 | `float(v) in range(0,1)` holds only for 0, and the trailing comma makes the profile a tuple | "FV1,4,0.25" bevels with profile 0.5 | a profile in [0, 1] used as given | high, not executed | CommandLine.FilletProfileAsWritten | CommandLine.FilletProfileIntended |
| pdt_command.py:370-379 | grab-percent in Object mode assigns `ob.location`, and `ob` is never bound | "GP50" in Object mode with two objects selected | the active object moved to the percentage point | high, not executed | CommandLineFacts.GrabPercentOb | CommandLineFacts.GrabPercentOb |
| clockworxpdt/clockworx_pdt_ui.py:91-92 | the older Absolute's NV branch reads `obj`, which is only assigned for operations other than CU, PP and NV | Absolute with operation NV | the active object looked up for NV | high, not executed | PlacementFacts.LegacyAbsoluteNewRaises | PlacementFacts.AbsoluteNewAtPoint |
| pdt_design.py:127-133 | `bm` is assigned only in Edit mode but read right after in every mode | Absolute MV with an active object in Object mode | Object mode skips the vertex check and moves the selected objects | high, not executed | PlacementFacts.ObjectModeRaises | PlacementFacts.ObjectModeMoves |
| clockworxpdt/clockworx_pivot_point.py:379-381 | `obj['PDT_PP_LOC']` raises KeyError when the property is missing, so the `is not None` test never reports | PivotRead on an object never written | the not-found error reported | high, not executed | PivotFacts.ReadMissingRaises | PivotFacts.ReadMissingReports |
| clockworxpdt/clockworx_pdt_ui.py:1160-1166 | the Angle3 object guard is `< 2` but the code reads `objs_s[-2]` | two selected objects in Object mode | the guard `< 3`, as the message says | high, not executed | ToolsFacts.LegacyAngle3TwoObjectsRaise | ToolsFacts.Angle3ObjectsFinish |
| pdt_design.py:1240-1244 | `checkSelection(2, …)` returns a bare `None` when the newest history entry is not a vertex, and `actV, othV = None` raises `TypeError`, so the `VERT_MODE` report is unreachable (the same at pdt_design.py:842 and 1324 and the older clockworx_pdt_ui.py:725, 1075 and 1148) | Measure 2D in Edit mode with vertices A and B selected and history [A, edge AB] | the selection reset and `VERT_MODE` reported | high, not executed | ToolsFacts.Angle2NonVertexRaises | ToolsFacts.Angle2NonVertexReports |
| pdt_design.py:842-846 | the same unpacking of `None` in Intersect, with four values | Intersect in Edit mode with a four-entry history whose newest entry is an edge and not two selected edges | the selection reset and `VERT_MODE` reported | high, not executed | ConvergenceFacts.IntersectNonVertexRaises | ConvergenceFacts.IntersectNonVertexReports |
| clockworxpdt/clockworx_pivot_point.py:179 | `bmesh` is used but never imported in this file | View Scale with an active object in Edit mode | `bmesh` imported and the vertices scaled about the pivot | high, not executed | PivotFacts.ScaleRaisesAsWritten | PivotFacts.ScaleZeroGathersOnPivot |
