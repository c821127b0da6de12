# Omega2D simulation core in Dafny

Omega2D is a 2D vortex-particle flow solver. This project models the controller at its core
and proves properties of that model. The controller has these parts:

- the `Simulation` object. It holds three lists of element collections: active vortex
  particles (`vort`), reactive boundaries (`bdry`) and inert field points (`fldpt`). It also
  holds the list of rigid bodies, the run settings, the stepping flags, and the one future
  that tracks a step running in the background;
- the `Body` objects. A body has a position and a velocity. Each coordinate is either a
  stored literal or a compiled expression of the time `t`;
- the boundary features: solid circle, oval and square. Each discretises itself into a
  closed loop of panels;
- the element packet. It is the geometry exchanged between them: node coordinates `x`,
  panel indices `idx`, panel values `val`, an element count and a dimension code.

The model is in five modules, one per source file:

| file | module | models |
|---|---|---|
| `ElementPacket.dfy` | `ElementPackets` | the packet type, its dimension code, `verify` |
| `BoundaryFeature.dfy` | `BoundaryFeatures` | panel counts, node placement and the closed-loop index lists of `init_elements` |
| `Body.dfy` | `Bodies` | class `Body`: setters, `get_pos`, `get_vel`, orientation |
| `Collection.dfy` | `Collections` | the collection variants, the merge rule of `add_boundary`, particle ingestion, counts |
| `Simulation.dfy` | `Simulations` | class `Simulation`: settings, stepping, future, body registry, `check_simulation` |

Modelling choices:

- Floating-point values are reals. The `(int)` cast is `Trunc`, which truncates toward zero.
- `cos` and `sin` are uninterpreted functions, passed in as a `Trig` value. Lemmas that need
  `cos^2 + sin^2 = 1` take it as a precondition.
- A position expression is an `Option<real -> real>`. `None` stands for no expression or
  one that failed to compile.
- The numerical work is an input of the controller, fixed at construction:
  - the diffusion and convection stages of `step`;
  - the boundary-solver reset;
  - the particle core size `get_vdelta` derived from `dt` and `Re`.
- Everything a step advances is one `FlowState` value held in the field `flow`: time, the
  three collection lists and the boundary-solver state. `Step` sets it to
  `StepFlow(old(flow), ...)`.
- The future is `Invalid`, `Pending` or `Ready`. `AsyncStep` leaves it `Pending`.
  `FinishStep` is the background task running to completion.
  - In `async_step`, `std::async` starts the new task before the move assignment waits for
    the old future. So a second `async_step` on a pending future runs two `step` calls at
    once. The model serialises them: `AsyncStep` on a `Pending` future completes the
    pending step and then launches the new one.
  - `Reset` goes through `WaitForStep`, which is the `stepfuture.wait()` plus the
    invalidation.

Two details of the code that the model keeps:

- The circle and oval panel count truncates `diam*pi/ips` toward zero.
- When several boundary collections match incoming geometry in `add_boundary`, the scan
  keeps overwriting its choice, so the last matching collection receives it
  (`Collections.LastMatch`).

## Model

| member | source | states |
|---|---|---|
| ElementPackets.Verify | src/ElementPacket.h:29 | `verify(attribute, check)` holds exactly when `attribute` is an integer multiple of `check` (for any sign, C++ truncating `%` included) |
| ElementPackets.DecodeNdim | src/ElementPacket.h:35-36 | the 2D dimension code `ndim` names a geometry exactly when it is 0, 1 or 2 (points, surfaces, volumes), and decoding inverts the encoding |
| ElementPackets.DecodeEncode | src/ElementPacket.h:35-36 | every geometry kind survives the round trip through its `ndim` code |
| ElementPackets.RemainderZeroIffMultiple | src/ElementPacket.h:29 | a zero remainder is equivalent to divisibility, in both directions |
| BoundaryFeatures.Trunc | src/BoundaryFeature.cpp:28 | the `(int)` cast truncates toward zero: the result lies within one of the value, on the side of zero |
| BoundaryFeatures.TruncMonotone | src/BoundaryFeature.cpp:28 | the `(int)` cast preserves order |
| BoundaryFeatures.RoundPanelCount | src/BoundaryFeature.cpp:28 | the circle panel count is `(int)(diam*pi/ips)`, clamped to between 5 and 10000, with each clamp case stated |
| BoundaryFeatures.SidePanelCount | src/BoundaryFeature.cpp:145 | the panels per side of a square are `(int)(side/ips)`, clamped to between 1 and 2500 |
| BoundaryFeatures.PanelCount | src/BoundaryFeature.cpp:24-196 | every feature has between 4 and 10000 panels; a square's count is four times its side count |
| BoundaryFeatures.RoundPanelCountMonotone | src/BoundaryFeature.cpp:28 | a larger diameter-to-spacing ratio never yields fewer circle panels |
| BoundaryFeatures.RoundPanelCountOrdered | src/BoundaryFeature.cpp:28 | the circle count is monotone in the truncated quantity `diam*pi/ips` |
| BoundaryFeatures.SidePanelCountMonotone | src/BoundaryFeature.cpp:145 | a larger side-to-spacing ratio never yields fewer square panels |
| BoundaryFeatures.ClosedLoopShape | src/BoundaryFeature.cpp:44-49 | in a panel list of the shape `init_elements` builds, every index names a node, each panel ends where the next begins, and the last panel returns to node 0 |
| BoundaryFeatures.WalkVisitsInOrder | src/BoundaryFeature.cpp:44-49 | following panel ends from node 0 visits nodes 0, 1, …, n-1 in order |
| BoundaryFeatures.SingleLoop | src/BoundaryFeature.cpp:44-49 | the panels form one loop through all nodes: the walk returns to node 0 after exactly n panels and not before |
| BoundaryFeatures.PatchClosesLoop | src/BoundaryFeature.cpp:44-49 | the chain `(i, i+1)` with the final index corrected to 0 is a closed loop, and all panel values are zero |
| BoundaryFeatures.CirclePointOnCircle | src/BoundaryFeature.cpp:40-41 | each circle node lies at distance diam/2 from the centre, given `cos^2 + sin^2 = 1` |
| BoundaryFeatures.RoundOvalIsCircle | src/BoundaryFeature.cpp:87-104 | an unrotated oval with equal axes places its nodes exactly where the circle does |
| BoundaryFeatures.SquareRunsStartAtCorners | src/BoundaryFeature.cpp:159-183 | the four runs of the square start at its four corners, in clockwise order |
| BoundaryFeatures.SquareStepWithinRun | src/BoundaryFeature.cpp:159-183 | consecutive nodes within one side are `side/m` apart along that side |
| BoundaryFeatures.SquareStepAcrossCorner | src/BoundaryFeature.cpp:159-183 | the last node of each side is one step `side/m` short of the next corner, so the node spacing is uniform all the way round |
| BoundaryFeatures.InitCircle | src/BoundaryFeature.cpp:24-51 | the circle packet has `RoundPanelCount` panels: 2n coordinates, 2n indices forming one closed loop, n zero values, node j at angle 2πj/n, and element count and dimension both 0 |
| BoundaryFeatures.InitOval | src/BoundaryFeature.cpp:79-112 | the oval packet: the same counts and loop as the circle, with node j on the ellipse of axes diam/2 and dmin/2, rotated by theta degrees |
| BoundaryFeatures.SideCoords | src/BoundaryFeature.cpp:159-183 | the coordinates one side loop writes: node j of run r, rotated and shifted |
| BoundaryFeatures.SquareCoordsNodes | src/BoundaryFeature.cpp:159-183 | the concatenated coordinates hold 4m nodes, run r occupying nodes rm to rm+m-1 |
| BoundaryFeatures.PlaceSide | src/BoundaryFeature.cpp:159-164 | one side loop appends exactly its 2m coordinates after the write cursor, advances the cursor by 2m, and keeps the buffer length |
| BoundaryFeatures.ChainSegments | src/BoundaryFeature.cpp:185-193 | the index loop and its correction link panel i from node i to node i+1, the last back to node 0: one closed loop, with all values zero |
| BoundaryFeatures.InitSquare | src/BoundaryFeature.cpp:141-196 | the square packet has 4m panels (m from `SidePanelCount`), coordinates equal to the four runs in order, a closed loop of indices and zero values |
| BoundaryFeatures.InitElements | src/BoundaryFeature.cpp:24-196 | each feature's packet has `PanelCount` panels, forms a closed loop and carries zero values |
| Bodies.LiteralBodyIsStatic | src/Body.cpp:68-105 | a body without expressions reports its stored position and velocity at every time |
| Bodies.PosAtIdempotent | src/Body.cpp:68-83 | evaluating the positions twice at one time is the same as once |
| Bodies.LiteralUnderExpressionIsLost | src/Body.cpp:49-83 | a literal set on a coordinate that has an expression is overwritten at the next `get_pos` |
| Bodies.VelAtAbsorbs | src/Body.cpp:85-105 | two `get_vel` calls in a row give what the last one alone gives |
| Bodies.VelAtIgnoresStoredUnderExpressions | src/Body.cpp:85-105 | when every coordinate is an expression, the stored velocity has no influence |
| Bodies.CentralDifferenceExactForQuadratic | src/Body.cpp:91-98 | the 2-point estimate with step 1e-5 is exact for quadratic motion: it returns b + 2ct |
| Bodies.Body.constructor | src/Body.cpp:25-36 | `Body(x, y)`: at rest at (x, y), no expressions, no rotation, time 0 |
| Bodies.Body.Default | src/Body.cpp:20-22 | `Body()`: at rest at the origin |
| Bodies.Body.SetName | src/Body.cpp:45-47 | `get_name` afterwards returns the new name; nothing else changes |
| Bodies.Body.SetParentName | src/Body.cpp:46 | only the parent name changes |
| Bodies.Body.SetPosLiteral | src/Body.cpp:49-52 | one position coordinate is replaced; the expressions are kept |
| Bodies.Body.SetPosExpr | src/Body.cpp:54-66 | one expression text and its compiled form are stored (none when compiling fails); positions are untouched |
| Bodies.Body.GetPos | src/Body.cpp:68-83 | the clock is set to t, each coordinate with an expression takes its value at t, the others keep theirs, and the result is the new position |
| Bodies.Body.GetVel | src/Body.cpp:85-105 | each coordinate with an expression gets the central difference at t, the others keep theirs; the clock ends at t - 1e-5 when any expression exists and is untouched otherwise |
| Bodies.Body.GetName | src/Body.cpp:47 | the result is the body's name |
| Bodies.Body.GetOrient | src/Body.cpp:107-109 | the result is the stored orientation, whatever the time asked for |
| Bodies.Body.GetRotvel | src/Body.cpp:111-113 | the result is the stored rotation rate, whatever the time asked for |
| Bodies.OrientationIsStatic | src/Body.cpp:107-113 | orientation and rotation rate do not depend on the time asked for |
| Collections.BoundaryMove | src/Simulation.cpp:398-399 | incoming geometry is body-bound exactly when it comes with a body, and is never Lagrangian |
| Collections.LastMatch | src/Simulation.cpp:402-429 | the scan finds nothing exactly when no collection matches; otherwise it settles on a matching collection after which none matches |
| Collections.LastMatchPassesOverEarlierMatches | src/Simulation.cpp:402-429 | of two matching collections the earlier one is never chosen |
| Collections.MatchRespectsBodies | src/Simulation.cpp:404-421 | fixed geometry only joins fixed reactive collections; body-bound geometry only joins the collection of its own body |
| Collections.NewSurfaces | src/Simulation.cpp:432-437 | a new surface collection has the packet's nodes and panels and the requested key |
| Collections.MergeSurfaces | src/Simulation.cpp:438-447 | merging adds the packet's nodes and panels and keeps the collection's key |
| Collections.AddedBoundary | src/Simulation.cpp:395-449 | the list grows by one exactly when no collection matches the incoming key, and then ends with a new surface collection built from the packet; every collection keeps its kind and key, non-matching ones are untouched, and afterwards some collection matches the key |
| Collections.AddedBoundaryPanels | src/Simulation.cpp:395-449 | `add_boundary` raises the panel total by the packet's panels, except when the chosen collection is not a surface collection |
| Collections.AddedBoundaryShape | src/Simulation.cpp:395-449 | `add_boundary` touches one collection at most and adds one only when nothing matches |
| Collections.AddedBoundaryThenMerges | src/Simulation.cpp:395-449 | a second geometry with the same key merges: the list does not grow again |
| Collections.Ingested | src/Simulation.cpp:345-360 | received points form a new collection in an empty list, are appended to a last Points collection, and are dropped when the last collection holds surfaces |
| Collections.IngestedKeepsKeys | src/Simulation.cpp:345-360 | appending never changes a collection's element type, movement type or body |
| Collections.StampedRadii | src/Simulation.cpp:340-344 | every fourth value from index 3 (the core radius) becomes `vdelta`; the rest are kept |
| Collections.StampedRadiiIdempotent | src/Simulation.cpp:340-344 | stamping twice is stamping once |
| Collections.NumPanels | src/Simulation.cpp:64-75 | the panel total bounds every surface collection's panels, and is zero exactly when every surface collection has no panels |
| Collections.NumElements | src/Simulation.cpp:77-91 | the element total bounds every collection's size, and is zero exactly when every collection is empty |
| Collections.NumPanelsAppend | src/Simulation.cpp:64-75 | the panel count of concatenated lists is the sum of their counts |
| Collections.NumElementsAppend | src/Simulation.cpp:77-91 | the element count of concatenated lists is the sum of their counts |
| Collections.NumPanelsUpdate | src/Simulation.cpp:64-75 | replacing one collection changes the panel total by the difference of its panels |
| Simulations.IsFutureReady | src/Simulation.h:36-40 | a future is ready exactly when it holds a result; an invalid future never is |
| Simulations.StepFlow | src/Simulation.cpp:305-329 | one step advances the simulation time by exactly dt |
| Simulations.StepsAdvanceTime | src/Simulation.cpp:305-329 | k steps advance the time by k·dt |
| Simulations.Advice | src/Simulation.cpp:217-244 | `check_simulation`'s decision table: no advice when particles exist; with no bodies either, the no-features message; with bodies, the zero-freestream message when the freestream is zero and no body moves, else the no-diffusion message when diffusion is off, else nothing |
| Simulations.AdviceEmptyIff | src/Simulation.cpp:217-244 | no advice is given exactly when particles exist, or when bodies exist, the freestream or a moving body drives the flow, and diffusion is on |
| Simulations.AdviceIsOneLine | src/Simulation.cpp:217-244 | the advice is empty or exactly one of the three messages, never two of them together |
| Simulations.StillBodyDoesNotMove | src/Simulation.cpp:249-263 | a body at rest without expressions is not moving |
| Simulations.TranslatingBodyMoves | src/Simulation.cpp:249-263 | a body translating at a speed above float epsilon is moving |
| Simulations.SampleMotion | src/Simulation.cpp:251-260 | sampling one body at the current and the next time reports movement exactly when the summed magnitudes of the two sampled velocities and rotation rates exceed float epsilon, and leaves the body's velocity at the next time |
| Simulations.SampleBodies | src/Simulation.cpp:250-262 | every body is sampled in order: the answer is true exactly when some body moves, and each body is left with its velocity at time + dt and its definition and position untouched |
| Simulations.ScanBoundaries | src/Simulation.cpp:402-429 | the search loop of `add_boundary` reports no match exactly when no collection matches the incoming key, and otherwise the last matching collection |
| Simulations.Simulation.constructor | src/Simulation.cpp:18-38 | Re 100, dt 0.01, zero freestream, empty lists, time 0, no stop condition, all flags false and no future |
| Simulations.Simulation.SetEndTime | src/Simulation.cpp:59 | the end time is set and enabled; nothing else changes |
| Simulations.Simulation.SetMaxSteps | src/Simulation.cpp:60 | the step limit is set and enabled; nothing else changes |
| Simulations.Simulation.SetInitialized | src/Simulation.cpp:160 | the initialized flag is raised; nothing else changes |
| Simulations.Simulation.Step | src/Simulation.cpp:305-329 | the flow becomes one `StepFlow` of the old flow: diffusion then convection, time advanced by dt; settings, flags and bodies unchanged |
| Simulations.Simulation.AsyncStep | src/Simulation.cpp:297-300 | a step is launched and marked started; a still-pending step is completed first, a serialisation of the source's overlapping steps |
| Simulations.Simulation.FinishStep | src/Simulation.cpp:297-300 | the launched task performs one step and leaves a result in the future |
| Simulations.Simulation.TestForNewResults | src/Simulation.cpp:268-292 | new results are reported exactly when no step was started or the started one is ready; in the ready case the future is consumed and the step marked finished |
| Simulations.Simulation.WaitForStep | src/Simulation.cpp:164-168 | waiting completes a pending step and leaves no future |
| Simulations.Simulation.Reset | src/Simulation.cpp:162-179 | after waiting for a running step, the time is 0, all three lists are empty, the boundary solver is reset and all flags are down; bodies and settings are kept |
| Simulations.Simulation.ClearBodies | src/Simulation.cpp:181-183 | the body list is emptied; nothing else changes |
| Simulations.Simulation.AddParticles | src/Simulation.cpp:333-361 | non-empty input has its core radii stamped with `vdelta` and is ingested into the particle list; empty input changes nothing |
| Simulations.Simulation.AddFldpts | src/Simulation.cpp:364-392 | non-empty input is ingested into the field-point list, a new collection being inert and Lagrangian or fixed as requested |
| Simulations.Simulation.AddBoundary | src/Simulation.cpp:395-449 | the boundary list becomes `AddedBoundary` of the old one; nothing else changes |
| Simulations.Simulation.GetNPanels | src/Simulation.cpp:64-75 | the result is the panel total of the boundary list |
| Simulations.Simulation.GetNParts | src/Simulation.cpp:77-83 | the result is the element total of the particle list |
| Simulations.Simulation.GetNFldpts | src/Simulation.cpp:85-91 | the result is the element total of the field-point list |
| Simulations.Simulation.DoAnyBodiesMove | src/Simulation.cpp:249-263 | the result is true exactly when some body moves between now and now + dt; every body ends with its velocity at now + dt, its definition and position untouched |
| Simulations.Simulation.CheckSimulation | src/Simulation.cpp:217-244 | the message is `Advice` of the feature count, the particle count, the freestream, whether any body moves, and the diffusion switch; every body keeps its definition and position; bodies are sampled (velocity at time + dt) exactly when there are bodies and no particles, and otherwise keep velocity and clock |
| Simulations.Simulation.AddBody | src/Simulation.cpp:452-455 | the body is appended to the registry |
| Simulations.Simulation.GetLastBody | src/Simulation.cpp:458-472 | the last registered body; with none registered, a new "ground" body at the origin, with zero velocity, orientation and rotation rate and no expressions, is registered and returned |
| Simulations.Simulation.GetPointerToBody | src/Simulation.cpp:475-493 | as written: every call registers and returns a new "ground" body at rest at the origin with no expressions, whatever the registry holds |
| Simulations.Simulation.FindBody | src/Simulation.cpp:475-493 | corrected lookup: the last body with the name when one exists (registry unchanged), a new "ground" body at rest at the origin with no expressions otherwise |
| Simulations.PointerToBodyMissesMatch | src/Simulation.cpp:475-493 | with a body named "wing" registered, looking up "wing" returns a different body named "ground" |
| Simulations.FindBodyReturnsMatch | src/Simulation.cpp:475-493 | with a body named "wing" registered, the corrected lookup returns that body |

## Left out

- Console output is not modelled, and neither is the VTK writer, the OpenGL drawing or the JSON/`description`/`output_dt` settings.
- The internals of the solvers are not modelled: diffusion, convection, the boundary-element solve and `Surfaces`/`Points` storage. They are functions the controller is given. A Surfaces collection keeps only node and panel counts, and a Points collection keeps the raw input it was handed.
- Floating-point rounding is not modelled (single precision in the features, double in the bodies), because the values are reals. `cos`/`sin`/`pi` are uninterpreted apart from the stated identity. `get_hnu`/`get_ips` are folded into the given `vdelta` function.
- The expression language of the position functions is not modelled. An expression is an arbitrary function of time, and compile errors are an absent function.
- Concurrency is not modelled. The background step is serialised: `FinishStep` runs the whole step at once, and no other operation interleaves with it.
- `unset_end_time` and `unset_max_steps` are declared in src/Simulation.h:74,76 but not defined in src/Simulation.cpp, so they have no model.
- Simulations.Simulation.AsyncStep: the source launches the new `std::async` task before the move assignment waits for the pending one, so two `step` calls can run at once on the same state. The model completes the pending step first and does not capture that overlap or its data race.
- Simulations.Simulation.TestForNewResults: an exception thrown by the diffusion or convection stage is rethrown by `stepfuture.get()` (src/Simulation.cpp:276). It then leaves `step_has_started` true with the future consumed. The stages here always return a flow, so that failing path is not modelled.
- Simulations.Simulation.Reset: an exception rethrown by `stepfuture.get()` (src/Simulation.cpp:167) stops `reset` before anything is cleared. Failing stages are not modelled, so the model always clears.
- BoundaryFeatures.RoundPanelCount, BoundaryFeatures.SidePanelCount, BoundaryFeatures.RoundPanelCountMonotone, BoundaryFeatures.SidePanelCountMonotone: the `(int)` casts at src/BoundaryFeature.cpp:28, 83 and 145 are undefined behaviour in C++ when the ratio is 2^31 or more. Common hardware then yields INT_MIN, which `std::max` turns into 5 panels (circle, oval) or 1 (square side). The model truncates without bound and clamps to the maximum instead. The monotonicity lemmas therefore do not hold of the compiled code past that point.
- Simulations.Simulation.CheckSimulation: the number of field features `nff` is accepted and ignored, as in the source.
- ElementPackets.Verify: `check == 0` is excluded, because `%` by zero is undefined behaviour in C++.
- The vectors that `init_elements` fills are modelled as sequences rebuilt at each write, not as arrays updated in place. The same holds for the particle vector whose radii `add_particles` stamps.
- Bodies.Body: the body's clock after `get_vel` is stated, but `DoAnyBodiesMove` and `SampleMotion` do not state where it ends, because no caller reads it.

## Findings

| source | as written | input that shows it | evidently intended | confidence | as-written member | corrected member |
|---|---|---|---|---|---|---|
| src/Simulation.cpp:475-493 | the loop over bodies only prints when a name matches and never sets the result pointer, so the pointer stays null and a new "ground" body is always created, registered and returned | a registry holding one body named "wing", then `get_pointer_to_body("wing")` | return the registered body with that name, and create "ground" only when none has it | high, not executed | Simulations.Simulation.GetPointerToBody, Simulations.PointerToBodyMissesMatch | Simulations.Simulation.FindBody, Simulations.FindBodyReturnsMatch |
