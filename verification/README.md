# Insulated airlock door: navigation transition layer

This project is a Dafny model of `InsulatedAirlockDoorTransitionLayer`. This is
the override layer that each navigating Duplicant carries so it can pass
through an insulated airlock door. The layer keeps a mapping from door to
request kind (`EnterLeft`, `EnterRight`, `ExitLeft`, `ExitRight`). It has four jobs:

- At the start of a transition it clears the old mapping. It then inspects the
  target cell, the cell above the target (unless the Duplicant is in a tube)
  and every void offset of the move. For each live, spawned door it finds
  that is not mapped yet, it classifies the request the door needs, maps the
  door to it and queues that request. A target in the door's base column
  needs no request, so the door is not mapped. A door whose request slot
  for that kind is null is still mapped, but nothing is queued.
- It gates the movement. If any mapped door is shut on the side its request
  names, the transition becomes a wait in place. The wait's completion
  callback is the same all-doors-open check.
- At the end of a transition, and when the layer is destroyed, it finishes
  every mapped request and empties the mapping.
- Destroyed doors are skipped by the open check and by the finish loop.

The model is functional. A `Layer` is a value holding the mapping as a
sequence of entries in insertion order, with a no-duplicate-door invariant
(`Valid`). The simulation state is a `World` value. Every operation returns
the new layer together with a log of the `Queue()` and `Finish()` calls it
made on door requests (`Event`), in call order.

Files:

- `wrappers.dfy`: `Option`, which stands in for a null reference.
- `geometry.dfy`: cells, offsets, `GetOffset`, `OffsetCell`, `CellAbove`.
- `doors.dfy`: the environment. It holds the request kinds, the door as the
  layer sees it (open flags, spawned flag, non-null request slots), and the
  world (which door occupies a cell, and which doors still exist).
- `layer.dfy`: the layer's state and operations. These are classification,
  `RequestOpenDoor`, `AddDoor`, `AreAllDoorsOpen`, `ClearTransitions`,
  `BeginTransition`, `EndTransition` and `Destroy`.
- `properties.dfy`: lemmas that relate the operations.

Modelling decisions:

- `Grid.GetOffset(a, b)` is taken to be `b - a`, componentwise. Under that
  convention, take a Duplicant standing in a door's base column who steps
  right into the door's right cell. The code classifies this move as
  `ExitRight`, not `EnterRight` (`LayerProperties.StepOutOfRightSide`). The
  model follows the code.
- Classification is not mirror-symmetric when the navigator is level with the
  target cell (`navOffset.x == 0`, a vertical move into a side cell). Such a
  move gives `ExitRight` on the right side but `EnterLeft` on the left side.
  This is what the code does. The gate depends only on the side, so it does
  not change whether the navigator waits (`LayerProperties.SideIgnoresNavigator`).
- A destroyed door is one missing from `World.components`; this is the
  engine's null key. A door that is present but not spawned is only refused
  by `AddDoor`. `AreAllDoorsOpen` skips only missing doors, as the code does.
- A cell is in `World.grid` exactly when `Grid.HasDoor` holds for it. A door
  id missing from `World.components` is a component lookup that returned null.
- The dictionary is enumerated in insertion order. It only ever grows by
  `Add` or is cleared. The order affects only the order of the event log.
- A door's open flags do not change during one call into the layer. The
  world is a parameter, and between calls it may be anything.

## Model

| member | source | states |
|---|---|---|
| TransitionLayer.Classify | InsulatedAirlockDoorTransitionLayer.cs:153-172 | The base column (dx = 0) needs no request. Otherwise the side is Left exactly when the target is left of the base cell, and the request is an Enter exactly when the navigator is beyond the target on that side (level counts as left). |
| LayerProperties.ClassificationTable | InsulatedAirlockDoorTransitionLayer.cs:153-172 | The five rows of the table: (>0,>0) EnterRight, (>0,<=0) ExitRight, (<0,>0) ExitLeft, (<0,<=0) EnterLeft, dx = 0 none. |
| LayerProperties.ClassifyMirror | InsulatedAirlockDoorTransitionLayer.cs:154-172 | Negating both offsets, with the navigator not level, yields the mirror-image kind. |
| LayerProperties.LevelNavigatorIsNotMirrored | InsulatedAirlockDoorTransitionLayer.cs:156-168 | With navOffset.x = 0 the right side gets ExitRight and the left side EnterLeft, which are not mirror images. |
| LayerProperties.SideIgnoresNavigator | InsulatedAirlockDoorTransitionLayer.cs:153-172 | The side a request names depends on dx alone, whatever the navigator's offset. |
| TransitionLayer.RequestOpenDoor | InsulatedAirlockDoorTransitionLayer.cs:148-173 | The mapping grows by one entry exactly when dx is nonzero, and earlier entries are untouched. The new entry is this door, with the kind the classification table gives for the target offset and the navigator offset. The only call made is Queue on the new entry's own slot, and only when that slot is non-null. |
| TransitionLayer.KindFor | InsulatedAirlockDoorTransitionLayer.cs:149-153 | Under `GetOffset(a, b) = b - a`, the target offset runs from base cell to target and the navigator offset from target to navigator. So a kind exists exactly when the target is off the base column, and it is a Left kind exactly when the target is left of the base. It is an Enter exactly when the navigator is strictly further out than the target on the right side, or not strictly right of it on the left side. |
| Doors.DoorAt | InsulatedAirlockDoorTransitionLayer.cs:43-46 | A door is found exactly when the cell has a door building (`Grid.HasDoor`) and its airlock-door component is not null. The door found is that building. |
| TransitionLayer.Candidate | InsulatedAirlockDoorTransitionLayer.cs:43-47 | The entry the cell calls for, with the `ContainsKey` test left out. It exists exactly when the cell holds a live door that has spawned and the target is off its base column. Its door is that door and its kind is the one KindFor gives. |
| TransitionLayer.Calls | InsulatedAirlockDoorTransitionLayer.cs:111-127 | The calls made over a run of entries are exactly those on slots named by an entry whose door still exists and whose slot is non-null. No other slot of any door is touched. |
| TransitionLayer.AddDoor | InsulatedAirlockDoorTransitionLayer.cs:42-49 | The mapping grows by at most one entry, for a door that is not already a key. Only that entry's request is queued, and the mapping stays free of duplicates. |
| TransitionLayer.AddDoorAddsCandidate | InsulatedAirlockDoorTransitionLayer.cs:42-49 | An entry is added exactly when the cell holds a door whose component is non-null and spawned, whose kind is defined and which is not already a key. The entry added is that door with that kind. |
| LayerProperties.MappedDoorIsNotRequeued | InsulatedAirlockDoorTransitionLayer.cs:46-47 | A door that is already a key leaves the layer unchanged and produces no call. |
| TransitionLayer.AddDoors | InsulatedAirlockDoorTransitionLayer.cs:86-92 | Inspecting cells in turn only appends entries, at most one per cell, each for a previously unmapped door. It keeps the mapping duplicate-free and queues exactly the new entries' requests. |
| TransitionLayer.FirstCandidate | InsulatedAirlockDoorTransitionLayer.cs:86-92 | A door gets a kind from a run of cells exactly when some cell has it as candidate, and that kind is the one the door has at such a cell. |
| TransitionLayer.AddDoorsFollowsFirstCandidate | InsulatedAirlockDoorTransitionLayer.cs:86-92 | After the cells are inspected, a door is a key exactly when it was one before or some cell has it as candidate. Each new entry has the kind given by the first such cell. |
| TransitionLayer.InspectedCells | InsulatedAirlockDoorTransitionLayer.cs:83-92 | The inspected cells are the target cell, then the cell above it unless in a tube, then each void offset from the navigator's cell. |
| TransitionLayer.AreAllDoorsOpen | InsulatedAirlockDoorTransitionLayer.cs:55-78 | True exactly when every mapped door that still exists is open on the side its kind names: left kinds need IsLeftOpen and right kinds need IsRightOpen. |
| LayerProperties.NothingMappedIsOpen | InsulatedAirlockDoorTransitionLayer.cs:55-58 | An empty mapping counts as all open. |
| LayerProperties.DestroyedDoorIsSkipped | InsulatedAirlockDoorTransitionLayer.cs:58-59 | Once door d is destroyed, the doors count as all open if every other mapped door is open on its side. |
| LayerProperties.DestroyingKeepsOpen | InsulatedAirlockDoorTransitionLayer.cs:58-59 | Destroying a door never turns an all-open verdict into a closed one. |
| TransitionLayer.ClearTransitions | InsulatedAirlockDoorTransitionLayer.cs:109-129 | Afterwards the layer is empty, and the calls made are Finish calls over the old mapping. |
| LayerProperties.CallsExactlyOnce | InsulatedAirlockDoorTransitionLayer.cs:111-127 | In a duplicate-free mapping, each (door, kind) slot is called exactly once if it is mapped, still exists and is non-null, and never otherwise. |
| LayerProperties.ClearFinishesExactlyOnce | InsulatedAirlockDoorTransitionLayer.cs:109-129 | ClearTransitions empties the mapping. It finishes each mapped, live, non-null request exactly once, finishes nothing else and queues nothing. |
| TransitionLayer.EndTransition | InsulatedAirlockDoorTransitionLayer.cs:136-140 | Ending a transition leaves the layer empty, after Finish calls over the old mapping. |
| TransitionLayer.Destroy | InsulatedAirlockDoorTransitionLayer.cs:131-134 | Destroying the layer leaves it empty, after Finish calls over the old mapping. |
| LayerProperties.TeardownLeavesNothing | InsulatedAirlockDoorTransitionLayer.cs:131-140 | EndTransition and Destroy both leave no entry and finish each mapped request exactly once. |
| LayerProperties.TeardownReleasesGate | InsulatedAirlockDoorTransitionLayer.cs:131-140 | After teardown the all-open check holds in any world. |
| TransitionLayer.WaitInPlace | InsulatedAirlockDoorTransitionLayer.cs:95-102 | The wait has zero displacement, ends where it starts, does not loop and completes on the all-open check. The void offsets are kept. |
| TransitionLayer.BeginTransition | InsulatedAirlockDoorTransitionLayer.cs:80-104 | The new mapping is duplicate-free and has at most one entry per inspected cell. The calls are the old mapping's Finish calls followed by the new mapping's Queue calls. The transition becomes a wait exactly when the mapping is non-empty and not all open. |
| LayerProperties.BeginStartsFromEmpty | InsulatedAirlockDoorTransitionLayer.cs:83-92 | After BeginTransition, a door is a key exactly when one of this transition's cells has it as candidate, with the kind from the first such cell. Nothing survives from the previous mapping. |
| LayerProperties.BeginCallsExactlyOnce | InsulatedAirlockDoorTransitionLayer.cs:85-92 | BeginTransition finishes each old live, non-null request once and queues each new live, non-null request once, and makes no other call. |
| LayerProperties.QueueFinishBalanced | InsulatedAirlockDoorTransitionLayer.cs:80-140 | If the slots are unchanged, every request queued by BeginTransition is finished exactly once by the following EndTransition, and nothing else is finished. |
| LayerProperties.NoDoorsNoOverride | InsulatedAirlockDoorTransitionLayer.cs:86-94 | When no inspected cell holds a door, the mapping stays empty and the transition passes unchanged. |
| LayerProperties.GateHoldsUntilOpen | InsulatedAirlockDoorTransitionLayer.cs:94-103 | When blocked, the transition stands still and is not released in the world it was judged in. In any later world it is released exactly when every mapped door still present is open on its side. When not blocked it is unchanged. |
| LayerProperties.StepOutOfRightSide | InsulatedAirlockDoorTransitionLayer.cs:80-104 | A step from the base column into the right cell of a shut door maps and queues ExitRight once and turns the move into a wait. |

## Left out

- `InsulatedAirlockDoorConfig.cs` is left out. It is building registration and tuning constants (construction time, power, thermal values), with no behaviour to state.
- `InsulatedAirlockDoorPatches.cs` is left out. It holds engine hooks, localisation and insulation messages sent to the simulation, all of which are foreign calls.
- The door component's internals are not modelled: energy, animation, and how `IsLeftOpen`/`IsRightOpen` become true. The open flags and the non-null request slots are plain state that may change between calls. So the request states (idle, queued, done) and what `Queue`/`Finish` do inside a request are not modelled. The model records only the calls.
- The calls to the base class (`base.BeginTransition`, `base.EndTransition`, `base.Destroy`) are not modelled, because the override layer base class is not part of this model.
- The animation fields of the wait (`anim`, `speed`, `animSpeed`) and the idle-animation lookup are left out. They are floats and animation tokens with no logical content. The start and end positions are kept as copied values.
- The engine's overloaded null on destroyed objects is reduced to "id missing from `World.components`". Per-tick polling by the transition driver is reduced to evaluating `Released` in any later world.
- Grid bounds are not modelled. Cells are unbounded integer pairs, and a cell outside the grid simply holds no door.
- `QueueFinishBalanced` requires that the doors' request slots be the same at begin and at end. If a door is destroyed in between, the code skips finishing its request and leaves that to the door's own destroy handling, which is not part of this model.
