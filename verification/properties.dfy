/**
  Properties of the airlock-door transition layer that relate several
  operations or hold for every input: the classification table and its
  symmetry, exactly-once finishing and queueing, the balance between the
  requests a transition queues and those its end finishes, the gate, and
  the handling of destroyed doors.
 */
module LayerProperties {
  import opened Wrappers
  import opened Geometry
  import opened Doors
  import opened TransitionLayer

  // ---------------------------------------------------------------------
  // Classification

  /** The classification table, row by row. */
  lemma ClassificationTable(dx: int, navDx: int)
    ensures dx > 0 && navDx > 0 ==> Classify(dx, navDx) == Some(EnterRight)
    ensures dx > 0 && navDx <= 0 ==> Classify(dx, navDx) == Some(ExitRight)
    ensures dx < 0 && navDx > 0 ==> Classify(dx, navDx) == Some(ExitLeft)
    ensures dx < 0 && navDx <= 0 ==> Classify(dx, navDx) == Some(EnterLeft)
    ensures dx == 0 ==> Classify(dx, navDx) == None
  {
  }

  /**
    Swapping left and right swaps the kind for its mirror image, as long as
    the navigator is not level with the target cell.
   */
  lemma ClassifyMirror(dx: int, navDx: int)
    requires dx != 0 && navDx != 0
    ensures Classify(-dx, -navDx) == Some(Mirror(Classify(dx, navDx).value))
  {
  }

  /**
    A navigator level with the target cell (a vertical move into a side
    cell) breaks the mirror symmetry: the right side gets an Exit request,
    the left side an Enter request.
   */
  lemma LevelNavigatorIsNotMirrored()
    ensures Classify(1, 0) == Some(ExitRight)
    ensures Classify(-1, 0) == Some(EnterLeft)
    ensures Classify(-1, 0) != Some(Mirror(Classify(1, 0).value))
  {
  }

  /**
    Which side a door has to open depends on the target cell alone, never
    on where the navigator stands; so the Enter/Exit choice cannot change
    whether the navigator is held.
   */
  lemma SideIgnoresNavigator(dx: int, navDx: int, navDx': int)
    requires dx != 0
    ensures SideOf(Classify(dx, navDx).value) == SideOf(Classify(dx, navDx').value)
  {
  }

  // ---------------------------------------------------------------------
  // Exactly-once request calls

  /** The multiplicity of `e` in the calls `act` makes for the entries. */
  lemma {:induction false} CallsExactlyOnce(act: Action, entries: seq<Entry>, w: World)
    requires NoDuplicates(entries)
    ensures forall a, d, k :: multiset(Calls(act, entries, w))[Call(a, d, k)] ==
              (if a == act && Entry(d, k) in entries && Slotted(w, Entry(d, k)) then 1 else 0)
  {
    if |entries| > 0 {
      var e := entries[0];
      var rest := entries[1..];
      assert NoDuplicates(rest);
      CallsExactlyOnce(act, rest, w);
      assert entries == [e] + rest;
      forall a, d, k
        ensures multiset(Calls(act, entries, w))[Call(a, d, k)] ==
          if a == act && Entry(d, k) in entries && Slotted(w, Entry(d, k)) then 1 else 0
      {
        if Entry(d, k) == e {
          assert Entry(d, k) !in rest by {
            forall i | 0 <= i < |rest| ensures rest[i].door != d {
              assert rest[i] == entries[i + 1];
            }
          }
        }
      }
    }
  }

  /**
    ClearTransitions empties the mapping and finishes, exactly once, the
    request of every mapped door that still exists and whose slot for the
    mapped kind is non-null; nothing else is finished and nothing is queued.
   */
  lemma ClearFinishesExactlyOnce(l: Layer, w: World)
    requires Valid(l)
    ensures ClearTransitions(l, w).layer.doors == []
    ensures forall a, d, k :: multiset(ClearTransitions(l, w).events)[Call(a, d, k)] ==
              (if a == Finish && Entry(d, k) in l.doors && Slotted(w, Entry(d, k)) then 1 else 0)
  {
    CallsExactlyOnce(Finish, l.doors, w);
  }

  /** EndTransition and Destroy leave no entry behind and finish each mapped request once. */
  lemma TeardownLeavesNothing(l: Layer, w: World)
    requires Valid(l)
    ensures EndTransition(l, w).layer.doors == [] && Destroy(l, w).layer.doors == []
    ensures forall a, d, k :: multiset(EndTransition(l, w).events)[Call(a, d, k)] ==
              (if a == Finish && Entry(d, k) in l.doors && Slotted(w, Entry(d, k)) then 1 else 0)
    ensures forall a, d, k :: multiset(Destroy(l, w).events)[Call(a, d, k)] ==
              (if a == Finish && Entry(d, k) in l.doors && Slotted(w, Entry(d, k)) then 1 else 0)
  {
    CallsExactlyOnce(Finish, l.doors, w);
  }

  /** Once torn down, the layer's completion predicate no longer holds anybody back. */
  lemma TeardownReleasesGate(l: Layer, w: World, w': World)
    ensures AreAllDoorsOpen(EndTransition(l, w).layer, w')
    ensures AreAllDoorsOpen(Destroy(l, w).layer, w')
  {
  }

  // ---------------------------------------------------------------------
  // Guard

  /** A door that is already mapped is neither mapped again nor re-queued. */
  lemma MappedDoorIsNotRequeued(l: Layer, w: World, doorCell: Cell, navCell: Cell)
    requires DoorAt(w, doorCell).Some? && DoorAt(w, doorCell).value in Keys(l.doors)
    ensures AddDoor(l, w, doorCell, navCell) == Step(l, [])
  {
  }

  // ---------------------------------------------------------------------
  // BeginTransition

  /**
    BeginTransition starts from an empty mapping: afterwards a door is
    mapped exactly when some inspected cell has it as candidate (live,
    spawned, off its base column), with the kind of the first such cell,
    whatever was mapped before.
   */
  lemma BeginStartsFromEmpty(l: Layer, w: World, nav: Navigator, tr: Transition)
    ensures var m := BeginTransition(l, w, nav, tr).step.layer.doors;
      && (forall d :: d in Keys(m) <==> FirstCandidate(w, InspectedCells(nav, tr), nav.cell, d).Some?)
      && (forall j :: 0 <= j < |m| ==> FirstCandidate(w, InspectedCells(nav, tr), nav.cell, m[j].door) == Some(m[j].kind))
  {
    AddDoorsFollowsFirstCandidate(Empty, w, InspectedCells(nav, tr), nav.cell);
  }

  /**
    BeginTransition finishes each previously mapped request once and
    queues each newly mapped request once, and makes no other call.
   */
  lemma BeginCallsExactlyOnce(l: Layer, w: World, nav: Navigator, tr: Transition)
    requires Valid(l)
    ensures var b := BeginTransition(l, w, nav, tr).step;
      forall d, k ::
        && multiset(b.events)[Call(Finish, d, k)] == (if Entry(d, k) in l.doors && Slotted(w, Entry(d, k)) then 1 else 0)
        && multiset(b.events)[Call(Queue, d, k)] == (if Entry(d, k) in b.layer.doors && Slotted(w, Entry(d, k)) then 1 else 0)
  {
    var b := BeginTransition(l, w, nav, tr).step;
    FinishThenQueueExactlyOnce(l.doors, b.layer.doors, w, b.events);
  }

  /** Finishing one duplicate-free mapping and then queueing another calls each slot at most once per side. */
  lemma FinishThenQueueExactlyOnce(before: seq<Entry>, after: seq<Entry>, w: World, events: seq<Event>)
    requires NoDuplicates(before) && NoDuplicates(after)
    requires events == Calls(Finish, before, w) + Calls(Queue, after, w)
    ensures forall d, k ::
      && multiset(events)[Call(Finish, d, k)] == (if Entry(d, k) in before && Slotted(w, Entry(d, k)) then 1 else 0)
      && multiset(events)[Call(Queue, d, k)] == (if Entry(d, k) in after && Slotted(w, Entry(d, k)) then 1 else 0)
  {
    CallsExactlyOnce(Finish, before, w);
    CallsExactlyOnce(Queue, after, w);
  }

  /** The request slots of the mapped doors are the same in both worlds. */
  predicate SameSlots(entries: seq<Entry>, w: World, w': World)
  {
    forall i :: 0 <= i < |entries| ==> Slotted(w, entries[i]) == Slotted(w', entries[i])
  }

  /**
    Every request a transition queues is finished exactly once when it
    ends, provided the doors' request slots have not changed in between.
   */
  lemma QueueFinishBalanced(l: Layer, w: World, nav: Navigator, tr: Transition, w': World)
    requires SameSlots(BeginTransition(l, w, nav, tr).step.layer.doors, w, w')
    ensures var b := BeginTransition(l, w, nav, tr).step;
      var e := EndTransition(b.layer, w');
      forall d, k :: multiset(Calls(Queue, b.layer.doors, w))[Call(Queue, d, k)] == multiset(e.events)[Call(Finish, d, k)]
  {
    var b := BeginTransition(l, w, nav, tr).step;
    QueuedAreFinished(b.layer.doors, w, w');
  }

  /** Over one duplicate-free mapping with unchanged slots, Queue and Finish reach the same slots once each. */
  lemma QueuedAreFinished(m: seq<Entry>, w: World, w': World)
    requires NoDuplicates(m) && SameSlots(m, w, w')
    ensures forall d, k :: multiset(Calls(Queue, m, w))[Call(Queue, d, k)] == multiset(Calls(Finish, m, w'))[Call(Finish, d, k)]
  {
    CallsExactlyOnce(Queue, m, w);
    CallsExactlyOnce(Finish, m, w');
    forall d, k | Entry(d, k) in m ensures Slotted(w, Entry(d, k)) == Slotted(w', Entry(d, k)) {
      var i :| 0 <= i < |m| && m[i] == Entry(d, k);
    }
  }

  /**
    When no inspected cell holds a door, the transition passes unchanged
    and the mapping stays empty.
   */
  lemma NoDoorsNoOverride(l: Layer, w: World, nav: Navigator, tr: Transition)
    requires forall i :: 0 <= i < |InspectedCells(nav, tr)| ==> DoorAt(w, InspectedCells(nav, tr)[i]).None?
    ensures BeginTransition(l, w, nav, tr).step.layer == Empty
    ensures BeginTransition(l, w, nav, tr).transition == tr
  {
    var m := BeginTransition(l, w, nav, tr).step.layer.doors;
    BeginStartsFromEmpty(l, w, nav, tr);
    assert Keys(m) == {};
    KeysEmpty(m);
  }

  /**
    When BeginTransition holds the navigator, the transition stays in place
    without displacement or looping, it is not released in the world it was
    judged in, and later it is released exactly when every mapped door
    still present is open on its side. Otherwise the transition is
    untouched.
   */
  lemma GateHoldsUntilOpen(l: Layer, w: World, nav: Navigator, tr: Transition, w': World)
    ensures var b := BeginTransition(l, w, nav, tr);
      Blocked(b.step.layer, w) ==>
        && b.transition.x == 0 && b.transition.y == 0
        && b.transition.end == tr.start && !b.transition.isLooping
        && !Released(b.transition, b.step.layer, w)
        && (Released(b.transition, b.step.layer, w') <==>
            forall i :: 0 <= i < |b.step.layer.doors| ==> Satisfied(w', b.step.layer.doors[i]))
    ensures var b := BeginTransition(l, w, nav, tr);
      !Blocked(b.step.layer, w) ==> b.transition == tr
  {
  }

  // ---------------------------------------------------------------------
  // AreAllDoorsOpen

  /** An empty mapping never holds the navigator. */
  lemma NothingMappedIsOpen(w: World)
    ensures AreAllDoorsOpen(Empty, w)
  {
  }

  /**
    A destroyed door is skipped: once `d` is gone, the doors are all open
    as soon as every other mapped door is open on its side.
   */
  lemma DestroyedDoorIsSkipped(l: Layer, w: World, d: DoorId)
    requires forall i :: 0 <= i < |l.doors| && l.doors[i].door != d ==> Satisfied(w, l.doors[i])
    ensures AreAllDoorsOpen(l, RemoveDoor(w, d))
  {
  }

  /** Destroying a door never turns an open verdict into a closed one. */
  lemma DestroyingKeepsOpen(l: Layer, w: World, d: DoorId)
    requires AreAllDoorsOpen(l, w)
    ensures AreAllDoorsOpen(l, RemoveDoor(w, d))
  {
  }

  // ---------------------------------------------------------------------
  // A worked transition

  /** A three-wide, two-tall door anchored at (5, 5), both sides shut, all slots present. */
  function ShutDoorWorld(): World
  {
    var door := Door(Cell(5, 5), false, false, true, {EnterLeft, EnterRight, ExitLeft, ExitRight});
    World(map[Cell(4, 5) := 0, Cell(5, 5) := 0, Cell(6, 5) := 0,
              Cell(4, 6) := 0, Cell(5, 6) := 0, Cell(6, 6) := 0],
          map[0 := door])
  }

  /**
    A navigator standing in the door's base column steps right into its
    right cell: the move leaves the airlock on the right, so ExitRight is
    mapped and queued once (the cell above belongs to the same door and adds
    nothing), and with the right side shut the navigator waits in place.
   */
  lemma StepOutOfRightSide(start: Position)
    ensures var tr := Transition(1, 0, start, start, true, OtherCallback, []);
      var b := BeginTransition(Empty, ShutDoorWorld(), Navigator(Cell(5, 5), Floor), tr);
      && b.step.layer.doors == [Entry(0, ExitRight)]
      && b.step.events == [Call(Queue, 0, ExitRight)]
      && b.transition == WaitInPlace(tr)
  {
    var w := ShutDoorWorld();
    var nav := Navigator(Cell(5, 5), Floor);
    var tr := Transition(1, 0, start, start, true, OtherCallback, []);
    var cells := InspectedCells(nav, tr);
    assert cells == [Cell(6, 5), Cell(6, 6)];
    assert Candidate(w, Cell(6, 5), nav.cell) == Some(Entry(0, ExitRight));
    var first := AddDoor(Empty, w, Cell(6, 5), nav.cell);
    assert first.layer.doors == [Entry(0, ExitRight)];
    assert AddDoor(first.layer, w, Cell(6, 6), nav.cell) == Step(first.layer, []) by {
      assert 0 in Keys(first.layer.doors);
    }
    assert AddDoors(first.layer, w, cells[1..], nav.cell).layer == first.layer;
    assert Calls(Queue, [Entry(0, ExitRight)], w) == [Call(Queue, 0, ExitRight)];
  }
}
