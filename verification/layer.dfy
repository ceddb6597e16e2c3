/**
  The per-navigator airlock-door transition layer. It keeps a mapping from
  door to request kind for the doors gating the transition in progress,
  queues one request per door when a transition begins, holds the
  navigator in place until every mapped door is open on the side its
  request names, and finishes every mapped request when the transition
  ends or the layer is destroyed.

  The layer is a value: every operation takes the current layer and world
  and returns the new layer together with the log of Queue/Finish calls it
  made on door requests, in call order.
 */
module TransitionLayer {
  import opened Wrappers
  import opened Geometry
  import opened Doors

  /** One entry of the door mapping. */
  datatype Entry = Entry(door: DoorId, kind: RequestKind)

  /**
    The layer's state: the door mapping, in the order entries were added
    (the order the mapping is enumerated in, since it only ever grows or is
    cleared).
   */
  datatype Layer = Layer(doors: seq<Entry>)

  datatype Action = Queue | Finish

  /** A call of Queue() or Finish() on the `kind` request of door `door`. */
  datatype Event = Call(act: Action, door: DoorId, kind: RequestKind)

  /** A new layer state together with the request calls that produced it. */
  datatype Step = Step(layer: Layer, events: seq<Event>)

  /** The doors that are keys of the mapping. */
  function Keys(entries: seq<Entry>): set<DoorId>
  {
    set i | 0 <= i < |entries| :: entries[i].door
  }

  /** No door is a key twice. */
  predicate NoDuplicates(entries: seq<Entry>)
  {
    forall i, j :: 0 <= i < j < |entries| ==> entries[i].door != entries[j].door
  }

  predicate Valid(l: Layer)
  {
    NoDuplicates(l.doors)
  }

  /** The state of a freshly constructed layer. */
  const Empty := Layer([])

  // ---------------------------------------------------------------------
  // Classification

  /**
    The request kind a door needs, from the x offset of the target cell
    relative to the door's base cell (`dx`) and the x offset of the
    navigator's cell relative to the target cell (`navDx`). The side is the
    side of the base cell the target lies on; the request is an Enter
    exactly when the navigator stands beyond the target on that same side,
    a navigator level with the target counting as left of it. The base
    column itself needs no request.
   */
  function Classify(dx: int, navDx: int): (r: Option<RequestKind>)
    ensures r.Some? <==> dx != 0
    ensures r.Some? ==> (SideOf(r.value) == Left <==> dx < 0)
    ensures r.Some? ==> (IsEnter(r.value) <==> ((dx > 0) == (navDx > 0)))
  {
    if dx > 0 then
      if navDx > 0 then Some(EnterRight) else Some(ExitRight)
    else if dx < 0 then
      if navDx > 0 then Some(ExitLeft) else Some(EnterLeft)
    else
      None
  }

  /**
    The kind `door` needs when a navigator in `navCell` moves into
    `doorCell`. The target offset is taken from the base cell to the target
    and the navigator offset from the target to the navigator, so with
    `GetOffset(a, b) = b - a` the side is the side of the base column the
    target lies on, and the request is an Enter exactly when the navigator
    stands further out than the target on that side.
   */
  function KindFor(door: Door, doorCell: Cell, navCell: Cell): (r: Option<RequestKind>)
    ensures r.Some? <==> doorCell.x != door.baseCell.x
    ensures r.Some? ==> (SideOf(r.value) == Left <==> doorCell.x < door.baseCell.x)
    ensures r.Some? ==> (IsEnter(r.value) <==> ((doorCell.x > door.baseCell.x) == (navCell.x > doorCell.x)))
  {
    var targetOffset := GetOffset(door.baseCell, doorCell);
    var navOffset := GetOffset(doorCell, navCell);
    Classify(targetOffset.x, navOffset.x)
  }

  /**
    The entry the door in `doorCell` calls for, ignoring what is already
    mapped: the cell holds a live, spawned door whose kind is defined.
   */
  function Candidate(w: World, doorCell: Cell, navCell: Cell): (r: Option<Entry>)
    ensures r.Some? <==>
      && DoorAt(w, doorCell).Some?
      && w.components[DoorAt(w, doorCell).value].spawned
      && doorCell.x != w.components[DoorAt(w, doorCell).value].baseCell.x
    ensures r.Some? ==>
      && r.value.door == DoorAt(w, doorCell).value
      && Some(r.value.kind) == KindFor(w.components[r.value.door], doorCell, navCell)
  {
    match DoorAt(w, doorCell)
    case None => None
    case Some(d) =>
      var door := w.components[d];
      if !door.spawned then None
      else
        match KindFor(door, doorCell, navCell)
        case None => None
        case Some(k) => Some(Entry(d, k))
  }

  predicate CandidateFor(w: World, doorCell: Cell, navCell: Cell, d: DoorId)
  {
    Candidate(w, doorCell, navCell).Some? && Candidate(w, doorCell, navCell).value.door == d
  }

  // ---------------------------------------------------------------------
  // Request calls

  /** The door still exists and the request slot for this entry is non-null. */
  predicate Slotted(w: World, e: Entry)
  {
    e.door in w.components && e.kind in w.components[e.door].slots
  }

  /**
    The calls `act` makes on the requests of `entries`, in order: one per
    entry whose door still exists and whose request slot is non-null.
   */
  function Calls(act: Action, entries: seq<Entry>, w: World): (r: seq<Event>)
    ensures |r| <= |entries|
    ensures forall e :: e in r <==> e.act == act && Entry(e.door, e.kind) in entries && Slotted(w, Entry(e.door, e.kind))
  {
    if |entries| == 0 then []
    else
      var e := entries[0];
      (if Slotted(w, e) then [Call(act, e.door, e.kind)] else []) + Calls(act, entries[1..], w)
  }

  // ---------------------------------------------------------------------
  // Operations

  /**
    RequestOpenDoor: classify `d` for the move of a navigator in `navCell`
    into `doorCell`; when a kind results, map the door to it and queue
    that request (if its slot is non-null). Nothing else is touched.
   */
  function RequestOpenDoor(l: Layer, w: World, d: DoorId, doorCell: Cell, navCell: Cell): (r: Step)
    requires d in w.components
    ensures |r.layer.doors| == |l.doors| + (if GetOffset(w.components[d].baseCell, doorCell).x == 0 then 0 else 1)
    ensures r.layer.doors[..|l.doors|] == l.doors
    ensures |r.layer.doors| > |l.doors| ==> r.layer.doors[|l.doors|].door == d
    ensures |r.layer.doors| > |l.doors| ==>
      r.layer.doors[|l.doors|].kind == Classify(GetOffset(w.components[d].baseCell, doorCell).x, GetOffset(doorCell, navCell).x).value
    ensures r.events == Calls(Queue, r.layer.doors[|l.doors|..], w)
  {
    var door := w.components[d];
    match KindFor(door, doorCell, navCell)
    case None => Step(l, [])
    case Some(k) =>
      var queued := if k in door.slots then [Call(Queue, d, k)] else [];
      assert Calls(Queue, [Entry(d, k)], w) == queued;
      Step(Layer(l.doors + [Entry(d, k)]), queued)
  }

  /**
    AddDoor: look for a door in `doorCell` and request it to open unless it
    is missing, not spawned or already mapped. The mapping grows by at most
    one entry, for a door not mapped before, and only that entry's request
    is queued. Which entry is added is stated by AddDoorAddsCandidate.
   */
  function AddDoor(l: Layer, w: World, doorCell: Cell, navCell: Cell): (r: Step)
    ensures |l.doors| <= |r.layer.doors| <= |l.doors| + 1
    ensures r.layer.doors[..|l.doors|] == l.doors
    ensures |r.layer.doors| > |l.doors| ==> r.layer.doors[|l.doors|].door !in Keys(l.doors)
    ensures r.events == Calls(Queue, r.layer.doors[|l.doors|..], w)
    ensures Valid(l) ==> Valid(r.layer)
  {
    match DoorAt(w, doorCell)
    case None => Step(l, [])
    case Some(d) =>
      if w.components[d].spawned && d !in Keys(l.doors) then
        RequestOpenDoor(l, w, d, doorCell, navCell)
      else
        Step(l, [])
  }

  /**
    The kind `d` receives when the cells are inspected in order: that of the
    first cell whose candidate is `d`, if there is one.
   */
  function FirstCandidate(w: World, cells: seq<Cell>, navCell: Cell, d: DoorId): (r: Option<RequestKind>)
    ensures r.Some? <==> exists i :: 0 <= i < |cells| && CandidateFor(w, cells[i], navCell, d)
    ensures r.Some? ==> exists i :: 0 <= i < |cells| && Candidate(w, cells[i], navCell) == Some(Entry(d, r.value))
  {
    if |cells| == 0 then None
    else if CandidateFor(w, cells[0], navCell, d) then Some(Candidate(w, cells[0], navCell).value.kind)
    else
      var r := FirstCandidate(w, cells[1..], navCell, d);
      assert forall i :: 0 <= i < |cells| - 1 ==> cells[1..][i] == cells[i + 1];
      r
  }

  /**
    AddDoor applied to each cell in turn: the mapping only grows, by at
    most one entry per cell, each for a door not mapped before, and the
    requests of exactly the new entries are queued, in order.
   */
  function AddDoors(l: Layer, w: World, cells: seq<Cell>, navCell: Cell): (r: Step)
    ensures |l.doors| <= |r.layer.doors| <= |l.doors| + |cells|
    ensures r.layer.doors[..|l.doors|] == l.doors
    ensures forall j :: |l.doors| <= j < |r.layer.doors| ==> r.layer.doors[j].door !in Keys(l.doors)
    ensures r.events == Calls(Queue, r.layer.doors[|l.doors|..], w)
    ensures Valid(l) ==> Valid(r.layer)
    decreases |cells|
  {
    if |cells| == 0 then Step(l, [])
    else
      var first := AddDoor(l, w, cells[0], navCell);
      var rest := AddDoors(first.layer, w, cells[1..], navCell);
      AppendOnlyCompose(l.doors, first.layer.doors, rest.layer.doors, first.events, rest.events, w);
      Step(rest.layer, first.events + rest.events)
  }

  /**
    AreAllDoorsOpen: every mapped door that still exists is open on the side
    its request names. Destroyed doors are skipped.
   */
  function AreAllDoorsOpen(l: Layer, w: World): (r: bool)
    ensures r <==> forall i :: 0 <= i < |l.doors| ==> Satisfied(w, l.doors[i])
    decreases |l.doors|
  {
    if |l.doors| == 0 then true
    else Satisfied(w, l.doors[0]) && AreAllDoorsOpen(Layer(l.doors[1..]), w)
  }

  /** A mapped door no longer holds the navigator back. */
  predicate Satisfied(w: World, e: Entry)
  {
    e.door !in w.components || IsOpenOn(w.components[e.door], SideOf(e.kind))
  }

  /** ClearTransitions: finish every mapped request, then empty the mapping. */
  function ClearTransitions(l: Layer, w: World): (r: Step)
    ensures r.layer == Empty
    ensures r.events == Calls(Finish, l.doors, w)
  {
    Step(Empty, Calls(Finish, l.doors, w))
  }

  // ---------------------------------------------------------------------
  // Transitions

  /** Navigation modes; a navigator in a Tube is one cell tall. */
  datatype NavType = Floor | LeftWall | RightWall | Ceiling | Ladder | Hover | Swim | Pole | Tube | Solid

  /** The navigator as the layer sees it: its cell and current nav type. */
  datatype Navigator = Navigator(cell: Cell, navType: NavType)

  /** A world position (the engine's vector); only copied, never computed with. */
  datatype Position = Position(x: real, y: real, z: real)

  /**
    The completion callback of a transition: whatever callback it already
    carried (possibly none, possibly one set by another override layer),
    which this layer never reads, or AreAllDoorsOpen of this layer.
   */
  datatype Completion = OtherCallback | WhenDoorsOpen

  /**
    The fields of the active transition that the layer reads or rewrites:
    the cell displacement, start and end positions, looping flag,
    completion callback and the extra cells the move must also clear.
   */
  datatype Transition = Transition(
    x: int,
    y: int,
    start: Position,
    end: Position,
    isLooping: bool,
    completion: Completion,
    voidOffsets: seq<CellOffset>)

  /**
    The cells a transition inspects, in order: the target cell, the cell
    above it unless the navigator is in a tube, and each void offset
    applied to the navigator's own cell.
   */
  function InspectedCells(nav: Navigator, tr: Transition): (r: seq<Cell>)
    ensures |r| == 1 + (if nav.navType == Tube then 0 else 1) + |tr.voidOffsets|
    ensures r[0] == OffsetCell(nav.cell, CellOffset(tr.x, tr.y))
    ensures nav.navType != Tube ==> r[1] == CellAbove(r[0])
    ensures forall i :: 0 <= i < |tr.voidOffsets| ==>
      r[|r| - |tr.voidOffsets| + i] == OffsetCell(nav.cell, tr.voidOffsets[i])
  {
    var target := OffsetCell(nav.cell, CellOffset(tr.x, tr.y));
    var above := if nav.navType != Tube then [CellAbove(target)] else [];
    [target] + above + seq(|tr.voidOffsets|, i requires 0 <= i < |tr.voidOffsets| => OffsetCell(nav.cell, tr.voidOffsets[i]))
  }

  /** The transition rewritten into a wait in place until all doors are open. */
  function WaitInPlace(tr: Transition): (r: Transition)
    ensures r.x == 0 && r.y == 0
    ensures r.start == tr.start && r.end == tr.start
    ensures !r.isLooping && r.completion == WhenDoorsOpen
    ensures r.voidOffsets == tr.voidOffsets
  {
    tr.(x := 0, y := 0, end := tr.start, isLooping := false, completion := WhenDoorsOpen)
  }

  /**
    Whether this layer lets transition `tr` complete in world `w`. A
    callback the layer did not install is not this layer's to judge, so it
    does not hold the transition back here.
   */
  predicate Released(tr: Transition, l: Layer, w: World)
  {
    match tr.completion
    case OtherCallback => true
    case WhenDoorsOpen => AreAllDoorsOpen(l, w)
  }

  /** Result of BeginTransition: the layer, its request calls and the (maybe rewritten) transition. */
  datatype Begun = Begun(step: Step, transition: Transition)

  /** Some mapped door is shut on the side its request names. */
  predicate Blocked(l: Layer, w: World)
  {
    |l.doors| > 0 && !AreAllDoorsOpen(l, w)
  }

  /**
    BeginTransition: finish and drop any previous mapping, then map and
    queue the doors of the inspected cells, and hold the navigator in place
    when one of them is not yet open.
   */
  function BeginTransition(l: Layer, w: World, nav: Navigator, tr: Transition): (r: Begun)
    ensures Valid(r.step.layer)
    ensures |r.step.layer.doors| <= |InspectedCells(nav, tr)|
    ensures r.step.events == Calls(Finish, l.doors, w) + Calls(Queue, r.step.layer.doors, w)
    ensures Blocked(r.step.layer, w) ==> r.transition == WaitInPlace(tr)
    ensures !Blocked(r.step.layer, w) ==> r.transition == tr
  {
    var cleared := ClearTransitions(l, w);
    var added := AddDoors(cleared.layer, w, InspectedCells(nav, tr), nav.cell);
    var layer := added.layer;
    var t := if |layer.doors| > 0 && !AreAllDoorsOpen(layer, w) then WaitInPlace(tr) else tr;
    Begun(Step(layer, cleared.events + added.events), t)
  }

  /** EndTransition: the transition is over; finish and drop every request. */
  function EndTransition(l: Layer, w: World): (r: Step)
    ensures r.layer == Empty
    ensures r.events == Calls(Finish, l.doors, w)
  {
    ClearTransitions(l, w)
  }

  /** Destroy: the navigator goes away; finish and drop every request. */
  function Destroy(l: Layer, w: World): (r: Step)
    ensures r.layer == Empty
    ensures r.events == Calls(Finish, l.doors, w)
  {
    ClearTransitions(l, w)
  }

  // ---------------------------------------------------------------------
  // Helper lemmas

  /** The calls made for two runs of entries are those of each run, in order. */
  lemma {:induction false} CallsAppend(act: Action, a: seq<Entry>, b: seq<Entry>, w: World)
    ensures Calls(act, a + b, w) == Calls(act, a, w) + Calls(act, b, w)
  {
    if |a| > 0 {
      assert (a + b)[1..] == a[1..] + b;
      CallsAppend(act, a[1..], b, w);
    } else {
      assert a + b == b;
    }
  }

  /** A mapping has no keys exactly when it has no entries. */
  lemma KeysEmpty(entries: seq<Entry>)
    ensures Keys(entries) == {} <==> entries == []
  {
    if |entries| > 0 {
      assert entries[0].door in Keys(entries);
    }
  }

  /**
    The mapping grows from `a` to `b` by appending entries for doors not
    in `a`, queueing exactly those entries' requests.
   */
  predicate AppendOnly(a: seq<Entry>, b: seq<Entry>, events: seq<Event>, w: World)
  {
    && |a| <= |b|
    && b[..|a|] == a
    && (forall j :: |a| <= j < |b| ==> b[j].door !in Keys(a))
    && events == Calls(Queue, b[|a|..], w)
    && (NoDuplicates(a) ==> NoDuplicates(b))
  }

  /** Two append-only steps in a row make one. */
  lemma AppendOnlyCompose(a: seq<Entry>, b: seq<Entry>, c: seq<Entry>, ea: seq<Event>, eb: seq<Event>, w: World)
    requires AppendOnly(a, b, ea, w) && AppendOnly(b, c, eb, w)
    ensures AppendOnly(a, c, ea + eb, w)
  {
    assert c[..|a|] == a by {
      assert c[..|a|] == c[..|b|][..|a|];
    }
    assert c[|a|..] == b[|a|..] + c[|b|..] by {
      assert c[..|b|] == b;
    }
    CallsAppend(Queue, b[|a|..], c[|b|..], w);
    KeysOfPrefix(a, b);
  }

  /** Every key of a prefix is a key of the whole mapping. */
  lemma KeysOfPrefix(a: seq<Entry>, b: seq<Entry>)
    requires |a| <= |b| && b[..|a|] == a
    ensures Keys(a) <= Keys(b)
  {
  }

  /**
    The guard of AddDoor: an entry is added exactly when the cell holds a
    live, spawned door with a defined kind that is not mapped yet, and the
    entry added is that candidate.
   */
  lemma AddDoorAddsCandidate(l: Layer, w: World, doorCell: Cell, navCell: Cell)
    ensures var r := AddDoor(l, w, doorCell, navCell).layer.doors;
      && (|r| > |l.doors| <==>
          Candidate(w, doorCell, navCell).Some? && Candidate(w, doorCell, navCell).value.door !in Keys(l.doors))
      && (|r| > |l.doors| ==> r[|l.doors|] == Candidate(w, doorCell, navCell).value)
  {
  }

  /** How one AddDoor step changes the key set, in terms of candidates. */
  lemma KeysAfterAddDoor(l: Layer, l': Layer, w: World, doorCell: Cell, navCell: Cell)
    requires l' == AddDoor(l, w, doorCell, navCell).layer
    ensures forall d :: d in Keys(l'.doors) <==> d in Keys(l.doors) || CandidateFor(w, doorCell, navCell, d)
  {
  }

  /**
    The mapping AddDoors builds is the first-candidate assignment: a door
    ends up mapped exactly when it was mapped before or some inspected cell
    has it as candidate, and each new entry carries the kind of the first
    such cell.
   */
  lemma {:induction false} AddDoorsFollowsFirstCandidate(l: Layer, w: World, cells: seq<Cell>, navCell: Cell)
    ensures var r := AddDoors(l, w, cells, navCell).layer;
      && (forall d :: d in Keys(r.doors) <==> d in Keys(l.doors) || FirstCandidate(w, cells, navCell, d).Some?)
      && (forall j :: |l.doors| <= j < |r.doors| ==> FirstCandidate(w, cells, navCell, r.doors[j].door) == Some(r.doors[j].kind))
    decreases |cells|
  {
    if |cells| > 0 {
      var first := AddDoor(l, w, cells[0], navCell).layer;
      var r := AddDoors(l, w, cells, navCell).layer;
      assert r == AddDoors(first, w, cells[1..], navCell).layer;
      AddDoorsFollowsFirstCandidate(first, w, cells[1..], navCell);
      KeysAfterAddDoor(l, first, w, cells[0], navCell);
      AddDoorAddsCandidate(l, w, cells[0], navCell);
      forall d ensures FirstCandidate(w, cells, navCell, d) ==
        if CandidateFor(w, cells[0], navCell, d) then Some(Candidate(w, cells[0], navCell).value.kind)
        else FirstCandidate(w, cells[1..], navCell, d)
      {
      }
      forall j | |l.doors| <= j < |r.doors|
        ensures FirstCandidate(w, cells, navCell, r.doors[j].door) == Some(r.doors[j].kind)
      {
        var e := r.doors[j];
        if j < |first.doors| {
          assert e == first.doors[|l.doors|] == Candidate(w, cells[0], navCell).value;
        } else {
          assert e.door !in Keys(first.doors);
          assert !CandidateFor(w, cells[0], navCell, e.door);
        }
      }
    }
  }
}
