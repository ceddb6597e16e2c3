/**
  The environment the transition layer works against: airlock doors, the
  four request kinds a door accepts, and the grid that says which door
  occupies a cell. Door internals (energy, animation) are not modelled: the
  open flags and the set of non-null request slots are plain state that the
  simulation may change between two calls into the layer.
 */
module Doors {
  import opened Wrappers
  import opened Geometry

  /** Identity of a door building; the layer keys its mapping by it. */
  type DoorId = nat

  /** DoorRequestType: why one side of a door has to open. */
  datatype RequestKind = EnterLeft | EnterRight | ExitLeft | ExitRight

  datatype Side = Left | Right

  /** The side of the door a request kind concerns. */
  function SideOf(k: RequestKind): Side
  {
    match k
    case EnterLeft | ExitLeft => Left
    case EnterRight | ExitRight => Right
  }

  predicate IsEnter(k: RequestKind)
  {
    k == EnterLeft || k == EnterRight
  }

  /** The same request seen in a mirror: left and right swapped. */
  function Mirror(k: RequestKind): (r: RequestKind)
    ensures SideOf(r) != SideOf(k)
    ensures IsEnter(r) == IsEnter(k)
  {
    match k
    case EnterLeft => EnterRight
    case EnterRight => EnterLeft
    case ExitLeft => ExitRight
    case ExitRight => ExitLeft
  }

  /**
    One airlock door as the layer sees it: its placement anchor, whether
    each side is currently open, whether it has spawned, and which of its
    four request slots are non-null.
   */
  datatype Door = Door(
    baseCell: Cell,
    leftOpen: bool,
    rightOpen: bool,
    spawned: bool,
    slots: set<RequestKind>)

  /** IsLeftOpen / IsRightOpen. */
  predicate IsOpenOn(door: Door, s: Side)
  {
    match s
    case Left => door.leftOpen
    case Right => door.rightOpen
  }

  /**
    The simulation state the layer reads. A cell is in `grid` when it holds
    a door building (Grid.HasDoor); the building's id is in `components`
    when it carries a live airlock-door component. A destroyed door, which
    the engine reports as null, is an id missing from `components`.
   */
  datatype World = World(grid: map<Cell, DoorId>, components: map<DoorId, Door>)

  /**
    The live airlock door occupying cell `c`, if any: the cell has a door
    building and that building's airlock-door component is not null.
   */
  function DoorAt(w: World, c: Cell): (r: Option<DoorId>)
    ensures r.Some? <==> c in w.grid && w.grid[c] in w.components
    ensures r.Some? ==> r.value == w.grid[c] && r.value in w.components
  {
    if c in w.grid && w.grid[c] in w.components then Some(w.grid[c]) else None
  }

  /** The world after door `d` has been destroyed. */
  function RemoveDoor(w: World, d: DoorId): (r: World)
    ensures d !in r.components
    ensures forall d' :: d' in w.components && d' != d ==> d' in r.components && r.components[d'] == w.components[d']
    ensures r.components.Keys == w.components.Keys - {d}
  {
    w.(components := w.components - {d})
  }
}
