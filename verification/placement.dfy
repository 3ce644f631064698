/** The spillover search `findPlacement` (backend/index.js:107-127). */
module Placement {
  import opened Wrappers
  import opened Members

  /** What the search reports. `Spinning` means the fuel ran out: in the
      source the callback chain simply never ends. `Missing` is a read that
      found no row, where the source dereferences `undefined` and throws. */
  datatype Placement = Found(node: Id, side: Side) | Missing(id: Id) | Spinning

  /** Start at `start`; take its `side` slot if empty, otherwise repeat from
      the child on that same side. Each step reads one row and costs one fuel. */
  function FindPlacement(t: Table, start: Id, side: Side, fuel: nat): (r: Placement)
    ensures r.Found? ==> r.side == side && Valid(t, r.node) && Row(t, r.node).Child(side).None?
    ensures fuel > 0 && Valid(t, start) ==>
      (r == Found(start, side) <==> Row(t, start).Child(side).None?)
    ensures r.Missing? ==> !Valid(t, r.id)
    decreases fuel
  {
    if fuel == 0 then Spinning
    else if !Valid(t, start) then Missing(start)
    else
      match Row(t, start).Child(side)
      case None => Found(start, side)
      case Some(c) => FindPlacement(t, c, side, fuel - 1)
  }

  /** The node reached from `x` by following `k` links on `side` alone. */
  function Follow(t: Table, x: Id, side: Side, k: nat): Option<Id>
    decreases k
  {
    if k == 0 then Some(x)
    else if !Valid(t, x) then None
    else
      match Row(t, x).Child(side)
      case None => None
      case Some(c) => Follow(t, c, side, k - 1)
  }

  /** `x` names a row whose `side` slot is taken. */
  predicate Occupied(t: Table, x: Option<Id>, side: Side) {
    x.Some? && Valid(t, x.value) && Row(t, x.value).Child(side).Some?
  }

  /** `p` is `k` links down the `side` spine of `start`, its own `side` slot
      is free, and every node above it on that spine has its `side` slot taken. */
  predicate FirstFreeAt(t: Table, start: Id, side: Side, k: nat, p: Id) {
    && Follow(t, start, side, k) == Some(p)
    && Valid(t, p) && Row(t, p).Child(side).None?
    && forall j :: 0 <= j < k ==> Occupied(t, Follow(t, start, side, j), side)
  }

  /** The node found is the first node with a free `side` slot on the `side`
      spine of the start, fewer than `fuel` links down. */
  lemma {:induction false} FoundOnSpine(t: Table, start: Id, side: Side, fuel: nat)
    requires FindPlacement(t, start, side, fuel).Found?
    ensures exists k :: 0 <= k < fuel && FirstFreeAt(t, start, side, k, FindPlacement(t, start, side, fuel).node)
    decreases fuel
  {
    var p := FindPlacement(t, start, side, fuel).node;
    match Row(t, start).Child(side)
    case None =>
      assert FirstFreeAt(t, start, side, 0, p);
    case Some(c) =>
      FoundOnSpine(t, c, side, fuel - 1);
      var k :| 0 <= k < fuel - 1 && FirstFreeAt(t, c, side, k, p);
      assert Follow(t, start, side, k + 1) == Some(p);
      forall j | 0 <= j < k + 1
        ensures Occupied(t, Follow(t, start, side, j), side)
      {
        if j > 0 {
          assert Follow(t, start, side, j) == Follow(t, c, side, j - 1);
        }
      }
      assert FirstFreeAt(t, start, side, k + 1, p);
  }

  /** Conversely, the first free slot on the spine is found whenever the
      fuel reaches past it. */
  lemma {:induction false} SpineSlotFound(t: Table, start: Id, side: Side, k: nat, p: Id, fuel: nat)
    requires FirstFreeAt(t, start, side, k, p) && k < fuel
    ensures FindPlacement(t, start, side, fuel) == Found(p, side)
    decreases k
  {
    if k > 0 {
      assert Occupied(t, Follow(t, start, side, 0), side);
      var c := Row(t, start).Child(side).value;
      assert Follow(t, start, side, k) == Follow(t, c, side, k - 1);
      forall j | 0 <= j < k - 1
        ensures Occupied(t, Follow(t, c, side, j), side)
      {
        assert Follow(t, start, side, j + 1) == Follow(t, c, side, j);
        assert Occupied(t, Follow(t, start, side, j + 1), side);
      }
      SpineSlotFound(t, c, side, k - 1, p, fuel - 1);
    }
  }

  /** Links on `side` agree row by row. */
  predicate SameLinks(t: Table, t': Table, side: Side) {
    |t| == |t'| && forall i :: 0 <= i < |t| ==> t[i].Child(side) == t'[i].Child(side)
  }

  /** A search on `side` never looks at the other side's links: tables that
      agree on `side` links give the same answer. */
  lemma {:induction false} SearchSeesOneSide(t: Table, t': Table, start: Id, side: Side, fuel: nat)
    requires SameLinks(t, t', side)
    ensures FindPlacement(t, start, side, fuel) == FindPlacement(t', start, side, fuel)
    decreases fuel
  {
    if fuel > 0 && Valid(t, start) {
      assert Row(t, start).Child(side) == Row(t', start).Child(side);
      match Row(t, start).Child(side)
      case None =>
      case Some(c) => SearchSeesOneSide(t, t', c, side, fuel - 1);
    }
  }

  /** Every link points at an existing row. */
  predicate LinksValid(t: Table) {
    forall i, side: Side :: 0 <= i < |t| && t[i].Child(side).Some? ==> Valid(t, t[i].Child(side).value)
  }

  /** When every link names a row, the search never reads a missing row. */
  lemma {:induction false} SearchStaysInside(t: Table, start: Id, side: Side, fuel: nat)
    requires LinksValid(t) && Valid(t, start)
    ensures !FindPlacement(t, start, side, fuel).Missing?
    decreases fuel
  {
    if fuel > 0 {
      match Row(t, start).Child(side)
      case None =>
      case Some(c) =>
        assert t[start - 1].Child(side) == Some(c);
        SearchStaysInside(t, c, side, fuel - 1);
    }
  }

  /** Every link is answered by the same-side link of its target: the shape
      the source's INSERT leaves behind (a new row's own `side` field holds
      its placement node). */
  predicate Mirrored(t: Table) {
    forall i, side: Side :: 0 <= i < |t| && t[i].Child(side).Some? ==>
      Valid(t, t[i].Child(side).value) && Row(t, t[i].Child(side).value).Child(side) == Some(i + 1)
  }

  /** Every link points at a later row: the shape of a tree grown by
      appending each new row below an existing one. */
  predicate ChildrenLater(t: Table) {
    forall i, side: Side :: 0 <= i < |t| && t[i].Child(side).Some? ==>
      i + 1 < t[i].Child(side).value <= |t|
  }

  /** In a mirrored table an occupied slot starts a 2-cycle, so the search
      spins whatever the fuel: spillover never finds a place. */
  lemma {:induction false} MirroredSpineSpins(t: Table, start: Id, side: Side, fuel: nat)
    requires Mirrored(t)
    requires Valid(t, start) && Row(t, start).Child(side).Some?
    ensures FindPlacement(t, start, side, fuel) == Spinning
    decreases fuel
  {
    if fuel >= 2 {
      var c := Row(t, start).Child(side).value;
      assert Row(t, c).Child(side) == Some(start);
      MirroredSpineSpins(t, start, side, fuel - 2);
    } else if fuel == 1 {
      var c := Row(t, start).Child(side).value;
      assert Valid(t, c);
    }
  }

  /** When every link points forward, enough fuel always lands on an empty slot. */
  lemma {:induction false} ForwardSpineLands(t: Table, start: Id, side: Side, fuel: nat)
    requires ChildrenLater(t)
    requires Valid(t, start) && fuel + start > |t|
    ensures FindPlacement(t, start, side, fuel).Found?
    decreases fuel
  {
    match Row(t, start).Child(side)
    case None =>
    case Some(c) =>
      assert start < c <= |t|;
      ForwardSpineLands(t, c, side, fuel - 1);
  }
}
