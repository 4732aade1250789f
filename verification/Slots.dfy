/** Dragging stacks between inventory slots: a swap on an injective assignment. */
module Slots {
  import opened Prelude
  import opened Tables

  // No two stacks of a character share a slot, and every slot is in range.
  predicate Arranged(slotCount: nat, items: Items) {
    && (forall ck :: ck in items && items[ck].slot.Some? ==> 0 <= items[ck].slot.value < slotCount)
    && (forall p, q :: p in items && q in items && p.0 == q.0 && p != q && items[p].slot.Some? ==>
          items[p].slot != items[q].slot)
  }

  predicate CanMove(slotCount: nat, items: Items, c: CharacterId, k: string, slot: int) {
    0 <= slot < slotCount && (c, k) in items
  }

  // Another stack of the character in the slot.
  function Occupants(items: Items, c: CharacterId, k: string, slot: int): set<string> {
    set ck | ck in items && ck.0 == c && ck.1 != k && items[ck].slot == Some(slot) :: ck.1
  }

  function Place(items: Items, c: CharacterId, k: string, slot: Option<int>): Items
    requires (c, k) in items
  {
    items[(c, k) := items[(c, k)].(slot := slot)]
  }

  // The mover takes the slot; a stack that was there gets the mover's previous slot, or goes
  // back to unsorted with it.
  function Moved(items: Items, c: CharacterId, k: string, slot: int): Items
    requires (c, k) in items
  {
    map ck | ck in items ::
      if ck == (c, k) then items[ck].(slot := Some(slot))
      else if ck.0 == c && items[ck].slot == Some(slot) then items[ck].(slot := items[(c, k)].slot)
      else items[ck]
  }

  lemma SoleOccupant(slotCount: nat, items: Items, c: CharacterId, k: string, slot: int, other: string)
    requires Arranged(slotCount, items) && other in Occupants(items, c, k, slot)
    ensures (c, other) in items && Occupants(items, c, k, slot) == {other}
  {
    assert (c, other) in items;
    forall j | j in Occupants(items, c, k, slot) ensures j == other {
      assert (c, j) in items;
    }
  }

  // The two updates of the transaction are the swap.
  lemma SwapIsMoved(slotCount: nat, items: Items, c: CharacterId, k: string, slot: int)
    requires Arranged(slotCount, items) && CanMove(slotCount, items, c, k, slot)
    ensures Occupants(items, c, k, slot) == {} ==> Place(items, c, k, Some(slot)) == Moved(items, c, k, slot)
    ensures forall o :: o in Occupants(items, c, k, slot) ==>
              Place(Place(items, c, k, Some(slot)), c, o, items[(c, k)].slot) == Moved(items, c, k, slot)
  {
    assert forall ck :: ck in items && ck.0 == c && ck != (c, k) && items[ck].slot == Some(slot) ==>
             ck.1 in Occupants(items, c, k, slot);
    forall o | o in Occupants(items, c, k, slot)
      ensures Place(Place(items, c, k, Some(slot)), c, o, items[(c, k)].slot) == Moved(items, c, k, slot)
    {
      SoleOccupant(slotCount, items, c, k, slot, o);
    }
  }

  // The transaction displaces one stack in the slot if there is any. Nothing in the table
  // forbids that there are several, of which it picks any one.
  ghost predicate MoveOutcome(items: Items, c: CharacterId, k: string, slot: int, items': Items)
    requires (c, k) in items
  {
    var there, moved := Occupants(items, c, k, slot), Place(items, c, k, Some(slot));
    if there == {} then items' == moved
    else exists o :: o in there && items' == Place(moved, c, o, items[(c, k)].slot)
  }

  // Where no two stacks share a slot the outcome is the swap.
  lemma OutcomeIsMoved(slotCount: nat, items: Items, c: CharacterId, k: string, slot: int, items': Items)
    requires Arranged(slotCount, items) && CanMove(slotCount, items, c, k, slot)
    ensures MoveOutcome(items, c, k, slot, items') <==> items' == Moved(items, c, k, slot)
  {
    hide Arranged, Moved, Occupants, Place;
    SwapIsMoved(slotCount, items, c, k, slot);
    var there := Occupants(items, c, k, slot);
    if there != {} {
      var o :| o in there;
    }
  }

  lemma MoveKeepsArranged(slotCount: nat, items: Items, c: CharacterId, k: string, slot: int)
    requires Arranged(slotCount, items) && CanMove(slotCount, items, c, k, slot)
    ensures Arranged(slotCount, Moved(items, c, k, slot))
  {
  }

  // A stack that had a slot and is moved away and straight back restores every row.
  lemma MoveBackRestores(slotCount: nat, items: Items, c: CharacterId, k: string, slot: int)
    requires Arranged(slotCount, items) && CanMove(slotCount, items, c, k, slot)
    requires items[(c, k)].slot.Some?
    ensures Moved(Moved(items, c, k, slot), c, k, items[(c, k)].slot.value) == items
  {
    var there := Moved(items, c, k, slot);
    var back := Moved(there, c, k, items[(c, k)].slot.value);
    forall ck | ck in items ensures back[ck] == items[ck] {
      assert (ck.0, ck.1) in items;
    }
  }

  function MovedAll(items: Items, c: CharacterId, order: seq<string>, target: map<string, int>): (r: Items)
    requires forall k :: k in order ==> k in target && (c, k) in items
    ensures r.Keys == items.Keys
  {
    if order == [] then items
    else
      var k := order[|order| - 1];
      Moved(MovedAll(items, c, order[..|order| - 1], target), c, k, target[k])
  }

  // A placement in range that gives no slot twice, and an order in which to make it so.
  predicate Placement(slotCount: nat, items: Items, c: CharacterId, order: seq<string>, target: map<string, int>) {
    && (forall k :: k in order ==> k in target && 0 <= target[k] < slotCount && (c, k) in items)
    && (forall i, j :: 0 <= i < j < |order| ==> order[i] != order[j] && target[order[i]] != target[order[j]])
  }

  // Each move is accepted, and the stacks are arranged after it.
  lemma {:induction false} MovesAreAccepted(slotCount: nat, items: Items, c: CharacterId, order: seq<string>,
          target: map<string, int>, n: nat)
    requires Arranged(slotCount, items) && Placement(slotCount, items, c, order, target) && n <= |order|
    ensures Arranged(slotCount, MovedAll(items, c, order[..n], target))
    ensures n < |order| ==> CanMove(slotCount, MovedAll(items, c, order[..n], target), c, order[n], target[order[n]])
  {
    hide Arranged, Moved;
    if n > 0 {
      MovesAreAccepted(slotCount, items, c, order, target, n - 1);
      assert order[..n][..n - 1] == order[..n - 1];
      MoveKeepsArranged(slotCount, MovedAll(items, c, order[..n - 1], target), c, order[n - 1], target[order[n - 1]]);
    }
  }

  // One move per stack, in any order, realises the placement: a placed stack is never
  // displaced by a later move.
  lemma {:induction false} MovesRealisePlacement(slotCount: nat, items: Items, c: CharacterId, order: seq<string>,
          target: map<string, int>)
    requires Placement(slotCount, items, c, order, target)
    ensures forall k :: k in order ==>
              MovedAll(items, c, order, target)[(c, k)] == items[(c, k)].(slot := Some(target[k]))
    ensures forall ck :: ck in items ==> MovedAll(items, c, order, target)[ck].quantity == items[ck].quantity
  {
    if order != [] {
      var n := |order| - 1;
      MovesRealisePlacement(slotCount, items, c, order[..n], target);
      forall k | k in order
        ensures MovedAll(items, c, order, target)[(c, k)] == items[(c, k)].(slot := Some(target[k]))
      {
        if k != order[n] {
          assert k in order[..n];
          var i :| 0 <= i < n && order[i] == k;
          assert target[order[i]] != target[order[n]];
        }
      }
    }
  }
}
