/** Client-side runs of the inventory, proved from the operations' contracts
    alone: pickup into an empty grid, pickup into a full grid, a drop into
    the world and a swap undone by a second swap. */
module Scenarios {
  import opened Slots
  import opened Catalog
  import opened InventorySystem

  /** The grid after `n` coins were picked up into an empty grid. */
  function Filled(n: nat): seq<int>
    requires n <= SlotCount
  {
    seq(n, _ => 1) + seq(SlotCount - n, _ => Empty)
  }

  lemma FilledPrefix(n: nat)
    requires n <= SlotCount
    ensures |Filled(n)| == SlotCount
    ensures n < SlotCount ==> FirstEmpty(Filled(n)) == n && Filled(n)[n := 1] == Filled(n + 1)
    ensures n == SlotCount ==> FirstEmpty(Filled(n)) == -1 && Filled(n) == seq(SlotCount, _ => 1)
  {
    var s := Filled(n);
    assert forall j :: 0 <= j < n ==> s[j] == 1;
    if n < SlotCount {
      assert s[n] == Empty;
      assert s[n := 1] == Filled(n + 1);
    }
  }

  /** Catalog ["Key", "Coin"], empty grid, the crosshair on a fresh "Coin"
      object: the object is tracked with index 1, and the pickup key puts
      item 1 in slot 0 and removes that object from the world. */
  method PickupCoin() returns (tracked: int, outcome: PickupOutcome, first: int)
    ensures tracked == 1
    ensures outcome == RemoveFromWorld(7, 0) && first == 1
  {
    var inv := new Inventory(["Key", "Coin"]);
    inv.Start();
    inv.DetectItem(SightQuery(true, true, true, 7, "Coin"));
    tracked := inv.detectedItemIndex;
    outcome := inv.PickUp(true);
    first := inv.itemSlots[0];
  }

  /** Twelve coins picked up one after another fill slots 0 to 11 in order;
      a thirteenth pickup reports a full inventory and changes no slot. */
  method PickupIntoFullGrid() returns (outcome: PickupOutcome, slots: seq<int>)
    ensures outcome == InventoryFull
    ensures slots == seq(SlotCount, _ => 1)
  {
    var inv := new Inventory(["Key", "Coin"]);
    inv.Start();
    assert LastMatch(inv.catalog, "Coin") == 1;
    var n := 0;
    while n < SlotCount
      invariant 0 <= n <= SlotCount
      invariant inv.Valid() && inv.catalog == ["Key", "Coin"] && LastMatch(inv.catalog, "Coin") == 1
      invariant inv.itemSlots[..] == Filled(n)
      invariant inv.detectedItem.None? || inv.detectedItem.value.ref == n
    {
      FilledPrefix(n);
      inv.DetectItem(SightQuery(true, true, true, n + 1, "Coin"));
      assert inv.detectedItem.Some? && inv.detectedItemIndex == 1;
      assert inv.itemSlots[..] == Filled(n);
      var picked := inv.PickUp(true);
      assert picked == RemoveFromWorld(n + 1, n);
      n := n + 1;
    }
    FilledPrefix(SlotCount);
    inv.DetectItem(SightQuery(true, true, true, 100, "Coin"));
    outcome := inv.PickUp(true);
    slots := inv.itemSlots[..];
  }

  /** A coin in slot 0 is dragged and released outside the panel: a coin is
      spawned into the world and slot 0 is empty again. */
  method DropIntoWorld() returns (ev: ReleaseEvent, first: int, drag: int)
    ensures ev == SpawnInWorld(1) && first == Empty && drag == -1
  {
    var inv := new Inventory(["Key", "Coin"]);
    inv.Start();
    inv.DetectItem(SightQuery(true, true, true, 7, "Coin"));
    var picked := inv.PickUp(true);
    inv.SetHover(0);
    inv.BeginDrag(true);
    inv.SetHover(-1);
    ev := inv.ReleaseDrag(true);
    first := inv.itemSlots[0];
    drag := inv.itemIndexToDrag;
  }

  /** A key in slot 0 is dragged onto slot 5 and back again: the grid
      returns to what it was. */
  method SwapThereAndBack() returns (middle: seq<int>, final: seq<int>)
    ensures |middle| == SlotCount && middle[0] == Empty && middle[5] == 0
    ensures final == [0] + seq(SlotCount - 1, _ => Empty)
  {
    var inv := new Inventory(["Key", "Coin"]);
    inv.Start();
    inv.DetectItem(SightQuery(true, true, true, 3, "Key"));
    var picked := inv.PickUp(true);
    var start := inv.itemSlots[..];
    assert start == [0] + seq(SlotCount - 1, _ => Empty);
    inv.SetHover(0);
    inv.BeginDrag(true);
    inv.SetHover(5);
    var ev := inv.ReleaseDrag(true);
    middle := inv.itemSlots[..];
    assert middle == Swap(start, 0, 5);
    SwapAt(start, 0, 5, 0);
    SwapAt(start, 0, 5, 5);
    inv.BeginDrag(true);
    inv.SetHover(0);
    ev := inv.ReleaseDrag(true);
    final := inv.itemSlots[..];
    assert final == Swap(middle, 5, 0);
    SwapInvolutiveReversed(start, 0, 5);
  }

  /** A coin is picked up, then the crosshair moves to a tagged object that
      has no pick-item component: the destroyed coin is no longer detected,
      so pressing F again adds nothing. */
  method NoSecondPickup() returns (second: PickupOutcome, slots: seq<int>)
    ensures second == NoPickup
    ensures slots == [1] + seq(SlotCount - 1, _ => Empty)
  {
    var inv := new Inventory(["Key", "Coin"]);
    inv.Start();
    inv.DetectItem(SightQuery(true, true, true, 7, "Coin"));
    var first := inv.PickUp(true);
    inv.DetectItem(SightQuery(true, true, false, 9, "Rock"));
    second := inv.PickUp(true);
    slots := inv.itemSlots[..];
  }

  /** A whole frame with only the pickup key pressed, a Coin being in sight:
      the coin lands in slot 0 and nothing else happens. */
  method PickupFrame() returns (out: FrameOutput, first: int, canMove: bool)
    ensures out == FrameOutput(NoRelease, RemoveFromWorld(7, 0))
    ensures first == 1 && canMove
  {
    var inv := new Inventory(["Key", "Coin"]);
    inv.Start();
    inv.DetectItem(SightQuery(true, true, true, 7, "Coin"));
    out := inv.Update(FrameInput(false, 0.0, false, false, true));
    first := inv.itemSlots[0];
    canMove := inv.canMove;
  }
}
