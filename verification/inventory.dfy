/** The inventory state machine: twelve item slots, drag and drop between
    them, detection of the item under the crosshair, pickup into the first
    free slot and the open/close toggle that locks player movement. The
    engine's side effects (spawning and destroying world objects, the
    "Inventory is full!" log line) are returned as events. */
module InventorySystem {
  import opened Slots
  import opened Catalog

  datatype Option<T> = None | Some(value: T)

  /** A pickup-able object in the world: its identity and its item name. */
  datatype WorldItem = WorldItem(ref: nat, name: string)

  /** What the short line-of-sight probe from the centre of the view reports:
      whether it hit something, whether that object carries the pickup tag,
      whether it has a pick-item component, its identity and its item name. */
  datatype SightQuery = SightQuery(hit: bool, tagged: bool, hasPickComponent: bool, ref: nat, name: string)

  /** The outcome of releasing the mouse button. */
  datatype ReleaseEvent =
    | NoRelease
    | SpawnInWorld(catalogIndex: int)       // a copy of this catalog item is placed in front of the camera
    | SwapSlots(source: int, target: int)

  /** The outcome of the pickup key. */
  datatype PickupOutcome =
    | NoPickup
    | RemoveFromWorld(ref: nat, slot: int)  // the world object is destroyed, its item went to `slot`
    | InventoryFull

  /** The input polled during one frame. */
  datatype FrameInput = FrameInput(togglePressed: bool, deltaTime: real, mouseDown: bool, mouseUp: bool, pickPressed: bool)

  datatype FrameOutput = FrameOutput(release: ReleaseEvent, pickup: PickupOutcome)

  /** Slot `k` is drawn disabled: it is the slot being dragged, or the slot
      hovered while some drag is in progress. */
  predicate SlotSuppressed(drag: int, hover: int, k: int)
  {
    drag == k || (drag > -1 && hover == k)
  }

  /** The set of disabled slots for a given drag and hover index. */
  function SuppressedSlots(drag: int, hover: int): (r: set<int>)
    requires -1 <= drag < SlotCount as int && -1 <= hover < SlotCount as int
    ensures drag == -1 ==> r == {}
    ensures drag >= 0 && hover == -1 ==> r == {drag}
    ensures drag >= 0 && hover >= 0 ==> r == {drag, hover}
  {
    set k | 0 <= k < SlotCount as int && SlotSuppressed(drag, hover, k)
  }

  /** The drag source after the mouse button goes down over `hover`: a drag
      starts only from a hovered, occupied slot. */
  function DragAfterPress(slots: seq<int>, drag: int, hover: int, mouseDown: bool): int
    requires hover < |slots|
  {
    if mouseDown && hover > -1 && slots[hover] != Empty then hover else drag
  }

  /** The event produced when the mouse button goes up. */
  function ReleaseEventOf(slots: seq<int>, drag: int, hover: int, mouseUp: bool): ReleaseEvent
    requires drag < |slots| && hover < |slots|
  {
    if mouseUp && drag > -1 then
      if hover < 0 then SpawnInWorld(slots[drag]) else SwapSlots(drag, hover)
    else NoRelease
  }

  /** The grid after the mouse button goes up. */
  function SlotsAfterRelease(slots: seq<int>, drag: int, hover: int, mouseUp: bool): seq<int>
    requires drag < |slots| && hover < |slots|
  {
    if mouseUp && drag > -1 then
      if hover < 0 then slots[drag := Empty] else Swap(slots, drag, hover)
    else slots
  }

  /** The outcome of the pickup key for a given grid and detection state. */
  function PickupOutcomeOf(slots: seq<int>, detected: Option<WorldItem>, index: int, pickPressed: bool): PickupOutcome
  {
    if detected.Some? && index > -1 && pickPressed then
      if FirstEmpty(slots) > -1 then RemoveFromWorld(detected.value.ref, FirstEmpty(slots)) else InventoryFull
    else NoPickup
  }

  /** The grid after the pickup key. */
  function SlotsAfterPickup(slots: seq<int>, detected: Option<WorldItem>, index: int, pickPressed: bool): seq<int>
  {
    if PickupOutcomeOf(slots, detected, index, pickPressed).RemoveFromWorld? then
      slots[FirstEmpty(slots) := index]
    else slots
  }

  class Inventory {
    /** Item names of the available items, by catalog index; never changes. */
    const catalog: seq<string>
    const itemSlots: array<int>
    var showInventory: bool
    /** The movement lock of the character controller. */
    var canMove: bool
    var animationTimer: real
    /** The slot under the pointer, -1 for none; written by the GUI pass. */
    var hoveringOverIndex: int
    /** The slot being dragged, -1 for none. */
    var itemIndexToDrag: int
    var detectedItem: Option<WorldItem>
    var detectedItemIndex: int

    /** The object invariant kept by every operation after Start. */
    ghost predicate Valid()
      reads this, itemSlots
    {
      itemSlots.Length == SlotCount &&
      SlotsWellFormed(itemSlots[..], |catalog|) &&
      -1 <= hoveringOverIndex < SlotCount as int &&
      -1 <= itemIndexToDrag < SlotCount as int &&
      (itemIndexToDrag > -1 ==> itemSlots[itemIndexToDrag] != Empty) &&
      0 <= detectedItemIndex &&
      (detectedItem.Some? ==>
         detectedItemIndex < |catalog| && catalog[detectedItemIndex] == detectedItem.value.name) &&
      0.0 <= animationTimer
    }

    /** The state right after the component is created, before Start. */
    ghost predicate Initial()
      reads this, itemSlots
    {
      itemSlots.Length == SlotCount &&
      itemSlots[..] == seq(SlotCount, _ => 0) &&
      !showInventory && animationTimer == 0.0 &&
      hoveringOverIndex == -1 && itemIndexToDrag == -1 &&
      detectedItem == None && detectedItemIndex == 0
    }

    /** Field initialisers: a zeroed slot array, panel closed, nothing hovered,
        dragged or detected, detected index 0, movement allowed. */
    constructor (catalog: seq<string>)
      ensures this.catalog == catalog && fresh(itemSlots)
      ensures Initial() && canMove
    {
      this.catalog := catalog;
      itemSlots := new int[SlotCount](_ => 0);
      showInventory := false;
      canMove := true;
      animationTimer := 0.0;
      hoveringOverIndex := -1;
      itemIndexToDrag := -1;
      detectedItem := None;
      detectedItemIndex := 0;
    }

    /** Empties every slot. */
    method Start()
      requires Initial()
      modifies itemSlots
      ensures Valid()
      ensures itemSlots[..] == seq(SlotCount, _ => Empty)
    {
      for i := 0 to itemSlots.Length
        invariant forall k :: 0 <= k < i ==> itemSlots[k] == Empty
      {
        itemSlots[i] := Empty;
      }
    }

    /** The inventory key: flips the panel and restarts its animation timer. */
    method TogglePanel()
      requires Valid()
      modifies this`showInventory, this`animationTimer
      ensures Valid()
      ensures showInventory == !old(showInventory) && animationTimer == 0.0
    {
      showInventory := !showInventory;
      animationTimer := 0.0;
    }

    /** Every frame: the timer advances while below one, and movement is
        locked exactly while the panel is shown. */
    method AdvancePanel(deltaTime: real)
      requires Valid() && 0.0 <= deltaTime
      modifies this`animationTimer, this`canMove
      ensures Valid()
      ensures animationTimer ==
              if old(animationTimer) < 1.0 then old(animationTimer) + deltaTime else old(animationTimer)
      ensures canMove == !showInventory
    {
      if animationTimer < 1.0 {
        animationTimer := animationTimer + deltaTime;
      }
      if showInventory {
        canMove := false;
      } else {
        canMove := true;
      }
    }

    /** The GUI pass records which slot the pointer is over (-1 for none). */
    method SetHover(hover: int)
      requires Valid() && -1 <= hover < SlotCount as int
      modifies this`hoveringOverIndex
      ensures Valid() && hoveringOverIndex == hover
    {
      hoveringOverIndex := hover;
    }

    /** Mouse press: a drag starts only from a hovered, occupied slot. */
    method BeginDrag(mouseDown: bool)
      requires Valid()
      modifies this`itemIndexToDrag
      ensures Valid()
      ensures mouseDown && hoveringOverIndex > -1 && itemSlots[hoveringOverIndex] != Empty ==>
                itemIndexToDrag == hoveringOverIndex
      ensures !(mouseDown && hoveringOverIndex > -1 && itemSlots[hoveringOverIndex] != Empty) ==>
                itemIndexToDrag == old(itemIndexToDrag)
      ensures itemIndexToDrag == DragAfterPress(itemSlots[..], old(itemIndexToDrag), hoveringOverIndex, mouseDown)
    {
      if mouseDown && hoveringOverIndex > -1 && itemSlots[hoveringOverIndex] > -1 {
        itemIndexToDrag := hoveringOverIndex;
      }
    }

    /** Mouse release during a drag: outside every slot the item is dropped
        into the world and its slot emptied; over a slot the two slots are
        swapped. Either way the drag ends. */
    method ReleaseDrag(mouseUp: bool) returns (ev: ReleaseEvent)
      requires Valid()
      modifies this`itemIndexToDrag, itemSlots
      ensures Valid()
      ensures !(mouseUp && old(itemIndexToDrag) > -1) ==>
                ev == NoRelease && itemIndexToDrag == old(itemIndexToDrag) &&
                itemSlots[..] == old(itemSlots[..])
      ensures mouseUp && old(itemIndexToDrag) > -1 ==> itemIndexToDrag == -1
      ensures mouseUp && old(itemIndexToDrag) > -1 && hoveringOverIndex < 0 ==>
                ev == SpawnInWorld(old(itemSlots[itemIndexToDrag])) &&
                itemSlots[..] == old(itemSlots[..])[old(itemIndexToDrag) := Empty]
      ensures mouseUp && old(itemIndexToDrag) > -1 && hoveringOverIndex >= 0 ==>
                ev == SwapSlots(old(itemIndexToDrag), hoveringOverIndex) &&
                itemSlots[..] == Swap(old(itemSlots[..]), old(itemIndexToDrag), hoveringOverIndex)
      ensures ev.SpawnInWorld? ==>
                0 <= ev.catalogIndex < |catalog| &&
                Items(itemSlots[..]) + multiset{ev.catalogIndex} == Items(old(itemSlots[..]))
      ensures ev.SwapSlots? ==> Items(itemSlots[..]) == Items(old(itemSlots[..]))
      ensures ev == ReleaseEventOf(old(itemSlots[..]), old(itemIndexToDrag), hoveringOverIndex, mouseUp)
      ensures itemSlots[..] == SlotsAfterRelease(old(itemSlots[..]), old(itemIndexToDrag), hoveringOverIndex, mouseUp)
    {
      ev := NoRelease;
      if mouseUp && itemIndexToDrag > -1 {
        ghost var before := itemSlots[..];
        if hoveringOverIndex < 0 {
          ev := SpawnInWorld(itemSlots[itemIndexToDrag]);
          itemSlots[itemIndexToDrag] := Empty;
          ClearRemovesItem(before, itemIndexToDrag);
        } else {
          var itemIndexTmp := itemSlots[itemIndexToDrag];
          itemSlots[itemIndexToDrag] := itemSlots[hoveringOverIndex];
          itemSlots[hoveringOverIndex] := itemIndexTmp;
          ev := SwapSlots(itemIndexToDrag, hoveringOverIndex);
          assert itemSlots[..] == Swap(before, itemIndexToDrag, hoveringOverIndex);
          SwapKeepsItems(before, itemIndexToDrag, hoveringOverIndex);
          SwapKeepsWellFormed(before, itemIndexToDrag, hoveringOverIndex, |catalog|);
        }
        itemIndexToDrag := -1;
      }
    }

    /** The scan for the first empty slot; changes nothing. */
    method FirstEmptySlot() returns (slot: int)
      ensures slot == FirstEmpty(itemSlots[..])
      ensures slot >= 0 ==> itemSlots[slot] == Empty &&
                            forall j :: 0 <= j < slot ==> itemSlots[j] != Empty
      ensures slot == -1 <==> forall j :: 0 <= j < itemSlots.Length ==> itemSlots[j] != Empty
    {
      slot := -1;
      var i := 0;
      while i < itemSlots.Length
        invariant 0 <= i <= itemSlots.Length
        invariant slot == -1
        invariant forall j :: 0 <= j < i ==> itemSlots[j] != Empty
      {
        if itemSlots[i] == Empty {
          slot := i;
          break;
        }
        i := i + 1;
      }
    }

    /** The pickup key while an item is detected: the item goes into the
        first empty slot and the world object is destroyed, which the engine
        thereafter treats as no detected item; with every slot occupied,
        nothing changes and the inventory reports that it is full. */
    method PickUp(pickPressed: bool) returns (outcome: PickupOutcome)
      requires Valid()
      modifies itemSlots, this`detectedItem
      ensures Valid()
      ensures !(pickPressed && old(detectedItem).Some?) ==>
                outcome == NoPickup && itemSlots[..] == old(itemSlots[..]) && detectedItem == old(detectedItem)
      ensures outcome == InventoryFull <==>
                pickPressed && old(detectedItem).Some? && FirstEmpty(old(itemSlots[..])) == -1
      ensures outcome == InventoryFull ==>
                itemSlots[..] == old(itemSlots[..]) && detectedItem == old(detectedItem)
      ensures pickPressed && old(detectedItem).Some? && FirstEmpty(old(itemSlots[..])) >= 0 ==>
                outcome == RemoveFromWorld(old(detectedItem).value.ref, FirstEmpty(old(itemSlots[..]))) &&
                itemSlots[..] == old(itemSlots[..])[FirstEmpty(old(itemSlots[..])) := detectedItemIndex] &&
                detectedItem == None
      ensures outcome.RemoveFromWorld? ==>
                Items(itemSlots[..]) == Items(old(itemSlots[..])) + multiset{detectedItemIndex}
      ensures outcome == PickupOutcomeOf(old(itemSlots[..]), old(detectedItem), detectedItemIndex, pickPressed)
      ensures itemSlots[..] == SlotsAfterPickup(old(itemSlots[..]), old(detectedItem), detectedItemIndex, pickPressed)
    {
      outcome := NoPickup;
      if detectedItem.Some? && detectedItemIndex > -1 {
        if pickPressed {
          var slotToAddTo := FirstEmptySlot();
          if slotToAddTo > -1 {
            ghost var before := itemSlots[..];
            itemSlots[slotToAddTo] := detectedItemIndex;
            outcome := RemoveFromWorld(detectedItem.value.ref, slotToAddTo);
            FillAddsItem(before, slotToAddTo, detectedItemIndex);
            // The destroyed world object reads as null from here on.
            detectedItem := None;
          } else {
            outcome := InventoryFull;
          }
        }
      }
    }

    /** One physics step of detection. No hit, or a hit on an untagged object,
        forgets the detected item but keeps its index. A tagged object that is
        already tracked, or that has no pick-item component, changes nothing.
        Otherwise the object becomes the detected item with the last catalog
        index carrying its name; with no such name nothing changes. */
    method DetectItem(q: SightQuery)
      requires Valid()
      modifies this`detectedItem, this`detectedItemIndex
      ensures Valid()
      ensures !q.hit || !q.tagged ==>
                detectedItem == None && detectedItemIndex == old(detectedItemIndex)
      ensures q.hit && q.tagged &&
              ((old(detectedItem).Some? && old(detectedItem).value.ref == q.ref) || !q.hasPickComponent) ==>
                detectedItem == old(detectedItem) && detectedItemIndex == old(detectedItemIndex)
      ensures q.hit && q.tagged && q.hasPickComponent &&
              (old(detectedItem).None? || old(detectedItem).value.ref != q.ref) ==>
                if LastMatch(catalog, q.name) >= 0 then
                  detectedItem == Some(WorldItem(q.ref, q.name)) && detectedItemIndex == LastMatch(catalog, q.name)
                else
                  detectedItem == old(detectedItem) && detectedItemIndex == old(detectedItemIndex)
    {
      if q.hit {
        if q.tagged {
          if (detectedItem.None? || detectedItem.value.ref != q.ref) && q.hasPickComponent {
            var itemTmp := WorldItem(q.ref, q.name);
            for i := 0 to |catalog|
              invariant LastMatch(catalog[..i], q.name) >= 0 ==>
                          detectedItem == Some(itemTmp) && detectedItemIndex == LastMatch(catalog[..i], q.name)
              invariant LastMatch(catalog[..i], q.name) == -1 ==>
                          detectedItem == old(detectedItem) && detectedItemIndex == old(detectedItemIndex)
            {
              LastMatchStep(catalog, q.name, i);
              if catalog[i] == itemTmp.name {
                detectedItem := Some(itemTmp);
                detectedItemIndex := i;
              }
            }
            assert catalog[..|catalog|] == catalog;
          }
        } else {
          detectedItem := None;
        }
      } else {
        detectedItem := None;
      }
    }

    /** One frame of Update in source order: panel toggle, timer and movement
        lock, drag begin, drag release, pickup. */
    method Update(input: FrameInput) returns (out: FrameOutput)
      requires Valid() && 0.0 <= input.deltaTime
      modifies this`showInventory, this`animationTimer, this`canMove, this`itemIndexToDrag, this`detectedItem, itemSlots
      ensures Valid()
      ensures showInventory == (old(showInventory) != input.togglePressed)
      ensures canMove == !showInventory
      ensures input.togglePressed ==> animationTimer == input.deltaTime
      ensures !input.togglePressed ==>
                animationTimer == if old(animationTimer) < 1.0 then old(animationTimer) + input.deltaTime else old(animationTimer)
      ensures input.mouseUp ==> itemIndexToDrag == -1
      ensures var drag := DragAfterPress(old(itemSlots[..]), old(itemIndexToDrag), hoveringOverIndex, input.mouseDown);
              var released := SlotsAfterRelease(old(itemSlots[..]), drag, hoveringOverIndex, input.mouseUp);
              && itemIndexToDrag == (if input.mouseUp && drag > -1 then -1 else drag)
              && out.release == ReleaseEventOf(old(itemSlots[..]), drag, hoveringOverIndex, input.mouseUp)
              && out.pickup == PickupOutcomeOf(released, old(detectedItem), detectedItemIndex, input.pickPressed)
              && itemSlots[..] == SlotsAfterPickup(released, old(detectedItem), detectedItemIndex, input.pickPressed)
              && (out.pickup == InventoryFull <==>
                    input.pickPressed && old(detectedItem).Some? && FirstEmpty(released) == -1)
      ensures detectedItem == if out.pickup.RemoveFromWorld? then None else old(detectedItem)
    {
      if input.togglePressed {
        TogglePanel();
      }
      AdvancePanel(input.deltaTime);
      BeginDrag(input.mouseDown);
      var release := ReleaseDrag(input.mouseUp);
      var pickup := PickUp(input.pickPressed);
      out := FrameOutput(release, pickup);
    }
  }
}
