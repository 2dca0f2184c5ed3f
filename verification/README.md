# Inventory state machine

A Dafny model of the inventory component of a small first-person Unity
project (`SC_InventorySystem`). The player looks at pickup-able objects,
presses F to put them into a grid of twelve slots, drags items between slots
with the mouse, drags an item out of the panel to drop it back into the
world, and presses I to show or hide the panel, which also locks movement.

The component is modelled as the class `InventorySystem.Inventory`:

- `itemSlots` is a fixed `array<int>` of 12 slots; -1 is an empty slot, any
  other value is an index into the catalog.
- `catalog` is the read-only list of item names (the `availableItems` prefabs).
- `itemIndexToDrag` and `hoveringOverIndex` are the drag source and the hovered slot.
  Both are -1 when there is none.
- `detectedItem` (an optional world object: identity and item name) and
  `detectedItemIndex` make up the detection state.
- `showInventory`, `animationTimer` and `canMove` make up the panel state.
  `canMove` stands for the character controller's movement flag.

Each engine callback is a method. The constructor plays the field
initialisers and `Start` the slot reset. `Update` calls `TogglePanel`,
`AdvancePanel`, `BeginDrag`, `ReleaseDrag` and `PickUp` in the source's
order. `DetectItem` stands for `FixedUpdate`. `SetHover` is the GUI pass's
write of the hovered slot. Scene changes are returned as events instead of
performed: `SpawnInWorld` for `Instantiate`, `RemoveFromWorld` for `PickItem`,
and `InventoryFull` for the log line. The raycast becomes a `SightQuery` record.

The object invariant `Valid()` holds after `Start` and is kept by every
operation. It says:

- every slot is -1 or a valid catalog index;
- the drag and hover indices are in -1..11;
- the slot being dragged is occupied;
- while an item is detected, `detectedItemIndex` is the index of a catalog
  entry with that item's name.

Modules:

- `Slots` (slots.dfy): the specification functions on the slot grid (first fit,
  swap, the multiset of held items) and their lemmas.
- `Catalog` (catalog.dfy): the name scan and its lemmas.
- `InventorySystem` (inventory.dfy): the class.
- `Scenarios` (scenarios.dfy): client runs proved from the contracts alone.

The model follows the code, including behaviours a reader might not expect:

- The catalog scan has no early exit, so with duplicate names the **last**
  matching entry wins, not the first (`Catalog.DuplicateNameLastWins`). With
  unique names, which the pick-item script asks for, both agree
  (`Catalog.UniqueNamesMatchAgree`).
- When the probe hits nothing, or hits an untagged object, only
  `detectedItem` is cleared. `detectedItemIndex` keeps its old value, and it
  starts at 0, not -1.
- A picked-up object is destroyed, and the engine reads a destroyed object
  as null. So after a successful pickup `PickUp` clears `detectedItem` and
  keeps `detectedItemIndex`. A second press of F before another object is
  detected does nothing (`Scenarios.NoSecondPickup`).

## Model

| member | source | states |
|---|---|---|
| `Slots.FirstEmpty` | Assets/Scripts/SC_InventorySystem.cs:132-140 | the result is the lowest index holding -1, or -1 exactly when no slot is empty |
| `Slots.Swap` | Assets/Scripts/SC_InventorySystem.cs:117-119 | the three assignments of the release over a slot: slot i gets the old value of slot j, slot j the old value of slot i, and every other slot is unchanged |
| `Slots.SwapAt` | Assets/Scripts/SC_InventorySystem.cs:117-119 | after a swap, slot j holds the old value of slot i, slot i the old value of slot j, and every other slot is unchanged |
| `Slots.SwapSelf` | Assets/Scripts/SC_InventorySystem.cs:116-119 | releasing a drag over its own source slot leaves the grid unchanged |
| `Slots.SwapInvolutive` | Assets/Scripts/SC_InventorySystem.cs:116-119 | swapping the same two slots twice restores the grid |
| `Slots.SwapInvolutiveReversed` | Assets/Scripts/SC_InventorySystem.cs:116-119 | dragging back from the target slot onto the source undoes the first swap |
| `Slots.SwapKeepsItems` | Assets/Scripts/SC_InventorySystem.cs:116-119 | a swap keeps the multiset of held items |
| `Slots.SwapKeepsWellFormed` | Assets/Scripts/SC_InventorySystem.cs:116-119 | a swap keeps every slot -1 or a valid catalog index |
| `Slots.ClearRemovesItem` | Assets/Scripts/SC_InventorySystem.cs:110-111 | emptying an occupied slot removes exactly the item it held from the multiset of held items |
| `Slots.FillAddsItem` | Assets/Scripts/SC_InventorySystem.cs:145 | writing an item into an empty slot adds exactly that item to the multiset of held items |
| `Catalog.LastMatch` | Assets/Scripts/SC_InventorySystem.cs:175-182 | the scan yields an entry with the sought name and no later entry has it, or -1 when no entry has it |
| `Catalog.LastMatchStep` | Assets/Scripts/SC_InventorySystem.cs:177-181 | one more loop iteration moves the match to entry i exactly when entry i carries the name |
| `Catalog.LastMatchFound` | Assets/Scripts/SC_InventorySystem.cs:175-182 | the scan finds a match exactly when the name is in the catalog |
| `Catalog.UniqueNamesMatchAgree` | Assets/Scripts/SC_PickItem.cs:17 | under the unique-name rule the last match is also the first match |
| `Catalog.DuplicateNameLastWins` | Assets/Scripts/SC_InventorySystem.cs:175-182 | for any catalog with the name at entries i < j, the scan settles at j or later, where a first-match scan settles at i or earlier |
| `InventorySystem.SuppressedSlots` | Assets/Scripts/SC_InventorySystem.cs:218 | no slot is disabled without a drag; during a drag exactly the source slot and the hovered slot (if any) are disabled |
| `InventorySystem.Inventory.constructor` | Assets/Scripts/SC_InventorySystem.cs:24-36 | slots zeroed, panel hidden, timer 0, no hover, no drag, nothing detected, detected index 0, movement allowed |
| `InventorySystem.Inventory.Start` | Assets/Scripts/SC_InventorySystem.cs:48-52 | all twelve slots are -1 afterwards and the object invariant holds |
| `InventorySystem.Inventory.TogglePanel` | Assets/Scripts/SC_InventorySystem.cs:59-62 | the panel flag flips and the animation timer restarts at 0; nothing else changes |
| `InventorySystem.Inventory.AdvancePanel` | Assets/Scripts/SC_InventorySystem.cs:79-96 | the timer grows by the frame time only while below 1, and movement is allowed exactly when the panel is hidden |
| `InventorySystem.Inventory.SetHover` | Assets/Scripts/SC_InventorySystem.cs:247-268 | the hovered slot becomes the given index in -1..11; the invariant is kept |
| `InventorySystem.Inventory.BeginDrag` | Assets/Scripts/SC_InventorySystem.cs:99-102 | a drag starts from the hovered slot exactly when the button goes down over an occupied slot; otherwise the drag index is unchanged |
| `InventorySystem.Inventory.ReleaseDrag` | Assets/Scripts/SC_InventorySystem.cs:105-124 | a release during a drag either spawns the source slot's item (a valid catalog index) and empties that slot, or swaps source and hovered slot; never both; the drag ends; held items are kept or lose exactly the spawned one; without a release nothing changes |
| `InventorySystem.Inventory.FirstEmptySlot` | Assets/Scripts/SC_InventorySystem.cs:132-140 | the scan returns the lowest empty slot, or -1 exactly when every slot is occupied |
| `InventorySystem.Inventory.PickUp` | Assets/Scripts/SC_InventorySystem.cs:127-153 | with an item detected and F pressed, the detected index goes into the lowest empty slot, no other slot changes, and the world object is removed, after which no item is detected (its index is kept); the result is "inventory full", with nothing changed, exactly when no slot was empty; otherwise nothing happens |
| `InventorySystem.Inventory.DetectItem` | Assets/Scripts/SC_InventorySystem.cs:164-189 | no hit or an untagged hit clears the detected item but keeps its index; a tagged hit on the tracked object or on one without a pick-item component changes nothing; a new tagged object is tracked with the last catalog index of its name, and with no such name nothing changes |
| `InventorySystem.Inventory.Update` | Assets/Scripts/SC_InventorySystem.cs:56-155 | one frame composed of its steps in source order: movement is allowed exactly when the panel is hidden at the end of the frame; the panel flag flips once per toggle press; the timer is the frame time after a toggle, otherwise it grows by the frame time only while below 1; the drag index is the one set by the press and then cleared by a release; the grid, the release event and the pickup outcome are those of the release applied to the grid after the press, followed by the pickup; "inventory full" is reported exactly when the grid after the release has no empty slot; a successful pickup clears the detected item; the invariant is kept |
| `Scenarios.PickupCoin` | Assets/Scripts/SC_InventorySystem.cs:127-182 | with catalog [Key, Coin] and an empty grid, sighting a Coin tracks index 1 and picking it up puts 1 in slot 0 and removes that object |
| `Scenarios.PickupIntoFullGrid` | Assets/Scripts/SC_InventorySystem.cs:132-152 | twelve pickups fill slots 0 to 11 in order, the n-th removing its object into slot n; a thirteenth reports a full inventory and leaves the grid as it was |
| `Scenarios.DropIntoWorld` | Assets/Scripts/SC_InventorySystem.cs:105-123 | dragging the item in slot 0 out of the panel spawns that item and empties slot 0, ending the drag |
| `Scenarios.NoSecondPickup` | Assets/Scripts/SC_InventorySystem.cs:127-170 | after a coin is picked up and a tagged object without a pick-item component comes into sight, a second F press adds nothing and the grid keeps only the one coin |
| `Scenarios.PickupFrame` | Assets/Scripts/SC_InventorySystem.cs:56-155 | a whole frame with only F pressed and a Coin in sight returns no release event and RemoveFromWorld into slot 0, puts the coin in slot 0, and leaves movement allowed |
| `Scenarios.SwapThereAndBack` | Assets/Scripts/SC_InventorySystem.cs:116-119 | dragging slot 0 onto slot 5 moves the item there; dragging it back restores the original grid |

## Left out

- The panel's slide animation (`windowAnimation`, `Mathf.Lerp`) is left out: it is floating-point presentation state. `animationTimer` is kept, as a `real` without rounding.
- `dragOffset` and all of `OnGUI`'s drawing are left out: slot boxes, labels, preview textures, the crosshair, the pickup hint and the window rectangle. The rectangle test that computes the hovered slot is engine geometry. It is replaced by `SetHover`, which takes the index as an input in -1..11.
- Cursor visibility and lock state are engine I/O and are left out, both in `Start` and on toggle.
- `Physics.Raycast`, the camera ray, the 2.5-unit range and `CompareTag("Respawn")` are replaced by the `SightQuery` input record.
- `Instantiate` (with its position in front of the camera), `PickItem`/`Destroy` and `Debug.Log` are returned as events, not performed.
- The order of `FixedUpdate` and `Update` calls is left to the caller. The engine decides it.
- Movement, gravity and camera control of SC_CharacterController.cs are left out. Only its `canMove` flag is modelled, as a field.
- The tag assignment in SC_PickItem.cs is left out. Its `itemName` is plain data in the catalog and in `SightQuery`. Its `itemPreview` is left out.
- Null catalog entries and unassigned references, which throw in the engine, are not modelled: the catalog is a list of names.
