# Inventory store — a Dafny model

The inventory system keeps a dictionary from item name to quantity in a
JSON file. Each public operation reads the whole file, changes the
dictionary in memory and writes the whole file back. This project models
the part between the read and the write. Each operation is a pure function
from the dictionary it loads to the dictionary it would save, together with
the value it returns.

- `stock_map.dfy` (module `StockMap`) models the insertion-ordered Python
  dict. It is a sequence of `Entry(name, qty)` pairs with distinct names
  (`Inventory`). It provides lookup with a default (`Get`), assignment
  (`Put`) and deletion (`Delete`). Assigning to an existing key leaves it
  where it is. A new key goes at the end. Deleting a key closes the gap.
- `inventory.dfy` (module `InventorySystem`) models `add_item`,
  `remove_item`, `get_qty` and `check_low_items`.
  - `add_item` receives dynamically typed arguments. They are modelled as a
    tagged `Value`, and the two type checks report in the source's order.
  - The log is the caller's list. A successful add appends one `Added`
    entry to it.
  - `remove_item` reports its outcome as `Decremented`, `Deleted` or
    `NotFound`. These stand in for the printed diagnostics.
- `ledger.dfy` (module `Ledger`) models sequences of calls (`Run`). It also
  gives a per-item reference ledger (`Track`) that states one item's stock
  after any sequence of calls without looking at the dictionary's layout.
- `properties.dfy` (module `InventoryProperties`) holds lemmas that relate
  several calls:
  - removing the whole stock;
  - undoing an add;
  - which operations keep quantities positive;
  - the demonstration run in `main`.

Quantities are unbounded integers. Python's `bool` is a subclass of `int`,
so `add_item` accepts `True` and `False` as the quantities 1 and 0. The model
does the same.

`add_item` can store zero or a negative quantity. Only `remove_item` deletes
entries at or below zero. So "every stored quantity is positive" is not an
invariant of the store. `RemoveKeepsPositive`, `AddPositiveKeepsPositive` and
`AddCanStoreNonPositive` state this asymmetry. Nothing in `add_item` rejects
a sum at or below zero (inventory_system.py:31).

## Model

| member | source | states |
|---|---|---|
| StockMap.Put | inventory_system.py:31 | dictionary assignment: the key gets the new value, every other key keeps its value and its position, an existing key keeps its position, and a new key is placed last |
| StockMap.Delete | inventory_system.py:48-49 | dictionary deletion: the key is gone, the length drops by one, every other key keeps its value, and keys after it move up one place, so relative order is kept |
| InventorySystem.AddItem | inventory_system.py:12-33 | a non-string item, or else a non-numeric quantity, is rejected with that reason and changes neither the inventory nor the log; otherwise the item's quantity becomes the old quantity (0 if absent) plus qty, exactly one log entry is appended, every other item keeps its quantity and position, an existing item keeps its position, and a new one goes last |
| InventorySystem.RemoveItem | inventory_system.py:36-54 | an absent item is reported as not found and the inventory is unchanged; for a present item, a remainder above zero becomes its quantity in the same position, and a remainder at or below zero deletes it; every other item keeps its quantity and relative order |
| InventorySystem.GetQty | inventory_system.py:57-68 | the quantity of the entry carrying the name, or 0 when no entry carries it |
| InventorySystem.CheckLowItems | inventory_system.py:122-134 | a name is in the result exactly when it is stored with a quantity strictly below the threshold; there are no duplicates; names appear in the dictionary's iteration order |
| Ledger.ApplyStep | inventory_system.py:30-49 | one add_item or remove_item call changes an item's stock exactly as the per-item ledger step says, whatever the dictionary's layout |
| Ledger.RunTracksItem | inventory_system.py:30-49 | after any sequence of calls, an item's stored quantity (or absence) equals the ledger: accepted adds summed from 0, removes subtracted, and the item dropped when a remove leaves it at or below zero |
| Ledger.RunGetQty | inventory_system.py:68 | get_qty after any sequence of calls is the ledger's value for the item, or 0 when the ledger has it absent |
| InventoryProperties.RemoveWholeStock | inventory_system.py:46-49 | removing exactly the stored quantity deletes the item, after which get_qty is 0 |
| InventoryProperties.AddThenRemove | inventory_system.py:31-49 | removing the quantity just added restores the inventory exactly, entry order included, when the item was absent or stored above zero; when it was stored at or below zero, the pair deletes it |
| InventoryProperties.RemoveKeepsPositive | inventory_system.py:46-49 | if every quantity is positive before remove_item, every quantity is positive after it |
| InventoryProperties.AddPositiveKeepsPositive | inventory_system.py:31 | add_item with a positive quantity, or one rejected by the type checks, keeps every quantity positive |
| InventoryProperties.AddCanStoreNonPositive | inventory_system.py:31 | add_item stores a sum at or below zero as it is, so positivity is not an invariant of the store |
| InventoryProperties.AddDefaults | inventory_system.py:12 | add_item with all arguments defaulted appends an item named "default" with quantity 0 and one log entry |
| InventorySystem.LowItemsAppend | inventory_system.py:133 | the low items of a dictionary made of the entries of one followed by those of another are the first's low items followed by the second's |
| InventoryProperties.AddNewAppends | inventory_system.py:31 | adding an item the store does not hold gives exactly the old entries followed by the new item with the added quantity |
| InventoryProperties.RemoveInPlace | inventory_system.py:46-47 | removing less than an item holds gives exactly the old entries with that item's quantity reduced in its own position |
| InventoryProperties.MainScenarioFrom | inventory_system.py:141-145 | from any store holding neither apples nor bananas, the run leaves the old entries followed by apple: 7 and banana: 2; get_qty("apple") is 7; the items below the default threshold 5 are the store's own low items followed by "banana" |
| InventoryProperties.MainScenario | inventory_system.py:141-145 | on a missing or empty file (an empty store), adding 10 apples and 2 bananas and then removing 3 apples leaves [apple: 7, banana: 2]; get_qty("apple") is 7 and the items below the default threshold 5 are ["banana"] |

## Left out

- `load_data` and `save_data` (file I/O and JSON encoding) are not modelled. Each operation takes the loaded dictionary and returns the one it would save. A missing file, or one that is empty or not valid JSON, loads as an empty dictionary. That case is the same as calling an operation on `[]`. Valid JSON that is not an object (such as `[]`) loads as a list that `add_item` then fails on. A file that is not UTF-8 raises an uncaught decode error. Failed writes are swallowed by the source. None of these are modelled.
- `print_data` and all printed diagnostics are console output only. `remove_item`'s "not found" message appears as the status `NotFound`, and `add_item`'s type errors as `ItemNotString` or `QtyNotNumber`.
- The timestamp in each log line comes from the clock and is not modelled. A log entry records only the item and the quantity as given.
- The `logs=None` default is not modelled. It gives `add_item` a fresh list that the caller never sees, which is the same as passing `[]` and discarding the result.
- Floating-point quantities are not modelled. Quantities are integers, and `bool` counts as 0 or 1.
- InventorySystem.RemoveItem: takes the item as a string and the quantity as an integer. For a present item, a non-numeric quantity makes the subtraction raise an uncaught `TypeError`. For an absent item, the same call takes the "not found" path and the unchanged dictionary is saved. An unhashable item raises `TypeError` too. None of these are modelled. With numeric arguments, the `except (KeyError, ValueError)` branch is never reached.
- InventorySystem.AddItem: the log is typed as a sequence. A `logs` argument that is not a list makes the append raise after the in-memory update and before the save, so nothing is saved. This is not modelled.
- Lost updates between concurrent processes and partially written files are not modelled, because they come from concurrency and I/O.
- The process entry point's printing of the report and its closing notice is console output. Its inventory effects are `MainScenarioFrom` for any store without apples or bananas, and `MainScenario` when the file is missing or empty. A store that already holds either item is not covered.
