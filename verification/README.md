# Warehouse screens: a Dafny model

This project models the logic inside five screens of a warehouse management
web application. The screens are React components. Their logic is a few
event handlers and derived values over in-memory lists.

- **Mobile scanner** (`Scanner`). A worker starts a pick or put-away task and
  scans barcodes or item names. Each matching scan counts one unit of an item,
  capped at the item's quantity. A task can be completed once every item is
  fully counted, and the "Complete Task" button is enabled from the summed
  progress.
- **Outbound orders** (`Outbound`). The order list can be searched and
  filtered by status and priority. The screen also has status counters,
  per-order pick progress, item badges, and the actions offered per order.
- **Inbound purchase orders** (`Inbound`). The purchase-order list can be
  searched and filtered by status. The screen has status counters, the
  "Items Expected" total, per-order receive progress and line badges, the
  remaining quantity per line and the bound on the manual receive input, and
  the receive action.
- **Inventory** (`Inventory`). The product catalogue can be searched and
  filtered by category, and the category list is derived from the products.
  The screen also has the append handlers for new products and locations,
  location codes `zone-aisle-rack-bin`, and the location badges of a product
  row.
- **Add-location dialog** (`LocationDialog`). The dialog has a form whose zone
  is stored upper-cased and a live preview of the code. Its submit handler
  builds the location record, passes it to the inventory screen, raises a
  toast and resets the form.

Shared pieces model the JavaScript primitives these rely on:

- `Text`: ASCII `toLowerCase`/`toUpperCase`, `trim` and `includes`. It
  also holds a split on a character, which no screen calls. It is a reference
  definition, used to show that a location's card title splits back into its
  four address parts.
- `Numerals`: decimal rendering and `parseInt`.
- `Seqs`: `filter`, summing `reduce`, and `[...new Set(xs)]`.
- `Search`: the case-insensitive search box and the `all`-or-value selects.
- `Progress`: line badges and percentages.

The model is purely functional. A React state update is a function from the
old state to the new state. A toast is a returned value. The clock
(`Date.now()`) is a parameter.

On the scanner, starting a task makes the listed task object the current one.
After a scan the current task is replaced by a shallow copy, but the copy
shares its item objects with the listed task, and a scan changes only an item
object, in place. So the listed task always carries the same counters as the
current one. The model therefore keeps the current task as an index into the
list and updates the listed task. The
`picked` counter of a pick item and the `processed` counter of a put-away item
are one `count` field, because the task kind decides which one the screen
reads.

Percentages are exact fractions. The screen computes
`getTaskProgress(task) < 100` in floating point, and for a task with no units
that is `NaN < 100`, which is false. The model's `CompleteEnabled` therefore
enables the button when the total is zero or when the completed units reach
the total.

## Model

| member | source | states |
|---|---|---|
| Scanner.FindItem | src/components/mobile/MobileScannerInterface.tsx:71-73 | The scan selects the first item whose SKU equals the scanned text or whose name contains it ignoring case; no earlier item matches, and "none" means no item matches. |
| Scanner.FindFrom | src/components/mobile/MobileScannerInterface.tsx:71-73 | The search from a position returns a matching position at or after it, with no match in between, or none when nothing from there on matches. |
| Scanner.CountScan | src/components/mobile/MobileScannerInterface.tsx:82-85 | A successful scan raises the matched item's counter by one, capped at its quantity; every other task, every other item and every other field are unchanged, and a counter within bounds stays within bounds. |
| Scanner.HandleScan | src/components/mobile/MobileScannerInterface.tsx:66-105 | Blank input changes nothing. Otherwise the scan box is cleared, and there are three outcomes: no current task raises "No Active Task"; no match raises "Item Not Found"; a match raises "Item Scanned" and bumps only that item's counter. The screen invariant is preserved. |
| Scanner.StartTask | src/components/mobile/MobileScannerInterface.tsx:107-114 | Starting a listed task makes it current, opens the scanner tab, announces its kind and party, and preserves the screen invariant. |
| Scanner.CompleteTask | src/components/mobile/MobileScannerInterface.tsx:116-140 | With no current task it does nothing. Success happens exactly when every counter has reached its quantity: the list then keeps, in order, every copy of every task with a different id and no task with that id, and shrinks; the current task is cleared and the tasks tab opens. Otherwise the state is unchanged and "Task Incomplete" is raised. |
| Scanner.CompleteButtonMatchesGuard | src/components/mobile/MobileScannerInterface.tsx:142-148 | While no counter exceeds its quantity, the button computed from the summed progress is enabled exactly when completeTask would succeed, and completed units never exceed total units. |
| Scanner.ScanProgress | src/components/mobile/MobileScannerInterface.tsx:142-148 | A scan never changes any task's total units. It raises the current task's completed units by exactly one when the matched item is below its quantity, and leaves every other count as it was. |
| Scanner.ScanAtCapIsNoop | src/components/mobile/MobileScannerInterface.tsx:83 | The update of a scan that matches an item already at its quantity leaves every task unchanged. |
| Outbound.FilteredOrders | src/components/outbound/OutboundOperations.tsx:96-102 | The table shows, in list order, exactly the orders whose number or customer contains the search term ignoring case and whose status and priority pass the selects, each with as many copies as the list holds. |
| Outbound.UnfilteredShowsAll | src/components/outbound/OutboundOperations.tsx:96-102 | An empty search with both selects on "all" shows every order. |
| Outbound.GetOrderStats | src/components/outbound/OutboundOperations.tsx:153-160 | Each of the four counters is the number of positions in the list holding an order of its status, and the four add up to the number of orders. |
| Outbound.StatsPartition | src/components/outbound/OutboundOperations.tsx:155-158 | Each order is counted under exactly one status. |
| Outbound.OrderProgress | src/components/outbound/OutboundOperations.tsx:147-151 | Progress is picked units times 100 over ordered units, and 0 for an order with no units. |
| Outbound.OrderProgressBounds | src/components/outbound/OutboundOperations.tsx:147-151 | Without over-picking, progress is at most 100%, and it is exactly 100% when the order has units and every item's badge is Complete. |
| Outbound.PickDialogMark | src/components/outbound/OutboundOperations.tsx:437-438 | The pick dialog shows "Picked" exactly when the picked quantity equals the quantity, which is exactly when the details dialog shows Complete. |
| Outbound.OfferedActions | src/components/outbound/OutboundOperations.tsx:325-355 | Every row offers details. The pick action appears exactly for pending orders and the pack action exactly for packing orders, so no row offers both. |
| Progress.Label | src/components/outbound/OutboundOperations.tsx:646-651 | A line reads Complete exactly when done equals target, Partial when it differs and something is done, and Pending when it differs and nothing is done. |
| Progress.PercentOf | src/components/outbound/OutboundOperations.tsx:150 | The fraction times the total equals 100 times the done units; a zero total gives 0; it is at most 100% when done ≤ total; and it is 100% exactly when done equals a positive total. |
| Progress.AllCompleteIffFull | src/components/inbound/InboundOperations.tsx:97-101 | When no line exceeds its target, the summed done units reach the summed targets exactly when every line is Complete. |
| Inbound.FilteredPOs | src/components/inbound/InboundOperations.tsx:64-69 | The table shows, in list order, exactly the purchase orders whose number or supplier contains the search term ignoring case and whose status passes the select, each with as many copies as the list holds. |
| Inbound.GetPOStats | src/components/inbound/InboundOperations.tsx:126-170 | Each of the three counters is the number of positions in the list holding a purchase order of its status, and the three add up to the number of purchase orders; also, "Items Expected" is the expected quantity summed over every line of every purchase order. |
| Inbound.StatsPartition | src/components/inbound/InboundOperations.tsx:126-154 | Each purchase order is counted under exactly one status. |
| Inbound.ItemsExpectedIsLineSum | src/components/inbound/InboundOperations.tsx:168-170 | The nested reduce equals one sum over the flattened lines. |
| Inbound.POProgress | src/components/inbound/InboundOperations.tsx:97-101 | Progress is received units times 100 over expected units, and 0 when nothing is expected. |
| Inbound.POProgressBounds | src/components/inbound/InboundOperations.tsx:97-101 | Without over-receipt, progress is at most 100%, and it is exactly 100% when something is expected and every line is Complete. |
| Inbound.OverReceiptMasksPendingLine | src/components/inbound/InboundOperations.tsx:97-101 | With over-receipt, an order can read 100% while one of its lines is still Pending. |
| Inbound.LineLabel | src/components/inbound/InboundOperations.tsx:436-441 | A line reads Complete exactly when received equals expected, and an over-received line reads Partial. |
| Inbound.Remaining | src/components/inbound/InboundOperations.tsx:356 | Received plus remaining is expected. Remaining is negative exactly after over-receipt, and zero exactly when the line reads Complete. |
| Inbound.ReceiveInputBound | src/components/inbound/InboundOperations.tsx:358-364 | Any quantity the input allows keeps the line within its expected quantity, and receiving the whole remainder completes the line. An over-received line allows no quantity. |
| Inbound.OfferedActions | src/components/inbound/InboundOperations.tsx:250-257 | Every row offers details, and the receive action appears exactly for pending purchase orders. |
| Inventory.FilteredProducts | src/components/inventory/InventoryManagement.tsx:120-125 | The table shows, in list order, exactly the products whose name or SKU contains the search term ignoring case and whose category the select accepts, each with as many copies as the list holds. The select accepts every category when its text is "all", and otherwise exactly the category it names. |
| Inventory.UnfilteredShowsAll | src/components/inventory/InventoryManagement.tsx:120-125 | An empty search with the select on "all" shows every product. |
| Inventory.CategoryNamedAll | src/components/inventory/InventoryManagement.tsx:123 | Picking the entry of a category that is itself named "all" keeps products of every other category in the table too. |
| Inventory.Categories | src/components/inventory/InventoryManagement.tsx:127 | The category list is the products' categories, each once, in order of first appearance; every product's category is in it, and every entry is some product's category. |
| Seqs.Append | src/components/inventory/InventoryManagement.tsx:145 | Both append handlers (new products here, new locations at line 312) put the new element at the end, keep every earlier element at its position, and add exactly one element. |
| Inventory.AddProductFilter | src/components/inventory/InventoryManagement.tsx:120-145 | After adding a product, the table shows what it showed before plus the new product at the end, exactly when that product passes the current filter. |
| Inventory.AddProductCategories | src/components/inventory/InventoryManagement.tsx:127-145 | After adding a product, the category list gains its category at the end exactly when no earlier product has that category. |
| Inventory.CodeSplits | src/components/inventory/InventoryManagement.tsx:320 | When no address part contains "-", the card title splits back into the four parts. |
| Inventory.LocationBadges | src/components/inventory/InventoryManagement.tsx:275-284 | Up to two locations are shown as they are. Beyond two, the first two are shown followed by a "+n" badge whose number is written in plain decimal digits, with no leading zero, and reads back as the count of hidden locations. |
| LocationDialog.OnChange | src/components/inventory/AddLocationDialog.tsx:67-69 | Typing replaces exactly one field. The zone is stored upper-cased and so holds no lower-case letter. |
| LocationDialog.NewLocation | src/components/inventory/AddLocationDialog.tsx:31-37 | The new location copies the four address parts, has nothing stored and 0 occupied, and takes the parsed capacity. Its id is "loc-" followed by decimal digits, with no leading zero, that read back as the submit time. |
| LocationDialog.Submit | src/components/inventory/AddLocationDialog.tsx:26-65 | The callback runs once, with the new location, and the location list gains it at its end. The toast names the location's code, the form returns to its initial state, and the dialog is closed and idle. |
| LocationDialog.PreviewShowsCode | src/components/inventory/AddLocationDialog.tsx:152 | Once all four address parts are filled in, the preview is the code the new location gets. |
| LocationDialog.PreviewPlaceholders | src/components/inventory/AddLocationDialog.tsx:152 | The untouched form previews "A-01-01-01". |
| LocationDialog.InitialCapacity | src/components/inventory/AddLocationDialog.tsx:18-24 | The initial and reset capacity text reads as 100, so a location created without editing it has capacity 100. |
| LocationDialog.DistinctIds | src/components/inventory/AddLocationDialog.tsx:32 | Locations created at different times get different ids. |
| Search.MatchesTermSpec | src/components/inventory/InventoryManagement.tsx:121-122 | The search box matches exactly when the lower-cased term occurs in the lower-cased field. The empty term matches everything, every field matches itself, and the term's case does not matter. |
| Text.BlankIffAllSpace | src/components/mobile/MobileScannerInterface.tsx:67 | A scan is ignored exactly when the input consists only of white space. |
| Numerals.ParseDecimal | src/components/inventory/AddLocationDialog.tsx:34 | parseInt reads a rendered natural number back as itself. |
| Seqs.FilterCounts | src/components/outbound/OutboundOperations.tsx:96 | A filter keeps every copy of each value that passes and no copy of a value that fails. |

## Left out

- Rendering, styling, icons, colours, tabs other than their selected value,
  and the dialogs' open and close state other than what submit changes.
- Toast text is modelled as a constructor with the values it names. The add
  location toast is modelled as its exact text.
- Data loading and the mock data sets. All lists are inputs.
- Floating-point division and `Math.round` in the percentages. They are exact
  fractions here.
- Numbers: every quantity, counter and clock value is taken to be a
  non-negative integer below 2^53. Within that range, JavaScript's sums,
  `parseInt` and decimal rendering are exact. The record types allow
  negative or fractional numbers, and the model cannot represent them. From
  10^21 up, JavaScript renders a number in exponent form (`1e+21`), which
  `parseInt` would read as 1. The plain digit rendering of the model does not
  follow this.
- Scanner.CompleteButtonMatchesGuard: when a counter is already beyond its
  quantity in the data, the button and the guard can disagree. The lemma
  covers data without over-counting, which scans alone cannot create.
- `toLowerCase` and `toUpperCase` on characters outside ASCII. Their Unicode
  case mappings are not modelled.
- The browser's form validation in the add-location dialog, `required`,
  `maxLength` and `min`. The model accepts any text in every field, for
  example a capacity that parses to `NaN` (`None`).
- The `catch` branch of the dialog's submit. Nothing in the modelled body
  throws.
- The receive, pick and pack dialogs' confirm buttons. They only close their
  dialogs, and no screen changes an order's status.
- The create-order and create-purchase-order dialogs, the add-product dialog
  and the inventory adjustment dialog. They are not part of this model.
- The inventory value total (decimal prices) and the low-stock alerts.
- The scanner's flashlight toggle, camera, history tab and user card. They
  are display only.
