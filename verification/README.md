# GEMPROP inventory and bill-of-materials core, in Dafny

GEMPROP ("Gestor de Materiales, Producción y Pedidos") is a small desktop tool
for a workshop. It keeps raw materials with their stock, reorder level and
replenishment lead time. It also keeps the products built from those materials
and the bill of materials (BOM) that says how many units of each material one
product takes. The orders tab checks whether one unit of a product can be built
from stock. It reports the replenishment delay when it cannot, and it consumes
the stock. A second button adds a fixed 10 units to every material below its
reorder level.

This project models the controller layer of `gemprop.py`. The SQLite
database becomes an immutable `Store` value:
- `materials: map<Id, Material>`
- `products: map<Id, string>`
- `bom: seq<Line>`

Every controller operation is a pure function from a store and the user's
inputs to a new store and an `Outcome`: `Done` or `Refused(why)`. Yes/no
dialogs become boolean parameters. Combobox and treeview selections become
`Option` values or `Selection(id, description)` records. An empty description
means nothing is selected, as in the form dictionaries.

Modules:
- `Store` (store.dfy): the tables, and id generation the way SQLite does it (largest id plus one, or 1 in an empty table). It also has lookup of the first row with a description, row filters, the inner join of a product's lines with the materials, and the `Consistent` invariant. `Consistent` means every line resolves, no (material, product) pair repeats, and descriptions are unique per table. The schema has no constraints, so only the controller's checks keep it true. They keep it only while every association targets an existing product. `productos_asociar_material` (gemprop.py:901-926) checks just that the product description field is non-empty. With no product selected, the form's product id is 0, both at start-up and after `productos_limpiar_campos` (gemprop.py:852-856). If a user types a description into the editable product field (gemprop.py:583), a line for product 0 is inserted. `Products.AssociateWithoutProductLeavesDanglingLine` exhibits this. In the model, pair uniqueness survives association whatever the selected product id (`Products.AssociateKeepsUniquePairs`). In the program this holds only for descriptions that do not read as integers, and only while the material list shows the selected product's lines; see "## Left out".
- `Validation` (validation.dfy): the digit-only field validator and the materials form check.
- `Materials` (materials.dfy): adding and deleting materials.
- `Products` (products.dfy): adding and deleting products, a product's material list, and associating and disassociating materials.
- `Orders` (orders.dfy): the order stock check, delay and consumption, and the replenishment sweep.
- `Scenarios` (scenarios.dfy): a widget built from bolts and nuts, worked through the order and sweep operations.

Behaviour of the code that its own comments and messages do not suggest, and that the model follows:
- The materials form's comment (gemprop.py:729-730) and its error message (gemprop.py:747) say the numeric fields must be "mayor a cero". The test at gemprop.py:744-746 rejects only 0, so negative values pass.
- Association inserts the line without checking that the product exists (gemprop.py:254-256). Disassociation does not check that a product is selected (gemprop.py:930-946).
- `materiales_eliminar_material` returns True even when the DELETE fails (gemprop.py:838-850).

## Model

| member | source | states |
|---|---|---|
| Store.FreshId | gemprop.py:141 | a new row's id is not in use and is larger than every id in the table |
| Store.MaterialIdOf | gemprop.py:248-252 | looking a material up by description gives an existing material with exactly that description, the first (least id) of them |
| Store.ProductIdOf | gemprop.py:998-999 | looking a product up by description gives an existing product with exactly that description, the least such id |
| Store.CountUses | gemprop.py:829-830 | the usage count is positive exactly when some BOM line references the material |
| Store.ProductLines | gemprop.py:292-295 | the joined lines are exactly the BOM lines of that product whose material exists |
| Store.FilterCounts | gemprop.py:964-966 | a DELETE keeps each row it does not match exactly as many times as before and removes every row it matches |
| Store.FilterSelectsKeptPositions | gemprop.py:964-966 | the rows a DELETE leaves are exactly the unmatched rows, each once, in their original order |
| Store.FilterKeepsUniquePairs | gemprop.py:276-278 | deleting BOM lines never creates a repeated (material, product) pair |
| Store.EmptyIsConsistent | gemprop.py:139-158 | freshly created empty tables satisfy the consistency invariant |
| Validation.DigitRunEnd | gemprop.py:711-712 | the greedy digit run stops at the end of the text or at the first non-digit, and covers only digits |
| Validation.IsIntegerAsWritten | gemprop.py:704-715 | an int passes, None fails, and text passes iff it is one or more digits optionally followed by a single final newline |
| Validation.TrailingNewlineSlipsThrough | gemprop.py:711-712 | the text "7" plus a newline passes the validator as written but is not digits only |
| Validation.AsWrittenDiffersOnlyByFinalNewline | gemprop.py:711-715 | the validator as written accepts everything the digits-only check does, plus exactly the digits-then-newline texts |
| Validation.IsInteger | gemprop.py:704-706 | an int passes, None fails, and text passes iff it is non-empty and every character is a digit 0-9 |
| Validation.DecimalTextPasses | gemprop.py:704-706 | the decimal text of every natural number passes both the validator as written and the corrected one |
| Validation.CheckMaterialForm | gemprop.py:727-751 | the form passes iff every field is readable, the description is non-empty and no numeric field is zero; an unreadable field is reported before an empty description |
| Materials.AddMaterial | gemprop.py:753-782 | a material is inserted under a fresh id iff the form passes and no material has the same description; otherwise the form error or Duplicate is reported and the store is unchanged |
| Materials.DeleteMaterial | gemprop.py:817-850 | deletion needs a selection, is refused while any BOM line references the material, and after confirmation removes exactly that material; products and lines are untouched |
| Materials.AddedMaterialPassedTheForm | gemprop.py:753-767 | a material that gets added has a non-empty description, no zero numeric field, and a description no earlier material had |
| Materials.AddMaterialKeepsConsistent | gemprop.py:760-767 | adding a material keeps descriptions unique and the store consistent |
| Materials.DeleteMaterialKeepsConsistent | gemprop.py:828-832 | deleting a material never leaves a BOM line pointing at a missing material |
| Materials.AddThenDeleteMaterial | gemprop.py:838-841 | deleting a just-added material gives back the original store, for any store; the one exception is a line already naming the new id, where the delete is refused as in use; a store whose lines all name existing materials always gets back exactly |
| Products.AddProduct | gemprop.py:859-895 | a product is inserted under a fresh id iff its description is non-empty and not already used; otherwise the store is unchanged |
| Products.DeleteProduct | gemprop.py:948-987 | after selection and confirmation, exactly the product's BOM lines and then the product itself are removed; every other line stays with all its copies; materials are untouched |
| Products.DeleteProductKeepsOrder | gemprop.py:964-966 | the lines left after deleting a product are exactly the other products' lines, each once, in their original order |
| Products.AssociatedMaterials | gemprop.py:288-303 | the list shows, for each line of the product with an existing material, the material id, its current description and the quantity, and nothing else |
| Products.ListedIffUses | gemprop.py:913-919 | the duplicate scan over the product's material list finds a description exactly when some line of the product uses a material with that description |
| Products.AssociateMaterial | gemprop.py:897-928 | association needs a non-empty product description, a material and a non-zero quantity, is refused when the product already lists that material, and after confirmation appends exactly one line for the looked-up material |
| Products.DisassociateMaterial | gemprop.py:266-285 | after a material is selected and the user confirms (gemprop.py:930-946), exactly the lines pairing the looked-up material with the product are deleted; every other line stays with all its copies |
| Products.DisassociateKeepsOrder | gemprop.py:276-278 | the lines left after disassociating are exactly the lines not pairing that material with the product, each once, in their original order |
| Products.AddProductKeepsConsistent | gemprop.py:872-878 | adding a product keeps product descriptions unique and the store consistent |
| Products.DeleteProductKeepsConsistent | gemprop.py:963-975 | deleting a product's lines before the product leaves no dangling line |
| Products.AssociateKeepsUniquePairs | gemprop.py:912-919 | whatever the selected product id, a duplicate scan by exact description over the selected product's lines keeps (material, product) pairs unique |
| Products.AssociateKeepsConsistent | gemprop.py:912-919 | when the selected product exists, association keeps the whole store consistent |
| Products.AssociateWithoutProductLeavesDanglingLine | gemprop.py:901-926 | with product id 0 and a typed description, association on a consistent store succeeds and leaves a line for a product that does not exist |
| Products.DisassociateKeepsConsistent | gemprop.py:276-278 | disassociating keeps the store consistent |
| Products.AssociatedIsListed | gemprop.py:254-261 | after an association the product's list shows the material with its quantity |
| Products.DisassociatedIsNotListed | gemprop.py:276-283 | when material descriptions are distinct, after disassociation no line of the product uses a material with that description |
| Products.DeletedProductHasNoLines | gemprop.py:963-968 | after deleting a product it has no BOM lines and its material list is empty |
| Products.AddThenDeleteProduct | gemprop.py:970-975 | for any store, deleting a just-added product restores the products and removes only lines naming the new id; the store comes back exactly when no line names that id, as in every store whose lines belong to existing products or to product 0 |
| Products.AssociateThenDisassociate | gemprop.py:276-278 | for any store, disassociating a just-associated material gives back the original store |
| Orders.OrderRows | gemprop.py:1003-1013 | each order row is a BOM line of the product, with its material's current stock and lead time; a missing product yields no rows |
| Orders.OrderRowsCoverLines | gemprop.py:1003-1010 | every line of the product whose material exists yields a row with that material and quantity |
| Orders.OrderRowsDistinct | gemprop.py:1003-1013 | when (material, product) pairs are unique, no material appears in two order rows |
| Orders.Assess | gemprop.py:1016-1025 | delayed iff some row is short; the delay is non-negative, at least the lead time of every short row, and either 0 or the lead time of a short row |
| Orders.Consume | gemprop.py:1032-1042 | the consumption loop changes nothing but stock and keeps the set of materials |
| Orders.ConsumeLeavesOthers | gemprop.py:1037-1040 | a material whose every UPDATE failed, or that no row names, keeps its row, so a failed update does not stop the loop from going on |
| Orders.ConsumeLastWrite | gemprop.py:1032-1038 | a material's new stock is the stock the query read minus the quantity of the last row whose UPDATE succeeded, with no floor at zero |
| Orders.ProcessOrder | gemprop.py:989-1050 | no choice is refused; a delayed order the user declines is refused with the store unchanged; otherwise the order is placed; only stock ever changes |
| Orders.ShortLineHasShortRow | gemprop.py:1018-1023 | every short line of the product shows up as a short order row with its material's lead time |
| Orders.ShortRowHasShortLine | gemprop.py:1018-1023 | every short order row comes from a short line of the product |
| Orders.OrderDelay | gemprop.py:1016-1025 | the order is delayed iff some line of the product is short of stock, and the reported delay is the maximum lead time over exactly those lines, 0 when there are none |
| Orders.DeclinedOrderChangesNothing | gemprop.py:1028-1030 | when some line of the product is short and the user declines, the order is refused, nothing changes, and the reported delay covers that line |
| Orders.OrderConsumption | gemprop.py:1032-1038 | when no (material, product) pair repeats, each line of a placed order whose material exists takes its quantity off that material's stock, possibly below zero, unless that row's UPDATE failed |
| Orders.OrderLeavesOthers | gemprop.py:1037-1040 | materials the product does not use, and materials all of whose UPDATEs failed, keep their rows |
| Orders.ProcessOrderKeepsConsistent | gemprop.py:1037 | processing an order keeps the store consistent |
| Orders.ReplenishStock | gemprop.py:315-323 | without confirmation nothing changes; with it, every material strictly below its reorder level gains exactly 10 units, the rest are unchanged, and only stock changes |
| Orders.SweepCountsChangedRows | gemprop.py:319-323 | the reported count equals the number of materials whose row changed, and is 0 exactly when no material was below its level |
| Orders.SweepsProgress | gemprop.py:319 | after n sweeps a material has reached its reorder level or gained 10 units per sweep |
| Orders.SweepsReachReorderLevel | gemprop.py:319 | one sweep per 10 units of shortfall, rounded up, brings any material up to its reorder level |
| Orders.OneSweepMayNotSuffice | gemprop.py:319 | a shortfall of more than 10 units survives a single sweep |
| Orders.ReplenishKeepsConsistent | gemprop.py:319 | the sweep keeps the store consistent |
| Scenarios.EnoughStockScenario | gemprop.py:1016-1042 | with 5 bolts and 20 nuts, a widget taking 2 bolts and 1 nut is built without delay, leaving 3 bolts and 19 nuts |
| Scenarios.ShortStockScenario | gemprop.py:1021-1038 | with 10 bolts per widget the order reports a 3-day delay; declining changes nothing, accepting leaves -5 bolts and 19 nuts |
| Scenarios.SweepScenario | gemprop.py:319-320 | one sweep lifts the bolts from 5 to 15, leaves the nuts alone, and reports one row |

## Left out

- Orders.OrderConsumption: stated only for stores where no (material, product) pair repeats. If a pair repeats, the loop writes the query's stock minus each row's quantity in turn, so the last row wins instead of the quantities adding up; Orders.ConsumeLastWrite states that general case.
- Store failures: every statement is assumed to succeed, except the UPDATEs of the order loop. Each of those can fail on its own. `failing` holds the positions, in the order query's result, of the rows whose UPDATE fails. The non-atomic two-step product delete and a failed INSERT are not modelled. Nor is a failed duplicate-count query, after which the code skips the duplicate check.
- `materiales_actualizar_material` and `materiales_actualizar_registro_material` are not modelled. They overwrite the selected material's description, stock, reorder level and lead time with the form's values after the form check. They run no duplicate-description check, so they are the one path that can give two materials the same description. The `Consistent` invariant and every lookup by description rely on descriptions being distinct, so including them would need a second store invariant. The other BOM and order operations do not use them.
- Crashes: indexing `[0][0]` on an empty lookup result is not modelled. A material or product with the chosen description must exist; this is a precondition of `AssociateMaterial`, `DisassociateMaterial` and `ProcessOrder`. For disassociation that is not enough: a description that reads as an integer but is not written canonically, such as "007", also crashes it; see the Tk widgets line.
- Row order: SELECT without ORDER BY is modelled as table-scan order. That means BOM order for joins and least id for a lookup by description.
- Tk widgets: how an entry's text becomes an IntVar value is abstracted as `Option<int>`, with None meaning unreadable. That text conversion is left out. So is the conversion ttk's `Treeview.item` applies to the values it hands back, which turns integer-looking text such as "007" into an int. The duplicate scan at gemprop.py:917 compares that value with the combobox's string. For such a description it never matches, so the program can associate the same material twice with a product. Disassociation is broken the same way. gemprop.py:937 reads the selected description back as an int, and the lookup at gemprop.py:268-269 compares it with the stored text, so "007" finds no row. The indexing at gemprop.py:274 then raises, nothing catches it, and nothing is deleted. The model compares exact strings and shows neither effect: `DisassociateMaterial` reports Done whenever the material exists.
- Products.AssociateKeepsUniquePairs: the model scans the selected product's current lines. `productos_limpiar_campos` (gemprop.py:852-856) sets the product id to 0 without refreshing the material list. It runs from the Limpiar button (gemprop.py:587) and after a product is added (gemprop.py:884). The scan at gemprop.py:914-919 then reads the previously shown product's lines, so a second line pairing a material with product 0 can be inserted. A stale list is not modelled.
- Products.AssociateMaterial: the quantity is taken as a readable integer. When the quantity field is empty, reading it raises an exception that nothing catches, so the button does nothing; this is not modelled.
- Integers are unbounded; SQLite's 64-bit integer range is not modelled.
- Windows, menus, dialogs, message texts, logging with timestamps, image loading, the command-line store file name and per-OS font settings are presentation or I/O and are left out.
- The list refreshes after each change (`mostrar_lista_de_materiales`, comboboxes) are read-only queries with no state of their own and are left out.

## Findings

| source | as written | input that shows it | evidently intended | confidence | as-written member | corrected member |
|---|---|---|---|---|---|---|
| gemprop.py:711-712 | `re.compile("^[0-9]+$").match(texto)`: Python's `$` also matches just before a final newline, so digits followed by one newline are accepted | the text "7" followed by a newline: accepted, though it is not digits only | accept only non-empty all-digit text (`fullmatch`, or `\Z` in place of `$`) | medium; not executed | Validation.IsIntegerAsWritten (exhibited by Validation.TrailingNewlineSlipsThrough) | Validation.IsInteger (with Validation.AsWrittenDiffersOnlyByFinalNewline) |
