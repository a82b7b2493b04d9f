# Shoe shop point of sale — inventory and sales ledger

This project models the inventory and sales-ledger logic of the `ShoePOSSystem` React
component (`src/App.js`) in Dafny. The UI is left out. What remains is a small sequential
state machine over two lists:

- `products`: each product has an id, a name, a price and a stock table over thirteen
  shoe sizes, 6 to 12 in half steps.
- `sales`: a ledger of sale records that only grows.

Transitions are methods of the class `Pos.ShoePos`:

- `AddProduct` appends a product built from the add-product form.
- `UpdateProductStock` sets one stock cell, clamped at 0.
- `DeleteProduct`, `ConfirmDelete` and `CancelDelete` form the two-step delete.
- `ProcessSale` checks the stock, appends a sale record and takes the pairs out of stock.

Each method's `ensures` gives its new state as a function of the old state. Those
functions, and the values derived from the state, are proved correct by lemmas:

- today's sales, today's revenue, the stock total per product and for the catalogue;
- the sizes offered for sale and the colour of a stock cell;
- the CSV export.

Modules, one per file:

| file | module | contents |
|---|---|---|
| `wrappers.dfy` | `Wrappers` | `Option`, `Result` |
| `seqs.dfy` | `Seqs` | `filter`, sums, `join` and `split` with their lemmas |
| `clock.dfy` | `Clock` | a time stamp as the component reads it: calendar day and time of day |
| `text.dfy` | `Text` | `trim`; the decimal text of quantities and amounts, with its parser |
| `catalog.dfy` | `Catalog` | sizes, products, stock tables, stock update, delete filter, stock sums, offered sizes, stock colour |
| `ledger.dfy` | `Ledger` | payment methods, sale records, today's sales and revenue |
| `csv.dfy` | `Csv` | the exported text and how it reads back |
| `pos.dfy` | `Pos` | the sale as a function (`Sell`), its lemmas, and the component class |

Modelling choices:

- Prices and totals are integer cents.
- A size table is a `map<string, int>` whose keys are exactly the thirteen labels.
  `SIZE_LABELS` lists them in the order JavaScript enumerates the keys of the table
  literal: integer-like keys ascending, then the half sizes. That is the order of the
  size list in the sale form.
- `Date.now()` ids come from a counter field, `clock`, that is above every id handed
  out so far.
- A time stamp is kept as the two values the code reads back from it: the calendar day
  (`toDateString`) and the time-of-day text (`toLocaleTimeString`).

Behaviour of the code that the model keeps as written:

- `addProduct` checks only that the name and price fields are not empty strings. A name
  made only of spaces passes and is stored trimmed to `""` (`Catalog.NewProductName`).
  A price of `0` passes.
- The add-product form's size cells are stored as entered, so a negative count can enter
  the catalogue. `AddProduct` keeps stock non-negative only when the form's table is
  non-negative. Such a cell shows in the "low" colour (`Catalog.StockLevelOrder`).
- The CSV fields are not quoted. A comma in a product name moves the later fields
  (`Csv.CommaInNameBreaksLine`).
- The stock check `product.sizes[size] < quantity` never refuses a size that is not a
  key of the table (`Catalog.MissingSizeIsNotRejected`). Only the sale form's size list
  keeps such a size out.

Further facts about the code that the model reflects:

- The code has no discounts, customer types or categories.
- `updateProductStock` clamps a negative quantity to 0; it never refuses one.
- Deleting an absent id changes nothing.
- There is no version counter, and there are no low-stock, top-seller or payment
  breakdown reports.
- The CSV has seven columns.
- A sale is a single-threaded read-then-write with no locking.

## Model

| member | source | states |
|---|---|---|
| `Catalog.SizeLabelsDistinct` | src/App.js:43-57 | the size table has thirteen distinct size labels |
| `Catalog.BlankDraftIsEmpty` | src/App.js:93-110 | the reset form's table has all thirteen sizes, every cell 0, total 0 |
| `Catalog.NewProduct` | src/App.js:79-90 | no product exactly when the name or the price field is empty; otherwise the product has the fresh id, the trimmed name, the price, the form's table and the time stamp |
| `Catalog.NewProductName` | src/App.js:79-86 | a stored name is already trimmed, and it is empty exactly when the entered name was all whitespace |
| `Text.Trim` | src/App.js:86 | `String.prototype.trim`; stated by `TrimCuts`, `TrimIsCore`, `TrimEmptyIffBlank` and `TrimIdempotent` |
| `Text.TrimCuts` | src/App.js:86 | `trim` cuts the text at two points: it keeps what lies between them and drops only whitespace |
| `Text.TrimIsCore` | src/App.js:86 | `trim` keeps a slice of the name that neither starts nor ends with whitespace; every dropped character is whitespace |
| `Text.TrimEmptyIffBlank` | src/App.js:86 | `trim` gives `""` exactly when the text is all whitespace |
| `Text.TrimIdempotent` | src/App.js:86 | trimming a trimmed name changes nothing |
| `Catalog.FindProduct` | src/App.js:142-146 | the result is the first product with the id; none when no product has it or the id did not parse |
| `Catalog.AtLeastZero` | src/App.js:120 | `Math.max(0, q)` is non-negative, at least `q`, and equal to `q` or 0 |
| `Catalog.SetStock` | src/App.js:116-124 | `updateProductStock`'s new list; what it keeps and changes is stated by `SetStockEffect`, `SetStockOne` and `SetStockKeepsInvariants` |
| `Catalog.SetStockEffect` | src/App.js:116-124 | order, length and every product's id, name, price and date kept; every product with the id gets cell `size` = `max(0, q)` and keeps its other cells; every other product is unchanged |
| `Catalog.SetStockOne` | src/App.js:116-124 | with unique ids, the update replaces exactly the one product with that id |
| `Catalog.SetStockKeepsInvariants` | src/App.js:116-124 | setting a cell of a size every table has keeps the length and every id, the thirteen keys per product, the unique ids and non-negative stock |
| `Catalog.StockSum` | src/App.js:732-735 | a product's pairs in stock, the sum of its thirteen cells; stated by `StockSumUpdate` and `BlankDraftIsEmpty` |
| `Catalog.ProductStock` | src/App.js:227 | the per-product sum inside `totalItems`; stated by `StockSumUpdate` |
| `Catalog.StockSumUpdate` | src/App.js:732-735 | setting one cell changes a product's stock total by exactly the change of that cell |
| `Catalog.TotalItems` | src/App.js:225-229 | `totalItems`; stated by `TotalItemsNonNegative`, `SetStockTotal` and `Pos.SellConservesPairs` |
| `Catalog.TotalItemsNonNegative` | src/App.js:225-229 | with non-negative cells, the catalogue's stock total is non-negative |
| `Catalog.SetStockTotal` | src/App.js:225-229 | after a stock update, the catalogue total has moved by exactly the change of the one cell |
| `Seqs.FilterSpec` | src/App.js:132 | `filter` gives an order-preserving subsequence of its input that holds exactly the accepted elements, each accepted value as many times as the input holds it |
| `Catalog.RemoveProduct` | src/App.js:132 | the result keeps exactly the products whose id differs from the target, in their order; a `null` target matches nothing |
| `Catalog.RemoveProductShape` | src/App.js:131-134 | with unique ids, confirming removes exactly the product with the id, the rest stay in order; an absent or `null` id changes nothing |
| `Catalog.RemoveProductKeepsInvariants` | src/App.js:132 | deleting keeps the unique ids, the thirteen keys per product and non-negative stock |
| `Catalog.StockCheckRejects` | src/App.js:149 | the stock check `sizes[size] < quantity`; stated by `MissingSizeIsNotRejected`, `OfferedSizeIsSellable` and `Pos.Sell` |
| `Catalog.MissingSizeIsNotRejected` | src/App.js:149 | a size that is not a key of the table never fails the stock check (`undefined < q` is false) |
| `Catalog.Entries` | src/App.js:364 | `Object.entries(sizes)` lists each key of the table exactly once, with its count, in the order JavaScript enumerates the keys (the order of `SIZE_LABELS`) |
| `Catalog.SizesInStock` | src/App.js:364-365 | the offered sizes are exactly the entries with count above 0, in key order, each with its true count |
| `Catalog.OfferedSizeIsSellable` | src/App.js:364-365 | an offered size is one of the thirteen labels and passes the stock check for one pair |
| `Catalog.StockLevelOf` | src/App.js:697-701 | red exactly at 0, green exactly from 3 up, yellow otherwise |
| `Catalog.StockLevelOrder` | src/App.js:697-701 | on non-negative counts the colour is monotone in the count; a negative count shows yellow |
| `Ledger.PaymentLabelRoundTrip` | src/App.js:433-435 | every payment method's option value reads back as that method |
| `Ledger.TodaysSales` | src/App.js:70-75 | today's sales are exactly the ledger's sales stamped today, as an order-preserving subsequence that holds each of them as many times as the ledger does |
| `Ledger.TodaysSalesAppend` | src/App.js:70-75 | a sale appended to the ledger is appended to today's sales exactly when it is stamped today |
| `Ledger.TodaysTotal` | src/App.js:224 | `todaysTotal`; stated by `TodaysTotalAppend` and `Pos.SellRevenue` |
| `Ledger.TodaysTotalAppend` | src/App.js:224 | an appended sale adds its total to today's revenue when stamped today, else nothing |
| `Ledger.UnitsSoldAppend` | src/App.js:157-169 | an appended sale adds its quantity to the pairs the ledger records as sold |
| `Pos.ClampQuantity` | src/App.js:383-399 | the sale quantity is at least 1 and equals the entered value whenever that is at least 1 |
| `Pos.Sell` | src/App.js:141-176 | refused with "no product" when the id matches nothing, or with the available count exactly when it is below the quantity; otherwise the ledger is the old one plus one record: name, unit price, `total = price * quantity`, size, quantity, payment, time |
| `Pos.SellStockEffect` | src/App.js:172-176 | a sale takes exactly the quantity out of the chosen size, which stays at least 0; other sizes and other products are unchanged |
| `Pos.SellConservesPairs` | src/App.js:157-176 | catalogue stock total plus pairs sold in the ledger is the same before and after a sale |
| `Pos.SellRevenue` | src/App.js:157-169 | a sale adds price times quantity to the revenue of its own day and nothing to other days |
| `Pos.SellKeepsInvariants` | src/App.js:172-176 | a sale keeps the length of the product list and every product's id, and preserves the thirteen keys per product, unique ids and non-negative stock |
| `Pos.CheckoutKeepsInvariants` | src/App.js:141-187 | after a completed sale the product list is still well formed with unique ids, stock stays non-negative, and every product and sale id is below the next id handed out |
| `Text.IntString` | src/App.js:203 | the text of the quantity field; stated by `NatStringRoundTrip`, `NumberTextHasNoSeparators` and `Csv.CsvLineReadBack` |
| `Text.CentsString` | src/App.js:203 | the text of the unit price and total fields; stated by `CentsRoundTrip` and `NumberTextHasNoSeparators` |
| `Text.NatStringRoundTrip` | src/App.js:203 | the printed quantity parses back to the quantity |
| `Text.CentsRoundTrip` | src/App.js:203 | the printed unit price or total parses back to the amount in cents |
| `Text.NumberTextHasNoSeparators` | src/App.js:201-205 | printed numbers hold no comma and no line break |
| `Seqs.SplitJoin` | src/App.js:197-207 | splitting a joined text at the separator gives back the parts, when no part holds the separator |
| `Seqs.JoinSplit` | src/App.js:197-207 | joining the pieces of a split gives back the text |
| `Csv.HeaderColumns` | src/App.js:198 | the header splits into `Time`, `Product`, `Size`, `Quantity`, `Unit Price`, `Total`, `Payment Method` and holds no line break |
| `Csv.CsvFields` | src/App.js:201-205 | a sale's line has seven fields |
| `Csv.CsvLine` | src/App.js:199-206 | one sale's line; stated by `PlainLine`, `CsvLineReadBack` and `CommaInNameBreaksLine` |
| `Csv.PlainLine` | src/App.js:199-206 | when name, size and time hold no comma or line break, no field does, and the line holds no line break |
| `Csv.CsvLineReadBack` | src/App.js:199-206 | splitting such a line at commas gives the seven fields; quantity, unit price, total and payment method read back to the recorded values |
| `Csv.CommaInNameBreaksLine` | src/App.js:201-205 | with a comma in the product name, the line no longer splits into the sale's seven fields |
| `Csv.CsvText` | src/App.js:197-207 | the header and the sales' lines joined by line feeds; stated by `CsvTextLines` and `ExportedLines` |
| `Csv.CsvTextLines` | src/App.js:197-207 | the CSV text splits at line feeds into the header and one line per sale, `n + 1` lines in all |
| `Csv.ExportTodayCsv` | src/App.js:190-207 | nothing is exported exactly when there is no sale today; otherwise the CSV text of today's sales |
| `Csv.ExportedLines` | src/App.js:190-207 | when some sale is stamped today and the day's sales have plain fields, a file is exported and its text is the header followed by exactly one line per sale of the day |
| `Pos.ShoePos.constructor` | src/App.js:15-58 | a first start: no products, no sales, blank forms, dialog closed |
| `Pos.ShoePos.EditNewProduct` | src/App.js:547-595 | the add-product form holds what was entered; the table keeps its thirteen keys |
| `Pos.ShoePos.EditCurrentSale` | src/App.js:325-436 | the sale form holds the chosen product, size and payment method, and the quantity clamped to at least 1 |
| `Pos.ShoePos.AddProduct` | src/App.js:78-113 | with an empty name or price field nothing changes; otherwise exactly one product with a fresh id is appended, the others stay, and the form is reset |
| `Pos.ShoePos.UpdateProductStock` | src/App.js:116-124 | the product list becomes `SetStock` of the old one; sales and forms untouched; stock stays non-negative |
| `Pos.ShoePos.DeleteProduct` | src/App.js:127-129 | only opens the confirmation for the id; the invariants still hold |
| `Pos.ShoePos.ConfirmDelete` | src/App.js:131-134 | removes the products with the dialog's id, keeps the rest in order, leaves sales alone, closes the dialog |
| `Pos.ShoePos.CancelDelete` | src/App.js:136-138 | closes the dialog; nothing else changes and the invariants still hold |
| `Pos.ShoePos.ProcessSale` | src/App.js:141-187 | a refused sale changes nothing, not even the form; a completed one sets products and sales as `Sell` gives them, reports the total and resets the form |

## Left out

- Rendering, tabs, modals, the edit toggle (`editingProduct`) and the add-form toggle
  (`isAddingProduct`), from `src/App.js:231-852`. These are UI.
- Loading from and saving to `localStorage` (`src/App.js:15-23`, `60-67`). This is
  persistence I/O. The constructor models a first start with nothing saved.
- `alert` messages. They become return values (`SaleOutcome`, the `added` flag) or
  nothing.
- The Blob and anchor download (`src/App.js:209-217`). This is browser I/O.
  `ExportTodayCsv` gives the text that would be downloaded.
- The host clock and locale. A time stamp is a day key and an opaque time-of-day
  string. `dateAdded` holds that stamp, not the ISO text.
- `Date.now()` ids. They come from a counter and are always fresh. Two actions in the
  same millisecond, which would share an id in the code, are not modelled. So are
  duplicate ids in saved data. With unique ids, "every product with the id" in the stock
  update and the delete filter is one product.
- Floating point. Prices are integer cents, and `price * quantity` is exact. Binary
  rounding in JavaScript's products and the `toFixed(2)` display are not modelled.
  `CentsString` prints amounts the way JavaScript prints a number of whole cents, but
  not the exponent form used from 1e21 up.
- `parseInt` and `parseFloat` on form text. The forms hold parsed values: `None` for an
  empty or unparsable product id or price field.
- Clearing the sale form's size when the product changes (`src/App.js:333`). This is a
  UI handler. `EditCurrentSale` sets all fields at once.
- Pos.ShoePos.ProcessSale: requires the chosen size to be one of the thirteen labels.
  The code does not check this. Only the size list (`src/App.js:364-365`) keeps other
  sizes out. For a missing key the code records the sale and writes `NaN` into a new
  key, which an integer table cannot hold.
- Pos.Sell: requires the chosen size to be a key of every product's table, for the same
  reason. `ProcessSale` derives this from its own requirement.
- Concurrency. The code is single-threaded React state, with no locking or retries.
