# Product quoting components: cart and product search, modelled in Dafny

This project models the two Lightning Web Components that hold the logic of a
Salesforce quoting prototype:

- **productCart** is the cart aggregator. It keeps an ordered list of lines.
  - `addItem` merges an incoming product into the line with the same product
    code, or appends a normalised new line.
  - `handleRemove` drops lines by id.
  - `handleDiscountChange` validates the cart-level discount percentage.
  - The getters compute line gross, the clamped Amount/Percent discount, the net,
    the subtotal, 10% tax on the undiscounted subtotal, a fixed 5.0 shipping, and
    the grand total scaled by the cart discount.
  - `_esc` escapes HTML.
- **productSearch** is the search result table.
  - Server records are mapped to rows, with quantity 1 when missing and total
    equal to price times quantity.
  - Rows are sorted by a column, ascending or descending.
  - Inline-edit drafts are merged into the rows on save, and each total is
    recomputed.
  - The rows are paged ten at a time behind first/previous/next/last buttons.
  - The "Add" button sends a row, with its unsaved edits, to the cart.

Layout, one module per file:

| file | module | what it holds |
|---|---|---|
| `wrappers.dfy` | `Wrappers` | `Option`: a field that may be `undefined` |
| `seq_find.dfy` | `SeqFind` | `find`/`findIndex` |
| `cart_items.dfy` | `CartItems` | products, cart lines, and the rules of add, remove and discount validation |
| `cart_totals.dfy` | `CartTotals` | the totals getters and their algebra |
| `html_escape.dfy` | `HtmlEscape` | `_esc` and its round trip |
| `product_cart.dfy` | `ProductCartComponent` | class `ProductCart`, which holds the cart state and its handlers |
| `search_rows.dfy` | `SearchRows` | rows, drafts, the row mapping, the draft overlay and the cart payload |
| `stable_sort.dfy` | `StableSort` | `Array.prototype.sort` as a stable insertion sort over a comparator |
| `search_sort.dfy` | `SearchSort` | the comparator of `applySort` and the sorted rows |
| `search_save.dfy` | `SearchSave` | the draft merge of `handleSave` |
| `search_paging.dfy` | `SearchPaging` | page count and page slice |
| `product_search.dfy` | `ProductSearchComponent` | class `ProductSearch`, which holds the table state and its handlers |

How the model represents the source's values:
- Amounts are Dafny `real`, so every equation about totals is exact.
- A field that may be `undefined` is an `Option`.
- The quantity fields of a product handed to the cart may be NaN (`JsNumber`),
  because there the source handles NaN with `|| 1`.
- The cart discount is a `TextNumber`: the text typed by the user, paired with what
  `Number()` makes of it.

The two components change their fields step by step, so they are classes:
- Each handler is a method that names what it modifies.
- Each method states its new state through the pure functions beside it.
- Each class has an invariant `Valid()` that every handler keeps:
  - for the cart, distinct product codes and an acceptable discount;
  - for the table, `1 <= page <= totalPages`, with the page count and the page
    slice matching the rows.

`handleSave` merges drafts into a cloned array in a loop. `HandleSave` keeps that
array. `SearchSave.MergeDrafts` keeps the loop, and proves that the array ends up
holding the fold `SearchSave.SaveAll`.

Two things the code does that a reader may not expect:
- **The discount is overwritten, never kept.** `handleDiscountChange`
  (productCart.js:77-89) sets the discount to `''` on negative or non-numeric
  input and to `'100'` above 100; it does not keep the previous value.
  `ValidatedDiscount` models this.
- **Products without a code share one line.** `addItem` looks for the existing
  line with `===` on `ProductCode` (productCart.js:45), and `undefined ===
  undefined`, so a product with no `ProductCode` merges into any line that has
  none. `FindByCode` compares two missing codes as equal, and
  `AddedKeepsCodesDistinct` then implies that a cart holds at most one line
  without a code.

## Model

| member | source | states |
|---|---|---|
| `CartItems.OrOne` | force-app/main/default/lwc/productCart/productCart.js:41 | `Number(v) \|\| 1` is never 0: it is the number when that is neither 0 nor NaN, and 1 for NaN or 0 |
| `CartItems.IncomingQuantity` | force-app/main/default/lwc/productCart/productCart.js:41 | the incoming quantity is never 0: it is `Number(Quantity) \|\| 1` when `Quantity` is present, else `Number(Quantity__c) \|\| 1` when that is present, else 1 |
| `CartItems.LineId` | force-app/main/default/lwc/productCart/productCart.js:43 | a new line's key is the non-empty `Id`, else the non-empty `ProductCode`, else the generated fallback |
| `CartItems.NewLine` | force-app/main/default/lwc/productCart/productCart.js:50-57 | a new line has the incoming quantity (never 0), the unit price or 0, type Amount exactly when the product says "Amount" and Percent otherwise, and the discount value or 0 |
| `CartItems.FindByCode` | force-app/main/default/lwc/productCart/productCart.js:45 | returns the first line with the product's code, or None exactly when no line has it |
| `CartItems.Added` | force-app/main/default/lwc/productCart/productCart.js:45-59 | on a code match: the same line count, that line's quantity raised by the incoming quantity, every other line unchanged; otherwise: the old lines in order plus one new line at the end |
| `CartItems.AddedKeepsCodesDistinct` | force-app/main/default/lwc/productCart/productCart.js:45-59 | adding never makes two lines share a product code |
| `CartItems.AddedLength` | force-app/main/default/lwc/productCart/productCart.js:45-59 | the line count grows by one exactly when no line has the product's code |
| `CartItems.RemoveById` | force-app/main/default/lwc/productCart/productCart.js:66 | keeps exactly the lines whose id differs; removing an absent id changes nothing |
| `CartItems.RemoveByIdConcat` | force-app/main/default/lwc/productCart/productCart.js:66 | removal distributes over concatenation, so the kept lines keep their relative order |
| `CartItems.RemoveKeepsCodesDistinct` | force-app/main/default/lwc/productCart/productCart.js:64-67 | removal keeps product codes distinct |
| `CartItems.ValidatedDiscount` | force-app/main/default/lwc/productCart/productCart.js:73-90 | the result is always empty or a number in [0, 100]: empty for negative or non-numeric input, "100" above 100, the input itself when that is already acceptable |
| `ProductCartComponent.ProductCart.constructor` | force-app/main/default/lwc/productCart/productCart.js:13-20 | an empty cart, no discount, no opportunity |
| `ProductCartComponent.ProductCart.AddItem` | force-app/main/default/lwc/productCart/productCart.js:35-62 | the lines become `Added(old lines, product)`, the opportunity is taken from the product only when none is set yet, the discount is untouched, and the invariant is kept |
| `ProductCartComponent.ProductCart.HandleRemove` | force-app/main/default/lwc/productCart/productCart.js:64-67 | the lines become `RemoveById(old lines, id)` and the invariant is kept |
| `ProductCartComponent.ProductCart.HandleDiscountChange` | force-app/main/default/lwc/productCart/productCart.js:73-90 | the discount becomes `ValidatedDiscount(value)` and the invariant is kept |
| `CartTotals.PercentFactor` | force-app/main/default/lwc/productCart/productCart.js:114-115 | the Percent share of the gross lies in [0, 1] |
| `CartTotals.PercentOfBounds` | force-app/main/default/lwc/productCart/productCart.js:114-115 | a clamped percentage of a non-negative gross lies between 0 and the gross |
| `CartTotals.PercentOfEnds` | force-app/main/default/lwc/productCart/productCart.js:114-115 | a percentage of 0 or less takes nothing, and one of 100 or more takes the whole gross |
| `CartTotals.PercentOfInRange` | force-app/main/default/lwc/productCart/productCart.js:114-115 | a percentage within [0, 100] takes `gross * pct / 100` |
| `CartTotals.DiscountFor` | force-app/main/default/lwc/productCart/productCart.js:107-116 | on a line of non-negative gross the discount lies between 0 and the gross, for either discount type |
| `CartTotals.NetFor` | force-app/main/default/lwc/productCart/productCart.js:118 | the net is never negative, and on a line of non-negative gross it is exactly the gross less the discount |
| `CartTotals.DiscountBounds` | force-app/main/default/lwc/productCart/productCart.js:107-118 | for gross >= 0: 0 <= discount <= gross and net = gross - discount; an Amount in [0, gross] is taken as is and one beyond the gross takes all of it; a Percent in [0, 100] takes that share and 100 or more takes all |
| `CartTotals.NegativeGrossIsFree` | force-app/main/default/lwc/productCart/productCart.js:118 | a line with negative gross has net 0 |
| `CartTotals.NetMonotone` | force-app/main/default/lwc/productCart/productCart.js:105-118 | with the same discount, a larger gross never gives a smaller net |
| `CartTotals.Priced` | force-app/main/default/lwc/productCart/productCart.js:102-125 | a line's `lineTotal` is its gross, its `discountAmount` is the clamped discount, and its `netPrice` is the net, never negative |
| `CartTotals.CartItemsWithTotals` | force-app/main/default/lwc/productCart/productCart.js:101-127 | one priced line per cart line, in order: entry i is line i with its gross, clamped discount and net |
| `CartTotals.SumOverPricedLines` | force-app/main/default/lwc/productCart/productCart.js:131-132 | summing `discountAmount` or `netPrice` over `cartItemsWithTotals` is summing each line's own discount or net |
| `CartTotals.Subtotal` | force-app/main/default/lwc/productCart/productCart.js:93-98 | the `reduce` over the lines' gross; never negative when no line's gross is |
| `CartTotals.DiscountTotal` | force-app/main/default/lwc/productCart/productCart.js:131 | the `reduce` of `discountAmount` over `cartItemsWithTotals` equals the sum of every line's clamped discount |
| `CartTotals.NetTotal` | force-app/main/default/lwc/productCart/productCart.js:132 | the `reduce` of `netPrice` over `cartItemsWithTotals` equals the sum of every line's net |
| `CartTotals.TaxAmount` | force-app/main/default/lwc/productCart/productCart.js:129 | the tax on a non-negative subtotal lies between 0 and that subtotal |
| `CartTotals.AfterCartDiscount` | force-app/main/default/lwc/productCart/productCart.js:136-140 | without an applicable cart discount the total is unchanged; an acceptable one keeps a non-negative total between 0 and itself |
| `CartTotals.GrandTotal` | force-app/main/default/lwc/productCart/productCart.js:133-143 | with an acceptable cart discount and a non-negative subtotal, the grand total lies between 0 and net total plus tax plus shipping |
| `CartTotals.SumOfAppend` | force-app/main/default/lwc/productCart/productCart.js:94-98 | a `reduce` over one more line adds that line's share |
| `CartTotals.SumOfUpdate` | force-app/main/default/lwc/productCart/productCart.js:94-98 | replacing one line changes a `reduce` by the difference of the two lines' shares |
| `CartTotals.SumOfNonNegative` | force-app/main/default/lwc/productCart/productCart.js:131-132 | a sum of non-negative shares is non-negative |
| `CartTotals.DiscountPlusNetIsSubtotal` | force-app/main/default/lwc/productCart/productCart.js:131-132 | when every gross is >= 0: discountTotal + netTotal = subtotal, and 0 <= discountTotal <= subtotal |
| `CartTotals.NetTotalNonNegative` | force-app/main/default/lwc/productCart/productCart.js:132 | the net total is never negative |
| `CartTotals.TaxOnUndiscountedSubtotal` | force-app/main/default/lwc/productCart/productCart.js:129 | tax is a tenth of the undiscounted amount, discountTotal + netTotal |
| `CartTotals.AppliedDiscount` | force-app/main/default/lwc/productCart/productCart.js:137-138 | the cart discount applies exactly when it is non-empty, numeric and > 0, and it is that number |
| `CartTotals.AfterCartDiscountMonotone` | force-app/main/default/lwc/productCart/productCart.js:136-140 | an acceptable cart discount never turns a larger total into a smaller one |
| `CartTotals.EmptyCartCostsShipping` | force-app/main/default/lwc/productCart/productCart.js:129-143 | with no cart discount, an empty cart has subtotal, tax, discount and net total 0, and grand total exactly 5.0 |
| `CartTotals.GrandTotalMonotone` | force-app/main/default/lwc/productCart/productCart.js:133-143 | when one line's gross grows and its discount stays the same, the grand total does not decrease |
| `CartTotals.GrandTotalMonotoneInUnitPrice` | force-app/main/default/lwc/productCart/productCart.js:133-143 | raising a line's unit price (quantity >= 0) never lowers the grand total |
| `CartTotals.GrossOfMerged` | force-app/main/default/lwc/productCart/productCart.js:47 | adding `qty` units to a line adds `qty` times its unit price to its gross |
| `CartTotals.SubtotalAfterMerge` | force-app/main/default/lwc/productCart/productCart.js:47-48 | merging `qty` units into a line raises the subtotal by `qty` times that line's unit price |
| `CartTotals.SubtotalAfterAdd` | force-app/main/default/lwc/productCart/productCart.js:45-59 | `addItem` raises the subtotal by the incoming quantity times the price of the line it lands on: the existing line's price when merging, the product's price when appending |
| `CartTotals.OneLineScenario` | force-app/main/default/lwc/productCart/productCart.js:93-143 | 2 units at 10.0 with 10% off give gross 20, discount 2, net 18, subtotal 20, tax 2, grand total 25, and 20 with a cart discount of 20 |
| `HtmlEscape.ReplaceAll` | force-app/main/default/lwc/productCart/productCart.js:187 | every character of the result is a character of the input other than the replaced one, or a character of the replacement; the replaced character alone becomes exactly the replacement |
| `HtmlEscape.Esc` | force-app/main/default/lwc/productCart/productCart.js:186-188 | a missing value gives "", and the output holds no '<' and no '>' |
| `HtmlEscape.ReplaceAllConcat` | force-app/main/default/lwc/productCart/productCart.js:187 | a global replace distributes over concatenation |
| `HtmlEscape.ReplaceAbsent` | force-app/main/default/lwc/productCart/productCart.js:187 | replacing a character that does not occur changes nothing |
| `HtmlEscape.EscOneChar` | force-app/main/default/lwc/productCart/productCart.js:187 | one character becomes exactly its entity: '<' becomes "&lt;", never "&amp;lt;", because '&' is replaced first |
| `HtmlEscape.EscConcat` | force-app/main/default/lwc/productCart/productCart.js:186-188 | `_esc` distributes over concatenation, so every character keeps its place |
| `HtmlEscape.EscIsSinglePass` | force-app/main/default/lwc/productCart/productCart.js:186-188 | the three chained replaces equal escaping each character once |
| `HtmlEscape.EscPlainText` | force-app/main/default/lwc/productCart/productCart.js:186-188 | text without '&', '<' and '>' is kept unchanged, and a missing value gives "" |
| `HtmlEscape.UnescapeEscapeChar` | force-app/main/default/lwc/productCart/productCart.js:187 | decoding reads each entity back as its character |
| `HtmlEscape.UnescapeEscapeEach` | force-app/main/default/lwc/productCart/productCart.js:187 | decoding single-pass escaped text gives the original back |
| `HtmlEscape.EscRoundTrip` | force-app/main/default/lwc/productCart/productCart.js:186-188 | decoding the output of `_esc` gives the input back: escaping loses nothing |
| `SearchRows.RowTotal` | force-app/main/default/lwc/productSearch/productSearch.js:60 | a missing or zero price gives total 0, which is the same as price-or-0 times quantity |
| `SearchRows.ToRow` | force-app/main/default/lwc/productSearch/productSearch.js:58-69 | a row keeps the record's id, name, code and price; its quantity is the record's, or 1 when missing; its total is price times quantity |
| `SearchRows.MapRows` | force-app/main/default/lwc/productSearch/productSearch.js:58-69 | one row per record |
| `SearchRows.MapRowsFields` | force-app/main/default/lwc/productSearch/productSearch.js:58-69 | row i carries record i's id, name, code and price, its quantity or 1, and a total equal to price times quantity |
| `SearchRows.Overlay` | force-app/main/default/lwc/productSearch/productSearch.js:97 | each field the draft carries replaces the row's, each field it lacks keeps the row's value, and the `Id` is kept; so a draft with no fields changes nothing and no field of the row is lost |
| `SearchRows.DraftsInUse` | force-app/main/default/lwc/productSearch/productSearch.js:92-94 | the datatable's live drafts when it has any, and otherwise the component's own |
| `SearchRows.EffectiveRow` | force-app/main/default/lwc/productSearch/productSearch.js:96-97 | the row overlaid with the first draft carrying its `Id`, or the row itself when no draft has it; the `Id` is kept |
| `SearchRows.PayloadQuantity` | force-app/main/default/lwc/productSearch/productSearch.js:108 | the quantity sent to the cart is never 0: it is the row's quantity when that is non-zero, and 1 when it is missing or 0 |
| `SearchRows.CartPayload` | force-app/main/default/lwc/productSearch/productSearch.js:110-117 | the payload carries the row's id and code, the price or 0, and a quantity that `addItem` reads as the payload quantity |
| `SearchRows.PayloadBecomesLine` | force-app/main/default/lwc/productSearch/productSearch.js:108-117 | a payload added as a new cart line has the row's non-zero quantity, its price, and a 0% discount |
| `StableSort.Sort` | force-app/main/default/lwc/productSearch/productSearch.js:162 | the sorted sequence has as many elements as the input; its order, content and stability are the lemmas below |
| `StableSort.InsertPermutation` | force-app/main/default/lwc/productSearch/productSearch.js:162-172 | insertion adds exactly the one element |
| `StableSort.SortPermutation` | force-app/main/default/lwc/productSearch/productSearch.js:162-172 | the sort is a permutation of its input |
| `StableSort.InsertSorted` | force-app/main/default/lwc/productSearch/productSearch.js:162-172 | inserting into a sorted sequence keeps it sorted |
| `StableSort.SortSorted` | force-app/main/default/lwc/productSearch/productSearch.js:162-172 | with a valid comparator, the result is sorted |
| `StableSort.SortOfSorted` | force-app/main/default/lwc/productSearch/productSearch.js:162-172 | a sequence already in order comes out unchanged |
| `StableSort.SortIdempotent` | force-app/main/default/lwc/productSearch/productSearch.js:162-172 | sorting twice is sorting once |
| `StableSort.EqualRunInsert` | force-app/main/default/lwc/productSearch/productSearch.js:162-172 | an inserted element lands after every element that compares equal to it |
| `StableSort.SortStable` | force-app/main/default/lwc/productSearch/productSearch.js:162-172 | elements that compare equal leave the sort in the order they entered it |
| `SearchSort.FieldOf` | force-app/main/default/lwc/productSearch/productSearch.js:163-165 | each of `Id`, `Name`, `ProductCode`, `UnitPrice`, `Quantity__c` and `Total` designates its own field, and every other name designates no field of a row |
| `SearchSort.LowerChar` | force-app/main/default/lwc/productSearch/productSearch.js:169-170 | upper-case ASCII letters are lowered, and every other character is kept |
| `SearchSort.Lower` | force-app/main/default/lwc/productSearch/productSearch.js:169-170 | lower-casing keeps the length and lowers each character |
| `SearchSort.StrLessIrreflexive` | force-app/main/default/lwc/productSearch/productSearch.js:171 | no string is less than itself |
| `SearchSort.StrLessTrichotomy` | force-app/main/default/lwc/productSearch/productSearch.js:171 | of two different strings exactly one is less |
| `SearchSort.StrLessTransitive` | force-app/main/default/lwc/productSearch/productSearch.js:171 | string `<` is transitive |
| `SearchSort.KeyCompare` | force-app/main/default/lwc/productSearch/productSearch.js:163-171 | the key comparison is -1, 0 or 1 |
| `SearchSort.KeyCompareAntisymmetric` | force-app/main/default/lwc/productSearch/productSearch.js:166-171 | swapping the rows negates the key comparison |
| `SearchSort.Compare` | force-app/main/default/lwc/productSearch/productSearch.js:162-172 | ascending compares the keys of the two rows; descending compares them with the rows swapped |
| `SearchSort.CompareAntisymmetric` | force-app/main/default/lwc/productSearch/productSearch.js:162-172 | swapping the rows negates the comparator |
| `SearchSort.CompareTransitive` | force-app/main/default/lwc/productSearch/productSearch.js:162-172 | "may precede" under the comparator is transitive |
| `SearchSort.ComparatorIsValid` | force-app/main/default/lwc/productSearch/productSearch.js:162-172 | the comparator meets what `sort` requires, for every column and direction |
| `SearchSort.SortRows` | force-app/main/default/lwc/productSearch/productSearch.js:161-162 | the sorted copy has as many rows as the original; its order, content and stability are the lemmas that follow |
| `SearchSort.SortRowsPermutation` | force-app/main/default/lwc/productSearch/productSearch.js:161-172 | the sorted rows are a permutation of the rows |
| `SearchSort.SortRowsSorted` | force-app/main/default/lwc/productSearch/productSearch.js:161-172 | the sorted rows are in the comparator's order |
| `SearchSort.SortedByNumber` | force-app/main/default/lwc/productSearch/productSearch.js:165-167 | on `UnitPrice`, `Quantity__c` or `Total` (missing read as 0), the keys rise when ascending and fall when descending |
| `SearchSort.SortedByText` | force-app/main/default/lwc/productSearch/productSearch.js:169-171 | on any other column the lower-cased keys (missing read as "") never fall when ascending and never rise when descending |
| `SearchSort.SortRowsStable` | force-app/main/default/lwc/productSearch/productSearch.js:162-172 | rows with equal keys keep their relative order |
| `SearchSort.SortRowsIdempotent` | force-app/main/default/lwc/productSearch/productSearch.js:161-172 | sorting again by the same column and direction changes nothing |
| `SearchSort.SortRowsOfSorted` | force-app/main/default/lwc/productSearch/productSearch.js:161-172 | rows already in the column's order are left as they are |
| `SearchSort.SortByUnknownFieldKeepsOrder` | force-app/main/default/lwc/productSearch/productSearch.js:163-171 | sorting by a name that is no row field keeps the order |
| `SearchSave.Patched` | force-app/main/default/lwc/productSearch/productSearch.js:143-150 | the merged row has the draft's fields over the row's and keeps the row's `Id`; its total is price times quantity when both are present, and otherwise the merged total |
| `SeqFind.FindIndex` | force-app/main/default/lwc/productSearch/productSearch.js:140 | the index of the first element that passes the test, and None exactly when none does |
| `SearchSave.FindRow` | force-app/main/default/lwc/productSearch/productSearch.js:140 | returns the first row with the draft's `Id`, or None exactly when no row has it |
| `SearchSave.ApplyUpdate` | force-app/main/default/lwc/productSearch/productSearch.js:140-152 | one draft merges into the first row with its `Id`; a draft whose `Id` is not found changes nothing; the row count is kept |
| `SearchSave.SaveAll` | force-app/main/default/lwc/productSearch/productSearch.js:139-153 | the row count and every row's `Id`, so their order, are kept |
| `SearchSave.MergeDraft` | force-app/main/default/lwc/productSearch/productSearch.js:140-152 | one pass of the `forEach` body leaves the array holding `ApplyUpdate` of its old contents |
| `SearchSave.MergeDrafts` | force-app/main/default/lwc/productSearch/productSearch.js:139-153 | the `forEach` over the drafts leaves the array holding `SaveAll` of its old contents |
| `SearchSave.SaveAllUntouched` | force-app/main/default/lwc/productSearch/productSearch.js:139-153 | a row that no draft names comes through unchanged |
| `SearchSave.PatchedIdempotent` | force-app/main/default/lwc/productSearch/productSearch.js:143-151 | merging the same draft twice is merging it once |
| `SearchSave.PatchedKeepsTotalConsistent` | force-app/main/default/lwc/productSearch/productSearch.js:143-151 | a draft that leaves the total alone keeps total = price times quantity |
| `SearchSave.SaveAllKeepsTotalsConsistent` | force-app/main/default/lwc/productSearch/productSearch.js:136-157 | saving such drafts keeps every row's total equal to its price times its quantity |
| `SearchSave.QuantityEditExample` | force-app/main/default/lwc/productSearch/productSearch.js:136-157 | editing the quantity of a row priced 10 from 1 to 3 gives total 30 |
| `SearchPaging.TotalPages` | force-app/main/default/lwc/productSearch/productSearch.js:180 | there is always at least one page |
| `SearchPaging.TotalPagesBounds` | force-app/main/default/lwc/productSearch/productSearch.js:180 | the pages hold every row, and one page fewer would not (the ceiling) |
| `SearchPaging.JsSlice` | force-app/main/default/lwc/productSearch/productSearch.js:184 | for non-negative bounds, `slice` is the subsequence between the bounds clamped to the length |
| `SearchPaging.PageSlice` | force-app/main/default/lwc/productSearch/productSearch.js:182-184 | a page never holds more than ten rows, whatever its number |
| `SearchPaging.PageSliceShape` | force-app/main/default/lwc/productSearch/productSearch.js:182-184 | page p holds min(10, rows left) rows, and its k-th row is row (p-1)*10 + k |
| `SearchPaging.PageOfRow` | force-app/main/default/lwc/productSearch/productSearch.js:178-185 | row i is shown at place i mod 10 of page i div 10 + 1, and that page exists |
| `SearchPaging.PagesInRangeNotEmpty` | force-app/main/default/lwc/productSearch/productSearch.js:178-185 | when there are rows, every page from 1 to totalPages shows at least one |
| `SearchPaging.PagesPastLastEmpty` | force-app/main/default/lwc/productSearch/productSearch.js:180-184 | a page after the last shows nothing |
| `SearchPaging.PagesArePrefix` | force-app/main/default/lwc/productSearch/productSearch.js:182-184 | the first k pages together are the first 10k rows |
| `SearchPaging.PagesCoverRows` | force-app/main/default/lwc/productSearch/productSearch.js:180-184 | pages 1..totalPages together are exactly the rows |
| `SearchPaging.TwentyThreeRows` | force-app/main/default/lwc/productSearch/productSearch.js:180-184 | 23 rows give 3 pages, and page 3 holds rows 21 to 23 |
| `ProductSearchComponent.ErrorMessage` | force-app/main/default/lwc/productSearch/productSearch.js:78 | the error is the body message when that is non-empty, else the message |
| `ProductSearchComponent.ProductSearch.constructor` | force-app/main/default/lwc/productSearch/productSearch.js:5-20 | empty key, rows and drafts; page 1; sorted by Name ascending; the invariant holds |
| `ProductSearchComponent.ProductSearch.HandleSearchKeyChange` | force-app/main/default/lwc/productSearch/productSearch.js:36-39 | the key is recorded, and the invariant holds |
| `ProductSearchComponent.ProductSearch.ComputePagination` | force-app/main/default/lwc/productSearch/productSearch.js:178-185 | totalPages = max(1, ceil(rows/10)); the page is pulled back onto the last one when beyond it; pagedRows is that page's slice; 1 <= page <= totalPages |
| `ProductSearchComponent.ProductSearch.SearchProducts` | force-app/main/default/lwc/productSearch/productSearch.js:46-84 | a blank key empties the rows, leaving one empty page; a result becomes the mapped rows sorted by the current column, with no error and page 1; an error empties the rows and keeps the message |
| `ProductSearchComponent.ProductSearch.ClearResults` | force-app/main/default/lwc/productSearch/productSearch.js:47-51 | a blank key leaves no records and no rows, with page 1 of 1 and nothing shown |
| `ProductSearchComponent.ProductSearch.LoadSortedRows` | force-app/main/default/lwc/productSearch/productSearch.js:56-73 | the records are the result, or none when it is null; the rows are their mapping sorted by the current column; the error is cleared |
| `ProductSearchComponent.ProductSearch.ResetPage` | force-app/main/default/lwc/productSearch/productSearch.js:74-75 | the page goes back to 1, and the invariant holds |
| `ProductSearchComponent.ProductSearch.OnSearchResult` | force-app/main/default/lwc/productSearch/productSearch.js:55-76 | the rows are the mapped records sorted by the current column, the error is cleared, and the page is 1 |
| `ProductSearchComponent.ProductSearch.OnSearchError` | force-app/main/default/lwc/productSearch/productSearch.js:77-82 | the error message is kept, the records and rows are emptied, and the page is 1 |
| `ProductSearchComponent.ProductSearch.ApplySort` | force-app/main/default/lwc/productSearch/productSearch.js:159-175 | the rows become `SortRows` of the old rows, ascending only for "asc", and are re-paginated |
| `ProductSearchComponent.ProductSearch.HandleSort` | force-app/main/default/lwc/productSearch/productSearch.js:129-133 | the column and direction are recorded and the rows sorted by them; the page is unchanged |
| `ProductSearchComponent.ProductSearch.HandleSave` | force-app/main/default/lwc/productSearch/productSearch.js:136-157 | the rows become `SaveAll(old rows, updates)`, the drafts end empty, the page is unchanged, and the invariant holds |
| `ProductSearchComponent.ProductSearch.IsFirstPage` | force-app/main/default/lwc/productSearch/productSearch.js:187 | under the invariant, true exactly on page 1 |
| `ProductSearchComponent.ProductSearch.IsLastPage` | force-app/main/default/lwc/productSearch/productSearch.js:188 | under the invariant, true exactly on the last page |
| `ProductSearchComponent.ProductSearch.GoFirst` | force-app/main/default/lwc/productSearch/productSearch.js:190 | the page becomes 1, and the invariant holds |
| `ProductSearchComponent.ProductSearch.GoPrev` | force-app/main/default/lwc/productSearch/productSearch.js:191 | the page goes down by one but not below 1, and the invariant holds |
| `ProductSearchComponent.ProductSearch.GoNext` | force-app/main/default/lwc/productSearch/productSearch.js:192 | the page goes up by one but not past the last, and the invariant holds |
| `ProductSearchComponent.ProductSearch.GoLast` | force-app/main/default/lwc/productSearch/productSearch.js:193 | the page becomes the last, and the invariant holds |
| `ProductSearchComponent.ProductSearch.EffectiveRowForAction` | force-app/main/default/lwc/productSearch/productSearch.js:90-98 | the row overlaid from the datatable's drafts when it has any, and otherwise from the component's own |
| `ProductSearchComponent.ProductSearch.HandleRowAction` | force-app/main/default/lwc/productSearch/productSearch.js:100-127 | nothing is sent for an action other than "addtocart"; for "addtocart" the payload is built from the row with its unsaved edits |
| `ProductSearchComponent.UnsavedQuantityReachesCart` | force-app/main/default/lwc/productSearch/productSearch.js:104-117 | an unsaved quantity edit reaches the cart: the new line has the edited quantity |

## Left out

- Server calls are not modelled. These are:
  - `fetchQuoteNumber`, `fetchQuoteFields`, `fetchAddresses`, `handleGenerateQuotePdf` and
    `handleSubmitForApproval` in the cart;
  - the search call itself.

  The search's outcome is a parameter of `SearchProducts` (`SearchOutcome`). The
  `.then` and `.catch` callbacks are the methods `OnSearchResult` and
  `OnSearchError`.
- `ProductSearchComponent.ProductSearch.OnSearchResult`: sorts the mapped rows with
  `SortRows` rather than calling `ApplySort`. The pagination that `applySort`
  recomputes is overwritten when the page goes back to 1, so the final state is the
  same.
- `addItem`'s call to `fetchAddresses` is not modelled; only the
  `opportunityId` it records is.
- The 400 ms `setTimeout` debounce and the `isLoading` flag are not modelled. They
  are timing and display only.
- The toasts, the `addtocart` `CustomEvent` dispatch and the console logging are not
  modelled. `HandleRowAction` returns the event's payload instead.
- The datatable's `querySelector` is not modelled. The live drafts are a parameter
  of `EffectiveRowForAction`.
- `Date.now()` and `Math.random()` are not modelled. The generated line key is the
  parameter `fallbackId` of `AddItem`.
- `handleCustomTextChange` and the other cart fields (`customText`, `quoteNumber`,
  `quoteStatus`, `billTo`, `shipTo`) are not modelled. None of them is read by the
  logic modelled here.
- The `...product` spread in a new line and the `Name` and `Total` fields of the
  cart payload are not modelled. A line keeps only the fields the cart reads. In
  the source a product's own lower-case `id` field overrides the generated key
  through that spread (productCart.js:50-52), and `handleRemove` reads that key;
  the model always keys a new line by `LineId`, so that override is not captured.
- Floating point is not modelled. Amounts are exact reals, so JavaScript double
  rounding, overflow and `-0` are not captured.
- NaN is modelled in two places only: the quantity fields handed to `addItem` and
  the cart discount text. `Number(...) || 1` at productSearch.js:108 also turns a
  NaN quantity into 1, but a row's quantity is a number or missing here, so a NaN
  row quantity is not representable; nor is a NaN unit price or discount value.
- `ProductCartComponent.ProductCart.HandleDiscountChange`: the source tests the
  discount with both `isNaN` (that is, `Number`) and `parseFloat`; the model reads
  it through `Number` alone. The two differ on hexadecimal text. For "0x200",
  `Number` gives 512 and `parseFloat` gives 0: the source keeps "0x200", where
  the model caps it at "100".
- `CartTotals.AppliedDiscount`: `grandTotal` (productCart.js:137-138) reads the
  discount the same two ways, and the model again uses `Number` alone. For "0x10"
  the source applies no cart discount, since `parseFloat` gives 0, while the model
  applies 16%.
- `CartItems.FindByCode`: `None` stands for both `undefined` and `null`, but the
  `===` at productCart.js:45 tells them apart. A product with `ProductCode: null`
  added to a cart holding a line whose code is `undefined` gets a line of its own
  in the source, while the model merges the two. A `null` product is not
  representable either: `addItem(null)` throws a `TypeError` at line 45 once the
  cart holds a line, which the model does not capture.
- `SearchSave.Patched`: a draft field is a value or absent here; an explicit
  `undefined` or `null` is not representable. In JavaScript a draft such as
  `{UnitPrice: undefined}` removes the field through the spread, and only such a
  draft reaches the fallback at productSearch.js:147-150, which takes the row's
  own price and quantity. Within the model that fallback never runs, and a `null`
  field, which `*` reads as 0, is not captured either.
- `SearchSort.LowerChar`: `toLowerCase` is modelled on ASCII letters only. The
  Unicode case mappings are not captured.
- `SearchSort.StrLessTrichotomy`: string `<` compares code points here. JavaScript
  compares UTF-16 code units, and the two orders differ only for characters outside
  the Basic Multilingual Plane.
- `SearchSort.SortRows`: `Array.prototype.sort` is a library call. It is modelled as
  a stable insertion sort, stated as a function. The in-place array work of the
  engine's sort is not modelled, only its result; that result is fixed by the
  comparator, because the sort is stable.
- Draft values are modelled as already-converted numbers. The datatable
  delivers its drafts as strings, and JavaScript's `*` converts them; that
  conversion is not captured.
- Rows with the same `Id` are not modelled specially. `HandleSave` and
  `EffectiveRow` act on the first row and the first draft with an `Id`, as
  `findIndex` and `find` do; nothing is claimed about the rest.
