/**
 * The rows of the productSearch table: the mapping from server records, the
 * overlay of inline-edit drafts and the payload sent to the cart.
 */
module SearchRows {
  import opened Wrappers
  import SeqFind
  import CartItems

  /** A product record as the search returns it; any field may be missing. */
  datatype ServerProduct = ServerProduct(
    id: Option<string>,
    name: Option<string>,
    productCode: Option<string>,
    unitPrice: Option<real>,
    quantity: Option<real>)

  /** A table row. `quantity` is the editable `Quantity__c` column; None is `undefined`. */
  datatype Row = Row(
    id: Option<string>,
    name: Option<string>,
    productCode: Option<string>,
    unitPrice: Option<real>,
    quantity: Option<real>,
    total: Option<real>)

  /** An inline-edit draft: the row's `Id` and the fields the user changed (None: not changed). */
  datatype Patch = Patch(
    id: Option<string>,
    name: Option<string>,
    productCode: Option<string>,
    unitPrice: Option<real>,
    quantity: Option<real>,
    total: Option<real>)

  /** A missing unit price counts as 0 (`r.UnitPrice ? … : 0`). */
  function PriceOrZero(price: Option<real>): real {
    price.GetOr(0.0)
  }

  /** A row's total agrees with its unit price and quantity. */
  predicate TotalConsistent(row: Row) {
    row.quantity.Some? && row.total.Some? &&
    row.total.value == PriceOrZero(row.unitPrice) * row.quantity.value
  }

  /** `UnitPrice ? UnitPrice * quantity : 0`: a missing or zero price gives 0, which is
      the product of quantity and a price of 0. */
  function RowTotal(price: Option<real>, quantity: real): (t: real)
    ensures t == PriceOrZero(price) * quantity
  {
    if price.Some? && price.value != 0.0 then price.value * quantity
    else
      assert 0.0 * quantity == 0.0;
      0.0
  }

  /** A server record as a table row: quantity 1 when missing, total price times quantity. */
  function ToRow(r: ServerProduct): (row: Row)
    ensures row.id == r.id && row.name == r.name && row.productCode == r.productCode
    ensures row.unitPrice == r.unitPrice
    ensures r.quantity.Some? ==> row.quantity == r.quantity
    ensures r.quantity.None? ==> row.quantity == Some(1.0)
    ensures TotalConsistent(row)
  {
    var quantity := r.quantity.GetOr(1.0);
    Row(r.id, r.name, r.productCode, r.unitPrice, Some(quantity), Some(RowTotal(r.unitPrice, quantity)))
  }

  /** The mapping of a search result: one row per record, in the same order. */
  function MapRows(results: seq<ServerProduct>): (rows: seq<Row>)
    ensures |rows| == |results|
  {
    seq(|results|, i requires 0 <= i < |results| => ToRow(results[i]))
  }

  /** Each mapped row carries its record's fields, the record's quantity or 1, and
      a total equal to its price times its quantity. */
  lemma MapRowsFields(results: seq<ServerProduct>, i: nat)
    requires i < |results|
    ensures var row := MapRows(results)[i];
      row.id == results[i].id && row.productCode == results[i].productCode &&
      row.name == results[i].name && row.unitPrice == results[i].unitPrice &&
      row.quantity == Some(results[i].quantity.GetOr(1.0)) &&
      TotalConsistent(row)
  {
  }

  /** `{ ...row, ...patch }`: every field the patch carries replaces the row's, and
      every other field keeps the row's value. The patch's `Id` is the row's own
      wherever the source overlays it. */
  function Overlay(row: Row, patch: Patch): (r: Row)
    ensures r.id == row.id
    ensures patch.name.Some? ==> r.name == patch.name
    ensures patch.productCode.Some? ==> r.productCode == patch.productCode
    ensures patch.unitPrice.Some? ==> r.unitPrice == patch.unitPrice
    ensures patch.quantity.Some? ==> r.quantity == patch.quantity
    ensures patch.total.Some? ==> r.total == patch.total
    ensures patch.name.None? ==> r.name == row.name
    ensures patch.productCode.None? ==> r.productCode == row.productCode
    ensures patch.unitPrice.None? ==> r.unitPrice == row.unitPrice
    ensures patch.quantity.None? ==> r.quantity == row.quantity
    ensures patch.total.None? ==> r.total == row.total
    ensures patch == Patch(patch.id, None, None, None, None, None) ==> r == row
    ensures row.unitPrice.Some? ==> r.unitPrice.Some?
    ensures row.quantity.Some? ==> r.quantity.Some?
  {
    Row(
      row.id,
      if patch.name.Some? then patch.name else row.name,
      if patch.productCode.Some? then patch.productCode else row.productCode,
      if patch.unitPrice.Some? then patch.unitPrice else row.unitPrice,
      if patch.quantity.Some? then patch.quantity else row.quantity,
      if patch.total.Some? then patch.total else row.total)
  }

  /** The drafts `getEffectiveRowForAction` reads: the datatable's live ones when
      there are any, else the component's own. */
  function DraftsInUse(liveDrafts: seq<Patch>, localDrafts: seq<Patch>): (drafts: seq<Patch>)
    ensures |liveDrafts| > 0 ==> drafts == liveDrafts
    ensures |liveDrafts| == 0 ==> drafts == localDrafts
  {
    if |liveDrafts| > 0 then liveDrafts else localDrafts
  }

  /** The row overlaid with the first draft that has its `Id`, or the row itself. */
  function EffectiveRow(rawRow: Row, drafts: seq<Patch>): (r: Row)
    ensures (forall j :: 0 <= j < |drafts| ==> drafts[j].id != rawRow.id) ==> r == rawRow
    ensures (exists j :: 0 <= j < |drafts| && drafts[j].id == rawRow.id) ==>
      exists i :: 0 <= i < |drafts| && drafts[i].id == rawRow.id && r == Overlay(rawRow, drafts[i]) &&
        forall j :: 0 <= j < i ==> drafts[j].id != rawRow.id
    ensures r.id == rawRow.id
  {
    match SeqFind.FindIndex(drafts, (d: Patch) => d.id == rawRow.id)
    case Some(i) =>
      assert drafts[i].id == rawRow.id;
      Overlay(rawRow, drafts[i])
    case None => rawRow
  }

  /** `Number(Quantity__c ?? 1) || 1`: the quantity sent to the cart, never 0. The
      `?? Quantity` step between the two is left out: a mapped row carries no
      `Quantity` field, only `Quantity__c`, so that step always yields `undefined`. */
  function PayloadQuantity(row: Row): (q: real)
    ensures q != 0.0
    ensures row.quantity.Some? && row.quantity.value != 0.0 ==> q == row.quantity.value
    ensures row.quantity.None? || row.quantity == Some(0.0) ==> q == 1.0
  {
    CartItems.OrOne(CartItems.Finite(row.quantity.GetOr(1.0)))
  }

  /** The product `handleRowAction` sends to the cart for a row. */
  function CartPayload(row: Row): (p: CartItems.Product)
    ensures p.id == row.id && p.productCode == row.productCode
    ensures p.unitPrice == Some(PriceOrZero(row.unitPrice))
    ensures CartItems.IncomingQuantity(p) == PayloadQuantity(row)
  {
    CartItems.Product(
      row.id,
      row.productCode,
      Some(CartItems.Finite(PayloadQuantity(row))),
      None,
      Some(PriceOrZero(row.unitPrice)),
      None,
      None,
      None)
  }

  /** A row added to the cart as a new line carries the row's quantity (1 when
      missing or 0), its unit price and no discount. */
  lemma PayloadBecomesLine(row: Row, fallbackId: string)
    ensures var l := CartItems.NewLine(CartPayload(row), fallbackId);
      l.quantity == PayloadQuantity(row) && l.quantity != 0.0 &&
      l.unitPrice == PriceOrZero(row.unitPrice) &&
      l.discountType == CartItems.Percent && l.discountValue == 0.0
  {
  }
}
