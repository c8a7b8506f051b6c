/**
 * The cart's line items and the pure rules behind `addItem`, `handleRemove`
 * and `handleDiscountChange` of the productCart component.
 */
module CartItems {
  import opened Wrappers
  import SeqFind

  /** What JavaScript's `Number(v)` makes of a field value: NaN or a number. */
  datatype JsNumber = NaN | Finite(value: real)

  /** The cart-level discount: the text typed by the user and what `Number(text)`
      makes of it (None for NaN). `Number('')` is 0. */
  datatype TextNumber = TextNumber(text: string, number: Option<real>)

  const NoDiscount: TextNumber := TextNumber("", Some(0.0))
  const FullDiscount: TextNumber := TextNumber("100", Some(100.0))

  /**
   * A product handed to `addItem`. Every field may be missing (None).
   * `quantity` and `customQuantity` are the `Quantity` and `Quantity__c` fields,
   * given by what `Number()` makes of them.
   */
  datatype Product = Product(
    id: Option<string>,
    productCode: Option<string>,
    quantity: Option<JsNumber>,
    customQuantity: Option<JsNumber>,
    unitPrice: Option<real>,
    discountType: Option<string>,
    discountValue: Option<real>,
    opportunityId: Option<string>)

  datatype DiscountType = Amount | Percent

  /** One line of the cart. `id` is the key of the delete button. */
  datatype Line = Line(
    id: string,
    productCode: Option<string>,
    quantity: real,
    unitPrice: real,
    discountType: DiscountType,
    discountValue: real)

  /** JavaScript truthiness of a string field: present and not empty. */
  predicate Truthy(s: Option<string>) {
    s.Some? && |s.value| > 0
  }

  /** `Number(v) || 1`: the number when it is neither 0 nor NaN, else 1. */
  function OrOne(n: JsNumber): (q: real)
    ensures q != 0.0
    ensures n.Finite? && n.value != 0.0 ==> q == n.value
    ensures n == NaN || n == Finite(0.0) ==> q == 1.0
  {
    if n.Finite? && n.value != 0.0 then n.value else 1.0
  }

  /** The incoming quantity: `Number(Quantity ?? Quantity__c ?? 1) || 1`. */
  function IncomingQuantity(p: Product): (q: real)
    ensures q != 0.0
    ensures p.quantity.Some? ==> q == OrOne(p.quantity.value)
    ensures p.quantity.None? && p.customQuantity.Some? ==> q == OrOne(p.customQuantity.value)
    ensures p.quantity.None? && p.customQuantity.None? ==> q == 1.0
  {
    var raw :=
      if p.quantity.Some? then p.quantity.value
      else p.customQuantity.GetOr(Finite(1.0));
    OrOne(raw)
  }

  /** The key of a new line: `Id || ProductCode || fallbackId`, where the source
      builds `fallbackId` from the clock and a random number. */
  function LineId(p: Product, fallbackId: string): (id: string)
    ensures Truthy(p.id) ==> id == p.id.value
    ensures !Truthy(p.id) && Truthy(p.productCode) ==> id == p.productCode.value
    ensures !Truthy(p.id) && !Truthy(p.productCode) ==> id == fallbackId
  {
    if Truthy(p.id) then p.id.value
    else if Truthy(p.productCode) then p.productCode.value
    else fallbackId
  }

  /** The normalised line that `addItem` appends for a product not yet in the cart. */
  function NewLine(p: Product, fallbackId: string): (l: Line)
    ensures l.id == LineId(p, fallbackId) && l.productCode == p.productCode
    ensures l.quantity == IncomingQuantity(p) && l.quantity != 0.0
    ensures l.unitPrice == p.unitPrice.GetOr(0.0)
    ensures l.discountType == Amount <==> p.discountType == Some("Amount")
    ensures p.discountValue.None? ==> l.discountValue == 0.0
    ensures p.discountValue.Some? ==> l.discountValue == p.discountValue.value
  {
    Line(
      LineId(p, fallbackId),
      p.productCode,
      IncomingQuantity(p),
      p.unitPrice.GetOr(0.0),
      if p.discountType == Some("Amount") then Amount else Percent,
      p.discountValue.GetOr(0.0))
  }

  /** `cartItems.find(p => p.ProductCode === product.ProductCode)`, as an index. */
  function FindByCode(items: seq<Line>, code: Option<string>): (r: Option<nat>)
    ensures r.Some? ==> r.value < |items| && items[r.value].productCode == code
    ensures r.Some? ==> forall j :: 0 <= j < r.value ==> items[j].productCode != code
    ensures r.None? <==> forall j :: 0 <= j < |items| ==> items[j].productCode != code
  {
    SeqFind.FindIndex(items, (l: Line) => l.productCode == code)
  }

  /** No two lines share a product code: the cart's de-duplication key. */
  ghost predicate DistinctCodes(items: seq<Line>) {
    forall i, j :: 0 <= i < j < |items| ==> items[i].productCode != items[j].productCode
  }

  /**
   * The cart after `addItem(p)`: the first line with the same product code has
   * its quantity raised by the incoming quantity, or, when no line has that
   * code, a new line is appended after the existing ones.
   */
  function Added(items: seq<Line>, p: Product, fallbackId: string): (r: seq<Line>)
    ensures FindByCode(items, p.productCode).Some? ==>
      var i := FindByCode(items, p.productCode).value;
      |r| == |items| &&
      r[i] == items[i].(quantity := items[i].quantity + IncomingQuantity(p)) &&
      forall j :: 0 <= j < |items| && j != i ==> r[j] == items[j]
    ensures FindByCode(items, p.productCode).None? ==>
      |r| == |items| + 1 && r[..|items|] == items && r[|items|] == NewLine(p, fallbackId)
  {
    match FindByCode(items, p.productCode)
    case Some(i) =>
      items[i := items[i].(quantity := items[i].quantity + IncomingQuantity(p))]
    case None =>
      items + [NewLine(p, fallbackId)]
  }

  /** Adding never duplicates a product code. */
  lemma AddedKeepsCodesDistinct(items: seq<Line>, p: Product, fallbackId: string)
    requires DistinctCodes(items)
    ensures DistinctCodes(Added(items, p, fallbackId))
  {
    var r := Added(items, p, fallbackId);
    match FindByCode(items, p.productCode)
    case Some(i) =>
      forall a, b | 0 <= a < b < |r| ensures r[a].productCode != r[b].productCode {
        assert r[a].productCode == items[a].productCode;
        assert r[b].productCode == items[b].productCode;
      }
    case None =>
      forall a, b | 0 <= a < b < |r| ensures r[a].productCode != r[b].productCode {
        if b == |items| {
          assert r[a] == items[a];
        } else {
          assert r[a] == items[a] && r[b] == items[b];
        }
      }
  }

  /** The line count grows by one exactly when the product code is new. */
  lemma AddedLength(items: seq<Line>, p: Product, fallbackId: string)
    ensures |Added(items, p, fallbackId)| ==
            if exists j :: 0 <= j < |items| && items[j].productCode == p.productCode
            then |items| else |items| + 1
  {
    if FindByCode(items, p.productCode).Some? {
      var i := FindByCode(items, p.productCode).value;
      assert items[i].productCode == p.productCode;
    }
  }

  /** `cartItems.filter(p => p.id !== id)`. */
  function RemoveById(items: seq<Line>, id: string): (r: seq<Line>)
    ensures |r| <= |items|
    ensures forall l :: l in r <==> l in items && l.id != id
    ensures (forall j :: 0 <= j < |items| ==> items[j].id != id) ==> r == items
  {
    if items == [] then []
    else (if items[0].id != id then [items[0]] else []) + RemoveById(items[1..], id)
  }

  /** Removal works line by line: the kept lines stay in their original order. */
  lemma {:induction false} RemoveByIdConcat(a: seq<Line>, b: seq<Line>, id: string)
    ensures RemoveById(a + b, id) == RemoveById(a, id) + RemoveById(b, id)
  {
    if a == [] {
      assert a + b == b;
    } else {
      assert (a + b)[1..] == a[1..] + b;
      RemoveByIdConcat(a[1..], b, id);
    }
  }

  /** Removing lines keeps the product codes distinct. */
  lemma {:induction false} RemoveKeepsCodesDistinct(items: seq<Line>, id: string)
    requires DistinctCodes(items)
    ensures DistinctCodes(RemoveById(items, id))
  {
    if items != [] {
      var rest := RemoveById(items[1..], id);
      RemoveKeepsCodesDistinct(items[1..], id);
      forall l | l in rest ensures l.productCode != items[0].productCode {
        var k :| 0 <= k < |items[1..]| && items[1..][k] == l;
        assert items[k + 1] == l;
      }
    }
  }

  /** A discount is acceptable when it is empty or a number in [0, 100]. */
  predicate ValidDiscount(d: TextNumber) {
    d.text == "" || (d.number.Some? && 0.0 <= d.number.value <= 100.0)
  }

  /**
   * The cart discount after `handleDiscountChange(value)`: empty for negative or
   * non-numeric input, "100" above 100, and the input itself otherwise.
   */
  function ValidatedDiscount(value: TextNumber): (d: TextNumber)
    ensures ValidDiscount(d)
    ensures value.text != "" && (value.number.None? || value.number.value < 0.0) ==> d == NoDiscount
    ensures value.text != "" && value.number.Some? && value.number.value > 100.0 ==> d == FullDiscount
    ensures ValidDiscount(value) ==> d == value
  {
    if value.text != "" && (value.number.None? || value.number.value < 0.0) then NoDiscount
    else if value.text != "" && value.number.value > 100.0 then FullDiscount
    else value
  }
}
