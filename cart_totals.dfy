/**
 * The totals getters of the productCart component: per-line gross, discount and
 * net (`cartItemsWithTotals`), `subtotal`, `discountTotal`, `netTotal`,
 * `taxAmount`, `shippingAmount` and `grandTotal`. Amounts are exact reals.
 */
module CartTotals {
  import opened Wrappers
  import opened CartItems

  /** A line with the three amounts `cartItemsWithTotals` adds to it. */
  datatype PricedLine = PricedLine(line: Line, lineTotal: real, discountAmount: real, netPrice: real)

  const TaxRate: real := 0.1
  const ShippingAmount: real := 5.0

  function Min(a: real, b: real): real { if a <= b then a else b }
  function Max(a: real, b: real): real { if a >= b then a else b }

  /** A line's gross: unit price times quantity. */
  function Gross(l: Line): real {
    l.unitPrice * l.quantity
  }

  /** The share of the gross a Percent discount takes: the percentage clamped to [0, 100]. */
  function PercentFactor(dv: real): (f: real)
    ensures 0.0 <= f <= 1.0
  {
    Min(Max(dv, 0.0), 100.0) / 100.0
  }

  /** Multiplying both sides by a non-negative factor keeps an ordering. */
  lemma ScaleLe(a: real, b: real, f: real)
    requires a <= b && 0.0 <= f
    ensures a * f <= b * f
  {
    assert (b - a) * f >= 0.0;
  }

  /** What remains of `g` after taking the share `f` of it. */
  lemma Remainder(g: real, f: real)
    ensures g - g * f == g * (1.0 - f)
  {
  }

  /** What remains after taking a share of at most all grows with the amount. */
  lemma RemainderLe(g1: real, g2: real, f: real)
    requires g1 <= g2 && f <= 1.0
    ensures g1 - g1 * f <= g2 - g2 * f
  {
    ScaleLe(g1, g2, 1.0 - f);
    Remainder(g1, f);
    Remainder(g2, f);
  }

  /** A share in [0, 1] of a non-negative amount lies between 0 and that amount. */
  lemma PartOfGross(g: real, f: real)
    requires 0.0 <= f <= 1.0 && g >= 0.0
    ensures 0.0 <= g * f <= g
  {
    ScaleLe(0.0, g, f);
    ScaleLe(f, 1.0, g);
  }

  /** `dv` percent of `g`, the percentage clamped to [0, 100]. */
  function PercentOf(g: real, dv: real): real {
    g * PercentFactor(dv)
  }

  /** A clamped percentage of a non-negative amount lies between 0 and that amount. */
  lemma PercentOfBounds(g: real, dv: real)
    requires g >= 0.0
    ensures 0.0 <= PercentOf(g, dv) <= g
  {
    PartOfGross(g, PercentFactor(dv));
  }

  /** A percentage of 0 or less takes nothing, one of 100 or more takes everything. */
  lemma PercentOfEnds(g: real, dv: real)
    ensures dv <= 0.0 ==> PercentOf(g, dv) == 0.0
    ensures dv >= 100.0 ==> PercentOf(g, dv) == g
  {
  }

  /** A percentage within [0, 100] is taken as it is. */
  lemma PercentOfInRange(g: real, dv: real)
    requires 0.0 <= dv <= 100.0
    ensures PercentOf(g, dv) == g * (dv / 100.0)
  {
  }

  /** The discount on a line of gross `g`: Amount clamps the value to [0, g],
      Percent takes the value clamped to [0, 100] percent of `g`. */
  function DiscountFor(g: real, t: DiscountType, dv: real): (d: real)
    ensures g >= 0.0 ==> 0.0 <= d <= g
  {
    if t == Amount then Min(Max(dv, 0.0), g)
    else if g >= 0.0 then
      PercentOfBounds(g, dv);
      PercentOf(g, dv)
    else PercentOf(g, dv)
  }

  /** The net of a line of gross `g`: the gross less the discount, never below zero;
      for a non-negative gross the discount never takes more than there is. */
  function NetFor(g: real, t: DiscountType, dv: real): (n: real)
    ensures n >= 0.0
    ensures g >= 0.0 ==> n == g - DiscountFor(g, t, dv)
  {
    Max(g - DiscountFor(g, t, dv), 0.0)
  }

  /**
   * What the clamping means for a line of non-negative gross `g`: the discount
   * lies in [0, g] and the net is what remains; an Amount within [0, g] is taken
   * as it is, one beyond `g` takes the whole gross; a Percent within [0, 100]
   * takes that share, one of 100 or more takes the whole gross; a value of 0 or
   * less takes nothing.
   */
  lemma DiscountBounds(g: real, t: DiscountType, dv: real)
    requires g >= 0.0
    ensures 0.0 <= DiscountFor(g, t, dv) <= g
    ensures NetFor(g, t, dv) == g - DiscountFor(g, t, dv)
    ensures dv <= 0.0 ==> DiscountFor(g, t, dv) == 0.0
    ensures t == Amount && 0.0 <= dv <= g ==> DiscountFor(g, t, dv) == dv
    ensures t == Amount && dv >= g ==> DiscountFor(g, t, dv) == g
    ensures t == Percent && 0.0 <= dv <= 100.0 ==> DiscountFor(g, t, dv) == g * (dv / 100.0)
    ensures t == Percent && dv >= 100.0 ==> DiscountFor(g, t, dv) == g
  {
    if t == Percent {
      PercentOfBounds(g, dv);
      PercentOfEnds(g, dv);
      if 0.0 <= dv <= 100.0 {
        PercentOfInRange(g, dv);
      }
    }
  }

  /** A line whose gross is negative is free: its net is zero. */
  lemma NegativeGrossIsFree(g: real, t: DiscountType, dv: real)
    requires g < 0.0
    ensures NetFor(g, t, dv) == 0.0
  {
    if t == Percent {
      var f := PercentFactor(dv);
      ScaleLe(g, 0.0, 1.0 - f);
      Remainder(g, f);
    }
  }

  /** The amounts of one line, as `cartItemsWithTotals` attaches them. */
  function Priced(l: Line): (p: PricedLine)
    ensures p.line == l && p.lineTotal == Gross(l)
    ensures p.discountAmount == DiscountFor(p.lineTotal, l.discountType, l.discountValue)
    ensures p.netPrice == NetFor(p.lineTotal, l.discountType, l.discountValue) && p.netPrice >= 0.0
  {
    var g := Gross(l);
    PricedLine(l, g, DiscountFor(g, l.discountType, l.discountValue), NetFor(g, l.discountType, l.discountValue))
  }

  /** `cartItemsWithTotals`: every line, in order, with its amounts. */
  function CartItemsWithTotals(items: seq<Line>): (ps: seq<PricedLine>)
    ensures |ps| == |items|
    ensures forall i :: 0 <= i < |ps| ==> ps[i] == Priced(items[i])
  {
    seq(|items|, i requires 0 <= i < |items| => Priced(items[i]))
  }

  /** Left-to-right sum of `f` over a sequence: the source's `reduce` from 0. */
  function SumOf<T>(xs: seq<T>, f: T -> real): real {
    if xs == [] then 0.0 else SumOf(xs[..|xs| - 1], f) + f(xs[|xs| - 1])
  }

  function DiscountOf(p: PricedLine): real { p.discountAmount }
  function NetOf(p: PricedLine): real { p.netPrice }
  function LineDiscount(l: Line): real { DiscountOf(Priced(l)) }
  function LineNet(l: Line): real { NetOf(Priced(l)) }

  /** Summing over the priced lines is summing each line's own amounts. */
  lemma {:induction false} SumOverPricedLines(items: seq<Line>)
    ensures SumOf(CartItemsWithTotals(items), DiscountOf) == SumOf(items, LineDiscount)
    ensures SumOf(CartItemsWithTotals(items), NetOf) == SumOf(items, LineNet)
  {
    if items != [] {
      var n := |items|;
      var ps := CartItemsWithTotals(items);
      assert ps[..n - 1] == CartItemsWithTotals(items[..n - 1]);
      SumOverPricedLines(items[..n - 1]);
    }
  }

  /** `subtotal`: the sum of every line's gross, never negative when no gross is. */
  function Subtotal(items: seq<Line>): (s: real)
    ensures (forall i :: 0 <= i < |items| ==> Gross(items[i]) >= 0.0) ==> s >= 0.0
  {
    SumOfNonNegative(items, Gross);
    SumOf(items, Gross)
  }

  /** `discountTotal`: the sum of `discountAmount` over `cartItemsWithTotals`, which
      is the sum of every line's clamped discount. */
  function DiscountTotal(items: seq<Line>): (t: real)
    ensures t == SumOf(items, LineDiscount)
  {
    SumOverPricedLines(items);
    SumOf(CartItemsWithTotals(items), DiscountOf)
  }

  /** `netTotal`: the sum of `netPrice` over `cartItemsWithTotals`, which is the sum
      of every line's net. */
  function NetTotal(items: seq<Line>): (t: real)
    ensures t == SumOf(items, LineNet)
  {
    SumOverPricedLines(items);
    SumOf(CartItemsWithTotals(items), NetOf)
  }

  /** 10% of the subtotal, computed before any line discount: never more than the
      subtotal itself. */
  function TaxAmount(items: seq<Line>): (t: real)
    ensures Subtotal(items) >= 0.0 ==> 0.0 <= t <= Subtotal(items)
  {
    Subtotal(items) * TaxRate
  }

  /** The cart discount percentage that `grandTotal` applies, if any. */
  function AppliedDiscount(d: TextNumber): (r: Option<real>)
    ensures r.Some? <==> d.text != "" && d.number.Some? && d.number.value > 0.0
    ensures r.Some? ==> r.value == d.number.value
  {
    if d.text != "" && d.number.Some? && d.number.value > 0.0 then Some(d.number.value) else None
  }

  /** A total scaled down by the cart discount percentage, when one is set: an
      acceptable discount never makes a non-negative total negative or larger. */
  function AfterCartDiscount(total: real, d: TextNumber): (r: real)
    ensures AppliedDiscount(d).None? ==> r == total
    ensures ValidDiscount(d) && total >= 0.0 ==> 0.0 <= r <= total
  {
    match AppliedDiscount(d)
    case Some(pct) => total * (1.0 - pct / 100.0)
    case None => total
  }

  /** Net total plus tax plus shipping, scaled down by the cart discount when one is
      set: never negative, and never more than before the cart discount. */
  function GrandTotal(items: seq<Line>, d: TextNumber): (g: real)
    ensures ValidDiscount(d) && Subtotal(items) >= 0.0 ==>
      0.0 <= g <= NetTotal(items) + TaxAmount(items) + ShippingAmount
  {
    NetTotalNonNegative(items);
    AfterCartDiscount(NetTotal(items) + TaxAmount(items) + ShippingAmount, d)
  }

  /** An acceptable cart discount never turns a larger total into a smaller one. */
  lemma AfterCartDiscountMonotone(t1: real, t2: real, d: TextNumber)
    requires t1 <= t2 && ValidDiscount(d)
    ensures AfterCartDiscount(t1, d) <= AfterCartDiscount(t2, d)
  {
    if AppliedDiscount(d).Some? {
      var f := 1.0 - AppliedDiscount(d).value / 100.0;
      ScaleLe(t1, t2, f);
      calc {
        AfterCartDiscount(t1, d);
      ==
        t1 * f;
      <=
        t2 * f;
      ==
        AfterCartDiscount(t2, d);
      }
    }
  }

  /** Appending a line adds its share to any sum. */
  lemma SumOfAppend<T>(items: seq<T>, l: T, f: T -> real)
    ensures SumOf(items + [l], f) == SumOf(items, f) + f(l)
  {
    assert (items + [l])[..|items|] == items;
  }

  /** Replacing one line changes a sum by the difference of that line's shares. */
  lemma {:induction false} SumOfUpdate<T>(items: seq<T>, k: nat, l: T, f: T -> real)
    requires k < |items|
    ensures SumOf(items[k := l], f) == SumOf(items, f) - f(items[k]) + f(l)
  {
    var n := |items|;
    var updated := items[k := l];
    if k == n - 1 {
      assert updated[..n - 1] == items[..n - 1];
    } else {
      assert updated[..n - 1] == items[..n - 1][k := l];
      SumOfUpdate(items[..n - 1], k, l, f);
    }
  }

  /** A sum of non-negative shares is non-negative. */
  lemma {:induction false} SumOfNonNegative<T>(items: seq<T>, f: T -> real)
    ensures (forall i :: 0 <= i < |items| ==> f(items[i]) >= 0.0) ==> SumOf(items, f) >= 0.0
  {
    if items != [] {
      var p := items[..|items| - 1];
      SumOfNonNegative(p, f);
      if forall i :: 0 <= i < |items| ==> f(items[i]) >= 0.0 {
        assert forall i :: 0 <= i < |p| ==> f(p[i]) >= 0.0 by {
          forall i | 0 <= i < |p| ensures f(p[i]) >= 0.0 {
            assert p[i] == items[i];
          }
        }
      }
    }
  }

  /** Whenever every line's gross is non-negative, discount total plus net total is the subtotal. */
  lemma {:induction false} DiscountPlusNetIsSubtotal(items: seq<Line>)
    requires forall i :: 0 <= i < |items| ==> Gross(items[i]) >= 0.0
    ensures DiscountTotal(items) + NetTotal(items) == Subtotal(items)
    ensures 0.0 <= DiscountTotal(items) <= Subtotal(items)
  {
    if items != [] {
      var n := |items|;
      var p, last := items[..n - 1], items[n - 1];
      DiscountPlusNetIsSubtotal(p);
      assert DiscountTotal(items) == DiscountTotal(p) + LineDiscount(last);
      assert NetTotal(items) == NetTotal(p) + LineNet(last);
      assert Subtotal(items) == Subtotal(p) + Gross(last);
      DiscountBounds(Gross(last), last.discountType, last.discountValue);
    }
  }

  /** The net total is never negative, whatever the lines hold. */
  lemma NetTotalNonNegative(items: seq<Line>)
    ensures NetTotal(items) >= 0.0
  {
    SumOfNonNegative(items, LineNet);
  }

  /** Tax is charged on the undiscounted amount: a tenth of discount total plus net total. */
  lemma TaxOnUndiscountedSubtotal(items: seq<Line>)
    requires forall i :: 0 <= i < |items| ==> Gross(items[i]) >= 0.0
    ensures TaxAmount(items) == (DiscountTotal(items) + NetTotal(items)) / 10.0
  {
    DiscountPlusNetIsSubtotal(items);
  }

  /** An empty cart costs exactly the shipping when no cart discount is set. */
  lemma EmptyCartCostsShipping(d: TextNumber)
    requires AppliedDiscount(d).None?
    ensures Subtotal([]) == 0.0 && TaxAmount([]) == 0.0
    ensures DiscountTotal([]) == 0.0 && NetTotal([]) == 0.0
    ensures GrandTotal([], d) == 5.0
  {
  }

  /** The net of a line grows with its gross when its discount is unchanged. */
  lemma NetMonotone(g1: real, g2: real, t: DiscountType, dv: real)
    requires g1 <= g2
    ensures NetFor(g1, t, dv) <= NetFor(g2, t, dv)
  {
    if t == Percent {
      var f := PercentFactor(dv);
      RemainderLe(g1, g2, f);
      assert DiscountFor(g1, t, dv) == g1 * f;
      assert DiscountFor(g2, t, dv) == g2 * f;
    }
  }

  /**
   * The grand total does not decrease when one line's gross (unit price times
   * quantity) grows and its discount stays the same, for any acceptable cart discount.
   */
  lemma GrandTotalMonotone(items: seq<Line>, k: nat, l: Line, d: TextNumber)
    requires k < |items| && ValidDiscount(d)
    requires l.discountType == items[k].discountType && l.discountValue == items[k].discountValue
    requires Gross(items[k]) <= Gross(l)
    ensures GrandTotal(items, d) <= GrandTotal(items[k := l], d)
  {
    var updated := items[k := l];
    assert NetTotal(items) <= NetTotal(updated) by {
      SumOfUpdate(items, k, l, LineNet);
      NetMonotone(Gross(items[k]), Gross(l), l.discountType, l.discountValue);
    }
    assert Subtotal(items) <= Subtotal(updated) by {
      SumOfUpdate(items, k, l, Gross);
    }
    AfterCartDiscountMonotone(
      NetTotal(items) + TaxAmount(items) + ShippingAmount,
      NetTotal(updated) + TaxAmount(updated) + ShippingAmount, d);
  }

  /** Raising the unit price of a line with non-negative quantity never lowers the grand total. */
  lemma GrandTotalMonotoneInUnitPrice(items: seq<Line>, k: nat, price: real, d: TextNumber)
    requires k < |items| && ValidDiscount(d)
    requires items[k].quantity >= 0.0 && items[k].unitPrice <= price
    ensures GrandTotal(items, d) <= GrandTotal(items[k := items[k].(unitPrice := price)], d)
  {
    var l := items[k].(unitPrice := price);
    ScaleLe(items[k].unitPrice, price, items[k].quantity);
    GrandTotalMonotone(items, k, l, d);
  }

  /** Adding `qty` units to a line adds `qty` times its unit price to its gross. */
  lemma GrossOfMerged(l: Line, qty: real)
    ensures Gross(l.(quantity := l.quantity + qty)) == Gross(l) + l.unitPrice * qty
  {
  }

  /**
   * `addItem` raises the subtotal by the incoming quantity times the unit price
   * of the line it lands on: the existing line's price when merging, the
   * product's price when appending.
   */
  lemma SubtotalAfterAdd(items: seq<Line>, p: Product, fallbackId: string)
    ensures Subtotal(Added(items, p, fallbackId)) ==
      Subtotal(items) +
      (match FindByCode(items, p.productCode)
       case Some(i) => items[i].unitPrice * IncomingQuantity(p)
       case None => p.unitPrice.GetOr(0.0) * IncomingQuantity(p))
  {
    var qty := IncomingQuantity(p);
    match FindByCode(items, p.productCode)
    case Some(i) =>
      assert Added(items, p, fallbackId) == items[i := items[i].(quantity := items[i].quantity + qty)];
      SubtotalAfterMerge(items, i, qty);
    case None =>
      var l := NewLine(p, fallbackId);
      assert Added(items, p, fallbackId) == items + [l];
      assert Gross(l) == p.unitPrice.GetOr(0.0) * qty;
      SumOfAppend(items, l, Gross);
  }

  /** Merging `qty` units into line `i` adds `qty` times its unit price. */
  lemma SubtotalAfterMerge(items: seq<Line>, i: nat, qty: real)
    requires i < |items|
    ensures Subtotal(items[i := items[i].(quantity := items[i].quantity + qty)]) ==
            Subtotal(items) + items[i].unitPrice * qty
  {
    var l := items[i].(quantity := items[i].quantity + qty);
    SumOfUpdate(items, i, l, Gross);
    GrossOfMerged(items[i], qty);
    var added := items[i].unitPrice * qty;
    assert Gross(l) - Gross(items[i]) == added;
  }

  /** One line of 2 units at 10.0 with a 10% discount: gross 20, discount 2, net 18, grand total 25. */
  lemma OneLineScenario()
    ensures var l := Line("P-1", Some("P-1"), 2.0, 10.0, Percent, 10.0);
      Priced(l) == PricedLine(l, 20.0, 2.0, 18.0) &&
      Subtotal([l]) == 20.0 && TaxAmount([l]) == 2.0 && NetTotal([l]) == 18.0 &&
      GrandTotal([l], NoDiscount) == 25.0 &&
      GrandTotal([l], TextNumber("20", Some(20.0))) == 20.0
  {
    var l := Line("P-1", Some("P-1"), 2.0, 10.0, Percent, 10.0);
    assert [l][..0] == [];
  }
}
