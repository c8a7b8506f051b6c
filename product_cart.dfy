/**
 * The productCart component's state and its state-changing handlers:
 * `addItem`, `handleRemove` and `handleDiscountChange`.
 */
module ProductCartComponent {
  import opened Wrappers
  import opened CartItems

  class ProductCart {
    /** The cart lines, in the order they were added. */
    var cartItems: seq<Line>
    /** The cart-level discount percentage as typed. */
    var discount: TextNumber
    /** The opportunity whose addresses the cart shows, once known. */
    var opportunityId: Option<string>

    /** The cart's invariant: one line per product code, and an acceptable discount. */
    ghost predicate Valid()
      reads this
    {
      DistinctCodes(cartItems) && ValidDiscount(discount)
    }

    constructor ()
      ensures Valid()
      ensures cartItems == [] && discount == NoDiscount && opportunityId == None
    {
      cartItems := [];
      discount := NoDiscount;
      opportunityId := None;
    }

    /**
     * `addItem(product)`: merges into the line with the same product code or
     * appends a new line. `fallbackId` stands for the clock-and-random key the
     * source builds when the product has neither Id nor ProductCode.
     */
    method AddItem(product: Product, fallbackId: string)
      requires Valid()
      modifies this
      ensures Valid()
      ensures cartItems == Added(old(cartItems), product, fallbackId)
      ensures discount == old(discount)
      ensures opportunityId ==
        if !Truthy(old(opportunityId)) && Truthy(product.opportunityId)
        then product.opportunityId else old(opportunityId)
    {
      if !Truthy(opportunityId) && Truthy(product.opportunityId) {
        opportunityId := product.opportunityId;
      }
      var qty := IncomingQuantity(product);
      AddedKeepsCodesDistinct(cartItems, product, fallbackId);
      var existing := FindByCode(cartItems, product.productCode);
      if existing.Some? {
        var i := existing.value;
        // `Number(existing.Quantity || 0) + qty`: a line's quantity is a number,
        // and a zero quantity reads as 0 either way.
        var line := cartItems[i];
        cartItems := cartItems[i := line.(quantity := line.quantity + qty)];
      } else {
        cartItems := cartItems + [NewLine(product, fallbackId)];
      }
    }

    /** `handleRemove`: drops every line whose id is the clicked one. */
    method HandleRemove(id: string)
      requires Valid()
      modifies this`cartItems
      ensures Valid()
      ensures cartItems == RemoveById(old(cartItems), id)
    {
      RemoveKeepsCodesDistinct(cartItems, id);
      cartItems := RemoveById(cartItems, id);
    }

    /** `handleDiscountChange`: keeps the discount empty or within [0, 100]. */
    method HandleDiscountChange(value: TextNumber)
      requires Valid()
      modifies this`discount
      ensures Valid()
      ensures discount == ValidatedDiscount(value)
    {
      if value.text != "" && (value.number.None? || value.number.value < 0.0) {
        discount := NoDiscount;
        return;
      }
      if value.text != "" && value.number.value > 100.0 {
        discount := FullDiscount;
        return;
      }
      discount := value;
    }
  }
}
