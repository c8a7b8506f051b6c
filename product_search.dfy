/**
 * The productSearch component's state and handlers: the search, the sort, the
 * inline-edit save, the pager and the "Add" row action.
 */
module ProductSearchComponent {
  import opened Wrappers
  import opened SearchRows
  import opened SearchSort
  import opened SearchSave
  import opened SearchPaging
  import CartItems

  /** How the `searchProducts` server call settled: with its result (possibly
      null), or with an error carrying `body.message` and `message`. */
  datatype SearchOutcome =
    | Found(records: Option<seq<ServerProduct>>)
    | Failed(bodyMessage: Option<string>, message: Option<string>)

  /** The characters `String.prototype.trim` removes: ECMAScript white space and
      line terminators. */
  predicate IsJsWhitespace(c: char) {
    c == '\t' || c == '\n' || c == '\U{000B}' || c == '\U{000C}' || c == '\r' || c == ' ' ||
    c == '\U{00A0}' || c == '\U{1680}' || ('\U{2000}' <= c <= '\U{200A}') ||
    c == '\U{2028}' || c == '\U{2029}' || c == '\U{202F}' || c == '\U{205F}' ||
    c == '\U{3000}' || c == '\U{FEFF}'
  }

  /** `!key || !key.trim()`: empty, or nothing but white space. */
  predicate Blank(key: string) {
    forall i :: 0 <= i < |key| ==> IsJsWhitespace(key[i])
  }

  /** `err?.body?.message || err?.message`. */
  function ErrorMessage(bodyMessage: Option<string>, message: Option<string>): (e: Option<string>)
    ensures CartItems.Truthy(bodyMessage) ==> e == bodyMessage
    ensures !CartItems.Truthy(bodyMessage) ==> e == message
  {
    if CartItems.Truthy(bodyMessage) then bodyMessage else message
  }

  class ProductSearch {
    var searchKey: string
    /** The records of the last search. */
    var products: seq<ServerProduct>
    /** Every row of the result, in display order. */
    var rows: seq<Row>
    /** The rows of the current page. */
    var pagedRows: seq<Row>
    var error: Option<string>
    /** The drafts the component keeps itself. */
    var draftValues: seq<Patch>
    var page: int
    var totalPages: int
    var sortedBy: string
    var sortedDirection: string

    /** The pager agrees with the rows: the page exists and shows its slice. */
    ghost predicate Valid()
      reads this
    {
      1 <= page <= totalPages && totalPages == TotalPages(|rows|) && pagedRows == PageSlice(rows, page)
    }

    constructor ()
      ensures Valid()
      ensures searchKey == "" && products == [] && rows == [] && error == None && draftValues == []
      ensures page == 1 && sortedBy == "Name" && sortedDirection == "asc"
    {
      searchKey := "";
      products := [];
      rows := [];
      pagedRows := [];
      error := None;
      draftValues := [];
      page := 1;
      totalPages := 1;
      sortedBy := "Name";
      sortedDirection := "asc";
    }

    /** `handleSearchKeyChange`: records the key; the debounced search that follows is
        `SearchProducts`. */
    method HandleSearchKeyChange(value: string)
      requires Valid()
      modifies this`searchKey
      ensures searchKey == value && Valid()
    {
      searchKey := value;
    }

    /** `computePagination`: recounts the pages, pulls the page back onto the last
        one when it lies beyond, and takes its slice. */
    method ComputePagination()
      requires page >= 1
      modifies this`totalPages, this`page, this`pagedRows
      ensures Valid()
      ensures page == Min(old(page), totalPages)
    {
      var total := |rows|;
      totalPages := TotalPages(total);
      if page > totalPages {
        page := totalPages;
      }
      pagedRows := PageSlice(rows, page);
    }

    /**
     * `searchProducts`, with `outcome` for how the server call settled. A blank key
     * clears the rows without calling the server. A result is mapped to rows and
     * sorted by the current column, and the pager goes back to page 1.
     */
    method SearchProducts(outcome: SearchOutcome)
      requires Valid()
      modifies this
      ensures Valid()
      ensures Blank(searchKey) ==>
        products == [] && rows == [] && error == old(error) &&
        page == 1 && totalPages == 1 && pagedRows == []
      ensures !Blank(searchKey) && outcome.Found? ==>
        products == outcome.records.GetOr([]) &&
        rows == SortRows(MapRows(products), FieldOf(sortedBy), sortedDirection == "asc") &&
        error == None && page == 1
      ensures !Blank(searchKey) && outcome.Failed? ==>
        products == [] && rows == [] && error == ErrorMessage(outcome.bodyMessage, outcome.message) &&
        page == 1
      ensures searchKey == old(searchKey) && draftValues == old(draftValues)
      ensures sortedBy == old(sortedBy) && sortedDirection == old(sortedDirection)
    {
      if Blank(searchKey) {
        ClearResults();
        return;
      }
      match outcome
      case Found(records) =>
        OnSearchResult(records);
      case Failed(bodyMessage, message) =>
        OnSearchError(bodyMessage, message);
    }

    /** The blank-key branch of `searchProducts`: no records, no rows, one empty page. */
    method ClearResults()
      requires Valid()
      modifies this`products, this`rows, this`totalPages, this`page, this`pagedRows
      ensures products == [] && rows == []
      ensures page == 1 && totalPages == 1 && pagedRows == [] && Valid()
    {
      products := [];
      rows := [];
      ComputePagination();
      assert totalPages == TotalPages(0) == 1;
      assert pagedRows == PageSlice([], 1) == [];
    }

    /** The `.then` callback of the search: the records become rows sorted by the
        current column, and the pager goes back to page 1. */
    method OnSearchResult(records: Option<seq<ServerProduct>>)
      requires Valid()
      modifies this`products, this`rows, this`error, this`totalPages, this`page, this`pagedRows
      ensures products == records.GetOr([])
      ensures rows == SortRows(MapRows(products), FieldOf(sortedBy), sortedDirection == "asc")
      ensures error == None && page == 1 && Valid()
    {
      LoadSortedRows(records);
      ResetPage();
    }

    /** `this.products = result || []`, the mapped rows sorted as `applySort` sorts
        them, and no error. The pagination `applySort` recomputes is recomputed again
        by `ResetPage`. */
    method LoadSortedRows(records: Option<seq<ServerProduct>>)
      modifies this`products, this`rows, this`error
      ensures products == records.GetOr([])
      ensures rows == SortRows(MapRows(products), FieldOf(sortedBy), sortedDirection == "asc")
      ensures error == None
    {
      products := records.GetOr([]);
      rows := SortRows(MapRows(products), FieldOf(sortedBy), sortedDirection == "asc");
      error := None;
    }

    /** `this.page = 1; this.computePagination();`. */
    method ResetPage()
      modifies this`totalPages, this`page, this`pagedRows
      ensures page == 1 && Valid()
    {
      page := 1;
      ComputePagination();
    }

    /** The `.catch` callback of the search: the message is kept and the rows cleared. */
    method OnSearchError(bodyMessage: Option<string>, message: Option<string>)
      requires Valid()
      modifies this`products, this`rows, this`error, this`totalPages, this`page, this`pagedRows
      ensures error == ErrorMessage(bodyMessage, message)
      ensures products == [] && rows == [] && page == 1 && Valid()
    {
      error := ErrorMessage(bodyMessage, message);
      products := [];
      rows := [];
      ComputePagination();
    }

    /** `applySort`: the rows sorted by the column, ascending only for "asc"; the
        page stays where it was. */
    method ApplySort(field: string, direction: string)
      requires page >= 1
      modifies this`rows, this`totalPages, this`page, this`pagedRows
      ensures rows == SortRows(old(rows), FieldOf(field), direction == "asc")
      ensures Valid()
      ensures page == Min(old(page), totalPages)
    {
      var isAsc := direction == "asc";
      rows := SortRows(rows, FieldOf(field), isAsc);
      ComputePagination();
    }

    /** `handleSort`: remembers the column and direction and sorts by them. */
    method HandleSort(fieldName: string, sortDirection: string)
      requires Valid()
      modifies this`sortedBy, this`sortedDirection, this`rows, this`totalPages, this`page, this`pagedRows
      ensures sortedBy == fieldName && sortedDirection == sortDirection
      ensures rows == SortRows(old(rows), FieldOf(fieldName), sortDirection == "asc")
      ensures Valid() && page == old(page)
    {
      sortedBy := fieldName;
      sortedDirection := sortDirection;
      ApplySort(sortedBy, sortedDirection);
    }

    /**
     * `handleSave(updates)`: merges the drafts into a copy of the rows one at a
     * time, then keeps the copy, clears the component's drafts and re-paginates.
     */
    method HandleSave(updates: seq<Patch>)
      requires Valid()
      modifies this`rows, this`draftValues, this`totalPages, this`page, this`pagedRows
      ensures rows == SaveAll(old(rows), updates)
      ensures draftValues == [] && Valid() && page == old(page)
    {
      var original := rows;
      var clone := new Row[|original|](i requires 0 <= i < |original| => original[i]);
      assert clone[..] == original;
      MergeDrafts(clone, updates);
      rows := clone[..];
      draftValues := [];
      ComputePagination();
    }

    /** `isFirstPage`. */
    predicate IsFirstPage()
      reads this
      ensures Valid() ==> (IsFirstPage() <==> page == 1)
    {
      page <= 1
    }

    /** `isLastPage`. */
    predicate IsLastPage()
      reads this
      ensures Valid() ==> (IsLastPage() <==> page == totalPages)
    {
      page >= totalPages
    }

    method GoFirst()
      requires Valid()
      modifies this`page, this`totalPages, this`pagedRows
      ensures Valid() && page == 1
    {
      if !IsFirstPage() {
        page := 1;
        ComputePagination();
      }
    }

    method GoPrev()
      requires Valid()
      modifies this`page, this`totalPages, this`pagedRows
      ensures Valid() && page == Max(old(page) - 1, 1)
    {
      if !IsFirstPage() {
        page := page - 1;
        ComputePagination();
      }
    }

    method GoNext()
      requires Valid()
      modifies this`page, this`totalPages, this`pagedRows
      ensures Valid() && page == Min(old(page) + 1, totalPages)
    {
      if !IsLastPage() {
        page := page + 1;
        ComputePagination();
      }
    }

    method GoLast()
      requires Valid()
      modifies this`page, this`totalPages, this`pagedRows
      ensures Valid() && page == totalPages
    {
      if !IsLastPage() {
        page := totalPages;
        ComputePagination();
      }
    }

    /** `getEffectiveRowForAction`: the row with its unsaved edits, read from the
        datatable's drafts when it has any and from the component's own otherwise. */
    function EffectiveRowForAction(rawRow: Row, liveDrafts: seq<Patch>): (r: Row)
      reads this
      ensures r.id == rawRow.id
      ensures |liveDrafts| > 0 ==> r == EffectiveRow(rawRow, liveDrafts)
      ensures |liveDrafts| == 0 ==> r == EffectiveRow(rawRow, draftValues)
    {
      EffectiveRow(rawRow, DraftsInUse(liveDrafts, draftValues))
    }

    /** `handleRowAction`: for "addtocart", the product the `addtocart` event carries
        to the cart; for any other action, nothing. */
    method HandleRowAction(actionName: string, row: Row, liveDrafts: seq<Patch>)
      returns (payload: Option<CartItems.Product>)
      ensures actionName != "addtocart" ==> payload.None?
      ensures actionName == "addtocart" ==>
        payload == Some(CartPayload(EffectiveRowForAction(row, liveDrafts)))
    {
      if actionName != "addtocart" {
        return None;
      }
      var rowWithDrafts := EffectiveRowForAction(row, liveDrafts);
      payload := Some(CartPayload(rowWithDrafts));
    }
  }

  /** An unsaved edit of the quantity column reaches the cart: adding the row puts a
      line with the edited quantity in a cart that did not hold its product. */
  lemma UnsavedQuantityReachesCart(row: Row, d: Patch, items: seq<CartItems.Line>, fallbackId: string)
    requires d.id == row.id && d.productCode.None? && d.quantity.Some? && d.quantity.value != 0.0
    requires forall j :: 0 <= j < |items| ==> items[j].productCode != row.productCode
    ensures var added := CartItems.Added(items, CartPayload(EffectiveRow(row, [d])), fallbackId);
      |added| == |items| + 1 && added[|items|].quantity == d.quantity.value
  {
    var effective := EffectiveRow(row, [d]);
    assert effective == Overlay(row, d);
    var product := CartPayload(effective);
    assert CartItems.FindByCode(items, product.productCode).None?;
    PayloadBecomesLine(effective, fallbackId);
  }
}
