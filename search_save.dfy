/**
 * `handleSave` of the productSearch component: each saved draft is merged into
 * the row with its `Id`, and the row's total is recalculated.
 */
module SearchSave {
  import opened Wrappers
  import SeqFind
  import opened SearchRows

  /**
   * The row after merging one draft: the draft's fields over the row's, then the
   * total recalculated from the merged price and quantity, or failing those from
   * the row's own. A draft field here is either absent or a value, never an
   * explicit `undefined` or `null`, so a draft cannot remove a field and the
   * second case does not arise within the model.
   */
  function Patched(row: Row, d: Patch): (r: Row)
    ensures var u := Overlay(row, d);
      r.id == row.id && r.name == u.name && r.productCode == u.productCode &&
      r.unitPrice == u.unitPrice && r.quantity == u.quantity
    ensures r.unitPrice.Some? && r.quantity.Some? ==>
      r.total.Some? && r.total.value == r.unitPrice.value * r.quantity.value
    ensures !(r.unitPrice.Some? && r.quantity.Some?) ==> r.total == Overlay(row, d).total
  {
    var u := Overlay(row, d);
    if u.unitPrice.Some? && u.quantity.Some? then
      u.(total := Some(u.unitPrice.value * u.quantity.value))
    else if row.unitPrice.Some? && row.quantity.Some? then
      // the fallback to the row's own price and quantity: the merged row has both,
      // since Overlay keeps every field the row has
      assert false; u
    else u
  }

  /** `clone.findIndex(x => x.Id === d.Id)`. */
  function FindRow(rows: seq<Row>, id: Option<string>): (r: Option<nat>)
    ensures r.Some? ==> r.value < |rows| && rows[r.value].id == id
    ensures r.Some? ==> forall j :: 0 <= j < r.value ==> rows[j].id != id
    ensures r.None? <==> forall j :: 0 <= j < |rows| ==> rows[j].id != id
  {
    SeqFind.FindIndex(rows, (x: Row) => x.id == id)
  }

  /** One step of the `forEach`: the first row with the draft's `Id` is merged, or
      nothing changes when no row has it. */
  function ApplyUpdate(rows: seq<Row>, d: Patch): (r: seq<Row>)
    ensures |r| == |rows|
    ensures (forall j :: 0 <= j < |rows| ==> rows[j].id != d.id) ==> r == rows
    ensures forall i :: (0 <= i < |rows| && rows[i].id == d.id &&
      (forall j :: 0 <= j < i ==> rows[j].id != d.id)) ==> r == rows[i := Patched(rows[i], d)]
  {
    match FindRow(rows, d.id)
    case Some(i) => rows[i := Patched(rows[i], d)]
    case None => rows
  }

  /** The rows after `handleSave(updates)`: the drafts merged in order. */
  function SaveAll(rows: seq<Row>, updates: seq<Patch>): (r: seq<Row>)
    ensures |r| == |rows|
    ensures forall i :: 0 <= i < |rows| ==> r[i].id == rows[i].id
  {
    if updates == [] then rows
    else ApplyUpdate(SaveAll(rows, updates[..|updates| - 1]), updates[|updates| - 1])
  }

  /** The body of the `forEach`: the draft is merged into the first row of `clone`
      with its `Id`, in place. */
  method MergeDraft(clone: array<Row>, d: Patch)
    modifies clone
    ensures clone[..] == ApplyUpdate(old(clone[..]), d)
  {
    ghost var before := clone[..];
    var found := FindRow(clone[..], d.id);
    if found.Some? {
      var i := found.value;
      clone[i] := Patched(clone[i], d);
      assert clone[..] == before[i := Patched(before[i], d)];
    }
  }

  /** `updates.forEach(...)` over the cloned rows: the drafts merged in order. */
  method MergeDrafts(clone: array<Row>, updates: seq<Patch>)
    modifies clone
    ensures clone[..] == SaveAll(old(clone[..]), updates)
  {
    ghost var original := clone[..];
    assert clone[..] == SaveAll(original, updates[..0]);
    var k := 0;
    while k < |updates|
      invariant 0 <= k <= |updates|
      invariant clone[..] == SaveAll(original, updates[..k])
    {
      MergeDraft(clone, updates[k]);
      assert updates[..k + 1][..k] == updates[..k];
      k := k + 1;
    }
    assert updates[..k] == updates;
  }

  /** A row that no draft names comes through the save unchanged. */
  lemma {:induction false} SaveAllUntouched(rows: seq<Row>, updates: seq<Patch>, i: nat)
    requires i < |rows|
    requires forall k :: 0 <= k < |updates| ==> updates[k].id != rows[i].id
    ensures SaveAll(rows, updates)[i] == rows[i]
  {
    if updates != [] {
      var prefix := updates[..|updates| - 1];
      SaveAllUntouched(rows, prefix, i);
      var before := SaveAll(rows, prefix);
      var d := updates[|updates| - 1];
      match FindRow(before, d.id)
      case Some(m) =>
        assert before[m].id == d.id;
      case None =>
    }
  }

  /** Merging the same draft twice is merging it once. */
  lemma PatchedIdempotent(row: Row, d: Patch)
    ensures Patched(Patched(row, d), d) == Patched(row, d)
  {
    var once := Patched(row, d);
    var twice := Patched(once, d);
    assert twice.unitPrice == once.unitPrice && twice.quantity == once.quantity;
    if once.unitPrice.Some? && once.quantity.Some? {
      assert twice.total.value == once.total.value;
    }
  }

  /** A draft that leaves the total alone keeps a consistent row consistent: its
      total is the price times the quantity after the merge. */
  lemma PatchedKeepsTotalConsistent(row: Row, d: Patch)
    requires TotalConsistent(row) && d.total.None?
    ensures TotalConsistent(Patched(row, d))
  {
    var r := Patched(row, d);
    if r.unitPrice.None? {
      assert r.total == row.total;
      assert 0.0 * r.quantity.value == 0.0;
    }
  }

  /** Saving drafts that leave the totals alone keeps every row's total equal to
      its price times its quantity. */
  lemma {:induction false} SaveAllKeepsTotalsConsistent(rows: seq<Row>, updates: seq<Patch>)
    requires forall i :: 0 <= i < |rows| ==> TotalConsistent(rows[i])
    requires forall k :: 0 <= k < |updates| ==> updates[k].total.None?
    ensures forall i :: 0 <= i < |rows| ==> TotalConsistent(SaveAll(rows, updates)[i])
  {
    if updates != [] {
      var prefix := updates[..|updates| - 1];
      SaveAllKeepsTotalsConsistent(rows, prefix);
      var before := SaveAll(rows, prefix);
      var d := updates[|updates| - 1];
      match FindRow(before, d.id)
      case Some(m) =>
        PatchedKeepsTotalConsistent(before[m], d);
      case None =>
    }
  }

  /** Editing the quantity of a row priced 10 from 1 to 3 makes its total 30. */
  lemma QuantityEditExample()
    ensures var row := Row(Some("01t1"), Some("Widget"), Some("W-1"), Some(10.0), Some(1.0), Some(10.0));
      var d := Patch(Some("01t1"), None, None, None, Some(3.0), None);
      SaveAll([row], [d]) == [row.(quantity := Some(3.0), total := Some(30.0))]
  {
    var row := Row(Some("01t1"), Some("Widget"), Some("W-1"), Some(10.0), Some(1.0), Some(10.0));
    var d := Patch(Some("01t1"), None, None, None, Some(3.0), None);
    assert [d][..0] == [];
    assert FindRow([row], d.id) == Some(0);
  }
}
