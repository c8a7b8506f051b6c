/**
 * `applySort` of the productSearch component: the comparator it hands to
 * `Array.prototype.sort` and the stable sort that the library performs.
 */
module SearchSort {
  import opened Wrappers
  import opened SearchRows
  import StableSort

  /** The row field a sort is by. `OtherField` is any name that is not a field of a
      row, whose value is therefore `undefined` in every row. */
  datatype Field = IdField | NameField | ProductCodeField | UnitPriceField | QuantityField | TotalField | OtherField

  /** The field that the column name `fieldName` designates. */
  function FieldOf(name: string): (f: Field)
    ensures f == IdField <==> name == "Id"
    ensures f == NameField <==> name == "Name"
    ensures f == ProductCodeField <==> name == "ProductCode"
    ensures f == UnitPriceField <==> name == "UnitPrice"
    ensures f == QuantityField <==> name == "Quantity__c"
    ensures f == TotalField <==> name == "Total"
    ensures f == OtherField <==>
      name !in {"Id", "Name", "ProductCode", "UnitPrice", "Quantity__c", "Total"}
  {
    if name == "Id" then IdField
    else if name == "Name" then NameField
    else if name == "ProductCode" then ProductCodeField
    else if name == "UnitPrice" then UnitPriceField
    else if name == "Quantity__c" then QuantityField
    else if name == "Total" then TotalField
    else OtherField
  }

  /** The fields compared as numbers: `UnitPrice`, `Quantity__c` and `Total`. */
  predicate IsNumeric(f: Field) {
    f == UnitPriceField || f == QuantityField || f == TotalField
  }

  /** `Number(v ?? 0)` for a numeric field. */
  function NumberKey(row: Row, f: Field): real
    requires IsNumeric(f)
  {
    match f
    case UnitPriceField => row.unitPrice.GetOr(0.0)
    case QuantityField => row.quantity.GetOr(0.0)
    case TotalField => row.total.GetOr(0.0)
  }

  /** `toLowerCase` on the ASCII letters. */
  function LowerChar(c: char): (l: char)
    ensures 'A' <= c <= 'Z' ==> l as int == c as int + 32
    ensures !('A' <= c <= 'Z') ==> l == c
  {
    if 'A' <= c <= 'Z' then (c as int + 32) as char else c
  }

  function Lower(s: string): (r: string)
    ensures |r| == |s|
    ensures forall i :: 0 <= i < |s| ==> r[i] == LowerChar(s[i])
  {
    seq(|s|, i requires 0 <= i < |s| => LowerChar(s[i]))
  }

  /** `(v ?? '').toString().toLowerCase()` for a text field. */
  function TextKey(row: Row, f: Field): string
    requires !IsNumeric(f)
  {
    match f
    case IdField => Lower(row.id.GetOr(""))
    case NameField => Lower(row.name.GetOr(""))
    case ProductCodeField => Lower(row.productCode.GetOr(""))
    case OtherField => ""
  }

  /** JavaScript's `<` on strings: lexicographic by character, a proper prefix first. */
  predicate StrLess(a: string, b: string) {
    if b == [] then false
    else if a == [] then true
    else if a[0] != b[0] then a[0] < b[0]
    else StrLess(a[1..], b[1..])
  }

  lemma {:induction false} StrLessIrreflexive(a: string)
    ensures !StrLess(a, a)
  {
    if a != [] {
      StrLessIrreflexive(a[1..]);
    }
  }

  /** Two different strings are ordered one way or the other, never both. */
  lemma {:induction false} StrLessTrichotomy(a: string, b: string)
    ensures a == b || StrLess(a, b) || StrLess(b, a)
    ensures !(StrLess(a, b) && StrLess(b, a))
  {
    if a != [] && b != [] && a[0] == b[0] {
      StrLessTrichotomy(a[1..], b[1..]);
      if a[1..] == b[1..] {
        assert a == [a[0]] + a[1..] && b == [b[0]] + b[1..];
      }
    }
  }

  lemma {:induction false} StrLessTransitive(a: string, b: string, c: string)
    requires StrLess(a, b) && StrLess(b, c)
    ensures StrLess(a, c)
  {
    if a != [] && a[0] == b[0] && b[0] == c[0] {
      StrLessTransitive(a[1..], b[1..], c[1..]);
    }
  }

  /** The comparator before the direction is applied: 0 for equal keys, 1 when the
      first key is greater, -1 when it is smaller. */
  function KeyCompare(a: Row, b: Row, f: Field): (c: int)
    ensures c == -1 || c == 0 || c == 1
  {
    if IsNumeric(f) then
      var na, nb := NumberKey(a, f), NumberKey(b, f);
      if na == nb then 0 else if na > nb then 1 else -1
    else
      var sa, sb := TextKey(a, f), TextKey(b, f);
      if sa == sb then 0 else if StrLess(sb, sa) then 1 else -1
  }

  /** Swapping the rows negates the key comparison. */
  lemma KeyCompareAntisymmetric(a: Row, b: Row, f: Field)
    ensures KeyCompare(a, b, f) == -KeyCompare(b, a, f)
  {
    if !IsNumeric(f) {
      StrLessTrichotomy(TextKey(a, f), TextKey(b, f));
    }
  }

  /** The comparator of `applySort`: the key comparison, negated unless ascending,
      which is the key comparison of the rows taken in the other order. */
  function Compare(a: Row, b: Row, f: Field, isAsc: bool): (c: int)
    ensures isAsc ==> c == KeyCompare(a, b, f)
    ensures !isAsc ==> c == KeyCompare(b, a, f)
  {
    KeyCompareAntisymmetric(a, b, f);
    KeyCompare(a, b, f) * (if isAsc then 1 else -1)
  }

  /** Swapping the rows negates the comparison, as `sort` requires of a comparator. */
  lemma CompareAntisymmetric(a: Row, b: Row, f: Field, isAsc: bool)
    ensures Compare(a, b, f, isAsc) == -Compare(b, a, f, isAsc)
  {
    KeyCompareAntisymmetric(a, b, f);
  }

  /** "May precede" is transitive, as `sort` requires of a comparator. */
  lemma CompareTransitive(a: Row, b: Row, c: Row, f: Field, isAsc: bool)
    requires Compare(a, b, f, isAsc) <= 0 && Compare(b, c, f, isAsc) <= 0
    ensures Compare(a, c, f, isAsc) <= 0
  {
    if !IsNumeric(f) {
      var sa, sb, sc := TextKey(a, f), TextKey(b, f), TextKey(c, f);
      StrLessTrichotomy(sa, sb);
      StrLessTrichotomy(sb, sc);
      StrLessTrichotomy(sa, sc);
      if StrLess(sa, sb) && StrLess(sb, sc) {
        StrLessTransitive(sa, sb, sc);
      }
      if StrLess(sc, sb) && StrLess(sb, sa) {
        StrLessTransitive(sc, sb, sa);
      }
    }
  }

  /** The comparator as the function value handed to `sort`. */
  function Comparator(f: Field, isAsc: bool): (Row, Row) -> int {
    (a: Row, b: Row) => Compare(a, b, f, isAsc)
  }

  /** The comparator is one that `sort` can work with, whatever the column and direction. */
  lemma ComparatorIsValid(f: Field, isAsc: bool)
    ensures StableSort.IsComparator(Comparator(f, isAsc))
  {
    var cmp := Comparator(f, isAsc);
    forall a, b ensures cmp(a, b) == -cmp(b, a) {
      CompareAntisymmetric(a, b, f, isAsc);
    }
    forall a, b, c | cmp(a, b) <= 0 && cmp(b, c) <= 0 ensures cmp(a, c) <= 0 {
      CompareTransitive(a, b, c, f, isAsc);
    }
  }

  /** `[...rows].sort(comparator)`. */
  function SortRows(rows: seq<Row>, f: Field, isAsc: bool): (r: seq<Row>)
    ensures |r| == |rows|
  {
    StableSort.Sort(rows, Comparator(f, isAsc))
  }

  /** The sorted rows are the same rows, rearranged. */
  lemma SortRowsPermutation(rows: seq<Row>, f: Field, isAsc: bool)
    ensures multiset(SortRows(rows, f, isAsc)) == multiset(rows)
  {
    StableSort.SortPermutation(rows, Comparator(f, isAsc));
  }

  /** The sorted rows are in the comparator's order. */
  lemma SortRowsSorted(rows: seq<Row>, f: Field, isAsc: bool)
    ensures StableSort.Sorted(SortRows(rows, f, isAsc), Comparator(f, isAsc))
  {
    ComparatorIsValid(f, isAsc);
    StableSort.SortSorted(rows, Comparator(f, isAsc));
  }

  /** On a numeric column the keys rise when ascending and fall when descending. */
  lemma SortedByNumber(rows: seq<Row>, f: Field, isAsc: bool, i: nat, j: nat)
    requires IsNumeric(f) && i < j < |rows|
    ensures var r := SortRows(rows, f, isAsc);
      if isAsc then NumberKey(r[i], f) <= NumberKey(r[j], f)
      else NumberKey(r[i], f) >= NumberKey(r[j], f)
  {
    var r := SortRows(rows, f, isAsc);
    SortRowsSorted(rows, f, isAsc);
    assert Comparator(f, isAsc)(r[i], r[j]) <= 0;
  }

  /** On a text column no lower-cased key is followed by a smaller one when ascending,
      nor by a greater one when descending. */
  lemma SortedByText(rows: seq<Row>, f: Field, isAsc: bool, i: nat, j: nat)
    requires !IsNumeric(f) && i < j < |rows|
    ensures var r := SortRows(rows, f, isAsc);
      if isAsc then !StrLess(TextKey(r[j], f), TextKey(r[i], f))
      else !StrLess(TextKey(r[i], f), TextKey(r[j], f))
  {
    var r := SortRows(rows, f, isAsc);
    SortRowsSorted(rows, f, isAsc);
    assert Comparator(f, isAsc)(r[i], r[j]) <= 0;
    StrLessIrreflexive(TextKey(r[i], f));
    StrLessTrichotomy(TextKey(r[i], f), TextKey(r[j], f));
  }

  /** Rows whose keys are equal keep the order they had before the sort. */
  lemma SortRowsStable(rows: seq<Row>, f: Field, isAsc: bool, x: Row)
    ensures StableSort.EqualRun(SortRows(rows, f, isAsc), x, Comparator(f, isAsc)) ==
            StableSort.EqualRun(rows, x, Comparator(f, isAsc))
  {
    ComparatorIsValid(f, isAsc);
    StableSort.SortStable(rows, x, Comparator(f, isAsc));
  }

  /** Sorting again by the same column and direction changes nothing. */
  lemma SortRowsIdempotent(rows: seq<Row>, f: Field, isAsc: bool)
    ensures SortRows(SortRows(rows, f, isAsc), f, isAsc) == SortRows(rows, f, isAsc)
  {
    ComparatorIsValid(f, isAsc);
    StableSort.SortIdempotent(rows, Comparator(f, isAsc));
  }

  /** Rows already in the column's order come out of the sort as they went in. */
  lemma SortRowsOfSorted(rows: seq<Row>, f: Field, isAsc: bool)
    requires StableSort.Sorted(rows, Comparator(f, isAsc))
    ensures SortRows(rows, f, isAsc) == rows
  {
    StableSort.SortOfSorted(rows, Comparator(f, isAsc));
  }

  /** Sorting by a name that is no field of a row keeps the rows in their order. */
  lemma SortByUnknownFieldKeepsOrder(rows: seq<Row>, isAsc: bool)
    ensures SortRows(rows, OtherField, isAsc) == rows
  {
    assert StableSort.Sorted(rows, Comparator(OtherField, isAsc));
    StableSort.SortOfSorted(rows, Comparator(OtherField, isAsc));
  }
}
