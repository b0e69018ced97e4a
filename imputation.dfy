/**
 * Deductive imputation: an item left as the sentinel is recovered from its
 * price when, among the rows whose item is known, exactly one distinct item
 * was ever sold at that price.
 *
 * Prices are exact keys here. The source joins on float64 equality, so two
 * prices that are equal as decimals but differ in binary representation would
 * not match there; that drift is not modelled.
 */
module Imputation {
  import opened Wrappers
  import opened Table
  import Text

  /** `groupby("price_per_unit")["item"].unique()`: per price, the distinct items in order of appearance. */
  type PriceMap = map<Amount, seq<Option<string>>>

  /** `mapping_dict`: the prices that name exactly one item, with that item. */
  type MappingDict = map<Amount, Option<string>>

  /** The item column holds the sentinel. */
  predicate IsUnknown(r: Row) {
    r.item == Some(Text.UNKNOWN)
  }

  /**
   * Reference definition: the distinct items of the rows with a known item
   * (anything but the sentinel, a missing item included) sold at price `p`.
   */
  function KnownItemsAt(df: seq<Row>, p: Amount): set<Option<string>> {
    set i | 0 <= i < |df| && df[i].pricePerUnit == Some(p) && !IsUnknown(df[i]) :: df[i].item
  }

  predicate Distinct<T(==)>(s: seq<T>) {
    forall i, j :: 0 <= i < j < |s| ==> s[i] != s[j]
  }

  function Elements<T>(s: seq<T>): set<T> {
    set x | x in s
  }

  /** One more known row at price `p`: its item joins the group unless already there. */
  function AddToGroup(groups: PriceMap, p: Amount, item: Option<string>): PriceMap {
    if p !in groups then groups[p := [item]]
    else if item in groups[p] then groups
    else groups[p := groups[p] + [item]]
  }

  /**
   * The price map over the rows whose item is not the sentinel. Rows with a
   * missing price form no group (the group-by drops missing keys).
   */
  function GroupItemsByPrice(df: seq<Row>): (groups: PriceMap)
    ensures forall p | p in groups :: groups[p] != [] && Distinct(groups[p])
    ensures forall p | p in groups :: Some(Text.UNKNOWN) !in groups[p]
  {
    if df == [] then map[]
    else
      var groups := GroupItemsByPrice(df[..|df| - 1]);
      var r := df[|df| - 1];
      if IsUnknown(r) || r.pricePerUnit.None? then groups
      else AddToGroup(groups, r.pricePerUnit.value, r.item)
  }

  /** Appending a row adds at most its own item to the reference set of its price. */
  lemma KnownItemsAtSnoc(df: seq<Row>, p: Amount)
    requires df != []
    ensures var r := df[|df| - 1];
      KnownItemsAt(df, p) == KnownItemsAt(df[..|df| - 1], p) +
        (if r.pricePerUnit == Some(p) && !IsUnknown(r) then {r.item} else {})
  {
    var n := |df| - 1;
    var front := df[..n];
    var r := df[n];
    var extra: set<Option<string>> := if r.pricePerUnit == Some(p) && !IsUnknown(r) then {r.item} else {};
    forall x | x in KnownItemsAt(df, p) ensures x in KnownItemsAt(front, p) + extra {
      var i :| 0 <= i < |df| && df[i].pricePerUnit == Some(p) && !IsUnknown(df[i]) && df[i].item == x;
      if i < n {
        assert front[i] == df[i];
      }
    }
    forall x | x in KnownItemsAt(front, p) + extra ensures x in KnownItemsAt(df, p) {
      if x in KnownItemsAt(front, p) {
        var i :| 0 <= i < n && front[i].pricePerUnit == Some(p) && !IsUnknown(front[i]) && front[i].item == x;
        assert df[i] == front[i];
      } else {
        assert df[n].item == x;
      }
    }
  }

  /** The group of price `p` as the price map holds it. */
  predicate GroupMatches(groups: PriceMap, df: seq<Row>, p: Amount) {
    && (p in groups <==> KnownItemsAt(df, p) != {})
    && (p in groups ==> Distinct(groups[p]) && Elements(groups[p]) == KnownItemsAt(df, p))
  }

  /**
   * The price map has a group for exactly the prices at which some known item
   * was sold, and each group lists every such item once.
   */
  lemma {:induction false} GroupItemsByPriceSpec(df: seq<Row>, p: Amount)
    ensures GroupMatches(GroupItemsByPrice(df), df, p)
  {
    if df != [] {
      var n := |df| - 1;
      var front := df[..n];
      var r := df[n];
      GroupItemsByPriceSpec(front, p);
      KnownItemsAtSnoc(df, p);
      var before := GroupItemsByPrice(front);
      if !IsUnknown(r) && r.pricePerUnit == Some(p) {
        var after := AddToGroup(before, p, r.item);
        assert GroupItemsByPrice(df) == after;
        if p in before && r.item !in before[p] {
          assert Elements(before[p] + [r.item]) == Elements(before[p]) + {r.item};
        }
      }
    } else {
      assert KnownItemsAt(df, p) == {};
    }
  }

  /** The prices whose group holds a single item, each with that item. */
  function Unambiguous(groups: PriceMap): (mapping: MappingDict)
    ensures mapping.Keys <= groups.Keys
    ensures forall p | p in mapping :: Elements(groups[p]) == {mapping[p]}
    ensures forall p | p in groups && |groups[p]| == 1 :: p in mapping
  {
    map p | p in groups && |groups[p]| == 1 :: groups[p][0]
  }

  /** The loop that fills `mapping_dict` from the price map, one price at a time. */
  method BuildMappingDict(groups: PriceMap) returns (mapping: MappingDict)
    ensures forall p :: p in mapping <==> p in groups && |groups[p]| == 1
    ensures forall p | p in mapping :: mapping[p] == groups[p][0]
    ensures mapping == Unambiguous(groups)
  {
    mapping := map[];
    var pending := groups.Keys;
    while pending != {}
      invariant pending <= groups.Keys
      invariant forall p :: p in mapping <==> p in groups && p !in pending && |groups[p]| == 1
      invariant forall p | p in mapping :: mapping[p] == groups[p][0]
      decreases pending
    {
      // The lemma's witness shows that some key is left, so the choice below exists.
      ghost var someKey := SomeElement(pending);
      var p: Amount :| p in pending;
      if |groups[p]| == 1 {
        mapping := mapping[p := groups[p][0]];
      }
      pending := pending - {p};
    }
  }

  /** A non-empty set has an element. */
  lemma SomeElement<T>(s: set<T>) returns (x: T)
    requires s != {}
    ensures x in s
  {
    x :| x in s;
  }

  /** A duplicate-free sequence has one element exactly when its set of elements does. */
  lemma DistinctSingleton<T>(g: seq<T>)
    requires Distinct(g)
    ensures |g| == 1 <==> |Elements(g)| == 1
  {
    if |g| == 1 {
      assert Elements(g) == {g[0]};
    } else if |g| == 0 {
      assert Elements(g) == {};
    } else {
      var rest := Elements(g) - {g[0]};
      assert g[0] in Elements(g) && g[1] in rest;
      assert |rest| == |Elements(g)| - 1;
    }
  }

  /** The mapping built from the table. */
  function TableMapping(df: seq<Row>): MappingDict {
    Unambiguous(GroupItemsByPrice(df))
  }

  /**
   * A price is a key of the mapping exactly when one distinct known item was
   * sold at it, and it is mapped to that item; the mapped item is never the
   * sentinel.
   */
  lemma TableMappingSpec(df: seq<Row>, p: Amount)
    ensures p in TableMapping(df) <==> |KnownItemsAt(df, p)| == 1
    ensures p in TableMapping(df) ==> KnownItemsAt(df, p) == {TableMapping(df)[p]}
    ensures p in TableMapping(df) ==> TableMapping(df)[p] != Some(Text.UNKNOWN)
  {
    var groups := GroupItemsByPrice(df);
    var known := KnownItemsAt(df, p);
    GroupItemsByPriceSpec(df, p);
    if p in groups {
      var g := groups[p];
      DistinctSingleton(g);
      if |g| == 1 {
        assert Elements(g) == {g[0]};
      }
    }
  }

  /** Two known items at one price keep the price out of the mapping. */
  lemma AmbiguousPriceUnmapped(df: seq<Row>, i: nat, j: nat)
    requires i < |df| && j < |df|
    requires df[i].pricePerUnit.Some? && df[j].pricePerUnit == df[i].pricePerUnit
    requires !IsUnknown(df[i]) && !IsUnknown(df[j]) && df[i].item != df[j].item
    ensures df[i].pricePerUnit.value !in TableMapping(df)
  {
    var p := df[i].pricePerUnit.value;
    TableMappingSpec(df, p);
    assert df[i].item in KnownItemsAt(df, p) && df[j].item in KnownItemsAt(df, p);
  }

  /** The row's price is a key of the mapping. */
  predicate HasMappedPrice(r: Row, mapping: MappingDict) {
    r.pricePerUnit.Some? && r.pricePerUnit.value in mapping
  }

  /**
   * `fill_unknown_items`: a known item is kept; a sentinel item is replaced by
   * the mapped item of its price, if the price is a key.
   */
  function FillUnknownItem(r: Row, mapping: MappingDict): (item: Option<string>)
    ensures !IsUnknown(r) ==> item == r.item
    ensures item != r.item ==> IsUnknown(r) && HasMappedPrice(r, mapping)
    ensures IsUnknown(r) && HasMappedPrice(r, mapping) ==> item == mapping[r.pricePerUnit.value]
    ensures NoSentinelValue(mapping) && IsUnknown(r) ==>
              (item == Some(Text.UNKNOWN) <==> !HasMappedPrice(r, mapping))
  {
    if IsUnknown(r) && HasMappedPrice(r, mapping) then
      var p := r.pricePerUnit.value;
      assert p in mapping;
      mapping[p]
    else r.item
  }

  /** The row-wise fill: every row's item rewritten by `FillUnknownItem`, nothing else changed. */
  function Impute(df: seq<Row>, mapping: MappingDict): (out: seq<Row>)
    ensures |out| == |df|
    ensures forall i :: 0 <= i < |df| ==> out[i] == df[i].(item := out[i].item)
    ensures forall i :: 0 <= i < |df| && !IsUnknown(df[i]) ==> out[i].item == df[i].item
    ensures forall i :: 0 <= i < |df| && IsUnknown(df[i]) && !HasMappedPrice(df[i], mapping) ==>
              IsUnknown(out[i])
    ensures forall i :: 0 <= i < |df| && IsUnknown(df[i]) && HasMappedPrice(df[i], mapping) ==>
              out[i].item == mapping[df[i].pricePerUnit.value]
  {
    seq(|df|, i requires 0 <= i < |df| => df[i].(item := FillUnknownItem(df[i], mapping)))
  }

  /**
   * The table after imputation with its own mapping: only items change, and
   * a row holds the sentinel afterwards only if it held it before.
   */
  function Imputed(df: seq<Row>): (out: seq<Row>)
    ensures |out| == |df|
    ensures forall i :: 0 <= i < |df| ==> out[i] == df[i].(item := out[i].item)
    ensures forall i :: 0 <= i < |df| && IsUnknown(out[i]) ==> IsUnknown(df[i])
  {
    TableMappingNoSentinel(df);
    Impute(df, TableMapping(df))
  }

  /**
   * A row changes only if it held the sentinel at a price where exactly one
   * known item was sold, and it then receives that item; a sentinel row at a
   * price with no known item or with two or more stays the sentinel.
   */
  lemma ImputedSpec(df: seq<Row>, i: nat)
    requires i < |df|
    ensures Imputed(df)[i] == df[i].(item := Imputed(df)[i].item)
    ensures Imputed(df)[i].item != df[i].item ==>
              && IsUnknown(df[i]) && df[i].pricePerUnit.Some?
              && KnownItemsAt(df, df[i].pricePerUnit.value) == {Imputed(df)[i].item}
    ensures IsUnknown(df[i]) && df[i].pricePerUnit.Some? &&
            |KnownItemsAt(df, df[i].pricePerUnit.value)| == 1 ==>
              KnownItemsAt(df, df[i].pricePerUnit.value) == {Imputed(df)[i].item}
    ensures IsUnknown(df[i]) &&
            (df[i].pricePerUnit.None? || |KnownItemsAt(df, df[i].pricePerUnit.value)| != 1) ==>
              IsUnknown(Imputed(df)[i])
  {
    if df[i].pricePerUnit.Some? {
      TableMappingSpec(df, df[i].pricePerUnit.value);
    }
  }

  /** The positions whose item is the sentinel. */
  function UnknownPositions(df: seq<Row>): set<nat> {
    set i: nat | i < |df| && IsUnknown(df[i])
  }

  /** The number of rows whose item is the sentinel. */
  function CountUnknown(df: seq<Row>): (n: nat)
    ensures n <= |df|
  {
    if df == [] then 0
    else CountUnknown(df[..|df| - 1]) + (if IsUnknown(df[|df| - 1]) then 1 else 0)
  }

  /** The recursive count is the number of sentinel positions, the sum of the sentinel mask. */
  lemma {:induction false} CountUnknownSpec(df: seq<Row>)
    ensures CountUnknown(df) == |UnknownPositions(df)|
  {
    if df != [] {
      var n := |df| - 1;
      var front := df[..n];
      CountUnknownSpec(front);
      var last: set<nat> := if IsUnknown(df[n]) then {n} else {};
      assert UnknownPositions(df) == UnknownPositions(front) + last by {
        forall i: nat | i < n ensures df[i] == front[i] {}
      }
      assert n !in UnknownPositions(front);
    }
  }

  /** Number of sentinel rows whose price is a key of the mapping. */
  function CountFillable(df: seq<Row>, mapping: MappingDict): nat {
    if df == [] then 0
    else
      var r := df[|df| - 1];
      CountFillable(df[..|df| - 1], mapping) + (if IsUnknown(r) && HasMappedPrice(r, mapping) then 1 else 0)
  }

  /** The mapping never hands out the sentinel. */
  predicate NoSentinelValue(mapping: MappingDict) {
    forall p | p in mapping :: mapping[p] != Some(Text.UNKNOWN)
  }

  /**
   * With a mapping that never hands out the sentinel, imputation removes
   * exactly one sentinel per fillable row and adds none.
   */
  lemma {:induction false} ImputeCounts(df: seq<Row>, mapping: MappingDict)
    requires NoSentinelValue(mapping)
    ensures CountUnknown(Impute(df, mapping)) + CountFillable(df, mapping) == CountUnknown(df)
  {
    if df != [] {
      var n := |df| - 1;
      var out := Impute(df, mapping);
      assert out[..n] == Impute(df[..n], mapping);
      ImputeCounts(df[..n], mapping);
      if IsUnknown(df[n]) && HasMappedPrice(df[n], mapping) {
        var p := df[n].pricePerUnit.value;
        assert p in mapping;
        assert out[n].item == mapping[p] != Some(Text.UNKNOWN);
      }
    }
  }

  /** With such a mapping, a row's item changes exactly when the row is fillable. */
  lemma ImputeChangesExactlyFillable(df: seq<Row>, mapping: MappingDict, i: nat)
    requires NoSentinelValue(mapping) && i < |df|
    ensures Impute(df, mapping)[i].item != df[i].item <==> IsUnknown(df[i]) && HasMappedPrice(df[i], mapping)
  {
    if IsUnknown(df[i]) && HasMappedPrice(df[i], mapping) {
      var p := df[i].pricePerUnit.value;
      assert p in mapping;
      assert mapping[p] != Some(Text.UNKNOWN);
    }
  }

  /** The table's own mapping never hands out the sentinel. */
  lemma TableMappingNoSentinel(df: seq<Row>)
    ensures NoSentinelValue(TableMapping(df))
  {
    forall p | p in TableMapping(df) ensures TableMapping(df)[p] != Some(Text.UNKNOWN) {
      TableMappingSpec(df, p);
    }
  }

  /**
   * The imputation stage: build the price map, fill `mapping_dict`, count the
   * sentinel rows, apply the row-wise fill and count again. The recovered count
   * `unknownBefore - unknownAfter` is the number of rows that were filled.
   */
  method DeductiveImputation(df: seq<Row>) returns (out: seq<Row>, unknownBefore: nat, unknownAfter: nat)
    ensures out == Imputed(df)
    ensures unknownBefore == CountUnknown(df) && unknownAfter == CountUnknown(out)
    ensures unknownAfter <= unknownBefore
    ensures unknownBefore - unknownAfter == CountFillable(df, TableMapping(df))
  {
    var priceMap := GroupItemsByPrice(df);
    var mapping := BuildMappingDict(priceMap);
    unknownBefore := CountUnknown(df);
    out := Impute(df, mapping);
    unknownAfter := CountUnknown(out);
    TableMappingNoSentinel(df);
    ImputeCounts(df, mapping);
  }

  /** An imputed item is the row's own item or the known item of some row of the same table. */
  lemma ImputedItemsComeFromTable(df: seq<Row>, i: nat)
    requires i < |df|
    ensures Imputed(df)[i].item == df[i].item ||
            exists j :: 0 <= j < |df| && !IsUnknown(df[j]) && Imputed(df)[i].item == df[j].item
  {
    ImputedSpec(df, i);
    if Imputed(df)[i].item != df[i].item {
      var p := df[i].pricePerUnit.value;
      assert Imputed(df)[i].item in KnownItemsAt(df, p);
    }
  }

  // ---------------------------------------------------------------------------
  // The two worked examples of the imputation
  // ---------------------------------------------------------------------------

  function Sale(item: string, price: Amount): Row {
    Row(None, Some(item), Some(1), Some(price), Some(price), Some("Cash"), Some("In-store"), Some(0))
  }

  /** A sentinel row at a price where only "Coffee" was sold becomes "Coffee". */
  lemma CoffeeIsRecovered()
    ensures Imputed([Sale("Coffee", 300), Sale(Text.UNKNOWN, 300)])[1].item == Some("Coffee")
  {
    var df := [Sale("Coffee", 300), Sale(Text.UNKNOWN, 300)];
    assert KnownItemsAt(df, 300) == {Some("Coffee")} by {
      assert df[0].item == Some("Coffee");
      assert IsUnknown(df[1]);
    }
    ImputedSpec(df, 1);
  }

  /** A sentinel row at a price shared by "Tea" and "Cake" stays the sentinel. */
  lemma AmbiguousPriceStaysUnknown()
    ensures Imputed([Sale("Tea", 500), Sale("Cake", 500), Sale(Text.UNKNOWN, 500)])[2].item == Some(Text.UNKNOWN)
  {
    var df := [Sale("Tea", 500), Sale("Cake", 500), Sale(Text.UNKNOWN, 500)];
    assert Some("Tea") != Some("Cake") by { assert "Tea"[0] != "Cake"[0]; }
    AmbiguousPriceUnmapped(df, 0, 1);
  }
}
