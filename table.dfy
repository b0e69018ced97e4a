/**
 * The transaction table and the cleaning stages that rewrite it column by
 * column: numeric and date coercion, filling categorical gaps with the
 * sentinel, dropping rows with a missing critical field, and text
 * normalisation of the three categorical columns.
 *
 * A table is a sequence of rows; positions are the row index, so the
 * `reset_index` after dropping rows needs no counterpart.
 */
module Table {
  import opened Wrappers
  import opened Sequences
  import Text

  /**
   * Quantities and money amounts, each an exact fixed-point integer (hundredths,
   * since one number parser reads all three numeric columns). The source holds
   * them as float64; that representation is not modelled.
   */
  type Amount = int

  /** A parsed transaction date, as produced by the external date parser. */
  type Timestamp = int

  /** A transaction after coercion; `None` is a missing value. */
  datatype Row = Row(
    transactionId: Option<string>,
    item: Option<string>,
    quantity: Option<Amount>,
    pricePerUnit: Option<Amount>,
    totalSpent: Option<Amount>,
    paymentMethod: Option<string>,
    location: Option<string>,
    transactionDate: Option<Timestamp>)

  /** A transaction as loaded: every cell is text or missing. */
  datatype RawRow = RawRow(
    transactionId: Option<string>,
    item: Option<string>,
    quantity: Option<string>,
    pricePerUnit: Option<string>,
    totalSpent: Option<string>,
    paymentMethod: Option<string>,
    location: Option<string>,
    transactionDate: Option<string>)

  /** The header of the loaded file, before renaming. */
  const SOURCE_HEADERS: seq<string> := ["Transaction ID", "Item", "Quantity", "Price Per Unit",
                                        "Total Spent", "Payment Method", "Location", "Transaction Date"]

  /** The column names the cleaning refers to after renaming. */
  const COLUMN_NAMES: seq<string> := ["transaction_id", "item", "quantity", "price_per_unit",
                                      "total_spent", "payment_method", "location", "transaction_date"]

  // ---------------------------------------------------------------------------
  // Column renaming
  // ---------------------------------------------------------------------------

  /** `columns.str.replace(" ", "_").str.lower()` over the whole header. */
  function NormalizeColumns(headers: seq<string>): (r: seq<string>)
    ensures |r| == |headers|
    ensures forall i :: 0 <= i < |r| ==> |r[i]| == |headers[i]| && ' ' !in r[i]
    ensures forall i, j :: 0 <= i < |r| && 0 <= j < |r[i]| ==> !Text.IsUpper(r[i][j])
    ensures forall i, j :: 0 <= i < |r| && 0 <= j < |r[i]| ==>
              if headers[i][j] == ' ' then r[i][j] == '_'
              else Text.ToLower(r[i][j]) == Text.ToLower(headers[i][j])
  {
    seq(|headers|, i requires 0 <= i < |headers| => Text.SnakeCase(headers[i]))
  }

  /** The file's own header renames to exactly the names the later stages use. */
  lemma SourceHeadersNormalize()
    ensures NormalizeColumns(SOURCE_HEADERS) == COLUMN_NAMES
  {
    var r := NormalizeColumns(SOURCE_HEADERS);
    assert r[0] == COLUMN_NAMES[0];
    assert r[1] == COLUMN_NAMES[1];
    assert r[2] == COLUMN_NAMES[2];
    assert r[3] == COLUMN_NAMES[3];
    assert r[4] == COLUMN_NAMES[4];
    assert r[5] == COLUMN_NAMES[5];
    assert r[6] == COLUMN_NAMES[6];
    assert r[7] == COLUMN_NAMES[7];
  }

  /** Renaming an already renamed header changes nothing. */
  lemma NormalizeColumnsIdempotent(headers: seq<string>)
    ensures NormalizeColumns(NormalizeColumns(headers)) == NormalizeColumns(headers)
  {
    forall i | 0 <= i < |headers| {
      Text.SnakeCaseIdempotent(headers[i]);
    }
  }

  // ---------------------------------------------------------------------------
  // Coercion
  // ---------------------------------------------------------------------------

  /** `astype(str)`: a missing cell is rendered as the text "nan". */
  function AsText(cell: Option<string>): (t: string)
    ensures cell.Some? ==> t == cell.value
    ensures cell.None? ==> t == "nan"
  {
    if cell.None? then "nan" else cell.value
  }

  /**
   * One numeric cell: rendered as text, stripped of `$` and `,`, then handed to
   * the parser, which returns `None` where `to_numeric(errors="coerce")` gives NaN.
   */
  function CoerceNumber(cell: Option<string>, parse: string -> Option<Amount>): (n: Option<Amount>)
    ensures n == parse(Text.DropCurrencyMarks(AsText(cell)))
    ensures cell.None? ==> n == parse("nan")
  {
    Text.StripCurrencyDropsMarks(AsText(cell));
    parse(Text.StripCurrency(AsText(cell)))
  }

  /** `to_datetime(errors="coerce")`: a missing cell stays missing, text goes to the parser. */
  function CoerceDate(cell: Option<string>, parse: string -> Option<Timestamp>): (d: Option<Timestamp>)
    ensures d.Some? ==> cell.Some?
    ensures cell.Some? ==> d == parse(cell.value)
  {
    if cell.None? then None else parse(cell.value)
  }

  /** A loaded row after the numeric and date coercion; the text cells are carried over. */
  function CoerceRow(raw: RawRow, parseNumber: string -> Option<Amount>,
                     parseDate: string -> Option<Timestamp>): (r: Row)
    ensures r.transactionId == raw.transactionId && r.item == raw.item
    ensures r.paymentMethod == raw.paymentMethod && r.location == raw.location
    ensures r.quantity == parseNumber(Text.DropCurrencyMarks(AsText(raw.quantity)))
    ensures r.pricePerUnit == parseNumber(Text.DropCurrencyMarks(AsText(raw.pricePerUnit)))
    ensures r.totalSpent == parseNumber(Text.DropCurrencyMarks(AsText(raw.totalSpent)))
    ensures r.transactionDate.Some? ==> raw.transactionDate.Some?
    ensures raw.transactionDate.Some? ==> r.transactionDate == parseDate(raw.transactionDate.value)
  {
    Row(raw.transactionId, raw.item,
        CoerceNumber(raw.quantity, parseNumber),
        CoerceNumber(raw.pricePerUnit, parseNumber),
        CoerceNumber(raw.totalSpent, parseNumber),
        raw.paymentMethod, raw.location,
        CoerceDate(raw.transactionDate, parseDate))
  }

  /** The table after coercion: one coerced row per loaded row, text columns untouched. */
  function CoerceTable(data: seq<RawRow>, parseNumber: string -> Option<Amount>,
                       parseDate: string -> Option<Timestamp>): (df: seq<Row>)
    ensures |df| == |data|
    ensures forall i :: 0 <= i < |data| ==>
              && df[i].transactionId == data[i].transactionId
              && df[i].item == data[i].item
              && df[i].paymentMethod == data[i].paymentMethod
              && df[i].location == data[i].location
    ensures forall i :: 0 <= i < |data| ==>
              && df[i].quantity == parseNumber(Text.StripCurrency(AsText(data[i].quantity)))
              && df[i].pricePerUnit == parseNumber(Text.StripCurrency(AsText(data[i].pricePerUnit)))
              && df[i].totalSpent == parseNumber(Text.StripCurrency(AsText(data[i].totalSpent)))
              && df[i].transactionDate == CoerceDate(data[i].transactionDate, parseDate)
  {
    seq(|data|, i requires 0 <= i < |data| => CoerceRow(data[i], parseNumber, parseDate))
  }

  /**
   * Currency marks never reach the parser: a cell with a `$` or `,` inserted
   * anywhere coerces to the same number as the cell without it.
   */
  lemma CoerceNumberIgnoresMarks(x: string, y: string, mark: char, parse: string -> Option<Amount>)
    requires mark == '$' || mark == ','
    ensures CoerceNumber(Some(x + [mark] + y), parse) == CoerceNumber(Some(x + y), parse)
  {
    var marked := x + [mark] + y;
    assert marked == (x + [mark]) + y;
    Text.StripCurrencyAppend(x + [mark], y);
    Text.StripCurrencyAppend(x, [mark]);
    Text.StripCurrencyAppend(x, y);
    assert Text.StripCurrency([mark]) == [] by {
      assert [mark][1..] == [];
    }
    assert Text.StripCurrency(x + [mark]) == Text.StripCurrency(x);
  }

  // ---------------------------------------------------------------------------
  // Column-wise rewriting of the categorical columns
  // ---------------------------------------------------------------------------

  /** The three text columns the cleaning rewrites. */
  datatype TextColumn = ItemColumn | PaymentMethodColumn | LocationColumn

  /** `cat_cols`, the order of the fill loop. */
  const CATEGORICAL_COLUMNS: seq<TextColumn> := [PaymentMethodColumn, LocationColumn, ItemColumn]

  /** `text_cols`, the order of the title-case and correction loops. */
  const TEXT_COLUMNS: seq<TextColumn> := [ItemColumn, PaymentMethodColumn, LocationColumn]

  function Get(r: Row, c: TextColumn): Option<string> {
    match c
    case ItemColumn => r.item
    case PaymentMethodColumn => r.paymentMethod
    case LocationColumn => r.location
  }

  /** The row with column `c` set to `v` and every other field kept. */
  function Set(r: Row, c: TextColumn, v: Option<string>): (r': Row)
    ensures Get(r', c) == v
    ensures forall d :: d != c ==> Get(r', d) == Get(r, d)
    ensures r'.transactionId == r.transactionId && r'.quantity == r.quantity
    ensures r'.pricePerUnit == r.pricePerUnit && r'.totalSpent == r.totalSpent
    ensures r'.transactionDate == r.transactionDate
  {
    match c
    case ItemColumn => r.(item := v)
    case PaymentMethodColumn => r.(paymentMethod := v)
    case LocationColumn => r.(location := v)
  }

  /** `df[col] = f(df[col])`: one column rewritten, every row kept in place. */
  function MapColumn(df: seq<Row>, c: TextColumn, f: Option<string> -> Option<string>): (out: seq<Row>)
    ensures |out| == |df|
    ensures forall i :: 0 <= i < |df| ==> Get(out[i], c) == f(Get(df[i], c))
    ensures forall i, d :: 0 <= i < |df| && d != c ==> Get(out[i], d) == Get(df[i], d)
    ensures forall i :: 0 <= i < |df| ==>
              && out[i].transactionId == df[i].transactionId && out[i].quantity == df[i].quantity
              && out[i].pricePerUnit == df[i].pricePerUnit && out[i].totalSpent == df[i].totalSpent
              && out[i].transactionDate == df[i].transactionDate
  {
    seq(|df|, i requires 0 <= i < |df| => Set(df[i], c, f(Get(df[i], c))))
  }

  /** One row after the columns `cols` have been rewritten by `f`, in that order. */
  function ApplyColumns(r: Row, cols: seq<TextColumn>, f: Option<string> -> Option<string>): Row
    decreases |cols|
  {
    if cols == [] then r
    else
      var before := ApplyColumns(r, cols[..|cols| - 1], f);
      var c := cols[|cols| - 1];
      Set(before, c, f(Get(before, c)))
  }

  /** One row with `f` applied once to each of its three text columns. */
  function ApplyToText(r: Row, f: Option<string> -> Option<string>): Row {
    r.(item := f(r.item), paymentMethod := f(r.paymentMethod), location := f(r.location))
  }

  /** A loop over all three text columns, in any order, applies `f` once to each. */
  lemma ApplyColumnsAllText(r: Row, cols: seq<TextColumn>, f: Option<string> -> Option<string>)
    requires |cols| == 3 && cols[0] != cols[1] && cols[0] != cols[2] && cols[1] != cols[2]
    ensures ApplyColumns(r, cols, f) == ApplyToText(r, f)
  {
    var r0 := ApplyColumns(r, cols[..0], f);
    assert cols[..0] == [];
    assert cols[..1][..0] == cols[..0] && cols[..1][0] == cols[0];
    var r1 := ApplyColumns(r, cols[..1], f);
    assert r1 == Set(r0, cols[0], f(Get(r0, cols[0])));
    assert cols[..2][..1] == cols[..1] && cols[..2][1] == cols[1];
    var r2 := ApplyColumns(r, cols[..2], f);
    assert r2 == Set(r1, cols[1], f(Get(r1, cols[1])));
    assert cols[..3] == cols;
    assert cols[..2] == cols[..|cols| - 1];
  }

  /**
   * `for col in cols: df[col] = f(df[col])`. The table is rewritten one column
   * at a time; every row ends up as `ApplyColumns` of itself.
   */
  method TransformColumns(df: seq<Row>, cols: seq<TextColumn>, f: Option<string> -> Option<string>)
    returns (out: seq<Row>)
    ensures |out| == |df|
    ensures forall i :: 0 <= i < |df| ==> out[i] == ApplyColumns(df[i], cols, f)
  {
    out := df;
    for k := 0 to |cols|
      invariant |out| == |df|
      invariant forall i :: 0 <= i < |df| ==> out[i] == ApplyColumns(df[i], cols[..k], f)
    {
      assert cols[..k + 1][..k] == cols[..k];
      out := MapColumn(out, cols[k], f);
    }
    assert cols[..|cols|] == cols;
  }

  // ---------------------------------------------------------------------------
  // Missing values
  // ---------------------------------------------------------------------------

  /** `fillna("Unknown")` on one cell. */
  function FillUnknown(cell: Option<string>): (r: Option<string>)
    ensures r.Some?
    ensures cell.Some? ==> r == cell
    ensures cell.None? ==> r == Some(Text.UNKNOWN)
  {
    if cell.None? then Some(Text.UNKNOWN) else cell
  }

  /** No categorical cell is missing. */
  predicate CategoricalFilled(r: Row) {
    r.item.Some? && r.paymentMethod.Some? && r.location.Some?
  }

  /**
   * After the fill loop every categorical cell holds a value, a value that was
   * there is kept, a missing one becomes the sentinel, and nothing else changes.
   */
  lemma FillCategoricalSpec(r: Row)
    ensures var r' := ApplyColumns(r, CATEGORICAL_COLUMNS, FillUnknown);
      && CategoricalFilled(r')
      && (forall c :: Get(r, c).Some? ==> Get(r', c) == Get(r, c))
      && (forall c :: Get(r, c).None? ==> Get(r', c) == Some(Text.UNKNOWN))
      && r'.transactionId == r.transactionId && r'.quantity == r.quantity
      && r'.pricePerUnit == r.pricePerUnit && r'.totalSpent == r.totalSpent
      && r'.transactionDate == r.transactionDate
  {
    ApplyColumnsAllText(r, CATEGORICAL_COLUMNS, FillUnknown);
  }

  /** Every row of the table after the fill loop, as `FillCategoricalSpec` describes it. */
  lemma FillCategoricalRows(df: seq<Row>)
    ensures forall i :: 0 <= i < |df| ==>
              ApplyToText(df[i], FillUnknown) == ApplyColumns(df[i], CATEGORICAL_COLUMNS, FillUnknown)
  {
    forall i | 0 <= i < |df| {
      ApplyColumnsAllText(df[i], CATEGORICAL_COLUMNS, FillUnknown);
    }
  }

  /**
   * The table after the fill loop: each row is the loop's result on it, every
   * categorical cell holds a value, and present values are kept.
   */
  function FillCategorical(df: seq<Row>): (out: seq<Row>)
    ensures |out| == |df|
    ensures forall i :: 0 <= i < |df| ==> out[i] == ApplyColumns(df[i], CATEGORICAL_COLUMNS, FillUnknown)
    ensures forall i :: 0 <= i < |df| ==> CategoricalFilled(out[i])
    ensures forall i, c :: 0 <= i < |df| && Get(df[i], c).Some? ==> Get(out[i], c) == Get(df[i], c)
  {
    FillCategoricalRows(df);
    seq(|df|, i requires 0 <= i < |df| => ApplyToText(df[i], FillUnknown))
  }

  /** All four critical fields are present. */
  predicate Complete(r: Row) {
    r.quantity.Some? && r.pricePerUnit.Some? && r.totalSpent.Some? && r.transactionDate.Some?
  }

  /**
   * `dropna(subset=cols_critical)` followed by `reset_index(drop=True)`: the
   * complete rows, in their original order, each as often as it occurs.
   */
  function DropIncomplete(df: seq<Row>): (out: seq<Row>)
    ensures forall r | r in out :: Complete(r)
    ensures IsSubsequence(out, df)
    ensures forall r :: multiset(out)[r] == if Complete(r) then multiset(df)[r] else 0
    ensures forall r | r in df && r !in out :: !Complete(r)
  {
    if df == [] then []
    else
      var rest := DropIncomplete(df[1..]);
      assert df == [df[0]] + df[1..];
      if Complete(df[0]) then
        SubsequenceCons(df[0], rest, df[1..]);
        [df[0]] + rest
      else
        SubsequenceSkip(df[0], rest, df[1..]);
        rest
  }

  /** Dropping again removes nothing: the result is exactly the complete part. */
  lemma {:induction false} DropIncompleteIdempotent(df: seq<Row>)
    ensures DropIncomplete(DropIncomplete(df)) == DropIncomplete(df)
    ensures (forall r | r in df :: Complete(r)) ==> DropIncomplete(df) == df
  {
    if df != [] {
      DropIncompleteIdempotent(df[1..]);
      var rest := DropIncomplete(df[1..]);
      if Complete(df[0]) {
        assert ([df[0]] + rest)[1..] == rest;
      }
    }
  }

  /** Dropping never adds rows. */
  lemma {:induction false} DropIncompleteShrinks(df: seq<Row>)
    ensures |DropIncomplete(df)| <= |df|
  {
    if df != [] {
      DropIncompleteShrinks(df[1..]);
    }
  }

  // ---------------------------------------------------------------------------
  // Text normalisation
  // ---------------------------------------------------------------------------

  /** `str.title()` on one cell; a missing cell stays missing. */
  function TitleCell(cell: Option<string>): (r: Option<string>)
    ensures r.Some? <==> cell.Some?
    ensures r.Some? ==> Text.EqualIgnoringCase(r.value, cell.value) && Text.IsTitled(r.value)
  {
    if cell.None? then None else Some(Text.TitleCase(cell.value))
  }

  /** The label correction on one cell: an error spelling becomes the sentinel. */
  function CorrectCell(cell: Option<string>): (r: Option<string>)
    ensures r.Some? <==> cell.Some?
    ensures r != Some("Error") && r != Some("ERROR") && r != Some("unknown")
    ensures cell.Some? && cell.value !in Text.ERROR_LABELS ==> r == cell
    ensures cell.Some? && cell.value in Text.ERROR_LABELS ==> r == Some(Text.UNKNOWN)
  {
    if cell.None? then None else Some(Text.CorrectLabel(cell.value))
  }

  /** One cell after both text passes. */
  function NormalizeCell(cell: Option<string>): Option<string> {
    if cell.None? then None else Some(Text.Normalize(cell.value))
  }

  /** A cell that both text passes leave as it is. */
  predicate NormalCell(cell: Option<string>) {
    NormalizeCell(cell) == cell
  }

  /** All three text columns are normal. */
  predicate TextNormal(r: Row) {
    NormalCell(r.item) && NormalCell(r.paymentMethod) && NormalCell(r.location)
  }

  /**
   * The title-case loop followed by the correction loop normalises each text
   * cell once and touches nothing else; the result is normal, so running the
   * two loops again changes nothing.
   */
  lemma TextPassesSpec(r: Row)
    ensures var r' := ApplyColumns(ApplyColumns(r, TEXT_COLUMNS, TitleCell), TEXT_COLUMNS, CorrectCell);
      && r' == ApplyToText(r, NormalizeCell)
      && TextNormal(r')
      && r'.transactionId == r.transactionId && r'.quantity == r.quantity
      && r'.pricePerUnit == r.pricePerUnit && r'.totalSpent == r.totalSpent
      && r'.transactionDate == r.transactionDate
  {
    ApplyColumnsAllText(r, TEXT_COLUMNS, TitleCell);
    ApplyColumnsAllText(ApplyToText(r, TitleCell), TEXT_COLUMNS, CorrectCell);
    NormalCellOfNormalize(r.item);
    NormalCellOfNormalize(r.paymentMethod);
    NormalCellOfNormalize(r.location);
  }

  /** Every row of the table after the two text loops, as `TextPassesSpec` describes it. */
  lemma TextPassesRows(df: seq<Row>)
    ensures forall i :: 0 <= i < |df| ==>
              && ApplyToText(df[i], NormalizeCell) ==
                 ApplyColumns(ApplyColumns(df[i], TEXT_COLUMNS, TitleCell), TEXT_COLUMNS, CorrectCell)
              && TextNormal(ApplyToText(df[i], NormalizeCell))
  {
    forall i | 0 <= i < |df| {
      TextPassesSpec(df[i]);
    }
  }

  /**
   * The table after the title-case and correction loops: each row is the two
   * loops' result on it, and every text cell is normal.
   */
  function NormalizeText(df: seq<Row>): (out: seq<Row>)
    ensures |out| == |df|
    ensures forall i :: 0 <= i < |df| ==>
              out[i] == ApplyColumns(ApplyColumns(df[i], TEXT_COLUMNS, TitleCell), TEXT_COLUMNS, CorrectCell)
    ensures forall i :: 0 <= i < |df| ==> TextNormal(out[i])
  {
    TextPassesRows(df);
    seq(|df|, i requires 0 <= i < |df| => ApplyToText(df[i], NormalizeCell))
  }

  /** A normalised cell is normal. */
  lemma NormalCellOfNormalize(cell: Option<string>)
    ensures NormalCell(NormalizeCell(cell))
  {
    if cell.Some? {
      Text.NormalizeIdempotent(cell.value);
    }
  }

  /** A normal cell holds none of the raw error spellings. */
  lemma NormalCellHasNoErrorLabel(cell: Option<string>)
    requires NormalCell(cell)
    ensures cell != Some("Error") && cell != Some("ERROR") && cell != Some("unknown")
  {
    if cell.Some? {
      Text.NormalizeCollapsesErrors(cell.value);
    }
  }
}
