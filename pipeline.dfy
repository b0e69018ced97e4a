/**
 * The cleaning script as one procedure: the table is reassigned stage by
 * stage, from the loaded rows to the cleaned table that is exported. Loading,
 * the printed audits and reports, the arithmetic check and the export are
 * not part of this model.
 */
module Pipeline {
  import opened Wrappers
  import opened Table
  import opened Imputation

  /** What every row of the cleaned table satisfies. */
  predicate Clean(r: Row) {
    Complete(r) && CategoricalFilled(r) && TextNormal(r)
  }

  /** The table the imputation starts from: coerced, filled, dropped and text-normalised. */
  function StandardizedTable(data: seq<RawRow>, parseNumber: string -> Option<Amount>,
                             parseDate: string -> Option<Timestamp>): seq<Row>
  {
    NormalizeText(DropIncomplete(FillCategorical(CoerceTable(data, parseNumber, parseDate))))
  }

  /** The cleaned table as a composition of the stage specifications. */
  function CleanedTable(data: seq<RawRow>, parseNumber: string -> Option<Amount>,
                        parseDate: string -> Option<Timestamp>): seq<Row>
  {
    Imputed(StandardizedTable(data, parseNumber, parseDate))
  }

  /** After the fill loop no categorical cell of any row is missing. */
  lemma FilledRows(df: seq<Row>)
    ensures forall r | r in FillCategorical(df) :: CategoricalFilled(r)
  {
    forall r | r in FillCategorical(df) ensures CategoricalFilled(r) {
      var i :| 0 <= i < |df| && FillCategorical(df)[i] == r;
      FillCategoricalSpec(df[i]);
      ApplyColumnsAllText(df[i], CATEGORICAL_COLUMNS, FillUnknown);
    }
  }

  /** Text normalisation keeps completeness and filled cells and makes every row normal. */
  lemma NormalizedRows(df: seq<Row>)
    requires forall r | r in df :: Complete(r) && CategoricalFilled(r)
    ensures forall r | r in NormalizeText(df) :: Clean(r)
  {
    forall r | r in NormalizeText(df) ensures Clean(r) {
      var i :| 0 <= i < |df| && NormalizeText(df)[i] == r;
      assert df[i] in df;
      TextPassesSpec(df[i]);
    }
  }

  /** Imputation keeps every row clean: it only writes an item that some clean row already has. */
  lemma ImputedRowsStayClean(df: seq<Row>)
    requires forall r | r in df :: Clean(r)
    ensures forall r | r in Imputed(df) :: Clean(r)
  {
    forall r | r in Imputed(df) ensures Clean(r) {
      var i :| 0 <= i < |df| && Imputed(df)[i] == r;
      assert df[i] in df;
      ImputedSpec(df, i);
      ImputedItemsComeFromTable(df, i);
      if r.item != df[i].item {
        var j :| 0 <= j < |df| && !IsUnknown(df[j]) && r.item == df[j].item;
        assert df[j] in df;
      }
    }
  }

  /**
   * Every row of the cleaned table has its four critical fields, no missing
   * categorical cell and normalised text; no row is invented.
   */
  lemma CleanedTableIsClean(data: seq<RawRow>, parseNumber: string -> Option<Amount>,
                            parseDate: string -> Option<Timestamp>)
    ensures forall r | r in CleanedTable(data, parseNumber, parseDate) :: Clean(r)
    ensures |CleanedTable(data, parseNumber, parseDate)| <= |data|
  {
    var filled := FillCategorical(CoerceTable(data, parseNumber, parseDate));
    var kept := DropIncomplete(filled);
    FilledRows(CoerceTable(data, parseNumber, parseDate));
    DropIncompleteShrinks(filled);
    assert forall r | r in kept :: r in filled by {
      forall r | r in kept ensures r in filled {
        assert multiset(kept)[r] > 0;
      }
    }
    NormalizedRows(kept);
    ImputedRowsStayClean(NormalizeText(kept));
  }

  /**
   * The cleaned table is a fixed point of the row stages: filling, dropping
   * and text normalisation again change nothing.
   */
  lemma CleanTableIsStable(df: seq<Row>)
    requires forall r | r in df :: Clean(r)
    ensures FillCategorical(df) == df
    ensures DropIncomplete(df) == df
    ensures NormalizeText(df) == df
  {
    DropIncompleteIdempotent(df);
    forall i | 0 <= i < |df| ensures NormalizeText(df)[i] == df[i] && FillCategorical(df)[i] == df[i] {
      assert df[i] in df;
    }
  }

  /**
   * The script, stage by stage: rename the columns, coerce the numeric and date
   * columns, fill categorical gaps, drop incomplete rows, title-case and correct
   * the text columns, then recover sentinel items from their prices.
   */
  method CleanSales(headers: seq<string>, data: seq<RawRow>, parseNumber: string -> Option<Amount>,
                    parseDate: string -> Option<Timestamp>)
    returns (columns: seq<string>, dfClean: seq<Row>, unknownBefore: nat, unknownAfter: nat)
    ensures columns == NormalizeColumns(headers)
    ensures dfClean == CleanedTable(data, parseNumber, parseDate)
    ensures |dfClean| <= |data|
    ensures forall r | r in dfClean :: Clean(r)
    ensures unknownBefore == CountUnknown(StandardizedTable(data, parseNumber, parseDate))
    ensures unknownAfter == CountUnknown(dfClean) && unknownAfter <= unknownBefore
    ensures var standardized := StandardizedTable(data, parseNumber, parseDate);
      unknownBefore - unknownAfter == CountFillable(standardized, TableMapping(standardized))
  {
    columns := NormalizeColumns(headers);

    var df := CoerceTable(data, parseNumber, parseDate);
    var coerced := df;
    df := TransformColumns(df, CATEGORICAL_COLUMNS, FillUnknown);
    forall i | 0 <= i < |coerced| ensures df[i] == FillCategorical(coerced)[i] {
      ApplyColumnsAllText(coerced[i], CATEGORICAL_COLUMNS, FillUnknown);
    }
    assert df == FillCategorical(coerced);

    df := DropIncomplete(df);
    var kept := df;

    df := TransformColumns(df, TEXT_COLUMNS, TitleCell);
    df := TransformColumns(df, TEXT_COLUMNS, CorrectCell);
    forall i | 0 <= i < |kept| ensures df[i] == NormalizeText(kept)[i] {
      TextPassesSpec(kept[i]);
    }
    assert df == NormalizeText(kept);

    dfClean, unknownBefore, unknownAfter := DeductiveImputation(df);
    CleanedTableIsClean(data, parseNumber, parseDate);
  }
}
