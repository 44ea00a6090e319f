/** The sheet as the page holds it once read (app.py:43-55): a header row
    and one column of cells per header entry, all of the same height. */
module Frames {
  import opened Cells
  import opened Text
  import opened Numeric
  import opened Aggregation

  const NameColumn := "Nome"
  const StatusColumn := "Status"
  const BudgetColumn := "Orçamento"
  const TargetColumn := "ACOS Objetivo"
  const SpendColumn := "Investimento (Moeda local)"
  const RevenueColumn := "Receita (Moeda local)"
  const LossBudgetColumn := "% de impressões perdidas por orçamento"
  const LossRankColumn := "% de impressões perdidas por classificação"
  const DateColumn := "Desde"

  /** The columns converted to numbers, in the order they are converted. */
  const NumericColumns: seq<string> :=
    [SpendColumn, RevenueColumn, BudgetColumn, TargetColumn, LossBudgetColumn, LossRankColumn]

  /** The columns the grouping reads: the key and the seven aggregated ones. */
  const RequiredColumns: seq<string> :=
    [NameColumn, StatusColumn, BudgetColumn, TargetColumn, SpendColumn, RevenueColumn, LossBudgetColumn, LossRankColumn]

  // ---------------------------------------------------------------------
  // Header names.

  /** `c.strip().replace('\n', ' ')`. */
  function NormalizeName(c: string): (r: string)
    ensures '\n' !in r
    ensures r == [] || (!IsSpace(r[0]) && !IsSpace(r[|r| - 1]))
  {
    var t := Strip(c);
    ReplaceCharByChar(t, '\n', ' ');
    ReplaceCharGone(t, '\n', " ");
    Replace(t, "\n", " ")
  }

  /** A name that is already clean is left alone, so cleaning twice is cleaning once. */
  lemma NormalizeClean(c: string)
    requires '\n' !in c && (c == [] || (!IsSpace(c[0]) && !IsSpace(c[|c| - 1])))
    ensures NormalizeName(c) == c
  {
    ReplaceAbsent(c, "\n", " ");
  }

  lemma NormalizeIdempotent(c: string)
    ensures NormalizeName(NormalizeName(c)) == NormalizeName(c)
  {
    NormalizeClean(NormalizeName(c));
  }

  /** Inside the stripped name, every line break becomes a space and nothing else moves. */
  lemma NormalizeInner(c: string)
    ensures var t, r := Strip(c), NormalizeName(c);
      |r| == |t| && forall i :: 0 <= i < |t| ==> r[i] == if t[i] == '\n' then ' ' else t[i]
  {
    ReplaceCharByChar(Strip(c), '\n', ' ');
  }

  /** The first index of `name` in the header, or the header's length. */
  function ColumnIndex(names: seq<string>, name: string): (j: nat)
    ensures j <= |names|
    ensures j < |names| <==> name in names
    ensures j < |names| ==> names[j] == name
    ensures forall k :: 0 <= k < j ==> names[k] != name
  {
    if names == [] then 0
    else if names[0] == name then 0
    else 1 + ColumnIndex(names[1..], name)
  }

  function Occurrences(names: seq<string>, name: string): nat {
    if names == [] then 0
    else (if names[|names| - 1] == name then 1 else 0) + Occurrences(names[..|names| - 1], name)
  }

  /** A name that occurs at most once occurs only at its first position. */
  lemma {:induction false} OccursOnce(names: seq<string>, name: string, j: nat)
    requires j < |names| && names[j] == name && Occurrences(names, name) <= 1
    ensures forall k :: 0 <= k < |names| && k != j ==> names[k] != name
  {
    var front := names[..|names| - 1];
    if j < |names| - 1 {
      OccursOnce(front, name, j);
      assert Occurrences(front, name) >= 1 by { AtLeastOnce(front, name, j); }
    } else {
      forall k | 0 <= k < |front| ensures front[k] != name {
        if front[k] == name { AtLeastOnce(front, name, k); }
      }
    }
  }

  lemma {:induction false} AtLeastOnce(names: seq<string>, name: string, j: nat)
    requires j < |names| && names[j] == name
    ensures Occurrences(names, name) >= 1
  {
    if j < |names| - 1 {
      AtLeastOnce(names[..|names| - 1], name, j);
    }
  }

  // ---------------------------------------------------------------------
  // Numeric columns.

  /** The number a cell of a listed column ends up as: text goes through
      `clean_numeric`, numbers stay, and a missing value becomes 0. */
  function NumericValue(c: Cell): real {
    match c
    case Str(s) => TextValue(s)
    case Num(x) => x
    case Null => 0.0
  }

  /** Whether pandas gives the column the `object` dtype: it holds some text. */
  predicate HasText(col: seq<Cell>) {
    exists k :: 0 <= k < |col| && col[k].Str?
  }

  /** `pd.to_numeric(..., errors='coerce').fillna(0)` on a column without text. */
  function FillMissing(c: Cell): Cell
    requires !c.Str?
  {
    if c.Null? then Num(0.0) else c
  }

  /** The column once every cell is converted: only numbers, text cells
      holding what `clean_numeric` made of them, numbers kept, and missing
      cells filled with 0. */
  function Convert(col: seq<Cell>): (r: seq<Cell>)
    ensures |r| == |col|
    ensures forall k :: 0 <= k < |col| ==> r[k].Num?
    ensures forall k :: 0 <= k < |col| && col[k].Str? ==> r[k] == CleanNumeric(col[k])
    ensures forall k :: 0 <= k < |col| && !col[k].Str? ==> r[k] == FillMissing(col[k])
  {
    seq(|col|, k requires 0 <= k < |col| => Num(NumericValue(col[k])))
  }

  /** A cell goes through `clean_numeric` when its column holds text, then
      through `fillna(0)`, and ends up as the number `NumericValue` gives. */
  lemma CellConverts(c: Cell, text: bool)
    requires text || !c.Str?
    ensures var d := if text then CleanNumeric(c) else c;
      !d.Str? && FillMissing(d) == Num(NumericValue(c))
  {
  }

  /** Every cell of every listed column is a number. */
  ghost predicate Coerced(header: seq<string>, columns: seq<seq<Cell>>) {
    |columns| == |header| &&
    forall j, k :: 0 <= j < |header| && header[j] in NumericColumns && 0 <= k < |columns[j]| ==> columns[j][k].Num?
  }

  /** After the conversion loop, every listed column that is present holds only numbers. */
  lemma ConversionCoerces(header: seq<string>, before: seq<seq<Cell>>, after: seq<seq<Cell>>)
    requires |before| == |header| == |after|
    requires forall j :: 0 <= j < |after| ==>
      after[j] == if header[j] in NumericColumns then Convert(before[j]) else before[j]
    ensures Coerced(header, after)
  {
  }

  /** The sheet read from the upload: the header row and the columns. */
  class Frame {
    var header: seq<string>
    var columns: seq<seq<Cell>>
    var height: nat

    ghost predicate Valid()
      reads this
    {
      |columns| == |header| && forall j :: 0 <= j < |columns| ==> |columns[j]| == height
    }

    constructor (header: seq<string>, columns: seq<seq<Cell>>, height: nat)
      requires |columns| == |header| && forall j :: 0 <= j < |columns| ==> |columns[j]| == height
      ensures Valid()
      ensures this.header == header && this.columns == columns && this.height == height
    {
      this.header := header;
      this.columns := columns;
      this.height := height;
    }

    /** `df.columns = [c.strip().replace('\n', ' ') for c in df.columns]` (app.py:44). */
    method NormalizeHeader()
      requires Valid()
      modifies this
      ensures Valid() && columns == old(columns) && height == old(height)
      ensures |header| == |old(header)|
      ensures forall j :: 0 <= j < |header| ==> header[j] == NormalizeName(old(header)[j])
    {
      var names := header;
      header := seq(|names|, j requires 0 <= j < |names| => NormalizeName(names[j]));
    }

    /** Converts one column in place: text cells through `clean_numeric` when
        the column holds text, then every missing value to 0. */
    method CoerceColumn(j: nat)
      requires Valid() && j < |columns|
      modifies this
      ensures Valid() && header == old(header) && height == old(height)
      ensures columns == old(columns)[j := Convert(old(columns)[j])]
    {
      var before := columns[j];
      var text := HasText(before);
      var col := before;
      if text {
        col := seq(|before|, k requires 0 <= k < |before| => CleanNumeric(before[k]));
      }
      forall k | 0 <= k < |before| ensures !col[k].Str? && FillMissing(col[k]) == Convert(before)[k] {
        CellConverts(before[k], text);
      }
      col := seq(|col|, k requires 0 <= k < |col| => FillMissing(col[k]));
      assert col == Convert(before);
      columns := columns[j := col];
    }

    /** The loop over the listed columns (app.py:51-55). A listed column
        that is absent is skipped; one that occurs twice makes pandas raise
        (the selection is then a frame, which has no single dtype), and
        `ok` is false. */
    method CoerceNumeric() returns (ok: bool)
      requires Valid()
      modifies this
      ensures Valid() && header == old(header) && height == old(height)
      ensures ok <==> forall i :: 0 <= i < |NumericColumns| ==> Occurrences(header, NumericColumns[i]) <= 1
      ensures ok ==> |columns| == |old(columns)| && forall j :: 0 <= j < |columns| ==>
        columns[j] == if header[j] in NumericColumns then Convert(old(columns)[j]) else old(columns)[j]
    {
      forall i | 0 <= i < |NumericColumns| ensures NumericColumns[i] !in NumericColumns[..i] {
        NumericColumnsDistinct(i);
      }
      ok := CoerceEach(NumericColumns);
    }

    /** One turn of the loop: converts the column called `name` if there is one. */
    method CoerceNamed(name: string, ghost before: seq<seq<Cell>>, ghost done: seq<string>)
      requires Valid() && ConvertedUpTo(header, before, columns, done)
      requires Occurrences(header, name) <= 1 && name !in done
      modifies this
      ensures Valid() && header == old(header) && height == old(height)
      ensures ConvertedUpTo(header, before, columns, done + [name])
    {
      var j := ColumnIndex(header, name);
      ConvertStep(header, before, columns, done, name);
      if j < |header| {
        CoerceColumn(j);
      }
    }

    /** Converts the columns named in `listed`, in order, stopping at a name
        that occurs twice in the header. */
    method CoerceEach(listed: seq<string>) returns (ok: bool)
      requires Valid()
      requires forall i :: 0 <= i < |listed| ==> listed[i] !in listed[..i]
      modifies this
      ensures Valid() && header == old(header) && height == old(height)
      ensures ok <==> forall i :: 0 <= i < |listed| ==> Occurrences(header, listed[i]) <= 1
      ensures ok ==> |columns| == |old(columns)| && forall j :: 0 <= j < |columns| ==>
        columns[j] == if header[j] in listed then Convert(old(columns)[j]) else old(columns)[j]
    {
      for i := 0 to |listed|
        invariant Valid() && header == old(header) && height == old(height)
        invariant forall i' :: 0 <= i' < i ==> Occurrences(header, listed[i']) <= 1
        invariant ConvertedUpTo(header, old(columns), columns, listed[..i])
      {
        var name := listed[i];
        if Occurrences(header, name) > 1 {
          return false;
        }
        CoerceNamed(name, old(columns), listed[..i]);
        assert listed[..i + 1] == listed[..i] + [name];
      }
      assert listed[..|listed|] == listed;
      return true;
    }
  }

  /** The columns named in `done` are converted; every other column is as it was. */
  ghost predicate ConvertedUpTo(header: seq<string>, before: seq<seq<Cell>>, cur: seq<seq<Cell>>, done: seq<string>) {
    |cur| == |before| == |header| &&
    forall j :: 0 <= j < |cur| ==>
      cur[j] == if header[j] in done then Convert(before[j]) else before[j]
  }

  /** One turn of the loop: the first column called `name`, when there is
      one and no other, is converted from its original cells. */
  lemma ConvertStep(header: seq<string>, before: seq<seq<Cell>>, cur: seq<seq<Cell>>, done: seq<string>, name: string)
    requires ConvertedUpTo(header, before, cur, done)
    requires Occurrences(header, name) <= 1 && name !in done
    ensures var j := ColumnIndex(header, name);
      ConvertedUpTo(header, before, if j < |header| then cur[j := Convert(cur[j])] else cur, done + [name])
  {
    var j := ColumnIndex(header, name);
    if j < |header| {
      OccursOnce(header, name, j);
    }
  }

  /** No listed name comes twice. */
  lemma NumericColumnsDistinct(i: nat)
    requires i < |NumericColumns|
    ensures NumericColumns[i] !in NumericColumns[..i]
  {
    var lengths := [|SpendColumn|, |RevenueColumn|, |BudgetColumn|, |TargetColumn|, |LossBudgetColumn|, |LossRankColumn|];
    assert lengths == [26, 21, 9, 13, 38, 42];
    assert forall a :: 0 <= a < |NumericColumns| ==> |NumericColumns[a]| == lengths[a];
  }

  /** The value of a numeric cell. */
  function Value(c: Cell): real
    requires c.Num?
  {
    c.x
  }

  /** The listed names missing from the header, in the order they are listed. */
  function Missing(header: seq<string>, names: seq<string>): (r: seq<string>)
    ensures forall n :: n in r <==> n in names && n !in header
  {
    if names == [] then []
    else (if names[0] in header then [] else [names[0]]) + Missing(header, names[1..])
  }

  /** The cell of column `name` in row `k`: `df[name][k]`, or a missing
      value when the sheet has no such cell. */
  function CellAt(header: seq<string>, columns: seq<seq<Cell>>, name: string, k: nat): Cell {
    var j := ColumnIndex(header, name);
    if j < |columns| && k < |columns[j]| then columns[j][k] else Null
  }

  /** `row` holds what row `k` of the sheet says in each column the grouping reads. */
  ghost predicate ReadFrom(header: seq<string>, columns: seq<seq<Cell>>, toDate: Cell -> Option<int>, k: nat, row: Row) {
    && row.name == CellAt(header, columns, NameColumn, k)
    && row.status == CellAt(header, columns, StatusColumn, k)
    && Num(row.budget) == CellAt(header, columns, BudgetColumn, k)
    && Num(row.target) == CellAt(header, columns, TargetColumn, k)
    && Num(row.spend) == CellAt(header, columns, SpendColumn, k)
    && Num(row.revenue) == CellAt(header, columns, RevenueColumn, k)
    && Num(row.lossBudget) == CellAt(header, columns, LossBudgetColumn, k)
    && Num(row.lossRank) == CellAt(header, columns, LossRankColumn, k)
    && row.date == if DateColumn in header then toDate(CellAt(header, columns, DateColumn, k)) else None
  }

  /** The row `k` of the sheet, once every required column is present. */
  function RowAt(header: seq<string>, columns: seq<seq<Cell>>, height: nat, toDate: Cell -> Option<int>, k: nat): (row: Row)
    requires |columns| == |header| && forall j :: 0 <= j < |columns| ==> |columns[j]| == height
    requires Coerced(header, columns)
    requires forall n :: n in RequiredColumns ==> n in header
    requires k < height
    ensures ReadFrom(header, columns, toDate, k, row)
  {
    var at := (n: string) => CellAt(header, columns, n, k);
    assert forall i :: 0 <= i < |NumericColumns| ==> NumericColumns[i] in RequiredColumns;
    Row(at(NameColumn), at(StatusColumn),
        Value(at(BudgetColumn)), Value(at(TargetColumn)),
        Value(at(SpendColumn)), Value(at(RevenueColumn)),
        Value(at(LossBudgetColumn)), Value(at(LossRankColumn)),
        if DateColumn in header then toDate(at(DateColumn)) else None)
  }

  /** The rows the grouping sees, or the required columns that are missing
      (pandas raises a `KeyError` for them). `toDate` is `pd.to_datetime`
      with `errors='coerce'` on one cell; a sheet without `Desde` gives no
      dates. */
  function Records(header: seq<string>, columns: seq<seq<Cell>>, height: nat, toDate: Cell -> Option<int>)
    : (r: Result<seq<Row>, seq<string>>)
    requires |columns| == |header| && forall j :: 0 <= j < |columns| ==> |columns[j]| == height
    requires Coerced(header, columns)
    ensures r.Success? <==> forall n :: n in RequiredColumns ==> n in header
    ensures r.Failure? ==> r.error != [] && forall n :: n in r.error <==> n in RequiredColumns && n !in header
    ensures r.Success? ==> |r.value| == height
    ensures r.Success? ==> forall k :: 0 <= k < height ==> ReadFrom(header, columns, toDate, k, r.value[k])
  {
    var missing := Missing(header, RequiredColumns);
    if missing != [] then
      assert missing[0] in missing;
      Failure(missing)
    else
      Success(seq(height, k requires 0 <= k < height => RowAt(header, columns, height, toDate, k)))
  }
}
