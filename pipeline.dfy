/** The whole page from the sheet to the action plan (app.py:35-124):
    header clean-up, numeric coercion, grouping, metrics, the recommended
    action per campaign, the account overview and the filtered table. */
module Pipeline {
  import opened Cells
  import opened Aggregation
  import opened Frames
  import opened Metrics
  import opened Recommendation
  import opened View

  /** Why the page shows its error message instead of the plan. */
  datatype Problem =
    | RepeatedColumn                  // a listed numeric column occurs twice
    | MissingColumns(names: seq<string>)  // the grouping needs these columns

  /** What the page shows: one line per campaign, the overview cards and the table. */
  datatype Report = Report(lines: seq<Line>, overview: Overview, table: seq<Line>)

  function NormalizedHeader(header: seq<string>): seq<string> {
    seq(|header|, j requires 0 <= j < |header| => NormalizeName(header[j]))
  }

  function CoercedColumns(header: seq<string>, columns: seq<seq<Cell>>): (r: seq<seq<Cell>>)
    requires |columns| == |header|
    ensures Coerced(header, r)
  {
    var r := seq(|columns|, j requires 0 <= j < |columns| =>
      if header[j] in NumericColumns then Convert(columns[j]) else columns[j]);
    ConversionCoerces(header, columns, r);
    r
  }

  predicate Repeats(header: seq<string>) {
    exists i :: 0 <= i < |NumericColumns| && Occurrences(header, NumericColumns[i]) > 1
  }

  /** The rows in the order `'last'` sees them: by date when there is a date column. */
  function Ordered(rows: seq<Row>, header: seq<string>): seq<Row> {
    if DateColumn in header then SortByDate(rows) else rows
  }

  /** What the page shows for a sheet whose required columns are all present. */
  ghost predicate Shows(rep: Report, rows: seq<Row>, header: seq<string>, selected: set<string>) {
    var ordered := Ordered(rows, header);
    var cs := seq(|rep.lines|, i requires 0 <= i < |rep.lines| => rep.lines[i].campaign);
    && (forall i :: 0 <= i < |cs| ==>
          && !cs[i].name.Null?
          && Summarizes(cs[i], Select(ordered, Named(cs[i].name)))
          && rep.lines[i] == Score(cs[i]))
    && (forall i, j :: 0 <= i < j < |cs| ==> cs[i].name != cs[j].name)
    && (forall r :: r in rows && !r.name.Null? ==> r.name in Names(cs))
    && rep.overview == AccountOverview(cs)
    && rep.overview.spend == Sum(Select(rows, NamedRows), Spend)
    && rep.overview.revenue == Sum(Select(rows, NamedRows), Revenue)
    && multiset(rep.table) == multiset(Chosen(rep.lines, selected))
    && ByRoasDesc(rep.table)
  }

  /** The page run on one uploaded sheet. `toDate` stands for
      `pd.to_datetime` and `selected` for the labels picked in the filter. */
  method Run(header: seq<string>, columns: seq<seq<Cell>>, height: nat,
             toDate: Cell -> Option<int>, selected: set<string>)
    returns (result: Result<Report, Problem>)
    requires |columns| == |header| && forall j :: 0 <= j < |columns| ==> |columns[j]| == height
    ensures var h := NormalizedHeader(header);
      Repeats(h) ==> result == Failure(RepeatedColumn)
    ensures var h := NormalizedHeader(header);
      !Repeats(h) ==>
        var recs := Records(h, CoercedColumns(h, columns), height, toDate);
        && (recs.Failure? ==> result == Failure(MissingColumns(recs.error)))
        && (recs.Success? ==> result.Success? && Shows(result.value, recs.value, h, selected))
  {
    var frame := new Frame(header, columns, height);
    frame.NormalizeHeader();
    var h := frame.header;
    assert h == NormalizedHeader(header);
    var ok := frame.CoerceNumeric();
    if !ok {
      return Failure(RepeatedColumn);
    }
    assert frame.columns == CoercedColumns(h, columns);
    var recs := Records(frame.header, frame.columns, frame.height, toDate);
    if recs.Failure? {
      return Failure(MissingColumns(recs.error));
    }
    var rows := recs.value;
    if DateColumn in h {
      rows := SortByDate(rows);
    }
    var campaigns := Aggregate(rows);
    var lines := seq(|campaigns|, i requires 0 <= i < |campaigns| => Score(campaigns[i]));
    var overview := AccountOverview(campaigns);
    var table := ShowTable(lines, selected);
    var rep := Report(lines, overview, table);
    ReportShows(rep, campaigns, recs.value, h, selected);
    return Success(rep);
  }

  lemma ReportShows(rep: Report, campaigns: seq<Campaign>, rows: seq<Row>, header: seq<string>, selected: set<string>)
    requires var ordered := Ordered(rows, header);
      && (forall i :: 0 <= i < |campaigns| ==>
            !campaigns[i].name.Null? && Summarizes(campaigns[i], Select(ordered, Named(campaigns[i].name))))
      && (forall i, j :: 0 <= i < j < |campaigns| ==> campaigns[i].name != campaigns[j].name)
      && (forall r :: r in ordered && !r.name.Null? ==> r.name in Names(campaigns))
      && Total(campaigns, Spend) == Sum(Select(ordered, NamedRows), Spend)
      && Total(campaigns, Revenue) == Sum(Select(ordered, NamedRows), Revenue)
    requires rep.lines == seq(|campaigns|, i requires 0 <= i < |campaigns| => Score(campaigns[i]))
    requires rep.overview == AccountOverview(campaigns)
    requires multiset(rep.table) == multiset(Chosen(rep.lines, selected)) && ByRoasDesc(rep.table)
    ensures Shows(rep, rows, header, selected)
  {
    var ordered := Ordered(rows, header);
    var cs := seq(|rep.lines|, i requires 0 <= i < |rep.lines| => rep.lines[i].campaign);
    assert cs == campaigns;
    assert Sum(Select(rows, NamedRows), Spend) == Sum(Select(ordered, NamedRows), Spend) by {
      if DateColumn in header {
        SortKeepsSelectedSum(rows, NamedRows, Spend);
      }
    }
    assert Sum(Select(rows, NamedRows), Revenue) == Sum(Select(ordered, NamedRows), Revenue) by {
      if DateColumn in header {
        SortKeepsSelectedSum(rows, NamedRows, Revenue);
      }
    }
    assert forall r :: r in rows ==> r in ordered by {
      if DateColumn in header {
        assert multiset(SortByDate(rows)) == multiset(rows);
        forall r | r in rows ensures r in SortByDate(rows) {
          assert r in multiset(rows);
        }
      }
    }
  }
}
