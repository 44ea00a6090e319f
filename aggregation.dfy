/** The consolidation step (app.py:57-74): the rows of the sheet are put in
    `Desde` order when that column exists, then grouped by `Nome`; per
    campaign `Status`, `Orçamento` and `ACOS Objetivo` take the last value,
    spend and revenue are summed and the two impression-loss percentages
    are averaged. */
module Aggregation {
  import opened Cells

  /** One row of the sheet after numeric coercion. `date` is the parsed
      `Desde` (None for a missing or unparseable date). */
  datatype Row = Row(
    name: Cell, status: Cell, budget: real, target: real,
    spend: real, revenue: real, lossBudget: real, lossRank: real,
    date: Option<int>)

  /** One row of `df_grouped`: one campaign. */
  datatype Campaign = Campaign(
    name: Cell, status: Cell, budget: real, target: real,
    spend: real, revenue: real, lossBudget: real, lossRank: real)

  /** The columns that are summed or averaged. */
  datatype Measure = Spend | Revenue | LossBudget | LossRank

  function Get(r: Row, m: Measure): real {
    match m
    case Spend => r.spend
    case Revenue => r.revenue
    case LossBudget => r.lossBudget
    case LossRank => r.lossRank
  }

  function Sum(rs: seq<Row>, m: Measure): real {
    if rs == [] then 0.0 else Sum(rs[..|rs| - 1], m) + Get(rs[|rs| - 1], m)
  }

  /** Which rows a selection keeps: those with a campaign name (`groupby`
      drops rows whose key is missing), those of one campaign, or those of
      one campaign whose status is present. */
  datatype Selection = NamedRows | Named(n: Cell) | NamedWithStatus(n: Cell)

  predicate Keeps(sel: Selection, r: Row) {
    match sel
    case NamedRows => !r.name.Null?
    case Named(n) => r.name == n
    case NamedWithStatus(n) => r.name == n && !r.status.Null?
  }

  /** The rows `sel` keeps, in their order. */
  function Select(rs: seq<Row>, sel: Selection): seq<Row> {
    if rs == [] then []
    else Select(rs[..|rs| - 1], sel) + (if Keeps(sel, rs[|rs| - 1]) then [rs[|rs| - 1]] else [])
  }

  /** A selection holds rows of its input that it keeps, and no others. */
  lemma {:induction false} SelectMembers(rs: seq<Row>, sel: Selection)
    ensures forall x :: x in Select(rs, sel) <==> x in rs && Keeps(sel, x)
  {
    if rs != [] {
      var front := rs[..|rs| - 1];
      SelectMembers(front, sel);
      assert rs == front + [rs[|rs| - 1]];
    }
  }

  lemma SelectSnoc(rs: seq<Row>, x: Row, sel: Selection)
    ensures Select(rs + [x], sel) == Select(rs, sel) + (if Keeps(sel, x) then [x] else [])
  {
    assert (rs + [x])[..|rs|] == rs;
  }

  /** The status `'last'` picks: the last status that is present, missing when there is none. */
  function LastStatus(rs: seq<Row>): (c: Cell)
    ensures c.Null? <==> forall i :: 0 <= i < |rs| ==> rs[i].status.Null?
    ensures !c.Null? ==>
      exists i :: 0 <= i < |rs| && rs[i].status == c && forall j :: i < j < |rs| ==> rs[j].status.Null?
  {
    if rs == [] then Null
    else if !rs[|rs| - 1].status.Null? then rs[|rs| - 1].status
    else LastStatus(rs[..|rs| - 1])
  }

  /** The last present status of a campaign is the status of the last of its rows that has one. */
  lemma {:induction false} LastStatusOfKnown(rs: seq<Row>, n: Cell)
    ensures var k := Select(rs, NamedWithStatus(n));
      LastStatus(Select(rs, Named(n))) == if k == [] then Null else k[|k| - 1].status
  {
    if rs != [] {
      var front, x := rs[..|rs| - 1], rs[|rs| - 1];
      assert rs == front + [x];
      LastStatusOfKnown(front, n);
      SelectSnoc(front, x, Named(n));
      SelectSnoc(front, x, NamedWithStatus(n));
      var m, k := Select(front, Named(n)), Select(front, NamedWithStatus(n));
      if x.name == n {
        var m' := m + [x];
        assert m'[..|m'| - 1] == m;
        if x.status.Null? {
          assert Select(rs, NamedWithStatus(n)) == k;
        }
      } else {
        assert Select(rs, Named(n)) == m;
        assert Select(rs, NamedWithStatus(n)) == k;
      }
    }
  }

  // ---------------------------------------------------------------------
  // Putting the rows in `Desde` order.

  /** The order `sort_values` puts dates in: missing dates (NaT) come last. */
  predicate DateLe(a: Option<int>, b: Option<int>) {
    match b
    case None => true
    case Some(y) => a.Some? && a.value <= y
  }

  ghost predicate DateSorted(s: seq<Row>) {
    forall i, j :: 0 <= i < j < |s| ==> DateLe(s[i].date, s[j].date)
  }

  /** Places `x` after every row whose date is not later than its own. */
  function Insert(s: seq<Row>, x: Row): (r: seq<Row>)
    ensures multiset(r) == multiset(s) + multiset{x}
  {
    if s == [] || DateLe(s[|s| - 1].date, x.date) then
      s + [x]
    else
      var front := s[..|s| - 1];
      assert s == front + [s[|s| - 1]];
      Insert(front, x) + [s[|s| - 1]]
  }

  /** Every row of `s` is dated no later than `d`. */
  ghost predicate NotAfter(s: seq<Row>, d: Option<int>) {
    forall i :: 0 <= i < |s| ==> DateLe(s[i].date, d)
  }

  lemma {:induction false} InsertSorted(s: seq<Row>, x: Row)
    requires DateSorted(s)
    ensures DateSorted(Insert(s, x))
  {
    if s != [] && !DateLe(s[|s| - 1].date, x.date) {
      var front, last := s[..|s| - 1], s[|s| - 1];
      InsertSorted(front, x);
      var t := Insert(front, x);
      assert NotAfter(t, last.date) by {
        forall i | 0 <= i < |t| ensures DateLe(t[i].date, last.date) {
          assert t[i] in multiset(front) + multiset{x};
          if t[i] != x {
            var j :| 0 <= j < |front| && front[j] == t[i];
            assert s[j] == front[j];
          }
        }
      }
    }
  }

  /** The stable sort of the rows by date: rows with equal dates, and rows
      without a date, keep their input order. */
  function SortByDate(rs: seq<Row>): (r: seq<Row>)
    ensures multiset(r) == multiset(rs)
    ensures DateSorted(r)
  {
    if rs == [] then []
    else
      assert rs == rs[..|rs| - 1] + [rs[|rs| - 1]];
      InsertSorted(SortByDate(rs[..|rs| - 1]), rs[|rs| - 1]);
      Insert(SortByDate(rs[..|rs| - 1]), rs[|rs| - 1])
  }

  /** Sorting keeps the relative order of the rows of each selection. */
  lemma {:induction false} SelectInsert(s: seq<Row>, x: Row, sel: Selection)
    requires DateSorted(s)
    ensures Select(Insert(s, x), sel) == if Keeps(sel, x) then Insert(Select(s, sel), x) else Select(s, sel)
  {
    if s == [] || DateLe(s[|s| - 1].date, x.date) {
      SelectAppend(s, x, sel);
    } else {
      SelectInsert(s[..|s| - 1], x, sel);
      SelectInsertBefore(s, x, sel);
    }
  }

  /** `x` goes at the end, and so it does among the selected rows. */
  lemma SelectAppend(s: seq<Row>, x: Row, sel: Selection)
    requires DateSorted(s)
    requires s == [] || DateLe(s[|s| - 1].date, x.date)
    ensures Select(Insert(s, x), sel) == if Keeps(sel, x) then Insert(Select(s, sel), x) else Select(s, sel)
  {
    var k := Select(s, sel);
    assert Insert(s, x) == s + [x];
    SelectSnoc(s, x, sel);
    if Keeps(sel, x) {
      if k != [] {
        assert DateLe(k[|k| - 1].date, x.date) by {
          SelectMembers(s, sel);
          assert k[|k| - 1] in s;
          var i :| 0 <= i < |s| && s[i] == k[|k| - 1];
          if i < |s| - 1 { DateLeTrans(s[i].date, s[|s| - 1].date, x.date); }
        }
      }
      assert Insert(k, x) == k + [x];
    }
  }

  /** The step case: `x` goes before the last row of `s`. */
  lemma SelectInsertBefore(s: seq<Row>, x: Row, sel: Selection)
    requires s != [] && !DateLe(s[|s| - 1].date, x.date)
    requires var front := s[..|s| - 1];
      Select(Insert(front, x), sel) == if Keeps(sel, x) then Insert(Select(front, sel), x) else Select(front, sel)
    ensures Select(Insert(s, x), sel) == if Keeps(sel, x) then Insert(Select(s, sel), x) else Select(s, sel)
  {
    var front, last := s[..|s| - 1], s[|s| - 1];
    var k, t := Select(front, sel), Insert(front, x);
    assert s == front + [last];
    InsertBeforeLast(front, last, x);
    SelectSnoc(t, last, sel);
    SelectSnoc(front, last, sel);
    if !Keeps(sel, last) {
      assert Select(s, sel) == k + [] == k;
      assert Select(Insert(s, x), sel) == Select(t, sel) + [] == Select(t, sel);
    } else if Keeps(sel, x) {
      InsertBeforeLast(k, last, x);
    }
  }

  /** A row dated before the last one is inserted in front of it. */
  lemma InsertBeforeLast(front: seq<Row>, last: Row, x: Row)
    requires !DateLe(last.date, x.date)
    ensures Insert(front + [last], x) == Insert(front, x) + [last]
  {
    var s := front + [last];
    assert s[..|s| - 1] == front;
  }

  lemma DateLeTrans(a: Option<int>, b: Option<int>, c: Option<int>)
    requires DateLe(a, b) && DateLe(b, c)
    ensures DateLe(a, c)
  {
  }

  /** Sorting one more row inserts it into the sorted rest. */
  lemma SortSnoc(front: seq<Row>, x: Row)
    ensures SortByDate(front + [x]) == Insert(SortByDate(front), x)
  {
    var rs := front + [x];
    assert rs[..|rs| - 1] == front;
  }

  /** Selecting the rows of a campaign after the whole sheet is sorted gives
      the campaign's rows sorted on their own. */
  lemma {:induction false} SelectSort(rs: seq<Row>, sel: Selection)
    ensures Select(SortByDate(rs), sel) == SortByDate(Select(rs, sel))
  {
    if rs != [] {
      var front, x := rs[..|rs| - 1], rs[|rs| - 1];
      assert rs == front + [x];
      SortSnoc(front, x);
      SelectSort(front, sel);
      SelectInsert(SortByDate(front), x, sel);
      SelectSnoc(front, x, sel);
      var k := Select(front, sel);
      if Keeps(sel, x) {
        SortSnoc(k, x);
        calc {
          Select(SortByDate(rs), sel);
          Select(Insert(SortByDate(front), x), sel);
          Insert(Select(SortByDate(front), sel), x);
          Insert(SortByDate(k), x);
          SortByDate(k + [x]);
          SortByDate(Select(rs, sel));
        }
      } else {
        assert Select(rs, sel) == k + [] == k;
        calc {
          Select(SortByDate(rs), sel);
          Select(Insert(SortByDate(front), x), sel);
          Select(SortByDate(front), sel);
          SortByDate(k);
          SortByDate(Select(rs, sel));
        }
      }
    }
  }

  /** The position of the row "last by date": its date is the greatest, and
      every later row has an earlier date (ties go to the later row). */
  function LatestIndex(m: seq<Row>): (k: nat)
    requires m != []
    ensures k < |m|
    ensures forall i :: 0 <= i < |m| ==> DateLe(m[i].date, m[k].date)
    ensures forall i :: k < i < |m| ==> !DateLe(m[k].date, m[i].date)
  {
    if |m| == 1 then 0
    else
      var p := LatestIndex(m[..|m| - 1]);
      assert forall i :: 0 <= i < |m| - 1 ==> m[..|m| - 1][i] == m[i];
      if DateLe(m[p].date, m[|m| - 1].date) then
        assert forall i :: 0 <= i < |m| ==> DateLe(m[i].date, m[|m| - 1].date) by {
          forall i | 0 <= i < |m| ensures DateLe(m[i].date, m[|m| - 1].date) {
            if i < |m| - 1 { DateLeTrans(m[i].date, m[p].date, m[|m| - 1].date); }
          }
        }
        |m| - 1
      else
        p
  }

  /** After the stable sort, the last row of a group is the one that is last by date. */
  lemma {:induction false} LastOfSorted(m: seq<Row>)
    requires m != []
    ensures SortByDate(m) != [] && SortByDate(m)[|SortByDate(m)| - 1] == m[LatestIndex(m)]
  {
    var front, x := m[..|m| - 1], m[|m| - 1];
    assert SortByDate(m) == Insert(SortByDate(front), x);
    if front != [] {
      LastOfSorted(front);
      InsertLast(SortByDate(front), x);
      assert front[LatestIndex(front)] == m[LatestIndex(front)];
    }
  }

  lemma InsertLast(s: seq<Row>, x: Row)
    requires s != []
    ensures var r := Insert(s, x);
      r != [] && r[|r| - 1] == if DateLe(s[|s| - 1].date, x.date) then x else s[|s| - 1]
  {
  }

  lemma {:induction false} SumInsert(s: seq<Row>, x: Row, g: Measure)
    ensures Sum(Insert(s, x), g) == Sum(s, g) + Get(x, g)
  {
    if s != [] && !DateLe(s[|s| - 1].date, x.date) {
      var front := s[..|s| - 1];
      SumInsert(front, x, g);
      assert Insert(s, x) == Insert(front, x) + [s[|s| - 1]];
    }
  }

  /** Sorting does not change what a column sums to. */
  lemma {:induction false} SortKeepsSum(rs: seq<Row>, g: Measure)
    ensures Sum(SortByDate(rs), g) == Sum(rs, g)
  {
    if rs != [] {
      SortKeepsSum(rs[..|rs| - 1], g);
      SumInsert(SortByDate(rs[..|rs| - 1]), rs[|rs| - 1], g);
    }
  }

  /** The rows a selection keeps add up to the same after sorting. */
  lemma SortKeepsSelectedSum(rs: seq<Row>, sel: Selection, g: Measure)
    ensures Sum(Select(SortByDate(rs), sel), g) == Sum(Select(rs, sel), g)
  {
    SelectSort(rs, sel);
    SortKeepsSum(Select(rs, sel), g);
  }

  /** With a date column, a campaign's sums and means are those of its rows
      in file order, and its last row is the one last by date. */
  lemma CampaignAfterSort(rows: seq<Row>, n: Cell, g: Measure)
    requires Select(rows, Named(n)) != []
    ensures var m, s := Select(rows, Named(n)), Select(SortByDate(rows), Named(n));
      && |s| == |m| && Sum(s, g) == Sum(m, g)
      && s[|s| - 1] == m[LatestIndex(m)]
  {
    var m := Select(rows, Named(n));
    SelectSort(rows, Named(n));
    SortKeepsSum(m, g);
    LastOfSorted(m);
    assert |SortByDate(m)| == |m| by {
      assert |multiset(SortByDate(m))| == |multiset(m)|;
    }
  }

  /** With a date column, a campaign's status is that of the latest of its
      rows that has one. */
  lemma StatusAfterSort(rows: seq<Row>, n: Cell)
    ensures var k := Select(rows, NamedWithStatus(n));
      LastStatus(Select(SortByDate(rows), Named(n))) == if k == [] then Null else k[LatestIndex(k)].status
  {
    var k := Select(rows, NamedWithStatus(n));
    LastStatusOfKnown(SortByDate(rows), n);
    SelectSort(rows, NamedWithStatus(n));
    if k != [] {
      LastOfSorted(k);
    } else {
      assert SortByDate(k) == [];
    }
  }

  // ---------------------------------------------------------------------
  // Grouping.

  /** What `agg(agg_rules)` makes of the rows `m` of one campaign. */
  ghost predicate Summarizes(c: Campaign, m: seq<Row>) {
    && m != []
    && c.status == LastStatus(m)
    && c.budget == m[|m| - 1].budget
    && c.target == m[|m| - 1].target
    && c.spend == Sum(m, Spend)
    && c.revenue == Sum(m, Revenue)
    && c.lossBudget == Sum(m, LossBudget) / |m| as real
    && c.lossRank == Sum(m, LossRank) / |m| as real
  }

  function Names(cs: seq<Campaign>): (ns: seq<Cell>)
    ensures |ns| == |cs| && forall i :: 0 <= i < |cs| ==> ns[i] == cs[i].name
  {
    if cs == [] then [] else Names(cs[..|cs| - 1]) + [cs[|cs| - 1].name]
  }

  /** Sum of spend or revenue over campaigns (app.py:104-105). */
  function Total(cs: seq<Campaign>, m: Measure): real {
    if cs == [] then 0.0
    else
      Total(cs[..|cs| - 1], m) +
      match m
      case Spend => cs[|cs| - 1].spend
      case Revenue => cs[|cs| - 1].revenue
      case LossBudget => cs[|cs| - 1].lossBudget
      case LossRank => cs[|cs| - 1].lossRank
  }

  /** The running state of one campaign while the rows are scanned. */
  datatype Acc = Acc(
    name: Cell, count: nat, status: Cell, budget: real, target: real,
    spend: real, revenue: real, lossBudget: real, lossRank: real)

  function AccGet(a: Acc, m: Measure): real {
    match m
    case Spend => a.spend
    case Revenue => a.revenue
    case LossBudget => a.lossBudget
    case LossRank => a.lossRank
  }

  /** `a` holds what the rows `m` of its campaign add up to so far. */
  ghost predicate Tracks(a: Acc, m: seq<Row>) {
    && m != [] && a.count == |m|
    && a.status == LastStatus(m)
    && a.budget == m[|m| - 1].budget && a.target == m[|m| - 1].target
    && a.spend == Sum(m, Spend) && a.revenue == Sum(m, Revenue)
    && a.lossBudget == Sum(m, LossBudget) && a.lossRank == Sum(m, LossRank)
  }

  function Start(r: Row): Acc {
    Acc(r.name, 1, r.status, r.budget, r.target, r.spend, r.revenue, r.lossBudget, r.lossRank)
  }

  function Add(a: Acc, r: Row): Acc {
    Acc(a.name, a.count + 1, if r.status.Null? then a.status else r.status, r.budget, r.target,
        a.spend + r.spend, a.revenue + r.revenue, a.lossBudget + r.lossBudget, a.lossRank + r.lossRank)
  }

  /** The campaign row once all rows are in: the loss percentages become means. */
  function Finish(a: Acc): Campaign
    requires a.count > 0
  {
    Campaign(a.name, a.status, a.budget, a.target, a.spend, a.revenue,
             a.lossBudget / a.count as real, a.lossRank / a.count as real)
  }

  ghost predicate Seen(accs: seq<Acc>, n: Cell) {
    exists k :: 0 <= k < |accs| && accs[k].name == n
  }

  function AccTotal(accs: seq<Acc>, m: Measure): real {
    if accs == [] then 0.0 else AccTotal(accs[..|accs| - 1], m) + AccGet(accs[|accs| - 1], m)
  }

  ghost predicate AllTrack(accs: seq<Acc>, rs: seq<Row>) {
    forall k :: 0 <= k < |accs| ==> !accs[k].name.Null? && Tracks(accs[k], Select(rs, Named(accs[k].name)))
  }

  ghost predicate DistinctNames(accs: seq<Acc>) {
    forall j, k :: 0 <= j < k < |accs| ==> accs[j].name != accs[k].name
  }

  ghost predicate Covers(accs: seq<Acc>, rs: seq<Row>) {
    forall x :: x in rs && !x.name.Null? ==> Seen(accs, x.name)
  }

  ghost predicate TotalsMatch(accs: seq<Acc>, rs: seq<Row>) {
    && AccTotal(accs, Spend) == Sum(Select(rs, NamedRows), Spend)
    && AccTotal(accs, Revenue) == Sum(Select(rs, NamedRows), Revenue)
  }

  /** After the rows `rs`: one accumulator per campaign seen, with distinct
      names, each tracking its campaign's rows, and the account totals. */
  ghost predicate Grouped(accs: seq<Acc>, rs: seq<Row>) {
    AllTrack(accs, rs) && DistinctNames(accs) && Covers(accs, rs) && TotalsMatch(accs, rs)
  }

  lemma StartTracks(r: Row)
    ensures Tracks(Start(r), [r])
  {
    assert [r][..0] == [];
  }

  lemma AddTracks(a: Acc, m: seq<Row>, r: Row)
    requires Tracks(a, m)
    ensures Tracks(Add(a, r), m + [r])
  {
    assert (m + [r])[..|m|] == m;
  }

  lemma {:induction false} AccTotalUpdate(accs: seq<Acc>, k: nat, a: Acc, g: Measure)
    requires k < |accs|
    ensures AccTotal(accs[k := a], g) == AccTotal(accs, g) - AccGet(accs[k], g) + AccGet(a, g)
  {
    var front := accs[..|accs| - 1];
    if k < |accs| - 1 {
      AccTotalUpdate(front, k, a, g);
      assert accs[k := a][..|accs| - 1] == front[k := a];
    } else {
      assert accs[k := a][..|accs| - 1] == front;
    }
  }

  /** A row of another campaign leaves an accumulator as it is. */
  lemma TrackOther(a: Acc, rs: seq<Row>, r: Row)
    requires Tracks(a, Select(rs, Named(a.name))) && r.name != a.name
    ensures Tracks(a, Select(rs + [r], Named(a.name)))
  {
    SelectSnoc(rs, r, Named(a.name));
    assert Select(rs + [r], Named(a.name)) == Select(rs, Named(a.name));
  }

  /** A row of the accumulator's campaign is added to it. */
  lemma TrackJoin(a: Acc, rs: seq<Row>, r: Row)
    requires Tracks(a, Select(rs, Named(a.name))) && r.name == a.name
    ensures Tracks(Add(a, r), Select(rs + [r], Named(a.name)))
  {
    SelectSnoc(rs, r, Named(a.name));
    AddTracks(a, Select(rs, Named(a.name)), r);
  }

  /** A row without a campaign name is dropped by the grouping. */
  lemma SkipUnnamed(accs: seq<Acc>, rs: seq<Row>, r: Row)
    requires Grouped(accs, rs) && r.name.Null?
    ensures Grouped(accs, rs + [r])
  {
    SelectSnoc(rs, r, NamedRows);
    assert Select(rs + [r], NamedRows) == Select(rs, NamedRows);
    forall k | 0 <= k < |accs| ensures Tracks(accs[k], Select(rs + [r], Named(accs[k].name))) {
      TrackOther(accs[k], rs, r);
    }
    assert forall x :: x in rs + [r] && !x.name.Null? ==> x in rs;
  }

  lemma JoinTracks(accs: seq<Acc>, rs: seq<Row>, r: Row, k: nat)
    requires AllTrack(accs, rs) && DistinctNames(accs)
    requires k < |accs| && accs[k].name == r.name
    ensures AllTrack(accs[k := Add(accs[k], r)], rs + [r])
  {
    var accs' := accs[k := Add(accs[k], r)];
    forall j | 0 <= j < |accs'|
      ensures Tracks(accs'[j], Select(rs + [r], Named(accs'[j].name)))
    {
      if j == k {
        TrackJoin(accs[k], rs, r);
      } else {
        TrackOther(accs[j], rs, r);
      }
    }
  }

  lemma JoinTotals(accs: seq<Acc>, rs: seq<Row>, r: Row, k: nat)
    requires TotalsMatch(accs, rs) && k < |accs| && !r.name.Null?
    ensures TotalsMatch(accs[k := Add(accs[k], r)], rs + [r])
  {
    SelectSnoc(rs, r, NamedRows);
    AccTotalUpdate(accs, k, Add(accs[k], r), Spend);
    AccTotalUpdate(accs, k, Add(accs[k], r), Revenue);
  }

  lemma JoinCovers(accs: seq<Acc>, rs: seq<Row>, r: Row, k: nat)
    requires Covers(accs, rs) && k < |accs| && accs[k].name == r.name
    ensures Covers(accs[k := Add(accs[k], r)], rs + [r])
  {
    var accs' := accs[k := Add(accs[k], r)];
    forall x | x in rs + [r] && !x.name.Null? ensures Seen(accs', x.name) {
      if x in rs {
        var j :| 0 <= j < |accs| && accs[j].name == x.name;
        assert accs'[j].name == x.name;
      } else {
        assert accs'[k].name == x.name;
      }
    }
  }

  /** A row of a campaign already seen joins its accumulator. */
  lemma JoinGroup(accs: seq<Acc>, rs: seq<Row>, r: Row, k: nat)
    requires Grouped(accs, rs) && k < |accs| && accs[k].name == r.name
    ensures Grouped(accs[k := Add(accs[k], r)], rs + [r])
  {
    JoinTracks(accs, rs, r, k);
    JoinTotals(accs, rs, r, k);
    JoinCovers(accs, rs, r, k);
    var accs' := accs[k := Add(accs[k], r)];
    assert forall j :: 0 <= j < |accs| ==> accs'[j].name == accs[j].name;
  }

  /** No row of a campaign not yet seen has been read. */
  lemma UnseenHasNoRows(accs: seq<Acc>, rs: seq<Row>, n: Cell)
    requires Covers(accs, rs) && !n.Null? && !Seen(accs, n)
    ensures Select(rs, Named(n)) == []
  {
    SelectMembers(rs, Named(n));
    var m := Select(rs, Named(n));
    assert m == [] || (m[0] in rs && m[0].name == n);
  }

  lemma OpenTracks(accs: seq<Acc>, rs: seq<Row>, r: Row)
    requires AllTrack(accs, rs) && Covers(accs, rs)
    requires !r.name.Null? && !Seen(accs, r.name)
    ensures AllTrack(accs + [Start(r)], rs + [r])
  {
    var accs' := accs + [Start(r)];
    UnseenHasNoRows(accs, rs, r.name);
    SelectSnoc(rs, r, Named(r.name));
    forall j | 0 <= j < |accs'|
      ensures Tracks(accs'[j], Select(rs + [r], Named(accs'[j].name)))
    {
      if j == |accs| {
        StartTracks(r);
      } else {
        assert accs'[j] == accs[j];
        TrackOther(accs[j], rs, r);
      }
    }
  }

  lemma OpenTotals(accs: seq<Acc>, rs: seq<Row>, r: Row)
    requires TotalsMatch(accs, rs) && !r.name.Null?
    ensures TotalsMatch(accs + [Start(r)], rs + [r])
  {
    assert (accs + [Start(r)])[..|accs|] == accs;
    SelectSnoc(rs, r, NamedRows);
  }

  lemma OpenCovers(accs: seq<Acc>, rs: seq<Row>, r: Row)
    requires Covers(accs, rs)
    ensures Covers(accs + [Start(r)], rs + [r])
  {
    var accs' := accs + [Start(r)];
    forall x | x in rs + [r] && !x.name.Null? ensures Seen(accs', x.name) {
      if x in rs {
        var j :| 0 <= j < |accs| && accs[j].name == x.name;
        assert accs'[j].name == x.name;
      } else {
        assert accs'[|accs|].name == x.name;
      }
    }
  }

  /** The first row of a new campaign opens an accumulator for it. */
  lemma OpenGroup(accs: seq<Acc>, rs: seq<Row>, r: Row)
    requires Grouped(accs, rs) && !r.name.Null? && !Seen(accs, r.name)
    ensures Grouped(accs + [Start(r)], rs + [r])
  {
    OpenTracks(accs, rs, r);
    OpenTotals(accs, rs, r);
    OpenCovers(accs, rs, r);
  }

  /** The position of campaign `n` among the accumulators, or their count. */
  function Position(accs: seq<Acc>, n: Cell): (k: nat)
    ensures k <= |accs|
    ensures k < |accs| ==> accs[k].name == n
    ensures k == |accs| ==> !Seen(accs, n)
  {
    if accs == [] then 0
    else if accs[0].name == n then 0
    else
      assert forall j :: 0 < j < |accs| ==> accs[j] == accs[1..][j - 1];
      1 + Position(accs[1..], n)
  }

  function FinishAll(accs: seq<Acc>): seq<Campaign>
    requires forall k :: 0 <= k < |accs| ==> accs[k].count > 0
  {
    seq(|accs|, k requires 0 <= k < |accs| => Finish(accs[k]))
  }

  lemma {:induction false} FinishTotal(accs: seq<Acc>, g: Measure)
    requires forall k :: 0 <= k < |accs| ==> accs[k].count > 0
    requires g == Spend || g == Revenue
    ensures Total(FinishAll(accs), g) == AccTotal(accs, g)
  {
    if accs != [] {
      var front := accs[..|accs| - 1];
      FinishTotal(front, g);
      var cs := FinishAll(accs);
      assert cs[..|cs| - 1] == FinishAll(front);
    }
  }

  /** What the accumulators hold once every row is in. */
  lemma Finished(accs: seq<Acc>, rows: seq<Row>)
    requires Grouped(accs, rows)
    ensures forall k :: 0 <= k < |accs| ==> accs[k].count > 0
    ensures var groups := FinishAll(accs);
      && (forall i :: 0 <= i < |groups| ==>
            !groups[i].name.Null? && Summarizes(groups[i], Select(rows, Named(groups[i].name))))
      && (forall i, j :: 0 <= i < j < |groups| ==> groups[i].name != groups[j].name)
      && (forall r :: r in rows && !r.name.Null? ==> r.name in Names(groups))
      && Total(groups, Spend) == Sum(Select(rows, NamedRows), Spend)
      && Total(groups, Revenue) == Sum(Select(rows, NamedRows), Revenue)
  {
    assert forall k :: 0 <= k < |accs| ==> accs[k].count > 0;
    var groups := FinishAll(accs);
    forall i | 0 <= i < |groups|
      ensures !groups[i].name.Null? && Summarizes(groups[i], Select(rows, Named(groups[i].name)))
    {
      FinishSummarizes(accs[i], Select(rows, Named(accs[i].name)));
    }
    assert Total(groups, Spend) == Sum(Select(rows, NamedRows), Spend) by {
      FinishTotal(accs, Spend);
    }
    assert Total(groups, Revenue) == Sum(Select(rows, NamedRows), Revenue) by {
      FinishTotal(accs, Revenue);
    }
    forall r | r in rows && !r.name.Null? ensures r.name in Names(groups) {
      var k :| 0 <= k < |accs| && accs[k].name == r.name;
      assert Names(groups)[k] == r.name;
    }
  }

  lemma FinishSummarizes(a: Acc, m: seq<Row>)
    requires Tracks(a, m)
    ensures a.count > 0 && Summarizes(Finish(a), m)
  {
  }

  /** `groupby('Nome').agg(agg_rules)`: one campaign per distinct present
      name, each holding what `agg_rules` makes of that campaign's rows, in
      the order the names first appear. */
  method Aggregate(rows: seq<Row>) returns (groups: seq<Campaign>)
    ensures forall i :: 0 <= i < |groups| ==>
      !groups[i].name.Null? && Summarizes(groups[i], Select(rows, Named(groups[i].name)))
    ensures forall i, j :: 0 <= i < j < |groups| ==> groups[i].name != groups[j].name
    ensures forall r :: r in rows && !r.name.Null? ==> r.name in Names(groups)
    ensures Total(groups, Spend) == Sum(Select(rows, NamedRows), Spend)
    ensures Total(groups, Revenue) == Sum(Select(rows, NamedRows), Revenue)
  {
    var accs: seq<Acc> := [];
    for i := 0 to |rows|
      invariant Grouped(accs, rows[..i])
    {
      var r := rows[i];
      assert rows[..i + 1] == rows[..i] + [r];
      if r.name.Null? {
        SkipUnnamed(accs, rows[..i], r);
      } else {
        var k := Position(accs, r.name);
        if k < |accs| {
          JoinGroup(accs, rows[..i], r, k);
          accs := accs[k := Add(accs[k], r)];
        } else {
          OpenGroup(accs, rows[..i], r);
          accs := accs + [Start(r)];
        }
      }
    }
    assert rows[..|rows|] == rows;
    Finished(accs, rows);
    groups := FinishAll(accs);
  }
}
