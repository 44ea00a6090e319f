/** The action-plan table (app.py:118-124): the grouped campaigns whose
    label the user picked, highest ROAS first. */
module View {
  import opened Aggregation
  import opened Metrics
  import opened Recommendation

  /** A row of `df_grouped` once `ROAS_Real`, `ACOS_Real` and
      `Ação Recomendada` are added (app.py:77-78, 101). */
  datatype Line = Line(campaign: Campaign, roas: real, acos: real, action: Action)

  /** The columns the page adds to one campaign: ROAS gives back revenue
      from spend, ACOS gives back spend from revenue, and the action is the
      first rule of the table that applies. */
  function Score(c: Campaign): (l: Line)
    ensures l.campaign == c && l.action == FirstMatch(Rules, c)
    ensures c.spend > 0.0 ==> l.roas * c.spend == c.revenue
    ensures c.spend <= 0.0 ==> l.roas == 0.0
    ensures c.revenue > 0.0 ==> l.acos * c.revenue == c.spend * 100.0
    ensures c.revenue <= 0.0 ==> l.acos == 0.0
  {
    Line(c, Roas(c.spend, c.revenue), AcosReal(c.spend, c.revenue), Recommend(c))
  }

  /** The labels the filter offers; "Inativa" is not among them. */
  const MenuOptions: seq<string> := [Label(RaiseBudget), Label(RaiseTarget), Label(Keep), Label(Reduce)]

  /** The labels selected when the page opens. */
  const DefaultSelection: seq<string> := [Label(RaiseBudget), Label(RaiseTarget), Label(Reduce)]

  /** The lines whose label is selected, in their order. */
  function Chosen(lines: seq<Line>, selected: set<string>): seq<Line> {
    if lines == [] then []
    else
      var last := lines[|lines| - 1];
      Chosen(lines[..|lines| - 1], selected) + if Label(last.action) in selected then [last] else []
  }

  /** A line is chosen exactly when it is one of the lines and its label is selected. */
  lemma {:induction false} ChosenMembers(lines: seq<Line>, selected: set<string>)
    ensures forall x :: x in Chosen(lines, selected) <==> x in lines && Label(x.action) in selected
  {
    if lines != [] {
      ChosenMembers(lines[..|lines| - 1], selected);
      assert lines == lines[..|lines| - 1] + [lines[|lines| - 1]];
    }
  }

  ghost predicate ByRoasDesc(s: seq<Line>) {
    forall i, j :: 0 <= i < j < |s| ==> s[i].roas >= s[j].roas
  }

  /** Places `x` after the lines whose ROAS is at least its own. */
  function InsertDesc(s: seq<Line>, x: Line): (r: seq<Line>)
    ensures multiset(r) == multiset(s) + multiset{x}
  {
    if s == [] || s[|s| - 1].roas >= x.roas then
      s + [x]
    else
      var front := s[..|s| - 1];
      assert s == front + [s[|s| - 1]];
      InsertDesc(front, x) + [s[|s| - 1]]
  }

  lemma {:induction false} InsertDescSorted(s: seq<Line>, x: Line)
    requires ByRoasDesc(s)
    ensures ByRoasDesc(InsertDesc(s, x))
  {
    if s != [] && s[|s| - 1].roas < x.roas {
      var front, last := s[..|s| - 1], s[|s| - 1];
      InsertDescSorted(front, x);
      var t := InsertDesc(front, x);
      forall i | 0 <= i < |t| ensures t[i].roas >= last.roas {
        assert t[i] in multiset(front) + multiset{x};
        if t[i] != x {
          var j :| 0 <= j < |front| && front[j] == t[i];
          assert s[j] == front[j];
        }
      }
    }
  }

  /** `df_grouped[df_grouped['Ação Recomendada'].isin(filtro)]` followed by
      `sort_values(by='ROAS_Real', ascending=False)`: exactly the chosen
      lines, by non-increasing ROAS. The library sort is not stable, so the
      order among equal ROAS is not promised. */
  method ShowTable(lines: seq<Line>, selected: set<string>) returns (table: seq<Line>)
    ensures multiset(table) == multiset(Chosen(lines, selected))
    ensures ByRoasDesc(table)
  {
    var shown: seq<Line> := [];
    for i := 0 to |lines|
      invariant shown == Chosen(lines[..i], selected)
    {
      assert lines[..i + 1][..i] == lines[..i];
      if Label(lines[i].action) in selected {
        shown := shown + [lines[i]];
      }
    }
    assert lines[..|lines|] == lines;
    table := [];
    for i := 0 to |shown|
      invariant multiset(table) == multiset(shown[..i])
      invariant ByRoasDesc(table)
    {
      InsertDescSorted(table, shown[i]);
      assert shown[..i + 1] == shown[..i] + [shown[i]];
      table := InsertDesc(table, shown[i]);
    }
    assert shown[..|shown|] == shown;
  }

  /** A line is in the table exactly when it is a line with a selected label. */
  lemma TableMembers(lines: seq<Line>, selected: set<string>, table: seq<Line>)
    requires multiset(table) == multiset(Chosen(lines, selected))
    ensures forall x :: x in table <==> x in lines && Label(x.action) in selected
  {
    ChosenMembers(lines, selected);
    forall x ensures x in table <==> x in Chosen(lines, selected) {
      assert x in table <==> x in multiset(table);
    }
  }

  /** Whatever the user picks from the menu, inactive campaigns are never shown. */
  lemma MenuHidesInactive(lines: seq<Line>, selected: set<string>, table: seq<Line>)
    requires forall l :: l in selected ==> l in MenuOptions
    requires multiset(table) == multiset(Chosen(lines, selected))
    ensures forall x :: x in table ==> x.action != Inactive
  {
    TableMembers(lines, selected, table);
    forall x | x in table ensures x.action != Inactive {
      var i :| 0 <= i < |MenuOptions| && MenuOptions[i] == Label(x.action);
      assert MenuOptions[i] == Label([RaiseBudget, RaiseTarget, Keep, Reduce][i]);
      LabelInjective(x.action, [RaiseBudget, RaiseTarget, Keep, Reduce][i]);
    }
  }

  /** With the default selection the table shows the campaigns to act on:
      every line whose action is to scale or to reduce, and no other. */
  lemma DefaultShowsActions(lines: seq<Line>, table: seq<Line>)
    requires multiset(table) == multiset(Chosen(lines, set l | l in DefaultSelection))
    ensures forall x :: x in table <==> x in lines && x.action in {RaiseBudget, RaiseTarget, Reduce}
  {
    var selected := set l | l in DefaultSelection;
    TableMembers(lines, selected, table);
    forall a: Action ensures Label(a) in selected <==> a in {RaiseBudget, RaiseTarget, Reduce} {
      if Label(a) in selected {
        var i :| 0 <= i < |DefaultSelection| && DefaultSelection[i] == Label(a);
        assert DefaultSelection[i] == Label([RaiseBudget, RaiseTarget, Reduce][i]);
        LabelInjective(a, [RaiseBudget, RaiseTarget, Reduce][i]);
      } else {
        assert Label(a) !in DefaultSelection;
      }
    }
  }
}
