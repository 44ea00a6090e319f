/** `get_recommendation` (app.py:81-99): an ordered cascade of four rules
    over one grouped campaign; the first rule that applies gives the
    action, and a campaign no rule applies to is kept as it is. */
module Recommendation {
  import opened Cells
  import opened Text
  import opened Aggregation
  import opened Metrics

  datatype Action = Inactive | RaiseBudget | RaiseTarget | Reduce | Keep

  /** The text of the `Ação Recomendada` column. */
  function Label(a: Action): string {
    match a
    case Inactive => "\U{26AA} Inativa"
    case RaiseBudget => "\U{1F7E2} AUMENTAR ORÇAMENTO"
    case RaiseTarget => "\U{1F7E1} SUBIR ACOS ALVO"
    case Reduce => "\U{1F534} REDUZIR META / PAUSAR"
    case Keep => "\U{1F535} MANTER"
  }

  /** Different actions are shown with different labels. */
  lemma LabelInjective(a: Action, b: Action)
    requires Label(a) == Label(b)
    ensures a == b
  {
    assert Label(a)[0] == Label(b)[0];
  }

  const LossBudgetLimit := 20.0
  const RoasLimit := 7.0
  const LossRankLimit := 40.0
  const AcosMargin := 5.0
  const SpendLimit := 50.0
  const DefaultTarget := 15.0

  /** The status text, lower-cased, contains "ativa". A missing status
      prints as "nan" and a number prints as digits, so only text can. */
  predicate MarkedActive(status: Cell) {
    status.Str? && Contains(Lower(status.s), "ativa")
  }

  /** The ACOS target the campaign is held to: its own when positive, else 15. */
  function Target(c: Campaign): (t: real)
    ensures t > 0.0
    ensures c.target > 0.0 ==> t == c.target
    ensures c.target <= 0.0 ==> t == 15.0
  {
    if c.target > 0.0 then c.target else DefaultTarget
  }

  /** The conditions of the four rules, in the order they are tried. */
  datatype Rule = Idle | BudgetBound | RankBound | OverTarget

  predicate Applies(rule: Rule, c: Campaign) {
    var roas := Roas(c.spend, c.revenue);
    match rule
    case Idle => !MarkedActive(c.status) && c.spend == 0.0
    case BudgetBound => c.lossBudget > LossBudgetLimit && roas > RoasLimit
    case RankBound => c.lossRank > LossRankLimit && roas > RoasLimit
    case OverTarget => AcosReal(c.spend, c.revenue) > Target(c) + AcosMargin && c.spend > SpendLimit
  }

  function Outcome(rule: Rule): Action {
    match rule
    case Idle => Inactive
    case BudgetBound => RaiseBudget
    case RankBound => RaiseTarget
    case OverTarget => Reduce
  }

  const Rules: seq<Rule> := [Idle, BudgetBound, RankBound, OverTarget]

  /** The reference reading of a rule list: the outcome of the first rule
      that applies, or `Keep`. */
  function FirstMatch(rules: seq<Rule>, c: Campaign): Action {
    if rules == [] then Keep
    else if Applies(rules[0], c) then Outcome(rules[0])
    else FirstMatch(rules[1..], c)
  }

  /** `get_recommendation` as the page writes it: the if-cascade is the
      rule table read first-match-wins. */
  function Recommend(c: Campaign): (a: Action)
    ensures a == FirstMatch(Rules, c)
  {
    var roas, acos := Roas(c.spend, c.revenue), AcosReal(c.spend, c.revenue);
    assert Rules[1..] == [BudgetBound, RankBound, OverTarget];
    assert Rules[1..][1..] == [RankBound, OverTarget];
    assert Rules[1..][1..][1..] == [OverTarget];
    assert FirstMatch([OverTarget], c) == if Applies(OverTarget, c) then Reduce else Keep;
    assert FirstMatch([RankBound, OverTarget], c)
      == if Applies(RankBound, c) then RaiseTarget else FirstMatch([OverTarget], c);
    assert FirstMatch([BudgetBound, RankBound, OverTarget], c)
      == if Applies(BudgetBound, c) then RaiseBudget else FirstMatch([RankBound, OverTarget], c);
    if !MarkedActive(c.status) && c.spend == 0.0 then Inactive
    else if c.lossBudget > LossBudgetLimit && roas > RoasLimit then RaiseBudget
    else if c.lossRank > LossRankLimit && roas > RoasLimit then RaiseTarget
    else if acos > Target(c) + AcosMargin && c.spend > SpendLimit then Reduce
    else Keep
  }

  /** The reference answer is `Keep` or the outcome of a rule that applies. */
  lemma {:induction false} FirstMatchFrom(rules: seq<Rule>, c: Campaign)
    ensures FirstMatch(rules, c) == Keep ||
      exists j :: 0 <= j < |rules| && Applies(rules[j], c) && FirstMatch(rules, c) == Outcome(rules[j])
  {
    if rules != [] && !Applies(rules[0], c) {
      FirstMatchFrom(rules[1..], c);
      if FirstMatch(rules, c) != Keep {
        var j :| 0 <= j < |rules| - 1 && Applies(rules[1..][j], c) && FirstMatch(rules, c) == Outcome(rules[1..][j]);
        assert rules[1..][j] == rules[j + 1];
      }
    }
  }

  /** The action is the outcome of a rule exactly when that rule applies and
      no earlier one does. */
  lemma {:induction false} FirstMatchWins(rules: seq<Rule>, c: Campaign, i: nat)
    requires i < |rules|
    requires forall j, k :: 0 <= j < k < |rules| ==> Outcome(rules[j]) != Outcome(rules[k])
    ensures FirstMatch(rules, c) == Outcome(rules[i]) <==>
      Applies(rules[i], c) && forall j :: 0 <= j < i ==> !Applies(rules[j], c)
  {
    if i == 0 {
      if !Applies(rules[0], c) {
        FirstMatchFrom(rules[1..], c);
        if FirstMatch(rules, c) != Keep {
          var j :| 0 <= j < |rules| - 1 && FirstMatch(rules, c) == Outcome(rules[1..][j]);
          assert rules[1..][j] == rules[j + 1];
        }
      }
    } else {
      if !Applies(rules[0], c) {
        FirstMatchWins(rules[1..], c, i - 1);
        assert forall j :: 0 < j <= i ==> rules[1..][j - 1] == rules[j];
      } else {
        assert Outcome(rules[0]) != Outcome(rules[i]);
      }
    }
  }

  /** The reference answer is `Keep` exactly when no rule applies. */
  lemma {:induction false} FirstMatchKeeps(rules: seq<Rule>, c: Campaign)
    ensures FirstMatch(rules, c) == Keep <==> forall j :: 0 <= j < |rules| ==> !Applies(rules[j], c)
  {
    if rules != [] {
      FirstMatchKeeps(rules[1..], c);
      assert forall j :: 0 < j < |rules| ==> rules[1..][j - 1] == rules[j];
      assert Outcome(rules[0]) != Keep;
    }
  }

  /** "Inativa" exactly when the status lacks the marker and nothing was spent. */
  lemma InactiveExactly(c: Campaign)
    ensures Recommend(c) == Inactive <==> !MarkedActive(c.status) && c.spend == 0.0
  {
  }

  /** Budget-bound scaling wins over every later rule, the ranking rule included. */
  lemma RaiseBudgetExactly(c: Campaign)
    ensures Recommend(c) == RaiseBudget <==>
      !Applies(Idle, c) && c.lossBudget > LossBudgetLimit && Roas(c.spend, c.revenue) > RoasLimit
  {
    FirstMatchWins(Rules, c, 1);
  }

  lemma RaiseTargetExactly(c: Campaign)
    ensures Recommend(c) == RaiseTarget <==>
      !Applies(Idle, c) && !Applies(BudgetBound, c) && c.lossRank > LossRankLimit && Roas(c.spend, c.revenue) > RoasLimit
  {
    FirstMatchWins(Rules, c, 2);
  }

  lemma ReduceExactly(c: Campaign)
    ensures Recommend(c) == Reduce <==>
      && !Applies(Idle, c) && !Applies(BudgetBound, c) && !Applies(RankBound, c)
      && AcosReal(c.spend, c.revenue) > Target(c) + AcosMargin && c.spend > SpendLimit
  {
    FirstMatchWins(Rules, c, 3);
  }

  lemma KeepExactly(c: Campaign)
    ensures Recommend(c) == Keep <==> forall r: Rule :: !Applies(r, c)
  {
    FirstMatchKeeps(Rules, c);
    forall r: Rule ensures r in Rules {
      match r
      case Idle => assert Rules[0] == r;
      case BudgetBound => assert Rules[1] == r;
      case RankBound => assert Rules[2] == r;
      case OverTarget => assert Rules[3] == r;
    }
  }

  /** "Inativa" itself contains "ativa": a campaign whose status is
      "Inativa" is never given the inactive label, whatever it spent. */
  lemma InativaStatusNotIdle(c: Campaign)
    requires c.status == Str("Inativa")
    ensures Recommend(c) != Inactive
  {
    var s := "Inativa";
    LowerKeepsSmall(s[1..]);
    assert Lower(s) == [LowerChar(s[0])] + s[1..];
    assert Lower(s)[1..] == "nativa" && Lower(s)[1..][1..] == "ativa";
  }

  /** A campaign that spent nothing is either idle or kept. */
  lemma NoSpendNoMove(c: Campaign)
    requires c.spend == 0.0
    ensures Recommend(c) == Inactive || Recommend(c) == Keep
  {
  }

  /** Both scaling actions need revenue above seven times a positive spend. */
  lemma ScalingNeedsReturn(c: Campaign)
    requires Recommend(c) == RaiseBudget || Recommend(c) == RaiseTarget
    ensures c.spend > 0.0 && c.revenue > RoasLimit * c.spend
  {
    var r := Roas(c.spend, c.revenue);
    assert r > RoasLimit && c.spend > 0.0;
    Scale(RoasLimit, r, c.spend);
  }

  /** Reducing needs spend above 50 and spend above (target + 5)% of a positive revenue. */
  lemma ReduceNeedsOverspend(c: Campaign)
    requires Recommend(c) == Reduce
    ensures c.spend > SpendLimit && c.revenue > 0.0
    ensures c.spend * 100.0 > (Target(c) + AcosMargin) * c.revenue
  {
    var a := AcosReal(c.spend, c.revenue);
    assert a > Target(c) + AcosMargin > 0.0;
    assert c.revenue > 0.0;
    Scale(Target(c) + AcosMargin, a, c.revenue);
  }

  /** A status without the letter v, in either case, cannot contain "ativa". */
  lemma WithoutVNotActive(t: string)
    requires 'v' !in t && 'V' !in t
    ensures !MarkedActive(Str(t))
  {
    LowerPointwise(t);
    assert 'v' !in Lower(t);
    ContainsNeedsChar(Lower(t), "ativa", 'v');
  }

  /** A paused campaign that spent nothing is labelled inactive. */
  lemma ExamplePaused(c: Campaign)
    requires c.status == Str("Pausada") && c.spend == 0.0
    ensures Recommend(c) == Inactive
  {
    WithoutVNotActive("Pausada");
    InactiveExactly(c);
  }

  /** ROAS 8 with a quarter of the impressions lost to budget: raise the
      budget, although the ranking rule holds as well. */
  lemma ExampleScale(c: Campaign)
    requires c.spend == 100.0 && c.revenue == 800.0 && c.lossBudget == 25.0 && c.lossRank == 50.0
    ensures Recommend(c) == RaiseBudget && Applies(RankBound, c)
  {
  }

  /** ACOS 25 against a target of 15 on a spend of 60: reduce. */
  lemma ExampleReduce(c: Campaign)
    requires c.spend == 60.0 && c.revenue == 240.0 && c.target == 15.0
    ensures Recommend(c) == Reduce
  {
    assert AcosReal(c.spend, c.revenue) == 25.0;
  }
}
