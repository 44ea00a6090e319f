/** The per-campaign metrics (app.py:77-78) and the account overview
    (app.py:104-106): every division is guarded, and a zero or negative
    divisor gives 0. */
module Metrics {
  import opened Aggregation

  /** `ROAS_Real`: revenue per unit of spend. */
  function Roas(spend: real, revenue: real): (r: real)
    ensures spend > 0.0 ==> r * spend == revenue
    ensures spend <= 0.0 ==> r == 0.0
  {
    if spend > 0.0 then revenue / spend else 0.0
  }

  /** `ACOS_Real`: spend as a percentage of revenue. */
  function AcosReal(spend: real, revenue: real): (r: real)
    ensures revenue > 0.0 ==> r * revenue == spend * 100.0
    ensures revenue <= 0.0 ==> r == 0.0
  {
    if revenue > 0.0 then spend / revenue * 100.0 else 0.0
  }

  lemma RoasNonNegative(spend: real, revenue: real)
    requires revenue >= 0.0
    ensures Roas(spend, revenue) >= 0.0
  {
    if spend > 0.0 {
      assert Roas(spend, revenue) * spend == revenue;
    }
  }

  lemma AcosNonNegative(spend: real, revenue: real)
    requires spend >= 0.0
    ensures AcosReal(spend, revenue) >= 0.0
  {
    if revenue > 0.0 {
      assert AcosReal(spend, revenue) * revenue == spend * 100.0;
    }
  }

  /** When both spend and revenue are positive, ACOS is 100 over ROAS. */
  lemma AcosIsInverseRoas(spend: real, revenue: real)
    requires spend > 0.0 && revenue > 0.0
    ensures Roas(spend, revenue) * AcosReal(spend, revenue) == 100.0
  {
    var r, a := Roas(spend, revenue), AcosReal(spend, revenue);
    assert r == revenue / spend && a == spend / revenue * 100.0;
    assert (revenue / spend) * (spend / revenue) == 1.0;
  }

  /** The three figures of the overview cards. */
  datatype Overview = Overview(spend: real, revenue: real, roas: real)

  /** `total_inv`, `total_rev` and `roas_geral` over the grouped campaigns. */
  function AccountOverview(cs: seq<Campaign>): (o: Overview)
    ensures o.spend == Total(cs, Spend) && o.revenue == Total(cs, Revenue)
    ensures o.spend > 0.0 ==> o.roas * o.spend == o.revenue
    ensures o.spend <= 0.0 ==> o.roas == 0.0
  {
    var spend, revenue := Total(cs, Spend), Total(cs, Revenue);
    Overview(spend, revenue, Roas(spend, revenue))
  }

  lemma {:induction false} TotalNonNegative(cs: seq<Campaign>, g: Measure)
    requires g == Spend || g == Revenue
    requires forall i :: 0 <= i < |cs| ==> cs[i].spend >= 0.0 && cs[i].revenue >= 0.0
    ensures Total(cs, g) >= 0.0
  {
    if cs != [] {
      TotalNonNegative(cs[..|cs| - 1], g);
    }
  }

  /** With no negative spend or revenue, the three overview figures are not negative. */
  lemma OverviewNonNegative(cs: seq<Campaign>)
    requires forall i :: 0 <= i < |cs| ==> cs[i].spend >= 0.0 && cs[i].revenue >= 0.0
    ensures var o := AccountOverview(cs); o.spend >= 0.0 && o.revenue >= 0.0 && o.roas >= 0.0
  {
    TotalNonNegative(cs, Spend);
    TotalNonNegative(cs, Revenue);
    RoasNonNegative(Total(cs, Spend), Total(cs, Revenue));
  }

  /** Revenue rebuilt from each campaign's ROAS and spend. */
  function RevenueFromRoas(cs: seq<Campaign>): real {
    if cs == [] then 0.0
    else RevenueFromRoas(cs[..|cs| - 1]) + Roas(cs[|cs| - 1].spend, cs[|cs| - 1].revenue) * cs[|cs| - 1].spend
  }

  /** When every campaign spent something, its ROAS times its spend gives back its revenue. */
  lemma {:induction false} RevenueFromRoasIsRevenue(cs: seq<Campaign>)
    requires forall i :: 0 <= i < |cs| ==> cs[i].spend > 0.0
    ensures RevenueFromRoas(cs) == Total(cs, Revenue)
  {
    if cs != [] {
      RevenueFromRoasIsRevenue(cs[..|cs| - 1]);
    }
  }

  /** When every campaign spent something and has ROAS between `lo` and
      `hi`, the overall ROAS lies between them too: it is the
      spend-weighted mean of the campaigns' ROAS. */
  lemma OverallRoasBetween(cs: seq<Campaign>, lo: real, hi: real)
    requires cs != []
    requires forall i :: 0 <= i < |cs| ==> cs[i].spend > 0.0
    requires forall i :: 0 <= i < |cs| ==> lo <= Roas(cs[i].spend, cs[i].revenue) <= hi
    ensures lo <= AccountOverview(cs).roas <= hi
  {
    RevenueFromRoasIsRevenue(cs);
    WeightedBounds(cs, lo, hi);
    TotalSpendPositive(cs);
    var o := AccountOverview(cs);
    assert lo * o.spend <= o.roas * o.spend <= hi * o.spend;
    if o.roas < lo { Scale(o.roas, lo, o.spend); }
    if o.roas > hi { Scale(hi, o.roas, o.spend); }
  }

  lemma Scale(x: real, y: real, z: real)
    requires x < y && z > 0.0
    ensures x * z < y * z
  {
  }

  lemma {:induction false} TotalSpendPositive(cs: seq<Campaign>)
    requires cs != []
    requires forall i :: 0 <= i < |cs| ==> cs[i].spend > 0.0
    ensures Total(cs, Spend) > 0.0
  {
    if |cs| > 1 {
      TotalSpendPositive(cs[..|cs| - 1]);
    }
  }

  lemma {:induction false} WeightedBounds(cs: seq<Campaign>, lo: real, hi: real)
    requires forall i :: 0 <= i < |cs| ==> cs[i].spend > 0.0
    requires forall i :: 0 <= i < |cs| ==> lo <= Roas(cs[i].spend, cs[i].revenue) <= hi
    ensures lo * Total(cs, Spend) <= RevenueFromRoas(cs) <= hi * Total(cs, Spend)
  {
    if cs != [] {
      var front, c := cs[..|cs| - 1], cs[|cs| - 1];
      WeightedBounds(front, lo, hi);
      var t, w := Total(front, Spend), RevenueFromRoas(front);
      var r := Roas(c.spend, c.revenue);
      assert Total(cs, Spend) == t + c.spend;
      assert RevenueFromRoas(cs) == w + r * c.spend;
      StepBounds(lo, hi, t, w, r, c.spend);
    }
  }

  lemma StepBounds(lo: real, hi: real, t: real, w: real, r: real, s: real)
    requires lo * t <= w <= hi * t
    requires lo <= r <= hi && s > 0.0
    ensures lo * (t + s) <= w + r * s <= hi * (t + s)
  {
    Monotone(lo, r, s);
    Monotone(r, hi, s);
    Distribute(lo, t, s);
    Distribute(hi, t, s);
  }

  lemma Distribute(x: real, y: real, z: real)
    ensures x * (y + z) == x * y + x * z
  {
  }

  lemma Monotone(x: real, y: real, z: real)
    requires x <= y && z >= 0.0
    ensures x * z <= y * z
  {
  }
}
