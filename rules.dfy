/**
 * The scoring rules of the penalty service: the violation rule table, the
 * repeat-offence multiplier, the 60/25/15 penalty split, and the risk and
 * contributor tier ladders.
 *
 * Units are exact integers: multipliers and points are counted in quarter
 * points (the multipliers 1.0, 1.25, 1.5 and 2.0 are 4, 5, 6 and 8 quarters),
 * money in cents of LKR.
 */
module Rules {
  import opened Wrappers

  /** One row of the rule table: base weight in points, validity in days, display label. */
  datatype Rule = Rule(weight: nat, expiryDays: nat, labelText: string)

  /** The rule table, keyed by violation code. */
  const ViolationRules: map<string, Rule> := map[
    "RED_LIGHT"       := Rule(5, 180, "Red Light Violation"),
    "WHITE_LINE"      := Rule(3, 90, "Crossing White Line"),
    "WRONG_OVERTAKE"  := Rule(5, 180, "Wrong Side Overtake"),
    "PEDESTRIAN"      := Rule(5, 180, "Pedestrian Crossing"),
    "MOTO_OVERLOAD"   := Rule(3, 90, "Motorcycle Overload"),
    "NO_HELMET"       := Rule(5, 180, "No Helmet"),
    "3WHEEL_OVERLOAD" := Rule(3, 90, "Three-Wheel Overload"),
    "NO_SIGNAL"       := Rule(2, 60, "No Turn Signal"),
    "RAILWAY"         := Rule(5, 180, "Railway Violation"),
    "OBSTRUCTION"     := Rule(2, 60, "Traffic Obstruction")
  ]

  /** The severity classes of the table: every weight comes with a fixed validity. */
  predicate WellFormedRule(r: Rule) {
    (r.weight == 5 && r.expiryDays == 180) ||
    (r.weight == 3 && r.expiryDays == 90) ||
    (r.weight == 2 && r.expiryDays == 60)
  }

  /** Looks a violation code up in the rule table; unknown codes have no rule. */
  function RuleFor(code: string): (r: Option<Rule>)
    ensures r.Some? <==> code in ViolationRules.Keys
    ensures r.Some? ==> WellFormedRule(r.value) && |r.value.labelText| > 0
  {
    if code in ViolationRules then Some(ViolationRules[code]) else None
  }

  const QuartersPerPoint := 4

  /**
   * The repeat-offence multiplier, in quarters, for the n-th violation of one
   * type by one plate: 1.0 is the default, overridden to 1.25 for the second,
   * 1.5 for the third and 2.0 from the fifth on. The fourth keeps the default.
   */
  function MultiplierQ(n: nat): (m: nat)
    ensures QuartersPerPoint <= m <= 2 * QuartersPerPoint
    ensures n <= 1 || n == 4 ==> m == QuartersPerPoint
    ensures n >= 5 ==> m == 2 * QuartersPerPoint
    ensures 2 <= n <= 3 ==> m == QuartersPerPoint + n - 1
  {
    var m := 4;
    if n == 2 then 5
    else if n == 3 then 6
    else if n >= 5 then 8
    else m
  }

  /** Points of a violation in quarter points: weight times multiplier. */
  function PointsQ(weight: nat, n: nat): (p: nat)
    ensures QuartersPerPoint * weight <= p <= 2 * QuartersPerPoint * weight
    ensures n <= 1 ==> p == QuartersPerPoint * weight
  {
    var m := MultiplierQ(n);
    assert weight * 4 <= weight * m <= weight * 8 by {
      MulMonotone(weight, 4, m);
      MulMonotone(weight, m, 8);
    }
    weight * m
  }

  lemma MulMonotone(w: nat, a: nat, b: nat)
    requires a <= b
    ensures w * a <= w * b
  {
  }

  /** Base fine per point, in LKR. */
  const LkrPerPoint := 500
  const CentsPerLkr := 100

  /** A penalty and its allocation, all in cents. */
  datatype Split = Split(government: int, reward: int, system: int, total: int)

  /**
   * The penalty for a violation of `pointsQ` quarter points (500 LKR per point)
   * and its split: government 60%, reward pool 25%, system 15%.
   */
  function PenaltySplit(pointsQ: nat): (s: Split)
    ensures s.total * QuartersPerPoint == pointsQ * LkrPerPoint * CentsPerLkr
    ensures s.government * 100 == s.total * 60
    ensures s.reward * 100 == s.total * 25
    ensures s.system * 100 == s.total * 15
    ensures s.government + s.reward + s.system == s.total
    ensures 0 <= s.system <= s.reward <= s.government <= s.total
  {
    // points * 500 LKR, with points = pointsQ / 4, in cents
    var total := pointsQ * (LkrPerPoint * CentsPerLkr / QuartersPerPoint);
    Split(total * 60 / 100, total * 25 / 100, total * 15 / 100, total)
  }

  /** Risk tiers, from the plate's active points. */
  datatype Risk = Low | Moderate | High | Critical

  /** Position of a tier in the ladder, for comparisons. */
  function RiskRank(r: Risk): nat {
    match r
    case Low => 0
    case Moderate => 1
    case High => 2
    case Critical => 3
  }

  /**
   * Risk from active points (in quarters): Low, overridden by Moderate above 10
   * points, by High above 20 and by Critical above 30.
   */
  function RiskLevel(activeQ: nat): (r: Risk)
    ensures r == Low <==> activeQ <= 10 * QuartersPerPoint
    ensures r == Moderate <==> 10 * QuartersPerPoint < activeQ <= 20 * QuartersPerPoint
    ensures r == High <==> 20 * QuartersPerPoint < activeQ <= 30 * QuartersPerPoint
    ensures r == Critical <==> 30 * QuartersPerPoint < activeQ
  {
    var r0 := Low;
    var r1 := if activeQ > 40 then Moderate else r0;
    var r2 := if activeQ > 80 then High else r1;
    if activeQ > 120 then Critical else r2
  }

  /** More active points never mean a lower risk tier. */
  lemma RiskMonotone(a: nat, b: nat)
    requires a <= b
    ensures RiskRank(RiskLevel(a)) <= RiskRank(RiskLevel(b))
  {
  }

  /** Contributor tiers, from the number of rewards (dash-cam submissions). */
  datatype Contributor = Bronze | Silver | Gold | Platinum

  function ContributorRank(c: Contributor): nat {
    match c
    case Bronze => 0
    case Silver => 1
    case Gold => 2
    case Platinum => 3
  }

  /**
   * Contributor level from the reward count: Bronze, overridden by Silver from
   * 5 rewards, by Gold from 15 and by Platinum from 30.
   */
  function ContributorLevel(rewards: nat): (c: Contributor)
    ensures c == Bronze <==> rewards < 5
    ensures c == Silver <==> 5 <= rewards < 15
    ensures c == Gold <==> 15 <= rewards < 30
    ensures c == Platinum <==> 30 <= rewards
  {
    var c0 := Bronze;
    var c1 := if rewards >= 5 then Silver else c0;
    var c2 := if rewards >= 15 then Gold else c1;
    if rewards >= 30 then Platinum else c2
  }

  /** More rewards never mean a lower contributor level. */
  lemma ContributorMonotone(a: nat, b: nat)
    requires a <= b
    ensures ContributorRank(ContributorLevel(a)) <= ContributorRank(ContributorLevel(b))
  {
  }
}
