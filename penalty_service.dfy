/**
 * The penalty service: vehicle registration, recording a violation with its
 * repeat-offence points and penalty split, and the full profile of a plate
 * (active and expired points, risk and contributor tiers, chart counters and
 * recent history).
 *
 * The three database collections (drivers, violations, rewards) are fields of
 * the `Service` object, each a sequence in insertion order. The clock and the
 * generated notification text are parameters.
 */
module PenaltyService {
  import opened Wrappers
  import opened Rules
  import opened Calendar
  import opened Tally

  datatype Driver = Driver(
    plateNo: string,
    name: string,
    email: Option<string>,
    vehicleType: string,
    registeredAt: Timestamp,
    contributorLevel: Contributor,
    uploadCount: nat)

  /** A stored violation; `pointsQ` and `multiplierQ` are in quarters. */
  datatype Violation = Violation(
    plateNo: string,
    code: string,
    labelText: string,
    weight: nat,
    multiplierQ: nat,
    pointsQ: nat,
    timestamp: Timestamp,
    expiryDate: Timestamp,
    generatedEmail: string)

  /** A stored reward (dash-cam submission); `amount` in LKR, both optional fields may be missing. */
  datatype Reward = Reward(
    plateNo: string,
    amount: Option<real>,
    timestamp: Timestamp,
    violationReported: Option<string>)

  datatype RegisterResult = AlreadyRegistered | Registered(driver: Driver)

  datatype AddError = NotRegistered(plate: string) | InvalidCode(code: string)

  /** What `add_violation` returns: the stored event, the driver's address and the split. */
  datatype Recorded = Recorded(event: Violation, driverEmail: string, split: Split)

  datatype Stats = Stats(
    activePointsQ: nat,
    expiredPointsQ: nat,
    risk: Risk,
    totalViolations: nat,
    totalRewards: real,
    totalContributions: nat,
    contributorLevel: Contributor)

  datatype FullProfile = FullProfile(
    profile: Driver,
    stats: Stats,
    penaltyTimeline: Dict<YearMonth, nat>,
    rewardTimeline: Dict<YearMonth, nat>,
    violationTypes: Dict<string, nat>,
    rewardTypes: Dict<string, nat>,
    pointsSplit: (nat, nat),
    recentViolations: seq<Violation>,
    recentRewards: seq<Reward>)

  const UnknownEmail := "unknown@email.com"
  const OtherRewardType := "Other"
  const RecentCount := 5

  // ---- Queries on the collections ----

  /** The first driver registered under `plate` (`find_one`). */
  function FindDriver(ds: seq<Driver>, plate: string): (r: Option<Driver>)
    ensures r.Some? ==> r.value in ds && r.value.plateNo == plate
    ensures r.None? <==> forall d :: d in ds ==> d.plateNo != plate
  {
    if ds == [] then None
    else if ds[0].plateNo == plate then Some(ds[0])
    else FindDriver(ds[1..], plate)
  }

  /** No two drivers share a plate. */
  predicate UniquePlates(ds: seq<Driver>) {
    forall i, j :: 0 <= i < j < |ds| ==> ds[i].plateNo != ds[j].plateNo
  }

  /** The stored violations of one plate, in stored order. */
  function ViolationsOf(vs: seq<Violation>, plate: string): (r: seq<Violation>)
    ensures forall v :: v in r <==> v in vs && v.plateNo == plate
  {
    if vs == [] then [] else
    var last := vs[|vs| - 1];
    ViolationsOf(vs[..|vs| - 1], plate) + (if last.plateNo == plate then [last] else [])
  }

  /** The stored rewards of one plate, in stored order. */
  function RewardsOf(rs: seq<Reward>, plate: string): (r: seq<Reward>)
    ensures forall w :: w in r <==> w in rs && w.plateNo == plate
  {
    if rs == [] then [] else
    var last := rs[|rs| - 1];
    RewardsOf(rs[..|rs| - 1], plate) + (if last.plateNo == plate then [last] else [])
  }

  /** Number of stored violations with this plate and this code (`count_documents`). */
  function SameTypeCount(vs: seq<Violation>, plate: string, code: string): nat {
    if vs == [] then 0 else
    var last := vs[|vs| - 1];
    SameTypeCount(vs[..|vs| - 1], plate, code) + (if last.plateNo == plate && last.code == code then 1 else 0)
  }

  // ---- The profile aggregates, as functions of the plate's records ----

  /** A violation still counts against the driver while its expiry lies strictly in the future. */
  predicate IsActive(v: Violation, now: Timestamp) {
    v.expiryDate > now
  }

  /** Points of the first `n` violations that are still active at `now`. */
  function ActiveFirst(vs: seq<Violation>, n: nat, now: Timestamp): nat
    requires n <= |vs|
  {
    if n == 0 then 0
    else ActiveFirst(vs, n - 1, now) + (if IsActive(vs[n - 1], now) then vs[n - 1].pointsQ else 0)
  }

  /** Points of the first `n` violations that have expired at `now`. */
  function ExpiredFirst(vs: seq<Violation>, n: nat, now: Timestamp): nat
    requires n <= |vs|
  {
    if n == 0 then 0
    else ExpiredFirst(vs, n - 1, now) + (if IsActive(vs[n - 1], now) then 0 else vs[n - 1].pointsQ)
  }

  function ActivePoints(vs: seq<Violation>, now: Timestamp): nat {
    ActiveFirst(vs, |vs|, now)
  }

  function ExpiredPoints(vs: seq<Violation>, now: Timestamp): nat {
    ExpiredFirst(vs, |vs|, now)
  }

  /** The points of all the violations. */
  function TotalPoints(vs: seq<Violation>): nat {
    if vs == [] then 0 else TotalPoints(vs[..|vs| - 1]) + vs[|vs| - 1].pointsQ
  }

  /** Sum of the amounts of the first `n` rewards, a missing amount counting as 0. */
  function RewardTotalFirst(rs: seq<Reward>, n: nat): real
    requires n <= |rs|
  {
    if n == 0 then 0.0 else RewardTotalFirst(rs, n - 1) + rs[n - 1].amount.GetOr(0.0)
  }

  function RewardTotal(rs: seq<Reward>): real {
    RewardTotalFirst(rs, |rs|)
  }

  /** The month key of each record, in order, reading a record's timestamp with `stamp`. */
  function MonthKeys<T>(s: seq<T>, stamp: T -> Timestamp): (ms: seq<YearMonth>)
    ensures |ms| == |s|
  {
    seq(|s|, i requires 0 <= i < |s| => MonthOf(stamp(s[i])))
  }

  /** The month key of each violation, in order. */
  function Months(vs: seq<Violation>): seq<YearMonth> {
    MonthKeys(vs, (v: Violation) => v.timestamp)
  }

  /** The label of each violation, in order. */
  function Labels(vs: seq<Violation>): (ls: seq<string>)
    ensures |ls| == |vs|
  {
    seq(|vs|, i requires 0 <= i < |vs| => vs[i].labelText)
  }

  /** The month key of each reward, in order. */
  function RewardMonths(rs: seq<Reward>): seq<YearMonth> {
    MonthKeys(rs, (w: Reward) => w.timestamp)
  }

  /** The reported type of each reward, "Other" when missing. */
  function RewardTypes(rs: seq<Reward>): (ts: seq<string>)
    ensures |ts| == |rs|
  {
    seq(|rs|, i requires 0 <= i < |rs| => rs[i].violationReported.GetOr(OtherRewardType))
  }

  /** `s[-5:]`: the last five elements, or all of them when there are fewer. */
  function Recent<T>(s: seq<T>): (r: seq<T>)
    ensures |r| == if |s| < RecentCount then |s| else RecentCount
    ensures r == s[|s| - |r|..]
  {
    if |s| <= RecentCount then s else s[|s| - RecentCount..]
  }

  // ---- Lemmas about the aggregates ----

  /** Every violation is either active or expired: the two totals partition all points. */
  lemma {:induction false} ActiveExpiredPartition(vs: seq<Violation>, n: nat, now: Timestamp)
    requires n <= |vs|
    ensures ActiveFirst(vs, n, now) + ExpiredFirst(vs, n, now) == TotalPoints(vs[..n])
  {
    if n > 0 {
      ActiveExpiredPartition(vs, n - 1, now);
      assert vs[..n][..n - 1] == vs[..n - 1];
    }
  }

  /** As the clock advances, active points can only fall (and expired points only rise). */
  lemma {:induction false} ActivePointsDecay(vs: seq<Violation>, n: nat, earlier: Timestamp, later: Timestamp)
    requires n <= |vs| && earlier <= later
    ensures ActiveFirst(vs, n, later) <= ActiveFirst(vs, n, earlier)
    ensures ExpiredFirst(vs, n, later) >= ExpiredFirst(vs, n, earlier)
  {
    if n > 0 {
      ActivePointsDecay(vs, n - 1, earlier, later);
    }
  }

  /** The sums over the first `n` violations do not depend on what follows them. */
  lemma {:induction false} FirstPrefix(vs: seq<Violation>, more: seq<Violation>, n: nat, now: Timestamp)
    requires n <= |vs|
    ensures ActiveFirst(vs + more, n, now) == ActiveFirst(vs, n, now)
    ensures ExpiredFirst(vs + more, n, now) == ExpiredFirst(vs, n, now)
  {
    if n > 0 {
      FirstPrefix(vs, more, n - 1, now);
    }
  }

  /** Hence, with no new violations, the risk tier never rises over time. */
  lemma RiskDecay(vs: seq<Violation>, earlier: Timestamp, later: Timestamp)
    requires earlier <= later
    ensures RiskRank(RiskLevel(ActivePoints(vs, later))) <= RiskRank(RiskLevel(ActivePoints(vs, earlier)))
  {
    ActivePointsDecay(vs, |vs|, earlier, later);
    RiskMonotone(ActivePoints(vs, later), ActivePoints(vs, earlier));
  }

  /** Appending a record of `plate` appends it to the plate's view; a record of another plate leaves the view alone. */
  lemma ViolationsOfAppend(vs: seq<Violation>, v: Violation, plate: string)
    ensures ViolationsOf(vs + [v], plate)
         == ViolationsOf(vs, plate) + (if v.plateNo == plate then [v] else [])
  {
    assert (vs + [v])[..|vs|] == vs;
  }

  /** Appending a reward of `plate` appends it to the plate's view; a reward of another plate leaves the view alone. */
  lemma RewardsOfAppend(rs: seq<Reward>, w: Reward, plate: string)
    ensures RewardsOf(rs + [w], plate)
         == RewardsOf(rs, plate) + (if w.plateNo == plate then [w] else [])
  {
    assert (rs + [w])[..|rs|] == rs;
  }

  /** Appending a record counts it in the same-type count of its own plate and code only. */
  lemma SameTypeCountAppend(vs: seq<Violation>, v: Violation, plate: string, code: string)
    ensures SameTypeCount(vs + [v], plate, code)
         == SameTypeCount(vs, plate, code) + (if v.plateNo == plate && v.code == code then 1 else 0)
  {
    assert (vs + [v])[..|vs|] == vs;
  }

  /**
   * A violation recorded at `now` is active at `now`: it raises its plate's
   * active points by exactly its points and leaves the expired points alone.
   */
  lemma RecordedViolationIsActive(vs: seq<Violation>, v: Violation, now: Timestamp)
    requires IsActive(v, now)
    ensures ActivePoints(ViolationsOf(vs + [v], v.plateNo), now)
         == ActivePoints(ViolationsOf(vs, v.plateNo), now) + v.pointsQ
    ensures ExpiredPoints(ViolationsOf(vs + [v], v.plateNo), now)
         == ExpiredPoints(ViolationsOf(vs, v.plateNo), now)
  {
    ViolationsOfAppend(vs, v, v.plateNo);
    var mine := ViolationsOf(vs, v.plateNo);
    FirstPrefix(mine, [v], |mine|, now);
  }

  // ---- The service ----

  class Service {
    var drivers: seq<Driver>
    var violations: seq<Violation>
    var rewards: seq<Reward>

    /** A service over existing collections. */
    constructor (ds: seq<Driver>, vs: seq<Violation>, rs: seq<Reward>)
      ensures drivers == ds && violations == vs && rewards == rs
    {
      drivers, violations, rewards := ds, vs, rs;
    }

    /**
     * Registers a vehicle unless its plate is already registered. A new driver
     * starts at contributor level Silver with no uploads.
     */
    method RegisterVehicle(plate: string, ownerName: string, ownerEmail: string,
                           vehicleType: string, now: Timestamp)
      returns (r: RegisterResult)
      modifies this
      ensures violations == old(violations) && rewards == old(rewards)
      ensures r.AlreadyRegistered? <==> FindDriver(old(drivers), plate).Some?
      ensures r.AlreadyRegistered? ==> drivers == old(drivers)
      ensures r.Registered? ==>
        && r.driver == Driver(plate, ownerName, Some(ownerEmail), vehicleType, now, Silver, 0)
        && drivers == old(drivers) + [r.driver]
      ensures old(UniquePlates(drivers)) ==> UniquePlates(drivers)
    {
      var existing := FindDriver(drivers, plate);
      if existing.Some? {
        return AlreadyRegistered;
      }
      var d := Driver(plate, ownerName, Some(ownerEmail), vehicleType, now, Silver, 0);
      drivers := drivers + [d];
      r := Registered(d);
    }

    /**
     * Records violation `code` against `plate` at time `now`. The plate must be
     * registered, and then the code must be in the rule table; otherwise nothing
     * is stored. The points are the rule's weight times the multiplier of this
     * occurrence; the record expires the rule's number of days after `now`;
     * `aiEmail` is the notification text generated for it.
     */
    method AddViolation(plate: string, code: string, now: Timestamp, aiEmail: string)
      returns (r: Result<Recorded, AddError>)
      modifies this
      ensures drivers == old(drivers) && rewards == old(rewards)
      ensures FindDriver(drivers, plate).None? ==> r == Failure(NotRegistered(plate))
      ensures FindDriver(drivers, plate).Some? && RuleFor(code).None? ==> r == Failure(InvalidCode(code))
      ensures r.Failure? ==> violations == old(violations)
      ensures r.Success? <==> FindDriver(drivers, plate).Some? && RuleFor(code).Some?
      ensures r.Success? ==>
        var rule := RuleFor(code).value;
        var n := SameTypeCount(old(violations), plate, code) + 1;
        var e := r.value.event;
        && violations == old(violations) + [e]
        && e.plateNo == plate && e.code == code
        && e.labelText == rule.labelText && e.weight == rule.weight
        && e.multiplierQ == MultiplierQ(n)
        && e.pointsQ == rule.weight * MultiplierQ(n) == PointsQ(rule.weight, n)
        && e.timestamp == now
        && e.expiryDate == AddDays(now, rule.expiryDays)
        && e.generatedEmail == aiEmail
        && IsActive(e, now)
        && r.value.driverEmail == FindDriver(drivers, plate).value.email.GetOr(UnknownEmail)
        && r.value.split == PenaltySplit(e.pointsQ)
      ensures r.Success? ==>
        SameTypeCount(violations, plate, code) == SameTypeCount(old(violations), plate, code) + 1
    {
      var driver := FindDriver(drivers, plate);
      if driver.None? {
        return Failure(NotRegistered(plate));
      }
      var rule := RuleFor(code);
      if rule.None? {
        return Failure(InvalidCode(code));
      }
      var count := SameTypeCount(violations, plate, code);
      count := count + 1;
      var multiplier := MultiplierQ(count);
      var points := rule.value.weight * multiplier;
      var expiry := AddDays(now, rule.value.expiryDays);
      var event := Violation(plate, code, rule.value.labelText, rule.value.weight,
                             multiplier, points, now, expiry, aiEmail);
      SameTypeCountAppend(violations, event, plate, code);
      violations := violations + [event];
      var driverEmail := driver.value.email.GetOr(UnknownEmail);
      r := Success(Recorded(event, driverEmail, PenaltySplit(points)));
    }

    /**
     * The full profile of `plate` at time `now`, or None when the plate is not
     * registered.
     */
    method GetFullProfile(plate: string, now: Timestamp) returns (r: Option<FullProfile>)
      ensures r.None? <==> FindDriver(drivers, plate).None?
      ensures r.Some? ==>
        var mine := ViolationsOf(violations, plate);
        var myRewards := RewardsOf(rewards, plate);
        var p := r.value;
        var s := p.stats;
        && p.profile == FindDriver(drivers, plate).value
        && s.activePointsQ == ActivePoints(mine, now)
        && s.expiredPointsQ == ExpiredPoints(mine, now)
        && s.activePointsQ + s.expiredPointsQ == TotalPoints(mine)
        && s.risk == RiskLevel(s.activePointsQ)
        && s.totalViolations == |mine|
        && s.totalRewards == RewardTotal(myRewards)
        && s.totalContributions == |myRewards|
        && s.contributorLevel == ContributorLevel(|myRewards|)
        && p.penaltyTimeline == Count(Months(mine))
        && p.violationTypes == Count(Labels(mine))
        && p.rewardTimeline == Count(RewardMonths(myRewards))
        && p.rewardTypes == Count(RewardTypes(myRewards))
        && Total(p.penaltyTimeline) == Total(p.violationTypes) == s.totalViolations
        && Total(p.rewardTimeline) == Total(p.rewardTypes) == s.totalContributions
        && p.pointsSplit == (s.activePointsQ, s.expiredPointsQ)
        && p.recentViolations == Recent(mine)
        && p.recentRewards == Recent(myRewards)
    {
      var driver := FindDriver(drivers, plate);
      if driver.None? {
        return None;
      }
      var mine := ViolationsOf(violations, plate);
      var myRewards := RewardsOf(rewards, plate);
      var active, expired, penaltyTimeline, typeCounts := TallyViolations(mine, now);
      var totalRewards, rewardTimeline, rewardTypeCounts := TallyRewards(myRewards);
      var stats := Stats(active, expired, RiskLevel(active), |mine|, totalRewards,
                         |myRewards|, ContributorLevel(|myRewards|));
      r := Some(FullProfile(driver.value, stats, penaltyTimeline, rewardTimeline,
                            typeCounts, rewardTypeCounts, (active, expired),
                            Recent(mine), Recent(myRewards)));
    }
  }

  /**
   * The loop of the profile over a plate's violations: splits the points into
   * active and expired, and counts the violations per month and per label.
   */
  method TallyViolations(mine: seq<Violation>, now: Timestamp)
    returns (active: nat, expired: nat, penaltyTimeline: Dict<YearMonth, nat>, typeCounts: Dict<string, nat>)
    ensures active == ActivePoints(mine, now)
    ensures expired == ExpiredPoints(mine, now)
    ensures active + expired == TotalPoints(mine)
    ensures penaltyTimeline == Count(Months(mine))
    ensures Total(penaltyTimeline) == |mine|
    ensures typeCounts == Count(Labels(mine))
    ensures Total(typeCounts) == |mine|
  {
    ghost var months, labels := Months(mine), Labels(mine);
    active, expired := 0, 0;
    penaltyTimeline, typeCounts := [], [];
    var i := 0;
    while i < |mine|
      invariant i <= |mine|
      invariant active == ActiveFirst(mine, i, now)
      invariant expired == ExpiredFirst(mine, i, now)
      invariant penaltyTimeline == CountFirst(months, i)
      invariant typeCounts == CountFirst(labels, i)
    {
      var v := mine[i];
      var month := MonthOf(v.timestamp);
      penaltyTimeline := Bump(penaltyTimeline, month);
      typeCounts := Bump(typeCounts, v.labelText);
      if v.expiryDate > now {
        active := active + v.pointsQ;
      } else {
        expired := expired + v.pointsQ;
      }
      i := i + 1;
    }
    assert mine[..i] == mine;
    ActiveExpiredPartition(mine, i, now);
    CountTotal(months, i);
    CountTotal(labels, i);
  }

  /**
   * The loop of the profile over a plate's rewards: sums the amounts and counts
   * the rewards per month and per reported type.
   */
  method TallyRewards(myRewards: seq<Reward>)
    returns (totalRewards: real, rewardTimeline: Dict<YearMonth, nat>, rewardTypeCounts: Dict<string, nat>)
    ensures totalRewards == RewardTotal(myRewards)
    ensures rewardTimeline == Count(RewardMonths(myRewards)) && Total(rewardTimeline) == |myRewards|
    ensures rewardTypeCounts == Count(RewardTypes(myRewards)) && Total(rewardTypeCounts) == |myRewards|
  {
    ghost var months, types := RewardMonths(myRewards), RewardTypes(myRewards);
    totalRewards := 0.0;
    rewardTimeline, rewardTypeCounts := [], [];
    var j := 0;
    while j < |myRewards|
      invariant j <= |myRewards|
      invariant totalRewards == RewardTotalFirst(myRewards, j)
      invariant rewardTimeline == CountFirst(months, j)
      invariant rewardTypeCounts == CountFirst(types, j)
    {
      var w := myRewards[j];
      totalRewards := totalRewards + w.amount.GetOr(0.0);
      var month := MonthOf(w.timestamp);
      rewardTimeline := Bump(rewardTimeline, month);
      rewardTypeCounts := Bump(rewardTypeCounts, w.violationReported.GetOr(OtherRewardType));
      j := j + 1;
    }
    CountTotal(months, j);
    CountTotal(types, j);
  }
}
