# GoodRoad penalty scoring, modelled in Dafny

This project models the scoring core of the GoodRoad traffic-penalty tracker:

- the backend `PenaltyService`, which registers vehicles, records violations and builds a driver's full profile;
- the three data projections of the dashboard charts.

`PenaltyService` records violations with repeat-offence points and a 60/25/15 penalty split. It builds a plate's full profile from its violations and rewards. The profile holds active and expired points, the risk tier and the contributor tier, counters per month and per type, and the most recent records.

The chart projections are the violation timeline, the type distribution and the active-versus-expired doughnut.

Files:

- `wrappers.dfy` (module `Wrappers`): `Option` and `Result`.
- `rules.dfy` (module `Rules`): the rule table `VIOLATION_RULES`, the repeat-offence multiplier, points, the penalty split, and the risk and contributor ladders.
- `calendar.dfy` (module `Calendar`): timestamps, adding days, and the (year, month) key of a timestamp. It also holds a reference definition of the proleptic Gregorian calendar (`ValidDate`, `NextDay`, and `DaysFromCivil`, the day number counted from 1970-01-01), against which the key is proved.
- `tally.dfy` (module `Tally`): insertion-ordered dictionaries. These are Python dicts used as counters and JavaScript objects.
- `penalty_service.dfy` (module `PenaltyService`): the stored records, the aggregate functions with their lemmas, and the class `Service`. The drivers, violations and rewards collections are sequence fields of `Service`, and its methods update them.
- `string_order.dfy` (module `StringOrder`): the default string order of JavaScript's `sort` and an insertion sort that is proved sorted and a permutation.
- `charts.dfy` (module `Charts`): `TimelineData`, `DistributionData`, `ActiveExpiredData`.

Units. The multipliers 1.0, 1.25, 1.5 and 2.0 are exact in quarters. So points are counted in quarter points: a multiplier is 4, 5, 6 or 8. Money is counted in cents of LKR, so one quarter point costs 12500 cents. With these units the penalty split is exact integer arithmetic, and the three shares sum to the total exactly.

The backend computes the penalty split itself (`penalty_service.py`, lines 104-111). In the model's exact units the three shares sum to the total, and `PenaltySplit` proves it.

## Model

| member | source | states |
|---|---|---|
| `Rules.RuleFor` | backend/app/services/penalty/penalty_service.py:7-18 | a code has a rule exactly when it is one of the ten table keys; every rule is weight 5 / 180 days, 3 / 90 days or 2 / 60 days, with a non-empty label |
| `Rules.MultiplierQ` | backend/app/services/penalty/penalty_service.py:62-65 | the multiplier of the n-th same-type offence lies between 1.0 and 2.0; it is 1.25 for n=2 and 1.5 for n=3; it is 2.0 from n=5 on; it is 1.0 for a first offence and, as written, also for the fourth |
| `Rules.PointsQ` | backend/app/services/penalty/penalty_service.py:67 | points lie between the weight and twice the weight; a first offence scores exactly the weight |
| `Rules.PenaltySplit` | backend/app/services/penalty/penalty_service.py:104-111 | total = points × 500 LKR; government gets exactly 60%, the reward pool 25% and the system 15%; the three shares sum to the total; system ≤ reward ≤ government ≤ total |
| `Rules.RiskLevel` | backend/app/services/penalty/penalty_service.py:169-172 | both directions of each tier: Low iff active ≤ 10 points, Moderate iff 10 < active ≤ 20, High iff 20 < active ≤ 30, Critical iff active > 30 |
| `Rules.RiskMonotone` | backend/app/services/penalty/penalty_service.py:169-172 | more active points never give a lower risk tier |
| `Rules.ContributorLevel` | backend/app/services/penalty/penalty_service.py:175-178 | both directions of each tier: Bronze iff fewer than 5 rewards, Silver iff 5-14, Gold iff 15-29, Platinum iff 30 or more |
| `Rules.ContributorMonotone` | backend/app/services/penalty/penalty_service.py:175-178 | more rewards never give a lower contributor level |
| `Calendar.AddDays` | backend/app/services/penalty/penalty_service.py:68 | adding a positive number of days gives a strictly later timestamp |
| `Calendar.MonthOf` | backend/app/services/penalty/penalty_service.py:145 | the month key of any timestamp has a month between 1 and 12 |
| `Calendar.MonthOfCivil` | backend/app/services/penalty/penalty_service.py:145 | every second of a valid date y-m-d gets the month key (y, m), the year and month that `strftime("%Y-%m")` prints for it |
| `Calendar.CivilNextDay` | backend/app/services/penalty/penalty_service.py:145 | the day after a valid date is a valid date, and its day number is exactly one more, across month ends, February 29th and year ends |
| `Calendar.CivilEpoch` | backend/app/services/penalty/penalty_service.py:77 | 1970-01-01 is day number 0, the origin of the timestamps |
| `Tally.Lookup` | backend/app/services/penalty/penalty_service.py:146 | a key is missing from the dictionary exactly when it is not among its keys |
| `Tally.BumpKeys` | backend/app/services/penalty/penalty_service.py:146 | bumping a known key keeps the key order; a new key is appended at the end (insertion order) |
| `Tally.BumpGet` | backend/app/services/penalty/penalty_service.py:146 | a bump adds one to the bumped key's count and leaves every other count alone |
| `Tally.BumpTotal` | backend/app/services/penalty/penalty_service.py:146 | a bump adds exactly one to the sum of the counts |
| `Tally.BumpDistinct` | backend/app/services/penalty/penalty_service.py:146-147 | a bump keeps the keys distinct |
| `Tally.CountGet` | backend/app/services/penalty/penalty_service.py:142-147 | each key's count is the number of times it occurs in the counted sequence |
| `Tally.CountTotal` | backend/app/services/penalty/penalty_service.py:142-147 | the counts sum to the number of records counted |
| `Tally.CountKeys` | backend/app/services/penalty/penalty_service.py:142-147 | the counter's keys are distinct and are exactly the keys counted |
| `Tally.LookupAt` | frontend/src/charts/TypeDistributionChart.jsx:8-9 | in an object with distinct keys, the i-th key looks up the i-th value |
| `PenaltyService.FindDriver` | backend/app/services/penalty/penalty_service.py:45-47 | finds a stored driver with that plate; finds nothing exactly when no stored driver has that plate |
| `PenaltyService.ViolationsOf` | backend/app/services/penalty/penalty_service.py:129-130 | a record is in the plate's list exactly when it is stored and carries that plate |
| `PenaltyService.RewardsOf` | backend/app/services/penalty/penalty_service.py:133-134 | a reward is in the plate's list exactly when it is stored and carries that plate |
| `PenaltyService.RewardsOfAppend` | backend/app/services/penalty/penalty_service.py:133-134 | storing a reward appends it to its own plate's list and leaves other plates' lists unchanged |
| `PenaltyService.Recent` | backend/app/services/penalty/penalty_service.py:198-199 | the result is the last min(5, n) records, in stored order |
| `PenaltyService.ActiveExpiredPartition` | backend/app/services/penalty/penalty_service.py:149-152 | over any prefix of the plate's violations, active points + expired points = the sum of all their points |
| `PenaltyService.ActivePointsDecay` | backend/app/services/penalty/penalty_service.py:149-152 | at a later time, active points are no higher and expired points are no lower |
| `PenaltyService.RiskDecay` | backend/app/services/penalty/penalty_service.py:169-172 | with no new violations, the risk tier never rises as time passes |
| `PenaltyService.ViolationsOfAppend` | backend/app/services/penalty/penalty_service.py:129-130 | storing a record appends it to its own plate's list and leaves other plates' lists unchanged |
| `PenaltyService.SameTypeCountAppend` | backend/app/services/penalty/penalty_service.py:56-60 | storing a record adds one to the repeat count of its own plate and code, and to no other count |
| `PenaltyService.RecordedViolationIsActive` | backend/app/services/penalty/penalty_service.py:67-81 | an event that is still active at `now` raises its plate's active points by exactly its points and leaves expired points unchanged |
| `PenaltyService.TallyViolations` | backend/app/services/penalty/penalty_service.py:137-152 | the loop computes the active and expired sums, which add up to all the points; it computes the month and label counters, each summing to the number of violations |
| `PenaltyService.TallyRewards` | backend/app/services/penalty/penalty_service.py:155-167 | the loop computes the reward total (a missing amount counts as 0) and the month and type counters (a missing type counts as "Other"), each summing to the number of rewards |
| `PenaltyService.Service.RegisterVehicle` | backend/app/services/penalty/penalty_service.py:23-40 | an already-registered plate returns the error and leaves the drivers unchanged; otherwise exactly one driver is appended, at level Silver with 0 uploads; unique plates stay unique; the other collections are unchanged |
| `PenaltyService.Service.AddViolation` | backend/app/services/penalty/penalty_service.py:43-118 | an unregistered plate fails first and an unknown code fails second, storing nothing; otherwise exactly one event is appended, with the rule's label and weight, points = weight × multiplier of the (count+1)-th offence, expiry = now + the rule's days, and the event active at `now`; the same-type count grows by exactly 1; the split is made from the points; drivers and rewards are unchanged |
| `PenaltyService.Service.GetFullProfile` | backend/app/services/penalty/penalty_service.py:121-200 | None exactly for an unregistered plate; otherwise the profile holds the stored driver; active and expired points partition the plate's points; the risk tier comes from active points and the contributor tier from the reward count; the month and type counters sum to the number of violations; the reward counters sum to the number of rewards; the last five records are given in stored order |
| `StringOrder.LexLeTotal` | frontend/src/charts/TimelineChart.jsx:15 | any two strings are comparable |
| `StringOrder.LexLeTransitive` | frontend/src/charts/TimelineChart.jsx:15 | the string order is transitive |
| `StringOrder.LexLeAntisymmetric` | frontend/src/charts/TimelineChart.jsx:15 | two strings that sort no later than each other are equal |
| `StringOrder.Insert` | frontend/src/charts/TimelineChart.jsx:15 | inserting into a sorted sequence keeps it sorted and adds exactly the inserted string |
| `StringOrder.Sort` | frontend/src/charts/TimelineChart.jsx:15 | the result is sorted ascending and is a permutation of the input |
| `StringOrder.SortedUnique` | frontend/src/charts/TimelineChart.jsx:15 | distinct strings have only one sorted arrangement |
| `Charts.TimelineData` | frontend/src/charts/TimelineChart.jsx:15-20 | labels and values have equal, non-zero length; an absent or empty object gives ["No data"] / [0]; otherwise the labels are the keys sorted ascending and each value is the object's value under its label |
| `Charts.TimelineLabelsUnique` | frontend/src/charts/TimelineChart.jsx:15 | any ascending arrangement of exactly the object's keys is the label sequence |
| `Charts.DistributionData` | frontend/src/charts/TypeDistributionChart.jsx:8-12 | labels and values have equal, non-zero length; an absent or empty object gives ["No data"] / [0]; otherwise the labels are the keys in insertion order and each value is the object's value under its label |
| `Charts.DistributionSum` | frontend/src/charts/TypeDistributionChart.jsx:9 | for a non-empty object, the plotted values sum to the sum of the object's counts |
| `Charts.ActiveExpiredData` | frontend/src/charts/ActiveExpiredChart.jsx:8-16 | the labels are exactly "Active Points", "Expired Points"; there are always two values; an absent pair gives [0, 0]; each field independently defaults to 0 only when absent, and a present value (0 included) passes through |
| `Charts.TimelineExample` | frontend/src/charts/TimelineChart.jsx:15-16 | {"2024-01": 3, "2023-12": 2} plots as ["2023-12", "2024-01"] / [2, 3] |

## Left out

- The HTTP routes and their mapping of service errors to status 400 and 404 (`backend/app/api/routes/penalty_routes.py`, `backend/app/main.py`) are not part of this model. The service's error results (`AlreadyRegistered`, `NotRegistered`, `InvalidCode`, `None`) stand for them; the error message texts are not modelled.
- MongoDB I/O (`backend/app/database.py`) is not part of this model. The three collections are sequences in insertion order. Generated `_id` values and their string conversion are not modelled.
- The Groq LLM call (`backend/app/services/ai/ai_service.py`) is not part of this model. Its text is the `aiEmail` parameter of `AddViolation`, and it is stored in the event in one step rather than by a later update.
- `datetime.now()` is the `now` parameter. `add_violation` reads the clock twice (the expiry and the timestamp); the model uses one `now` for both.
- Python's `round(..., 2)` and float multiplication are not modelled. Points are exact quarter points and money exact cents, so the model's values are the exactly rounded ones. The rewards' `amount` is a `real` and its total is not rounded.
- The month key is the (year, month) pair. The `strftime("%Y-%m")` text formatting is not modelled.
- `Service.constructor` takes any initial collections. Rewards are written by code outside this repository, so no operation adds rewards.
- The backend's chart stub (`backend/app/services/charts/chart_service.py`) ignores its inputs, and is not modelled.
- The chart options, styling and Chart.js registration are not modelled. Neither are the React forms and dashboard, or `frontend/src/api/penaltyApi.js`.
- `Charts.TimelineData` orders strings by character code point. JavaScript compares UTF-16 code units, which differs only for characters outside the Basic Multilingual Plane.
- `Charts.TimelineData` and `Charts.DistributionData` take object keys in insertion order. JavaScript lists integer-like keys first, in ascending order; such keys are not modelled.
- `Charts.TimelineData` and `Charts.DistributionData` have numeric (integer) values; a non-numeric value in the object is not modelled.
- `Service.RegisterVehicle` and `Service.AddViolation` are atomic steps in the model. In the source, `register_vehicle` looks the plate up and then inserts (`penalty_service.py`, lines 24-38), and `add_violation` counts earlier offences and then inserts (lines 56-81). No unique index backs either pair. The route handlers are synchronous, so they run concurrently in a thread pool. Two concurrent requests can therefore register one plate twice, or give two violations the same repeat count. "Unique plates stay unique" holds only for calls made one after another.
- `Timestamp` counts whole seconds, while `datetime.now()` carries microseconds. So the `expiry_date > now` test (line 149) can decide differently from the model within the same second.
