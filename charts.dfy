/**
 * The data projections of the three dashboard charts: from the aggregate a
 * chart receives (a month-to-count object, a type-to-count object, or an
 * active/expired pair) to the labels and values it plots. An absent or empty
 * aggregate becomes a single "No data" category with value 0.
 *
 * A JavaScript object is a dictionary with distinct string keys in insertion
 * order; an absent prop or field (null or undefined) is None.
 */
module Charts {
  import opened Wrappers
  import opened Tally
  import opened StringOrder

  type JsObject = Dict<string, int>

  datatype ChartData = ChartData(labels: seq<string>, values: seq<int>)

  const NoData := "No data"

  /** `obj[k]` for a key the object has. */
  function At(obj: JsObject, k: string): int
    requires k in Keys(obj)
  {
    Lookup(obj, k).value
  }

  /** `labels.map((k) => obj[k])`. */
  function ValuesAt(obj: JsObject, labels: seq<string>): (vs: seq<int>)
    requires forall k :: k in labels ==> k in Keys(obj)
    ensures |vs| == |labels|
  {
    seq(|labels|, i requires 0 <= i < |labels| => At(obj, labels[i]))
  }

  /** `labels.length ? labels : ["No data"]` and `values.length ? values : [0]`. */
  function WithPlaceholder(labels: seq<string>, values: seq<int>): ChartData {
    ChartData(if |labels| > 0 then labels else [NoData], if |values| > 0 then values else [0])
  }

  /**
   * The violation timeline: the object's keys (months, "YYYY-MM") in ascending
   * order, each with its count.
   */
  function TimelineData(timelineByMonth: Option<JsObject>): (r: ChartData)
    requires timelineByMonth.Some? ==> DistinctKeys(timelineByMonth.value)
    ensures |r.labels| == |r.values| >= 1
    ensures timelineByMonth.None? || timelineByMonth.value == [] ==> r == ChartData([NoData], [0])
    ensures timelineByMonth.Some? && timelineByMonth.value != [] ==>
      var obj := timelineByMonth.value;
      && Sorted(r.labels)
      && multiset(r.labels) == multiset(Keys(obj))
      && forall i :: 0 <= i < |r.labels| ==> Lookup(obj, r.labels[i]) == Some(r.values[i])
  {
    var obj := timelineByMonth.GetOr([]);
    var labels := Sort(Keys(obj));
    assert forall k :: k in labels ==> k in Keys(obj) by {
      forall k | k in labels ensures k in Keys(obj) {
        assert k in multiset(labels);
      }
    }
    WithPlaceholder(labels, ValuesAt(obj, labels))
  }

  /**
   * The timeline labels are the only sorted arrangement of the months: any
   * ascending sequence of exactly the object's keys is the label sequence.
   */
  lemma TimelineLabelsUnique(obj: JsObject, months: seq<string>)
    requires DistinctKeys(obj) && obj != []
    requires Sorted(months) && multiset(months) == multiset(Keys(obj))
    ensures TimelineData(Some(obj)).labels == months
  {
    SortedUnique(TimelineData(Some(obj)).labels, months);
  }

  /**
   * The type distribution: the object's keys in insertion order, each with its
   * count.
   */
  function DistributionData(distributionByType: Option<JsObject>): (r: ChartData)
    requires distributionByType.Some? ==> DistinctKeys(distributionByType.value)
    ensures |r.labels| == |r.values| >= 1
    ensures distributionByType.None? || distributionByType.value == [] ==> r == ChartData([NoData], [0])
    ensures distributionByType.Some? && distributionByType.value != [] ==>
      var obj := distributionByType.value;
      && r.labels == Keys(obj)
      && forall i :: 0 <= i < |r.labels| ==> Lookup(obj, r.labels[i]) == Some(r.values[i])
  {
    var obj := distributionByType.GetOr([]);
    var labels := Keys(obj);
    WithPlaceholder(labels, ValuesAt(obj, labels))
  }

  /** For a non-empty object, the plotted values add up to the object's counts. */
  lemma DistributionSum(obj: JsObject)
    requires DistinctKeys(obj) && obj != []
    ensures Sum(DistributionData(Some(obj)).values) == SumValues(obj)
  {
    var r := DistributionData(Some(obj));
    forall i | 0 <= i < |obj| ensures r.values[i] == obj[i].1 {
      LookupAt(obj, i);
    }
    SumPairwise(r.values, obj);
  }

  lemma {:induction false} SumPairwise(vs: seq<int>, obj: JsObject)
    requires |vs| == |obj|
    requires forall i :: 0 <= i < |obj| ==> vs[i] == obj[i].1
    ensures Sum(vs) == SumValues(obj)
  {
    if vs != [] {
      SumPairwise(vs[1..], obj[1..]);
    }
  }

  /** The active/expired pair as the chart receives it; each field may be absent. */
  datatype PointsPair = PointsPair(active: Option<real>, expired: Option<real>)

  datatype PointsData = PointsData(labels: seq<string>, values: seq<real>)

  /**
   * The active-versus-expired doughnut: two fixed slots, each defaulting to 0
   * when the pair or that field is absent.
   */
  function ActiveExpiredData(activeVsExpiredPoints: Option<PointsPair>): (r: PointsData)
    ensures r.labels == ["Active Points", "Expired Points"]
    ensures |r.values| == 2
    ensures activeVsExpiredPoints.None? ==> r.values == [0.0, 0.0]
    ensures activeVsExpiredPoints.Some? ==>
      var p := activeVsExpiredPoints.value;
      && r.values[0] == (if p.active.Some? then p.active.value else 0.0)
      && r.values[1] == (if p.expired.Some? then p.expired.value else 0.0)
  {
    var active := if activeVsExpiredPoints.Some? then activeVsExpiredPoints.value.active.GetOr(0.0) else 0.0;
    var expired := if activeVsExpiredPoints.Some? then activeVsExpiredPoints.value.expired.GetOr(0.0) else 0.0;
    PointsData(["Active Points", "Expired Points"], [active, expired])
  }

  /** The example of a two-month timeline: months come out in chronological order. */
  lemma TimelineExample()
    ensures TimelineData(Some([("2024-01", 3), ("2023-12", 2)]))
         == ChartData(["2023-12", "2024-01"], [2, 3])
  {
  }
}
