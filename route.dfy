/** The route summary computed from one transit plan returned by the AMap
    transit service: the metro lines it rides (in order, without repeats), its
    total distance in metres and an estimated travel time in minutes. This
    module is the specification: each quantity as a function of the plan. */
module Route {
  import opened Wrappers
  import opened Text
  import opened Distinct

  /** "地铁", the word for metro that precedes a line label in a bus-line name. */
  const Metro: string := "地铁"
  /** "号线", the suffix that ends a line label ("7号线": line 7). */
  const LineSuffix: string := "号线"
  /** The pace behind the time estimate. */
  const MetresPerMinute: nat := 400

  /** One entry of a segment's `bus.buslines`: its display name (the empty
      string when the field is absent) and its raw `distance` field. */
  datatype BusLine = BusLine(name: string, distance: Option<string>)

  /** One leg of a plan. `bus` is None when the segment's `bus` field is not a
      JSON object, and Some([]) when it is absent or lists no bus lines;
      `walkDistance` is the `walking.distance` field. */
  datatype Segment = Segment(bus: Option<seq<BusLine>>, walkDistance: Option<string>)

  /** A plan is the `segments` list of one transit (empty when absent). */
  type Plan = seq<Segment>

  datatype Summary = Summary(lines: seq<string>, estimatedMinutes: nat, totalMeters: nat)

  predicate EndsWith(s: string, suffix: string) {
    |s| >= |suffix| && s[|s| - |suffix|..] == suffix
  }

  /** The metro line label a bus-line name denotes: the text after the first
      "地铁" up to and including the first "号线", when the name holds both and
      the first "号线" comes after the first "地铁". */
  function ExtractLabel(name: string): Option<string> {
    if Contains(name, Metro) && Contains(name, LineSuffix) then
      var start := FirstIndex(name, Metro).value + 2;
      var end := FirstIndex(name, LineSuffix).value + 2;
      if start < end then
        FirstIndexSpec(name, LineSuffix);
        Some(name[start..end])
      else None
    else None
  }

  /** A name yields a label exactly when it holds "号线" and some "地铁" occurs
      before every "号线"; a name lacking either marker, or whose first "号线"
      comes before its first "地铁", yields none. */
  lemma LabelPresence(name: string)
    ensures ExtractLabel(name).Some? <==>
      && (exists j :: OccursAt(name, LineSuffix, j))
      && exists i :: OccursAt(name, Metro, i) && forall k :: 0 <= k <= i ==> !OccursAt(name, LineSuffix, k)
  {
    FirstIndexSpec(name, Metro);
    FirstIndexSpec(name, LineSuffix);
    if ExtractLabel(name).Some? {
      var i := FirstIndex(name, Metro).value;
      assert OccursAt(name, Metro, i);
    }
  }

  /** A label directly follows the first "地铁" of the name, ends with "号线",
      and holds no earlier "号线": it runs to the first "号线" after the marker. */
  lemma LabelShape(name: string)
    requires ExtractLabel(name).Some?
    ensures FirstIndex(name, Metro).Some?
    ensures var l := ExtractLabel(name).value;
      && |l| >= |LineSuffix|
      && EndsWith(l, LineSuffix)
      && OccursAt(name, Metro + l, FirstIndex(name, Metro).value)
      && forall k :: 0 <= k < |l| - |LineSuffix| ==> !OccursAt(l, LineSuffix, k)
  {
    FirstIndexSpec(name, Metro);
    FirstIndexSpec(name, LineSuffix);
    var i, j := FirstIndex(name, Metro).value, FirstIndex(name, LineSuffix).value;
    var l := ExtractLabel(name).value;
    assert l == name[i + 2..j + 2];
    MarkersApart(name, i, j);
    forall k | 0 <= k < |l| - |LineSuffix|
      ensures !OccursAt(l, LineSuffix, k)
    {
      assert !OccursAt(name, LineSuffix, i + 2 + k);
      assert l[k..k + 2] == name[i + 2 + k..i + 2 + k + 2];
    }
    assert name[i..i + 2 + |l|] == Metro + l;
  }

  /** "地铁" and "号线" share no character, so an occurrence of one never
      overlaps an occurrence of the other. */
  lemma MarkersApart(name: string, i: nat, j: nat)
    requires OccursAt(name, Metro, i) && OccursAt(name, LineSuffix, j) && i < j
    ensures i + |Metro| <= j
  {
    assert name[i + 1] == Metro[1];
    assert name[j] == LineSuffix[0];
  }

  /** The labels of a list of bus lines in order, repeats kept. */
  function BusLabels(buslines: seq<BusLine>): seq<string> {
    if buslines == [] then []
    else BusLabels(buslines[..|buslines| - 1]) + LabelOf(buslines[|buslines| - 1])
  }

  function LabelOf(busline: BusLine): seq<string> {
    match ExtractLabel(busline.name)
    case Some(l) => [l]
    case None => []
  }

  function SegmentLabels(seg: Segment): seq<string> {
    match seg.bus
    case Some(buslines) => BusLabels(buslines)
    case None => []
  }

  /** Every label of the plan in scan order, repeats kept. */
  function PlanLabels(plan: Plan): seq<string> {
    if plan == [] then []
    else PlanLabels(plan[..|plan| - 1]) + SegmentLabels(plan[|plan| - 1])
  }

  /** The metres a raw distance field contributes: its value when it is a
      non-empty string of digits, and 0 when it is absent, empty or not numeric. */
  function DistanceValue(d: Option<string>): (m: nat)
    ensures m != 0 ==> d.Some? && IsNumeral(d.value)
  {
    match d
    case Some(s) => if IsNumeral(s) then ParseNat(s) else 0
    case None => 0
  }

  function BusMeters(buslines: seq<BusLine>): nat {
    if buslines == [] then 0
    else BusMeters(buslines[..|buslines| - 1]) + DistanceValue(buslines[|buslines| - 1].distance)
  }

  function SegmentMeters(seg: Segment): nat {
    (match seg.bus
     case Some(buslines) => BusMeters(buslines)
     case None => 0)
    + DistanceValue(seg.walkDistance)
  }

  /** Total distance of the plan in metres. */
  function TotalMeters(plan: Plan): nat {
    if plan == [] then 0
    else TotalMeters(plan[..|plan| - 1]) + SegmentMeters(plan[|plan| - 1])
  }

  /** `max(1, total // 400)`: whole minutes at 400 metres a minute, never below 1. */
  function EstimateMinutes(total: nat): (m: nat)
    ensures m >= 1
    ensures total >= MetresPerMinute ==>
      m * MetresPerMinute <= total < (m + 1) * MetresPerMinute
    ensures total < MetresPerMinute ==> m == 1
  {
    var whole := total / MetresPerMinute;
    if whole > 1 then whole else 1
  }

  /** The distance in kilometres, as an exact real number. */
  function Kilometres(meters: nat): (km: real)
    ensures km * 1000.0 == meters as real
  {
    meters as real / 1000.0
  }

  /** What the summarizer returns for a plan. */
  function Summarize(plan: Plan): (r: Summary)
    ensures r.lines == [] <==> PlanLabels(plan) == []
    ensures |r.lines| <= |PlanLabels(plan)|
    ensures r.estimatedMinutes >= 1
  {
    var labels, total := PlanLabels(plan), TotalMeters(plan);
    DedupElements(labels, if labels == [] then "" else labels[0]);
    Summary(Dedup(labels), EstimateMinutes(total), total)
  }

  // ---------------------------------------------------------------------------
  // Where the lines come from

  /** The `m`-th bus line of the `k`-th segment (whose `bus` is an object)
      yields label `l`. */
  ghost predicate LabelAt(plan: Plan, k: int, m: int, l: string) {
    && 0 <= k < |plan|
    && plan[k].bus.Some?
    && 0 <= m < |plan[k].bus.value|
    && ExtractLabel(plan[k].bus.value[m].name) == Some(l)
  }

  lemma {:induction false} BusLabelsMembership(buslines: seq<BusLine>, l: string)
    ensures l in BusLabels(buslines) <==>
      exists m :: 0 <= m < |buslines| && ExtractLabel(buslines[m].name) == Some(l)
  {
    if buslines != [] {
      var p := buslines[..|buslines| - 1];
      BusLabelsMembership(p, l);
      if l in BusLabels(p) {
        var m :| 0 <= m < |p| && ExtractLabel(p[m].name) == Some(l);
        assert buslines[m] == p[m];
      }
      if exists m :: 0 <= m < |buslines| && ExtractLabel(buslines[m].name) == Some(l) {
        var m :| 0 <= m < |buslines| && ExtractLabel(buslines[m].name) == Some(l);
        if m < |p| {
          assert p[m] == buslines[m];
        }
      }
    }
  }

  lemma {:induction false} PlanLabelsMembership(plan: Plan, l: string)
    ensures l in PlanLabels(plan) <==> exists k, m :: LabelAt(plan, k, m, l)
  {
    if plan != [] {
      var p, seg := plan[..|plan| - 1], plan[|plan| - 1];
      PlanLabelsMembership(p, l);
      if l in PlanLabels(p) {
        var k, m :| LabelAt(p, k, m, l);
        assert LabelAt(plan, k, m, l);
      } else if l in SegmentLabels(seg) {
        BusLabelsMembership(seg.bus.value, l);
        var m :| 0 <= m < |seg.bus.value| && ExtractLabel(seg.bus.value[m].name) == Some(l);
        assert LabelAt(plan, |p|, m, l);
      }
      if exists k, m :: LabelAt(plan, k, m, l) {
        var k, m :| LabelAt(plan, k, m, l);
        if k < |p| {
          assert LabelAt(p, k, m, l);
        } else {
          BusLabelsMembership(seg.bus.value, l);
        }
      }
    }
  }

  /** The summary's lines are exactly the labels found anywhere in the plan. */
  lemma LinesAreThePlansLabels(plan: Plan, l: string)
    ensures l in Summarize(plan).lines <==> exists k, m :: LabelAt(plan, k, m, l)
  {
    DedupElements(PlanLabels(plan), l);
    PlanLabelsMembership(plan, l);
  }

  /** No label is listed twice. */
  lemma LinesAreDistinct(plan: Plan)
    ensures NoDuplicates(Summarize(plan).lines)
  {
    DedupNoDuplicates(PlanLabels(plan));
  }

  /** The lines are the plan's labels without repeats, in the order each first
      occurs in the scan; and they are the only list with those properties. */
  lemma LinesAreFirstOccurrences(plan: Plan, r: seq<string>)
    ensures FirstOccurrenceList(PlanLabels(plan), Summarize(plan).lines)
    ensures FirstOccurrenceList(PlanLabels(plan), r) ==> r == Summarize(plan).lines
  {
    DedupIsFirstOccurrenceList(PlanLabels(plan));
    if FirstOccurrenceList(PlanLabels(plan), r) {
      FirstOccurrenceListUnique(PlanLabels(plan), r);
    }
  }

  // ---------------------------------------------------------------------------
  // Scanning a plan in pieces

  lemma PlanLabelsSnoc(p: Plan, seg: Segment)
    ensures PlanLabels(p + [seg]) == PlanLabels(p) + SegmentLabels(seg)
  {
    assert (p + [seg])[..|p|] == p;
  }

  /** One more segment of the scan. */
  lemma PlanStep(plan: Plan, k: nat)
    requires k < |plan|
    ensures PlanLabels(plan[..k + 1]) == PlanLabels(plan[..k]) + SegmentLabels(plan[k])
    ensures TotalMeters(plan[..k + 1]) == TotalMeters(plan[..k]) + SegmentMeters(plan[k])
  {
    assert plan[..k + 1][..k] == plan[..k];
  }

  /** One more bus line of a segment. */
  lemma BusStep(buslines: seq<BusLine>, m: nat)
    requires m < |buslines|
    ensures BusLabels(buslines[..m + 1]) == BusLabels(buslines[..m]) + LabelOf(buslines[m])
    ensures BusMeters(buslines[..m + 1]) == BusMeters(buslines[..m]) + DistanceValue(buslines[m].distance)
  {
    assert buslines[..m + 1][..m] == buslines[..m];
  }

  lemma {:induction false} PlanLabelsAppend(p: Plan, q: Plan)
    ensures PlanLabels(p + q) == PlanLabels(p) + PlanLabels(q)
  {
    if q == [] {
      assert p + q == p;
      assert PlanLabels(p) + [] == PlanLabels(p);
    } else {
      var c, seg := q[..|q| - 1], q[|q| - 1];
      assert p + q == (p + c) + [seg];
      assert q == c + [seg];
      PlanLabelsSnoc(p + c, seg);
      PlanLabelsSnoc(c, seg);
      PlanLabelsAppend(p, c);
      AppendAssoc(PlanLabels(p), PlanLabels(c), SegmentLabels(seg));
    }
  }

  lemma {:induction false} TotalMetersAppend(p: Plan, q: Plan)
    ensures TotalMeters(p + q) == TotalMeters(p) + TotalMeters(q)
  {
    if q == [] {
      assert p + q == p;
    } else {
      var c := q[..|q| - 1];
      assert (p + q)[..|p + q| - 1] == p + c;
      TotalMetersAppend(p, c);
    }
  }

  /** Segments scanned later only add lines at the end: the lines of a plan's
      first part are a prefix of the lines of the whole plan. */
  lemma LinesOfPrefix(p: Plan, q: Plan)
    ensures Summarize(p).lines <= Summarize(p + q).lines
  {
    PlanLabelsAppend(p, q);
    DedupPrefix(PlanLabels(p), PlanLabels(q));
  }

  /** A segment whose `bus` field is not an object adds no line and no bus
      distance; its walking distance still counts. */
  lemma NonObjectBusSegment(p: Plan, q: Plan, walk: Option<string>)
    ensures var s := Summarize(p + [Segment(None, walk)] + q);
      && s.lines == Summarize(p + q).lines
      && s.totalMeters == Summarize(p + q).totalMeters + DistanceValue(walk)
  {
    var seg := [Segment(None, walk)];
    PlanLabelsAppend(p + seg, q);
    PlanLabelsAppend(p, seg);
    PlanLabelsAppend(p, q);
    TotalMetersAppend(p + seg, q);
    TotalMetersAppend(p, seg);
    TotalMetersAppend(p, q);
    assert PlanLabels(seg) == [] by { assert seg[..0] == []; }
    assert TotalMeters(seg) == DistanceValue(walk) by { assert seg[..0] == []; }
    assert PlanLabels(p + seg + q) == PlanLabels(p + q) by {
      assert PlanLabels(p + seg) == PlanLabels(p);
    }
  }

  // ---------------------------------------------------------------------------
  // Distances

  /** A bus line's distance counts whatever its name: two lists of bus lines
      with the same distance fields, in the same order, add up to the same. */
  lemma {:induction false} BusMetersIgnoreNames(a: seq<BusLine>, b: seq<BusLine>)
    requires |a| == |b|
    requires forall i :: 0 <= i < |a| ==> a[i].distance == b[i].distance
    ensures BusMeters(a) == BusMeters(b)
  {
    if a != [] {
      BusMetersIgnoreNames(a[..|a| - 1], b[..|b| - 1]);
    }
  }

  /** Every distance field the summarizer reads, in scan order: the bus lines of
      each segment whose `bus` is an object, then its walking distance. */
  function Legs(plan: Plan): seq<Option<string>> {
    if plan == [] then []
    else Legs(plan[..|plan| - 1]) + SegmentLegs(plan[|plan| - 1])
  }

  function SegmentLegs(seg: Segment): seq<Option<string>> {
    (match seg.bus
     case Some(buslines) => seq(|buslines|, i requires 0 <= i < |buslines| => buslines[i].distance)
     case None => [])
    + [seg.walkDistance]
  }

  function SumValues(ds: seq<Option<string>>): nat {
    if ds == [] then 0 else DistanceValue(ds[0]) + SumValues(ds[1..])
  }

  lemma {:induction false} SumValuesAppend(a: seq<Option<string>>, b: seq<Option<string>>)
    ensures SumValues(a + b) == SumValues(a) + SumValues(b)
  {
    if a == [] {
      assert a + b == b;
    } else {
      assert (a + b)[1..] == a[1..] + b;
      SumValuesAppend(a[1..], b);
    }
  }

  lemma {:induction false} BusMetersIsSum(buslines: seq<BusLine>)
    ensures BusMeters(buslines) ==
      SumValues(seq(|buslines|, i requires 0 <= i < |buslines| => buslines[i].distance))
  {
    var ds := seq(|buslines|, i requires 0 <= i < |buslines| => buslines[i].distance);
    if buslines != [] {
      var p := buslines[..|buslines| - 1];
      var dp := seq(|p|, i requires 0 <= i < |p| => p[i].distance);
      assert ds == dp + [buslines[|buslines| - 1].distance];
      BusMetersIsSum(p);
      SumValuesAppend(dp, [buslines[|buslines| - 1].distance]);
    }
  }

  /** The total is the sum of every bus-line distance (in segments whose `bus`
      is an object) and every walking distance, each counted by DistanceValue. */
  lemma {:induction false} TotalIsSumOfLegs(plan: Plan)
    ensures TotalMeters(plan) == SumValues(Legs(plan))
  {
    if plan != [] {
      var p, seg := plan[..|plan| - 1], plan[|plan| - 1];
      TotalIsSumOfLegs(p);
      SumValuesAppend(Legs(p), SegmentLegs(seg));
      var bus := match seg.bus
        case Some(buslines) => seq(|buslines|, i requires 0 <= i < |buslines| => buslines[i].distance)
        case None => [];
      SumValuesAppend(bus, [seg.walkDistance]);
      if seg.bus.Some? {
        BusMetersIsSum(seg.bus.value);
      }
    }
  }

  /** A distance field holding the decimal rendering of `n` contributes `n`. */
  lemma DistanceOfDecimal(n: nat)
    ensures DistanceValue(Some(DecimalOf(n))) == n
  {
    ParseDecimal(n);
  }

  /** A longer trip never gets a shorter estimate. */
  lemma EstimateMonotone(a: nat, b: nat)
    requires a <= b
    ensures EstimateMinutes(a) <= EstimateMinutes(b)
  {
    if b >= MetresPerMinute {
      assert EstimateMinutes(b) == b / MetresPerMinute;
      assert a / MetresPerMinute <= b / MetresPerMinute;
    }
  }
}
