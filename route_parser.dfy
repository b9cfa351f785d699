/** The summarizer as the source runs it: one pass over the segments, an inner
    pass over each segment's bus lines, a list of labels grown by appending and
    a running distance total. */
module RouteParser {
  import opened Wrappers
  import opened Text
  import opened Distinct
  import opened Route

  /** Summarizes one transit plan. Returns the metro lines ridden (first-seen
      order, no repeats), the estimated minutes and the total distance in
      metres; the three agree with `Summarize`, whose properties are proved in
      module Route. */
  method ParseRoute(plan: Plan) returns (lines: seq<string>, estimatedTime: nat, totalDistance: nat)
    ensures lines == Summarize(plan).lines
    ensures totalDistance == Summarize(plan).totalMeters
    ensures estimatedTime == Summarize(plan).estimatedMinutes
    ensures NoDuplicates(lines)
    ensures estimatedTime >= 1
  {
    lines := [];
    totalDistance := 0;
    for k := 0 to |plan|
      invariant lines == Dedup(PlanLabels(plan[..k]))
      invariant totalDistance == TotalMeters(plan[..k])
    {
      var seg := plan[k];
      PlanStep(plan, k);
      if seg.bus.Some? {
        lines, totalDistance := ScanBusLines(seg.bus.value, lines, totalDistance, PlanLabels(plan[..k]));
      } else {
        assert PlanLabels(plan[..k]) + SegmentLabels(seg) == PlanLabels(plan[..k]);
      }
      var walkDist := seg.walkDistance;
      if walkDist.Some? && IsNumeral(walkDist.value) {
        totalDistance := totalDistance + ParseNat(walkDist.value);
      }
    }
    assert plan[..|plan|] == plan;
    estimatedTime := if 1 < totalDistance / MetresPerMinute then totalDistance / MetresPerMinute else 1;
    LinesAreDistinct(plan);
  }

  /** The inner loop over one segment's bus lines: appends each new label to
      `lines` and adds each numeric distance to the running total. Given the
      list built from the labels `seen` so far, it returns the list built from
      `seen` followed by this segment's labels. */
  method ScanBusLines(buslines: seq<BusLine>, lines0: seq<string>, total0: nat, ghost seen: seq<string>)
    returns (lines: seq<string>, total: nat)
    requires lines0 == Dedup(seen)
    ensures lines == Dedup(seen + BusLabels(buslines))
    ensures total == total0 + BusMeters(buslines)
  {
    lines, total := lines0, total0;
    ghost var scanned := seen;  // every label met so far, repeats kept
    assert buslines[..0] == [];
    for m := 0 to |buslines|
      invariant scanned == seen + BusLabels(buslines[..m])
      invariant lines == Dedup(scanned)
      invariant total == total0 + BusMeters(buslines[..m])
    {
      var line := buslines[m];
      match ExtractLabel(line.name) {
        case Some(lineName) =>
          DedupSnoc(scanned, lineName);
          if lineName !in lines {
            lines := lines + [lineName];
          }
        case None =>
          assert scanned + LabelOf(line) == scanned;
      }
      BusStep(buslines, m);
      AppendAssoc(seen, BusLabels(buslines[..m]), LabelOf(line));
      scanned := scanned + LabelOf(line);
      var dist := line.distance;
      if dist.Some? && IsNumeral(dist.value) {
        total := total + ParseNat(dist.value);
      }
    }
    assert buslines[..|buslines|] == buslines;
  }
}
