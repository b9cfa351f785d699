/** Worked cases of the summarizer on concrete plans. */
module RouteExamples {
  import opened Wrappers
  import opened Text
  import opened Distinct
  import opened Route

  const SevenLine: string := "地铁7号线(美兰湖--花木路)"

  /** A typical metro bus-line name yields its line label, suffix included. */
  lemma SevenLineLabel()
    ensures ExtractLabel(SevenLine) == Some("7号线")
  {
    assert OccursAt(SevenLine, Metro, 0);
    FirstIndexIs(SevenLine, Metro, 0);
    assert OccursAt(SevenLine, LineSuffix, 3);
    forall j | 0 <= j < 3
      ensures !OccursAt(SevenLine, LineSuffix, j)
    {
      assert SevenLine[j] != LineSuffix[0];
    }
    FirstIndexIs(SevenLine, LineSuffix, 3);
    assert SevenLine[2..5] == [SevenLine[2], SevenLine[3], SevenLine[4]];
  }

  /** A name whose "号线" comes before its "地铁" yields no label. */
  lemma ReversedMarkersNoLabel()
    ensures ExtractLabel("1号线地铁") == None
  {
    var name := "1号线地铁";
    assert OccursAt(name, LineSuffix, 1);
    assert !OccursAt(name, LineSuffix, 0) by { assert name[0] != LineSuffix[0]; }
    FirstIndexIs(name, LineSuffix, 1);
    assert OccursAt(name, Metro, 3);
    forall j | 0 <= j < 3
      ensures !OccursAt(name, Metro, j)
    {
      assert name[j] != Metro[0];
    }
    FirstIndexIs(name, Metro, 3);
  }

  /** A bus leg of "1200" metres and a walk of "300" metres: 1500 metres,
      3 minutes, one line. */
  lemma BusAndWalkPlan()
    ensures Summarize([Segment(Some([BusLine(SevenLine, Some("1200"))]), Some("300"))])
         == Summary(["7号线"], 3, 1500)
  {
    var plan := [Segment(Some([BusLine(SevenLine, Some("1200"))]), Some("300"))];
    BusAndWalkLabels(plan);
    BusAndWalkMeters(plan);
    assert ["7号线"][..0] == [];
    assert Dedup(["7号线"]) == ["7号线"];
    assert EstimateMinutes(1500) == 3;
  }

  lemma BusAndWalkLabels(plan: Plan)
    requires plan == [Segment(Some([BusLine(SevenLine, Some("1200"))]), Some("300"))]
    ensures PlanLabels(plan) == ["7号线"]
  {
    var bl := plan[0].bus.value[0];
    SevenLineLabel();
    assert [bl][..0] == [];
    assert plan[..0] == [];
    assert BusLabels([bl]) == ["7号线"];
  }

  lemma BusAndWalkMeters(plan: Plan)
    requires plan == [Segment(Some([BusLine(SevenLine, Some("1200"))]), Some("300"))]
    ensures TotalMeters(plan) == 1500
  {
    var bl := plan[0].bus.value[0];
    assert ParseNat("1200") == 1200 by {
      assert "1200"[..3] == "120";
      assert "120"[..2] == "12";
      assert "12"[..1] == "1";
    }
    assert ParseNat("300") == 300 by {
      assert "300"[..2] == "30";
      assert "30"[..1] == "3";
    }
    assert [bl][..0] == [];
    assert plan[..0] == [];
    assert BusMeters([bl]) == 1200;
  }

  /** A reversed name yields no line, but its distance still counts. */
  lemma ReversedNameStillCountsDistance()
    ensures Summarize([Segment(Some([BusLine("1号线地铁", Some("800"))]), None)])
         == Summary([], 2, 800)
  {
    var bl := BusLine("1号线地铁", Some("800"));
    var seg := Segment(Some([bl]), None);
    ReversedMarkersNoLabel();
    assert ParseNat("800") == 800 by {
      assert "800"[..2] == "80";
      assert "80"[..1] == "8";
    }
    assert [bl][..0] == [];
    assert [seg][..0] == [];
    assert BusLabels([bl]) == [];
    assert PlanLabels([seg]) == [];
    assert BusMeters([bl]) == 800;
    assert DistanceValue(None) == 0;
    assert TotalMeters([seg]) == 800;
    assert EstimateMinutes(800) == 2;
  }

  /** A distance that is not a string of digits counts as nothing. */
  lemma NonNumericDistance()
    ensures DistanceValue(Some("N/A")) == 0
    ensures DistanceValue(Some("")) == 0
    ensures DistanceValue(None) == 0
  {
    assert !IsDigit("N/A"[0]);
  }

  /** A plan without any distance still gets a one-minute estimate. */
  lemma EmptyPlanTakesOneMinute()
    ensures Summarize([Segment(Some([]), None)]) == Summary([], 1, 0)
  {
    var seg := Segment(Some([]), None);
    assert [seg][..0] == [];
  }
}
