/** Worked examples of `summary` on small tables. Times are seconds from
    2024-01-01 00:00. */
module Scenarios {
  import opened Seqs
  import opened Records
  import opened Utils

  const Jan1: int := 0
  const Jan15: int := 14 * 86400
  const Mar1: int := 60 * 86400

  /** A detection on 15 January keeps the 1 January reading and drops the
      1 March one, which lies 46 days later. */
  lemma WindowKeepsOnlyNearbyReading()
    ensures var r := SummaryOf([Detection("F1", Jan15)], [],
                               [Reading("F1", Jan1, 1.0), Reading("F1", Mar1, 2.0)], [], "F1");
      && r.Found?
      && r.entries.Keys == {Jan15}
      && r.entries[Jan15] == [PressureRows([Reading("F1", Jan1, 1.0)]),
                              WorkOrderRows([]),
                              DetectionRows([Detection("F1", Jan15)])]
  {
    var drone := [Detection("F1", Jan15)];
    var thp := [Reading("F1", Jan1, 1.0), Reading("F1", Mar1, 2.0)];
    FilterSpec(drone, DetectionOf("F1"));
    FilterSpec(thp, ReadingOf("F1"));
    assert DetectionsAt(drone, "F1") == drone;
    assert ReadingsAt(thp, "F1") == thp;
    assert Dtms(drone) == [Jan15];
    assert Elements(Dtms(drone)) == {Jan15};
    assert Iterations(drone) == 1;
    var p := ReadingWithin(WindowStart(Jan15), WindowEnd(Jan15));
    assert p(thp[0]) && !p(thp[1]);
    assert thp[1..][1..] == [];
    assert Filter(thp[1..], p) == Filter(thp[1..][1..], p) == [];
    assert Filter(thp, p) == [thp[0]] + Filter(thp[1..], p);
    assert ReadingsBetween(thp, WindowStart(Jan15), WindowEnd(Jan15)) == [thp[0]];
    assert WorkOrdersAt([], "F1") == [];
    assert OrdersBetween(HatchOrders([]), WindowStart(Jan15), WindowEnd(Jan15)) == [];
    assert EntryFor(thp, drone, [], Jan15) == [PressureRows([thp[0]]), WorkOrderRows([]), DetectionRows(drone)];
    assert Run(thp, drone, [], 1) == Step(Run(thp, drone, [], 0), thp, drone, Jan15);
    assert Run(thp, drone, [], 1).entries == map[Jan15 := EntryFor(thp, drone, [], Jan15)];
  }

  /** A facility without drone detections gets the sentinel. */
  lemma NoDetectionsGivesSentinel()
    ensures SummaryOf([Detection("F1", Jan15)], [], [Reading("F2", Jan1, 1.0)], [], "F2") == Invalid("F2")
  {
    var drone := [Detection("F1", Jan15)];
    FilterSpec(drone, DetectionOf("F2"));
    assert DetectionsAt(drone, "F2") == [];
  }

  /** The loop runs `nunique(DTM)` times but reads rows by position: with
      detection times [t, t, u] it reads rows 0 and 1, both at t, and never
      stores an entry for the distinct time u. */
  lemma RepeatedTimeHidesLaterDetection()
    ensures var r := SummaryOf([Detection("F", Jan1), Detection("F", Jan1), Detection("F", Mar1)], [], [], [], "F");
      r.Found? && r.entries.Keys == {Jan1} && Mar1 !in r.entries
  {
    var drone := [Detection("F", Jan1), Detection("F", Jan1), Detection("F", Mar1)];
    FilterSpec(drone, DetectionOf("F"));
    var droneFac := DetectionsAt(drone, "F");
    assert droneFac == drone;
    assert Dtms(droneFac) == [Jan1, Jan1, Mar1];
    assert Elements(Dtms(droneFac)) == {Jan1, Mar1};
    assert Iterations(droneFac) == 2;
    RunKeys([], droneFac, [], 2);
    assert (set j | 0 <= j < 2 :: droneFac[j].dtm) == {Jan1};
  }

  /** A repeated detection time keeps the list written last. With detection
      times [0, 200 days, 0, 400 days] the loop reads three rows. The first
      keeps a work order created at 0 that mentions "Hatch"; the second, 200
      days later, drops it; the third reads time 0 again and overwrites the
      first list with one whose work-order slice is empty. */
  lemma RepeatedTimeKeepsLastWrite()
    ensures var r := SummaryOf(RevisitingDrone, [], [], [HatchOrder], "F");
      r.Found? && Jan1 in r.entries && r.entries[Jan1] == [WorkOrderRows([]), DetectionRows(RevisitingDrone)]
  {
    var drone := RevisitingDrone;
    RevisitingDroneSelections();
    RevisitingDroneOrders();
    assert drone[2].dtm == Jan1;
    assert Run([], drone, [HatchOrder], 3).entries[Jan1] == EntryFor([], drone, [], Jan1);
    assert ReadingsBetween([], WindowStart(Jan1), WindowEnd(Jan1)) == [];
  }

  /** Every row belongs to facility F, and the loop runs three times. */
  lemma RevisitingDroneSelections()
    ensures DetectionsAt(RevisitingDrone, "F") == RevisitingDrone
    ensures ReadingsAt([], "F") == []
    ensures WorkOrdersAt([HatchOrder], "F") == [HatchOrder]
    ensures Iterations(RevisitingDrone) == 3
  {
    FilterSpec(RevisitingDrone, DetectionOf("F"));
    FilterSpec([HatchOrder], OrderOf("F"));
    RevisitingDroneTimes();
  }

  /** The detection times take three distinct values. */
  lemma RevisitingDroneTimes()
    ensures Elements(Dtms(RevisitingDrone)) == {Jan1, Day200, Day400}
    ensures |Elements(Dtms(RevisitingDrone))| == 3
  {
    var times := Dtms(RevisitingDrone);
    assert times == [Jan1, Day200, Jan1, Day400];
    forall x ensures x in Elements(times) <==> x in {Jan1, Day200, Day400} {
      assert x in times <==> x == times[0] || x == times[1] || x == times[2] || x == times[3];
    }
    assert Jan1 != Day200 && Jan1 != Day400 && Day200 != Day400;
    assert |{Jan1, Day200, Day400}| == 3;
  }

  const Day200: int := 200 * 86400
  const Day400: int := 400 * 86400

  /** Detections of facility F at 0, 200 days, 0 again and 400 days. */
  const RevisitingDrone: seq<Detection> :=
    [Detection("F", Jan1), Detection("F", Day200), Detection("F", Jan1), Detection("F", Day400)]

  /** A work order of facility F created on 1 January whose description
      mentions an open hatch in mixed case. */
  const HatchOrder: WorkOrder := WorkOrder("F", Some(Jan1), None, None, Some("Hatch"), None)

  lemma HatchOrderMentionsHatch()
    ensures MentionsHatch(HatchOrder)
  {
  }

  /** The work order survives the first iteration and is dropped by the second. */
  lemma RevisitingDroneOrders()
    ensures Run([], RevisitingDrone, [HatchOrder], 1).orders == [HatchOrder]
    ensures Run([], RevisitingDrone, [HatchOrder], 3).orders == []
  {
    var w := HatchOrder;
    assert w.created == Some(Jan1) && w.actualStart == None && w.actualEnd == None;
    assert RevisitingDrone[0].dtm == Jan1 && RevisitingDrone[1].dtm == Day200 && RevisitingDrone[2].dtm == Jan1;
    HatchOrderMentionsHatch();
    assert [w][1..] == [];
    assert HatchOrders([w]) == [w] + Filter([], MentionsHatch);
    assert OrdersBetween([w], WindowStart(Jan1), WindowEnd(Jan1)) == [w] + Filter([], OrderWithin(WindowStart(Jan1), WindowEnd(Jan1)));
    assert Run([], RevisitingDrone, [w], 1).orders == [w];
    assert !DatedBetween(w, WindowStart(Day200), WindowEnd(Day200));
    assert OrdersBetween([w], WindowStart(Day200), WindowEnd(Day200)) == Filter([], OrderWithin(WindowStart(Day200), WindowEnd(Day200)));
    assert Run([], RevisitingDrone, [w], 2).orders == [];
  }
}
