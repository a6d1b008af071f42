/** `summary`: for each drone-detected "hatch open" time at one facility,
    the pressure readings, the matching work orders and the facility's
    drone rows around that time, or the sentinel `(id, 'invalid')` when
    nothing was stored. */
module Utils {
  import opened Seqs
  import opened Records

  /** One element of a stored list: each is a slice of one input table. */
  datatype Slice =
    | PressureRows(readings: seq<Reading>)
    | WorkOrderRows(orders: seq<WorkOrder>)
    | DetectionRows(detections: seq<Detection>)

  /** The return value: the sentinel pair, or the dictionary built by the loop. */
  datatype SummaryResult =
    | Invalid(facility: FacilityId)
    | Found(entries: map<int, seq<Slice>>)

  // ----- The row masks -----

  function ReadingOf(id: FacilityId): Reading -> bool { (x: Reading) => x.facility == id }
  function DetectionOf(id: FacilityId): Detection -> bool { (d: Detection) => d.facility == id }
  function OrderOf(id: FacilityId): WorkOrder -> bool { (w: WorkOrder) => w.facility == id }
  function FormOf(id: FacilityId): Form -> bool { (f: Form) => f.facility == id }
  function ReadingWithin(lo: int, hi: int): Reading -> bool { (x: Reading) => Between(x.timestamp, lo, hi) }
  function OrderWithin(lo: int, hi: int): WorkOrder -> bool { (w: WorkOrder) => DatedBetween(w, lo, hi) }

  // ----- The selections -----

  function ReadingsAt(thp: seq<Reading>, id: FacilityId): seq<Reading> { Filter(thp, ReadingOf(id)) }
  function DetectionsAt(drone: seq<Detection>, id: FacilityId): seq<Detection> { Filter(drone, DetectionOf(id)) }
  function WorkOrdersAt(workorder: seq<WorkOrder>, id: FacilityId): seq<WorkOrder> { Filter(workorder, OrderOf(id)) }
  function FormsAt(form: seq<Form>, id: FacilityId): seq<Form> { Filter(form, FormOf(id)) }

  function ReadingsBetween(readings: seq<Reading>, lo: int, hi: int): seq<Reading> {
    Filter(readings, ReadingWithin(lo, hi))
  }

  function HatchOrders(orders: seq<WorkOrder>): seq<WorkOrder> {
    Filter(orders, MentionsHatch)
  }

  function OrdersBetween(orders: seq<WorkOrder>, lo: int, hi: int): seq<WorkOrder> {
    Filter(orders, OrderWithin(lo, hi))
  }

  /** Each facility selection keeps exactly that facility's rows, in input order. */
  lemma FacilitySelections(drone: seq<Detection>, form: seq<Form>, thp: seq<Reading>,
                           workorder: seq<WorkOrder>, id: FacilityId)
    ensures forall x :: x in ReadingsAt(thp, id) <==> x in thp && x.facility == id
    ensures forall d :: d in DetectionsAt(drone, id) <==> d in drone && d.facility == id
    ensures forall w :: w in WorkOrdersAt(workorder, id) <==> w in workorder && w.facility == id
    ensures forall f :: f in FormsAt(form, id) <==> f in form && f.facility == id
    ensures IsSubsequence(ReadingsAt(thp, id), thp)
    ensures IsSubsequence(DetectionsAt(drone, id), drone)
    ensures IsSubsequence(WorkOrdersAt(workorder, id), workorder)
    ensures IsSubsequence(FormsAt(form, id), form)
  {
    FilterSpec(thp, ReadingOf(id));
    FilterSpec(drone, DetectionOf(id));
    FilterSpec(workorder, OrderOf(id));
    FilterSpec(form, FormOf(id));
  }

  /** Each facility selection keeps every copy of a row of that facility and
      no copy of any other row. */
  lemma FacilityCounts(drone: seq<Detection>, form: seq<Form>, thp: seq<Reading>,
                       workorder: seq<WorkOrder>, id: FacilityId)
    ensures forall x :: multiset(ReadingsAt(thp, id))[x] == if x.facility == id then multiset(thp)[x] else 0
    ensures forall d :: multiset(DetectionsAt(drone, id))[d] == if d.facility == id then multiset(drone)[d] else 0
    ensures forall w :: multiset(WorkOrdersAt(workorder, id))[w] == if w.facility == id then multiset(workorder)[w] else 0
    ensures forall f :: multiset(FormsAt(form, id))[f] == if f.facility == id then multiset(form)[f] else 0
  {
    FilterCounts(thp, ReadingOf(id));
    FilterCounts(drone, DetectionOf(id));
    FilterCounts(workorder, OrderOf(id));
    FilterCounts(form, FormOf(id));
  }

  /** The pressure selection of one iteration: the readings whose timestamp
      lies in `[lo, hi]`, both ends included, in input order. */
  lemma ReadingsBetweenSpec(readings: seq<Reading>, lo: int, hi: int)
    ensures forall x :: x in ReadingsBetween(readings, lo, hi) <==> x in readings && lo <= x.timestamp <= hi
    ensures IsSubsequence(ReadingsBetween(readings, lo, hi), readings)
  {
    FilterSpec(readings, ReadingWithin(lo, hi));
  }

  /** The keyword selection keeps exactly the work orders mentioning "hatch", in input order. */
  lemma HatchOrdersSpec(orders: seq<WorkOrder>)
    ensures forall w :: w in HatchOrders(orders) <==> w in orders && MentionsHatch(w)
    ensures IsSubsequence(HatchOrders(orders), orders)
  {
    FilterSpec(orders, MentionsHatch);
  }

  /** The date selection keeps exactly the work orders with a created, start
      or end date in `[lo, hi]`, in input order; a missing date never qualifies. */
  lemma OrdersBetweenSpec(orders: seq<WorkOrder>, lo: int, hi: int)
    ensures forall w :: w in OrdersBetween(orders, lo, hi) <==>
      && w in orders
      && ((w.created.Some? && lo <= w.created.value <= hi)
          || (w.actualStart.Some? && lo <= w.actualStart.value <= hi)
          || (w.actualEnd.Some? && lo <= w.actualEnd.value <= hi))
    ensures IsSubsequence(OrdersBetween(orders, lo, hi), orders)
  {
    FilterSpec(orders, OrderWithin(lo, hi));
  }

  /** The three selections of one iteration keep every copy of a row that
      passes their mask and no copy of any other row. */
  lemma IterationCounts(readings: seq<Reading>, orders: seq<WorkOrder>, lo: int, hi: int)
    ensures forall x :: multiset(ReadingsBetween(readings, lo, hi))[x] ==
                        if lo <= x.timestamp <= hi then multiset(readings)[x] else 0
    ensures forall w :: multiset(HatchOrders(orders))[w] == if MentionsHatch(w) then multiset(orders)[w] else 0
    ensures forall w :: multiset(OrdersBetween(orders, lo, hi))[w] ==
                        if DatedBetween(w, lo, hi) then multiset(orders)[w] else 0
  {
    FilterCounts(readings, ReadingWithin(lo, hi));
    FilterCounts(orders, MentionsHatch);
    FilterCounts(orders, OrderWithin(lo, hi));
  }

  /** The `DTM` column. */
  function Dtms(rows: seq<Detection>): seq<int> {
    seq(|rows|, i requires 0 <= i < |rows| => rows[i].dtm)
  }

  // ----- The loop, as a function of the number of iterations done -----

  /** What the loop carries from one iteration to the next: the narrowed
      work-order table and the dictionary. */
  datatype LoopState = LoopState(orders: seq<WorkOrder>, entries: map<int, seq<Slice>>)

  /** The list stored for detection time `t`, given the work orders the
      iteration selected. */
  function EntryFor(thpFac: seq<Reading>, droneFac: seq<Detection>, orders: seq<WorkOrder>, t: int): seq<Slice> {
    var readings := ReadingsBetween(thpFac, WindowStart(t), WindowEnd(t));
    (if readings == [] then [] else [PressureRows(readings)]) + [WorkOrderRows(orders), DetectionRows(droneFac)]
  }

  /** One pass of the loop body for detection time `t`. */
  function Step(st: LoopState, thpFac: seq<Reading>, droneFac: seq<Detection>, t: int): LoopState {
    var orders := OrdersBetween(HatchOrders(st.orders), WindowStart(t), WindowEnd(t));
    LoopState(orders, st.entries[t := EntryFor(thpFac, droneFac, orders, t)])
  }

  /** The state after the first `k` iterations, which read rows `0..k-1` positionally. */
  function Run(thpFac: seq<Reading>, droneFac: seq<Detection>, orders0: seq<WorkOrder>, k: nat): LoopState
    requires k <= |droneFac|
  {
    if k == 0 then LoopState(orders0, map[])
    else Step(Run(thpFac, droneFac, orders0, k - 1), thpFac, droneFac, droneFac[k - 1].dtm)
  }

  /** The loop runs `nunique(DTM)` times over the facility's drone rows. */
  function Iterations(droneFac: seq<Detection>): nat {
    CountDistinct(Dtms(droneFac))
  }

  /** The value `summary` returns. The form table is selected by facility
      but never reaches the result. */
  function SummaryOf(drone: seq<Detection>, form: seq<Form>, thp: seq<Reading>,
                     workorder: seq<WorkOrder>, id: FacilityId): SummaryResult
  {
    var droneFac := DetectionsAt(drone, id);
    var final := Run(ReadingsAt(thp, id), droneFac, WorkOrdersAt(workorder, id), Iterations(droneFac));
    if |final.entries| == 0 then Invalid(id) else Found(final.entries)
  }

  // ----- The imperative driver -----

  method Summary(drone: seq<Detection>, form: seq<Form>, thp: seq<Reading>,
                 workorder: seq<WorkOrder>, id: FacilityId) returns (res: SummaryResult)
    ensures res == SummaryOf(drone, form, thp, workorder, id)
    ensures res.Invalid? <==> forall d :: d in drone ==> d.facility != id
    ensures res.Invalid? ==> res.facility == id
  {
    var thpFac := ReadingsAt(thp, id);
    var droneFac := DetectionsAt(drone, id);
    var woFac := WorkOrdersAt(workorder, id);
    var formFac := FormsAt(form, id);  // narrowed again at utils.py:113, never returned

    var entries: map<int, seq<Slice>> := map[];
    var temp: seq<Slice> := [];
    var n := CountDistinct(Dtms(droneFac));
    for i := 0 to n
      invariant temp == []
      invariant LoopState(woFac, entries) == Run(thpFac, droneFac, WorkOrdersAt(workorder, id), i)
    {
      var t := droneFac[i].dtm;
      var tStart, tStop := WindowStart(t), WindowEnd(t);

      var readings := ReadingsBetween(thpFac, tStart, tStop);
      if readings != [] {
        temp := temp + [PressureRows(readings)];
      }

      woFac := HatchOrders(woFac);
      woFac := OrdersBetween(woFac, tStart, tStop);
      temp := temp + [WorkOrderRows(woFac)];

      temp := temp + [DetectionRows(droneFac)];

      assert temp == EntryFor(thpFac, droneFac, woFac, t);
      entries := entries[t := temp];
      temp := [];
      assert LoopState(woFac, entries) == Step(Run(thpFac, droneFac, WorkOrdersAt(workorder, id), i), thpFac, droneFac, t);
    }

    if |entries| == 0 {
      res := Invalid(id);
    } else {
      res := Found(entries);
    }
    SentinelIffNoDetections(drone, form, thp, workorder, id);
  }

  // ----- Properties of the loop -----

  lemma {:induction false} RunKeys(thpFac: seq<Reading>, droneFac: seq<Detection>, orders0: seq<WorkOrder>, k: nat)
    requires k <= |droneFac|
    ensures Run(thpFac, droneFac, orders0, k).entries.Keys == set j | 0 <= j < k :: droneFac[j].dtm
  {
    if k > 0 {
      var before := Run(thpFac, droneFac, orders0, k - 1);
      RunKeys(thpFac, droneFac, orders0, k - 1);
      assert Run(thpFac, droneFac, orders0, k).entries.Keys == before.entries.Keys + {droneFac[k - 1].dtm};
      var lhs := set j | 0 <= j < k :: droneFac[j].dtm;
      var rhs := (set j | 0 <= j < k - 1 :: droneFac[j].dtm) + {droneFac[k - 1].dtm};
      forall x | x in lhs ensures x in rhs {
        var j :| 0 <= j < k && droneFac[j].dtm == x;
        if j < k - 1 { assert droneFac[j].dtm in set j | 0 <= j < k - 1 :: droneFac[j].dtm; }
      }
      assert lhs == rhs;
    }
  }

  /** `w` has a date in the window of each of the first `k` detections. */
  ghost predicate InEveryWindow(w: WorkOrder, droneFac: seq<Detection>, k: nat)
    requires k <= |droneFac|
  {
    forall j :: 0 <= j < k ==> DatedBetween(w, WindowStart(droneFac[j].dtm), WindowEnd(droneFac[j].dtm))
  }

  /** The work-order table after `k` iterations keeps the rows of the
      facility's table that mention "hatch" (once any filter has run) and
      have a date in the window of every detection read so far. */
  lemma RunOrders(thpFac: seq<Reading>, droneFac: seq<Detection>, orders0: seq<WorkOrder>, k: nat)
    requires k <= |droneFac|
    ensures forall w :: w in Run(thpFac, droneFac, orders0, k).orders <==>
      w in orders0 && (k > 0 ==> MentionsHatch(w)) && InEveryWindow(w, droneFac, k)
  {
    forall w
      ensures w in Run(thpFac, droneFac, orders0, k).orders <==>
              w in orders0 && (k > 0 ==> MentionsHatch(w)) && InEveryWindow(w, droneFac, k)
    {
      RunOrderKept(thpFac, droneFac, orders0, k, w);
    }
  }

  /** Whether one work order `w` is still in the table after `k` iterations. */
  lemma {:induction false} RunOrderKept(thpFac: seq<Reading>, droneFac: seq<Detection>, orders0: seq<WorkOrder>, k: nat, w: WorkOrder)
    requires k <= |droneFac|
    ensures w in Run(thpFac, droneFac, orders0, k).orders <==>
            w in orders0 && (k > 0 ==> MentionsHatch(w)) && InEveryWindow(w, droneFac, k)
  {
    if k > 0 {
      var prev := Run(thpFac, droneFac, orders0, k - 1).orders;
      var t := droneFac[k - 1].dtm;
      var lo, hi := WindowStart(t), WindowEnd(t);
      assert Run(thpFac, droneFac, orders0, k).orders == OrdersBetween(HatchOrders(prev), lo, hi);
      RunOrderKept(thpFac, droneFac, orders0, k - 1, w);
      OrdersStepKept(prev, lo, hi);
      assert InEveryWindow(w, droneFac, k) <==>
        InEveryWindow(w, droneFac, k - 1) && DatedBetween(w, lo, hi);
    }
  }

  /** The work-order table after `k` iterations is a subsequence of the
      facility's work-order table. */
  lemma {:induction false} RunOrdersSubsequence(thpFac: seq<Reading>, droneFac: seq<Detection>, orders0: seq<WorkOrder>, k: nat)
    requires k <= |droneFac|
    ensures IsSubsequence(Run(thpFac, droneFac, orders0, k).orders, orders0)
  {
    if k > 0 {
      RunOrdersSubsequence(thpFac, droneFac, orders0, k - 1);
      RunNarrows(thpFac, droneFac, orders0, k - 1);
      SubsequenceTransitive(Run(thpFac, droneFac, orders0, k).orders, Run(thpFac, droneFac, orders0, k - 1).orders, orders0);
    } else {
      SubsequenceReflexive(orders0);
    }
  }

  /** Each iteration narrows the work-order table: the new table is a
      subsequence of the one the iteration started from. */
  lemma RunNarrows(thpFac: seq<Reading>, droneFac: seq<Detection>, orders0: seq<WorkOrder>, k: nat)
    requires k < |droneFac|
    ensures IsSubsequence(Run(thpFac, droneFac, orders0, k + 1).orders, Run(thpFac, droneFac, orders0, k).orders)
  {
    var prev := Run(thpFac, droneFac, orders0, k).orders;
    var t := droneFac[k].dtm;
    HatchOrdersSpec(prev);
    OrdersBetweenSpec(HatchOrders(prev), WindowStart(t), WindowEnd(t));
    SubsequenceTransitive(OrdersBetween(HatchOrders(prev), WindowStart(t), WindowEnd(t)), HatchOrders(prev), prev);
  }

  /** What every stored list looks like. */
  ghost predicate EntryShape(e: seq<Slice>, t: int, thpFac: seq<Reading>, droneFac: seq<Detection>, orders0: seq<WorkOrder>)
  {
    && (|e| == 2 || |e| == 3)
    && (|e| == 3 <==> exists x :: x in thpFac && Between(x.timestamp, WindowStart(t), WindowEnd(t)))
    && (|e| == 3 ==>
          && e[0].PressureRows?
          && IsSubsequence(e[0].readings, thpFac)
          && (forall x :: x in e[0].readings <==> x in thpFac && Between(x.timestamp, WindowStart(t), WindowEnd(t)))
          && e[0].readings == ReadingsBetween(thpFac, WindowStart(t), WindowEnd(t)))
    && e[|e| - 2].WorkOrderRows?
    && IsSubsequence(e[|e| - 2].orders, orders0)
    && (forall w :: w in e[|e| - 2].orders ==> w in orders0 && MentionsHatch(w) && DatedBetween(w, WindowStart(t), WindowEnd(t)))
    && e[|e| - 1] == DetectionRows(droneFac)
  }

  lemma {:induction false} RunEntries(thpFac: seq<Reading>, droneFac: seq<Detection>, orders0: seq<WorkOrder>, k: nat)
    requires k <= |droneFac|
    ensures forall t :: t in Run(thpFac, droneFac, orders0, k).entries ==>
      EntryShape(Run(thpFac, droneFac, orders0, k).entries[t], t, thpFac, droneFac, orders0)
  {
    if k > 0 {
      RunEntries(thpFac, droneFac, orders0, k - 1);
      RunOrders(thpFac, droneFac, orders0, k);
      RunOrdersSubsequence(thpFac, droneFac, orders0, k);
      var t := droneFac[k - 1].dtm;
      var e := EntryFor(thpFac, droneFac, Run(thpFac, droneFac, orders0, k).orders, t);
      var readings := ReadingsBetween(thpFac, WindowStart(t), WindowEnd(t));
      ReadingsBetweenSpec(thpFac, WindowStart(t), WindowEnd(t));
      if readings != [] {
        assert readings[0] in readings;
      }
      assert EntryShape(e, t, thpFac, droneFac, orders0);
    }
  }

  /** The work orders stored at iteration `k` lie in the window of that
      iteration's detection and in the window of every earlier one. */
  lemma StoredOrdersInEarlierWindows(thpFac: seq<Reading>, droneFac: seq<Detection>, orders0: seq<WorkOrder>, k: nat)
    requires k < |droneFac|
    ensures var e := Run(thpFac, droneFac, orders0, k + 1).entries[droneFac[k].dtm];
      && |e| >= 2 && e[|e| - 2].WorkOrderRows?
      && forall w :: w in e[|e| - 2].orders <==>
           && w in orders0 && MentionsHatch(w)
           && forall j :: 0 <= j <= k ==> DatedBetween(w, WindowStart(droneFac[j].dtm), WindowEnd(droneFac[j].dtm))
  {
    RunOrders(thpFac, droneFac, orders0, k + 1);
  }

  /** The work-order table after `k` iterations keeps every copy of a row it
      keeps at all. */
  lemma RunOrdersCounts(thpFac: seq<Reading>, droneFac: seq<Detection>, orders0: seq<WorkOrder>, k: nat)
    requires k <= |droneFac|
    ensures forall w :: multiset(Run(thpFac, droneFac, orders0, k).orders)[w] ==
                        if (k > 0 ==> MentionsHatch(w)) && InEveryWindow(w, droneFac, k) then multiset(orders0)[w] else 0
  {
    forall w
      ensures multiset(Run(thpFac, droneFac, orders0, k).orders)[w] ==
              if (k > 0 ==> MentionsHatch(w)) && InEveryWindow(w, droneFac, k) then multiset(orders0)[w] else 0
    {
      RunOrderCount(thpFac, droneFac, orders0, k, w);
    }
  }

  /** How many copies of one work order `w` the table keeps after `k` iterations. */
  lemma {:induction false} RunOrderCount(thpFac: seq<Reading>, droneFac: seq<Detection>, orders0: seq<WorkOrder>, k: nat, w: WorkOrder)
    requires k <= |droneFac|
    ensures multiset(Run(thpFac, droneFac, orders0, k).orders)[w] ==
            if (k > 0 ==> MentionsHatch(w)) && InEveryWindow(w, droneFac, k) then multiset(orders0)[w] else 0
  {
    if k > 0 {
      var prev := Run(thpFac, droneFac, orders0, k - 1).orders;
      var t := droneFac[k - 1].dtm;
      var lo, hi := WindowStart(t), WindowEnd(t);
      assert Run(thpFac, droneFac, orders0, k).orders == OrdersBetween(HatchOrders(prev), lo, hi);
      RunOrderCount(thpFac, droneFac, orders0, k - 1, w);
      OrdersStepCounts(prev, lo, hi);
      assert InEveryWindow(w, droneFac, k) <==>
        InEveryWindow(w, droneFac, k - 1) && DatedBetween(w, lo, hi);
    }
  }

  /** One iteration's two work-order selections together keep exactly the
      rows that mention "hatch" and have a date in `[lo, hi]`. */
  lemma OrdersStepKept(prev: seq<WorkOrder>, lo: int, hi: int)
    ensures forall w :: w in OrdersBetween(HatchOrders(prev), lo, hi) <==>
                        w in prev && MentionsHatch(w) && DatedBetween(w, lo, hi)
  {
    FilterSpec(prev, MentionsHatch);
    FilterSpec(HatchOrders(prev), OrderWithin(lo, hi));
  }

  /** One iteration's two work-order selections together keep every copy of
      a row that mentions "hatch" and has a date in `[lo, hi]`. */
  lemma OrdersStepCounts(prev: seq<WorkOrder>, lo: int, hi: int)
    ensures forall w :: multiset(OrdersBetween(HatchOrders(prev), lo, hi))[w] ==
                        if MentionsHatch(w) && DatedBetween(w, lo, hi) then multiset(prev)[w] else 0
  {
    FilterCounts(prev, MentionsHatch);
    FilterCounts(HatchOrders(prev), OrderWithin(lo, hi));
  }

  /** Row `j` is the last of the first `k` drone rows read whose time is `t`. */
  ghost predicate LastReadAt(droneFac: seq<Detection>, k: nat, j: int, t: int) {
    && 0 <= j < k <= |droneFac|
    && droneFac[j].dtm == t
    && forall i :: j < i < k ==> droneFac[i].dtm != t
  }

  /** A repeated detection time holds the last write: the list under `t` is
      the one built by the last iteration that read `t`, with the work orders
      that iteration selected. */
  lemma {:induction false} RunLastWrite(thpFac: seq<Reading>, droneFac: seq<Detection>, orders0: seq<WorkOrder>, k: nat)
    requires k <= |droneFac|
    ensures forall t :: t in Run(thpFac, droneFac, orders0, k).entries ==>
      exists j :: LastReadAt(droneFac, k, j, t) &&
        Run(thpFac, droneFac, orders0, k).entries[t] == EntryFor(thpFac, droneFac, Run(thpFac, droneFac, orders0, j + 1).orders, t)
  {
    if k > 0 {
      RunLastWrite(thpFac, droneFac, orders0, k - 1);
      var u := droneFac[k - 1].dtm;
      var entries := Run(thpFac, droneFac, orders0, k).entries;
      forall t | t in entries
        ensures exists j :: LastReadAt(droneFac, k, j, t) &&
                            entries[t] == EntryFor(thpFac, droneFac, Run(thpFac, droneFac, orders0, j + 1).orders, t)
      {
        if t == u {
          assert LastReadAt(droneFac, k, k - 1, t);
        } else {
          assert t in Run(thpFac, droneFac, orders0, k - 1).entries;
          var j :| LastReadAt(droneFac, k - 1, j, t) &&
            Run(thpFac, droneFac, orders0, k - 1).entries[t] == EntryFor(thpFac, droneFac, Run(thpFac, droneFac, orders0, j + 1).orders, t);
          assert LastReadAt(droneFac, k, j, t);
        }
      }
    }
  }

  // ----- Properties of summary -----

  lemma SentinelIffNoDetections(drone: seq<Detection>, form: seq<Form>, thp: seq<Reading>,
                                workorder: seq<WorkOrder>, id: FacilityId)
    ensures var r := SummaryOf(drone, form, thp, workorder, id);
      && (r.Invalid? <==> Iterations(DetectionsAt(drone, id)) == 0)
      && (r.Invalid? <==> forall d :: d in drone ==> d.facility != id)
      && (r.Invalid? ==> r.facility == id)
  {
    var droneFac := DetectionsAt(drone, id);
    var n := Iterations(droneFac);
    RunKeys(ReadingsAt(thp, id), droneFac, WorkOrdersAt(workorder, id), n);
    FacilitySelections(drone, form, thp, workorder, id);
    if n > 0 {
      assert droneFac[0].dtm in Run(ReadingsAt(thp, id), droneFac, WorkOrdersAt(workorder, id), n).entries;
    }
    if droneFac != [] {
      assert droneFac[0] in droneFac;
    }
  }

  /** The loop reads rows `0..n-1` of the facility's drone slice, where `n`
      is the number of distinct detection times, so every positional read is
      in bounds; the dictionary's keys are the times of those rows, hence
      there are at most `n` of them. */
  lemma LoopBoundsAndKeys(drone: seq<Detection>, form: seq<Form>, thp: seq<Reading>,
                          workorder: seq<WorkOrder>, id: FacilityId)
    ensures Iterations(DetectionsAt(drone, id)) <= |DetectionsAt(drone, id)|
    ensures var r := SummaryOf(drone, form, thp, workorder, id);
            var droneFac := DetectionsAt(drone, id);
            var n := Iterations(droneFac);
      r.Found? ==>
        && r.entries.Keys == (set j | 0 <= j < n :: droneFac[j].dtm)
        && r.entries.Keys <= Elements(Dtms(droneFac))
        && |r.entries| <= n
  {
    var droneFac := DetectionsAt(drone, id);
    var n := Iterations(droneFac);
    var keys := Run(ReadingsAt(thp, id), droneFac, WorkOrdersAt(workorder, id), n).entries.Keys;
    RunKeys(ReadingsAt(thp, id), droneFac, WorkOrdersAt(workorder, id), n);
    forall x | x in keys ensures x in Elements(Dtms(droneFac)) {
      var j :| 0 <= j < n && droneFac[j].dtm == x;
      assert Dtms(droneFac)[j] == x;
    }
    SubsetCard(keys, Elements(Dtms(droneFac)));
  }

  /** A stored list has three elements when the window holds a pressure
      reading of the facility and two otherwise. */
  lemma StoredListLength(drone: seq<Detection>, form: seq<Form>, thp: seq<Reading>,
                         workorder: seq<WorkOrder>, id: FacilityId)
    ensures var r := SummaryOf(drone, form, thp, workorder, id);
      r.Found? ==> forall t :: t in r.entries ==>
        && (|r.entries[t]| == 2 || |r.entries[t]| == 3)
        && (|r.entries[t]| == 3 <==>
              exists x :: x in thp && x.facility == id && WindowStart(t) <= x.timestamp <= WindowEnd(t))
  {
    var droneFac := DetectionsAt(drone, id);
    RunEntries(ReadingsAt(thp, id), droneFac, WorkOrdersAt(workorder, id), Iterations(droneFac));
    FacilitySelections(drone, form, thp, workorder, id);
  }

  /** The pressure slice of a stored list holds exactly the facility's
      readings whose timestamp lies within 30 days of the key, both ends
      included. */
  lemma PressureRowsInWindow(drone: seq<Detection>, form: seq<Form>, thp: seq<Reading>,
                             workorder: seq<WorkOrder>, id: FacilityId)
    ensures var r := SummaryOf(drone, form, thp, workorder, id);
      r.Found? ==> forall t :: t in r.entries && |r.entries[t]| == 3 ==>
        && r.entries[t][0].PressureRows?
        && r.entries[t][0].readings != []
        && forall x :: x in r.entries[t][0].readings <==>
             x in thp && x.facility == id && t - 30 * 86400 <= x.timestamp <= t + 30 * 86400
  {
    var droneFac := DetectionsAt(drone, id);
    RunEntries(ReadingsAt(thp, id), droneFac, WorkOrdersAt(workorder, id), Iterations(droneFac));
    FacilitySelections(drone, form, thp, workorder, id);
  }

  /** A stored pressure slice holds every copy of each of those readings:
      a reading repeated in `thp` is repeated as often in the slice. */
  lemma PressureRowsCounts(drone: seq<Detection>, form: seq<Form>, thp: seq<Reading>,
                           workorder: seq<WorkOrder>, id: FacilityId)
    ensures var r := SummaryOf(drone, form, thp, workorder, id);
      r.Found? ==> forall t :: t in r.entries && |r.entries[t]| == 3 ==>
        && r.entries[t][0].PressureRows?
        && forall x :: multiset(r.entries[t][0].readings)[x] ==
             if x.facility == id && t - 30 * 86400 <= x.timestamp <= t + 30 * 86400 then multiset(thp)[x] else 0
  {
    var thpFac, droneFac, orders0 := ReadingsAt(thp, id), DetectionsAt(drone, id), WorkOrdersAt(workorder, id);
    var entries: map<int, seq<Slice>> := Run(thpFac, droneFac, orders0, Iterations(droneFac)).entries;
    RunEntries(thpFac, droneFac, orders0, Iterations(droneFac));
    FacilityCounts(drone, form, thp, workorder, id);
    forall t: int | t in entries && |entries[t]| == 3
      ensures entries[t][0].PressureRows?
      ensures forall x: Reading :: multiset(entries[t][0].readings)[x] ==
                if x.facility == id && t - 30 * 86400 <= x.timestamp <= t + 30 * 86400 then multiset(thp)[x] else 0
    {
      assert EntryShape(entries[t], t, thpFac, droneFac, orders0);
      IterationCounts(thpFac, [], WindowStart(t), WindowEnd(t));
    }
  }

  /** Every stored work order belongs to the facility, mentions "hatch" in
      its description or resolution, and has a created, start or end date
      within 30 days of the key. */
  lemma WorkOrderRowsMatch(drone: seq<Detection>, form: seq<Form>, thp: seq<Reading>,
                           workorder: seq<WorkOrder>, id: FacilityId)
    ensures var r := SummaryOf(drone, form, thp, workorder, id);
      r.Found? ==> forall t :: t in r.entries ==>
        && |r.entries[t]| >= 2
        && r.entries[t][|r.entries[t]| - 2].WorkOrderRows?
        && forall w :: w in r.entries[t][|r.entries[t]| - 2].orders ==>
             && w in workorder && w.facility == id
             && MentionsHatch(w)
             && DatedBetween(w, t - 30 * 86400, t + 30 * 86400)
  {
    var droneFac := DetectionsAt(drone, id);
    RunEntries(ReadingsAt(thp, id), droneFac, WorkOrdersAt(workorder, id), Iterations(droneFac));
    FacilitySelections(drone, form, thp, workorder, id);
  }

  /** The work orders stored under `t` are those selected by the last
      iteration that read `t`, say row `j`: exactly the facility's work orders
      that mention "hatch" and have a date in the window of each of rows
      `0..j`, every copy of each. An earlier iteration's list for `t` is
      overwritten. */
  lemma StoredOrdersAreLastWrite(drone: seq<Detection>, form: seq<Form>, thp: seq<Reading>,
                                 workorder: seq<WorkOrder>, id: FacilityId)
    ensures var r := SummaryOf(drone, form, thp, workorder, id);
            var droneFac := DetectionsAt(drone, id);
      r.Found? ==> forall t :: t in r.entries ==>
        exists j :: LastReadAt(droneFac, Iterations(droneFac), j, t) &&
          StoredOrdersOfWindows(r.entries[t], workorder, id, droneFac, j + 1)
  {
    var thpFac, droneFac, orders0 := ReadingsAt(thp, id), DetectionsAt(drone, id), WorkOrdersAt(workorder, id);
    var n := Iterations(droneFac);
    var entries: map<int, seq<Slice>> := Run(thpFac, droneFac, orders0, n).entries;
    RunLastWrite(thpFac, droneFac, orders0, n);
    forall t: int | t in entries
      ensures exists j :: LastReadAt(droneFac, n, j, t) &&
                          StoredOrdersOfWindows(entries[t], workorder, id, droneFac, j + 1)
    {
      var j :| LastReadAt(droneFac, n, j, t) &&
        entries[t] == EntryFor(thpFac, droneFac, Run(thpFac, droneFac, orders0, j + 1).orders, t);
      StoredOrdersOfRun(thpFac, droneFac, workorder, id, j + 1, t);
    }
  }

  /** The list built by iteration `k - 1` holds the work orders that passed
      the first `k` filters. */
  lemma StoredOrdersOfRun(thpFac: seq<Reading>, droneFac: seq<Detection>, workorder: seq<WorkOrder>,
                          id: FacilityId, k: nat, t: int)
    requires 0 < k <= |droneFac|
    ensures StoredOrdersOfWindows(EntryFor(thpFac, droneFac, Run(thpFac, droneFac, WorkOrdersAt(workorder, id), k).orders, t),
                                  workorder, id, droneFac, k)
  {
    var orders := Run(thpFac, droneFac, WorkOrdersAt(workorder, id), k).orders;
    FilterSpec(workorder, OrderOf(id));
    FilterCounts(workorder, OrderOf(id));
    RunOrders(thpFac, droneFac, WorkOrdersAt(workorder, id), k);
    RunOrdersCounts(thpFac, droneFac, WorkOrdersAt(workorder, id), k);
  }

  /** The next-to-last element of `e` holds exactly the facility's work
      orders that mention "hatch" and have a date in the window of each of
      the first `k` detections, every copy of each. */
  ghost predicate StoredOrdersOfWindows(e: seq<Slice>, workorder: seq<WorkOrder>, id: FacilityId,
                                        droneFac: seq<Detection>, k: nat)
    requires k <= |droneFac|
  {
    && |e| >= 2
    && e[|e| - 2].WorkOrderRows?
    && (forall w :: w in e[|e| - 2].orders <==>
          w in workorder && w.facility == id && MentionsHatch(w) && InEveryWindow(w, droneFac, k))
    && forall w :: multiset(e[|e| - 2].orders)[w] ==
         if w.facility == id && MentionsHatch(w) && InEveryWindow(w, droneFac, k) then multiset(workorder)[w] else 0
  }

  /** The last element of every stored list is the facility's whole drone
      slice: the drone rows of that facility, in input order. */
  lemma LastSliceIsFacilityDrones(drone: seq<Detection>, form: seq<Form>, thp: seq<Reading>,
                                  workorder: seq<WorkOrder>, id: FacilityId)
    ensures var r := SummaryOf(drone, form, thp, workorder, id);
      r.Found? ==> forall t :: t in r.entries ==>
        && |r.entries[t]| >= 1
        && r.entries[t][|r.entries[t]| - 1] == DetectionRows(DetectionsAt(drone, id))
    ensures forall d :: d in DetectionsAt(drone, id) <==> d in drone && d.facility == id
    ensures IsSubsequence(DetectionsAt(drone, id), drone)
  {
    var droneFac := DetectionsAt(drone, id);
    RunEntries(ReadingsAt(thp, id), droneFac, WorkOrdersAt(workorder, id), Iterations(droneFac));
    FacilitySelections(drone, form, thp, workorder, id);
  }

  /** `s` is an order-preserving selection from the input table it was taken from. */
  ghost predicate TakenFrom(s: Slice, thp: seq<Reading>, workorder: seq<WorkOrder>, drone: seq<Detection>) {
    match s
    case PressureRows(rows) => IsSubsequence(rows, thp)
    case WorkOrderRows(rows) => IsSubsequence(rows, workorder)
    case DetectionRows(rows) => IsSubsequence(rows, drone)
  }

  /** Every slice of every stored list is a subsequence of its input table. */
  lemma SlicesPreserveOrder(drone: seq<Detection>, form: seq<Form>, thp: seq<Reading>,
                            workorder: seq<WorkOrder>, id: FacilityId)
    ensures var r := SummaryOf(drone, form, thp, workorder, id);
      r.Found? ==> forall t, k :: t in r.entries && 0 <= k < |r.entries[t]| ==>
        TakenFrom(r.entries[t][k], thp, workorder, drone)
  {
    var thpFac, droneFac, orders0 := ReadingsAt(thp, id), DetectionsAt(drone, id), WorkOrdersAt(workorder, id);
    var entries := Run(thpFac, droneFac, orders0, Iterations(droneFac)).entries;
    RunEntries(thpFac, droneFac, orders0, Iterations(droneFac));
    FacilitySelections(drone, form, thp, workorder, id);
    forall t, k | t in entries && 0 <= k < |entries[t]|
      ensures TakenFrom(entries[t][k], thp, workorder, drone)
    {
      SliceTakenFrom(entries[t], t, k, thpFac, droneFac, orders0, thp, workorder, drone);
    }
  }

  /** A slice of a well-shaped list is taken from the input table that its
      facility selection was taken from. */
  lemma SliceTakenFrom(e: seq<Slice>, t: int, k: int, thpFac: seq<Reading>, droneFac: seq<Detection>, orders0: seq<WorkOrder>,
                       thp: seq<Reading>, workorder: seq<WorkOrder>, drone: seq<Detection>)
    requires EntryShape(e, t, thpFac, droneFac, orders0) && 0 <= k < |e|
    requires IsSubsequence(thpFac, thp) && IsSubsequence(orders0, workorder) && IsSubsequence(droneFac, drone)
    ensures TakenFrom(e[k], thp, workorder, drone)
  {
    if |e| == 3 && k == 0 {
      SubsequenceTransitive(e[0].readings, thpFac, thp);
    } else if k == |e| - 2 {
      SubsequenceTransitive(e[k].orders, orders0, workorder);
    }
  }
}
