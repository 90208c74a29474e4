/** The vectorised audit as a whole: its verdict on a leg, its chain of legs, and its agreement with
    the quantity audit. */
module VectorAudit {
  import opened Reals
  import opened MapSums
  import opened SeqSums
  import opened Sorting
  import opened Accounts
  import opened Legs
  import opened Replay
  import opened Buckets

  /** The number of expected marks. */
  function Size(grid: Grid): nat { if grid.start <= grid.end then (grid.end - grid.start) / HOUR else 0 }

  /** The saved marks are exactly those of the grid; a leg without any has no residual to pass. */
  ghost predicate OnGrid(t: LegTables, grid: Grid) {
    && t.marks != [] && |t.marks| == Size(grid)
    && forall k | 0 <= k < |t.marks| :: t.marks[k].MarkRow? && t.marks[k].ts == grid.At(k)
  }

  ghost predicate MarkPasses(initial: real, t: LegTables, grid: Grid, k: nat)
    requires k < |t.marks| && t.marks[k].MarkRow?
  {
    Abs(t.marks[k].equity - Reconstructed(initial, t.fills + t.funding, grid, k, t.marks[k].snapshot)) < NAV_TOLERANCE
  }

  ghost predicate VectorPasses(initial: real, t: LegTables, grid: Grid) {
    OnGrid(t, grid) && forall k: nat | k < |t.marks| :: MarkPasses(initial, t, grid, k)
  }

  method SumUnrealized(snapshot: map<InstrumentId, Snap>) returns (sum: real)
    ensures sum == SavedUnrealized(snapshot)
  {
    sum := 0.0;
    var todo := snapshot.Keys;
    ghost var done: map<InstrumentId, real> := map[];
    TotalEmpty(done);
    hide Total;
    while todo != {}
      invariant todo <= snapshot.Keys
      invariant done == map id | id in snapshot && id !in todo :: snapshot[id].unrealPnl
      invariant sum == Total(done)
      decreases |todo|
    {
      var id :| id in todo;
      todo := todo - {id};
      sum := sum + snapshot[id].unrealPnl;
      TotalPut(done, id, snapshot[id].unrealPnl);
      assert id !in done && done - {id} == done;
      done := done[id := snapshot[id].unrealPnl];
    }
    assert done == map id | id in snapshot :: snapshot[id].unrealPnl;
  }

  /** One leg: the marks must be the expected grid, and every residual within tolerance. */
  method VectorLeg(initial: real, t: LegTables, grid: Grid) returns (passed: bool)
    requires t.Valid()
    ensures passed <==> VectorPasses(initial, t, grid)
  {
    hide Cumulative, SavedUnrealized, Abs;
    if t.marks == [] || |t.marks| != Size(grid) { return false; }
    var cash := t.fills + t.funding;
    for k := 0 to |t.marks|
      invariant forall i | 0 <= i < k :: t.marks[i].MarkRow? && t.marks[i].ts == grid.At(i)
      invariant forall i: nat | i < k :: MarkPasses(initial, t, grid, i)
    {
      var mark := t.marks[k];
      assert mark in t.marks;
      if mark.ts != grid.At(k) { return false; }
      var unrealized := SumUnrealized(mark.snapshot);
      var reconstructed :=
        initial + Cumulative(cash, SavedFillCash, grid, k) + Cumulative(cash, SavedFunding, grid, k) + unrealized;
      assert MarkPasses(initial, t, grid, k) <==> Abs(mark.equity - reconstructed) < NAV_TOLERANCE;
      if !(Abs(mark.equity - reconstructed) < NAV_TOLERANCE) { return false; }
    }
    passed := true;
  }

  // ------------------------------------------------ what a verdict means

  /** Marks an hour apart from the grid's first hour to its last. */
  ghost predicate Hourly(ts: seq<int>, grid: Grid) {
    && ts != [] && ts[0] == grid.start + 3600000
    && (forall k | 0 < k < |ts| :: ts[k] == ts[k - 1] + 3600000)
    && ts[|ts| - 1] <= grid.end < ts[|ts| - 1] + 3600000
  }

  function StampsOf(marks: seq<Row>): (ts: seq<int>)
    ensures |ts| == |marks|
  {
    seq(|marks|, i requires 0 <= i < |marks| => Timestamp(marks[i]))
  }

  /** The saved cash of a row booked on a whole hour after the grid's start and by the time t. */
  function OnTheHour(grid: Grid, t: int): Row -> real {
    (r: Row) => if grid.start < Bucket(r) <= t && (Bucket(r) - grid.start) % 3600000 == 0 then SavedCash(r) else 0.0
  }

  /** The saved equity is the start, plus the saved cash of every row booked on the hour by then, plus
      the unrealized profit saved at the mark. */
  ghost predicate EquityCertified(initial: real, cash: seq<Row>, grid: Grid, mark: Row)
    requires mark.MarkRow?
  {
    Abs(mark.equity
        - (initial
           + SumOf(cash, OnTheHour(grid, mark.ts))
           + SavedUnrealized(mark.snapshot))) < 0.000001
  }

  lemma {:induction false} HourlyFrom(ts: seq<int>, grid: Grid, k: nat)
    requires k < |ts| && ts[0] == grid.start + 3600000 && forall i | 0 < i < |ts| :: ts[i] == ts[i - 1] + 3600000
    ensures ts[k] == grid.At(k)
  {
    if k > 0 { HourlyFrom(ts, grid, k - 1); }
  }

  lemma SizeIs(grid: Grid, n: nat)
    requires n > 0
    ensures Size(grid) == n <==> grid.start + 3600000 * n <= grid.end < grid.start + 3600000 * (n + 1)
  {
    var d := grid.end - grid.start;
    if d >= 0 {
      var q, r := d / HOUR, d % HOUR;
      assert d == q * HOUR + r && 0 <= r < HOUR;
    }
  }

  lemma GridExactly(t: LegTables, grid: Grid)
    requires t.Valid()
    ensures OnGrid(t, grid) <==> Hourly(StampsOf(t.marks), grid)
  {
    var ts := StampsOf(t.marks);
    forall k | 0 <= k < |ts| ensures t.marks[k].MarkRow? && ts[k] == t.marks[k].ts { assert t.marks[k] in t.marks; }
    if ts != [] {
      SizeIs(grid, |ts|);
      if Hourly(ts, grid) {
        forall k | 0 <= k < |ts| ensures ts[k] == grid.At(k) { HourlyFrom(ts, grid, k); }
      }
      if OnGrid(t, grid) {
        forall k | 0 <= k < |ts| ensures ts[k] == grid.At(k) { assert t.marks[k].ts == grid.At(k); }
      }
    }
    hide Size;
  }

  lemma BookedCash(cash: seq<Row>, grid: Grid, k: nat)
    requires forall r | r in cash :: IsCash(r)
    ensures Cumulative(cash, SavedFillCash, grid, k) + Cumulative(cash, SavedFunding, grid, k)
         == SumOf(cash, OnTheHour(grid, grid.At(k)))
  {
    CumulativeIsSelected(cash, SavedFillCash, grid, k);
    CumulativeIsSelected(cash, SavedFunding, grid, k);
    var f := (r: Row) => if BookedBy(grid, k, r) then SavedFillCash(r) else 0.0;
    var g := (r: Row) => if BookedBy(grid, k, r) then SavedFunding(r) else 0.0;
    SelectedIs(cash, SavedFillCash, grid, k, f);
    SelectedIs(cash, SavedFunding, grid, k, g);
    var h := OnTheHour(grid, grid.At(k));
    forall i | 0 <= i < |cash| ensures h(cash[i]) == f(cash[i]) + g(cash[i]) { assert cash[i] in cash; }
    SumOfAdd(cash, f, g, h);
    hide Cumulative, SumOf, Selected;
  }

  /** What the verdict on a leg means: hourly marks over the whole grid, each with an equity that its own
      saved cash flows and unrealized profits add up to. */
  lemma VectorPassesMeans(initial: real, t: LegTables, grid: Grid)
    requires t.Valid()
    ensures VectorPasses(initial, t, grid) <==>
      && Hourly(StampsOf(t.marks), grid)
      && forall mark | mark in t.marks :: EquityCertified(initial, t.fills + t.funding, grid, mark)
  {
    GridExactly(t, grid);
    if OnGrid(t, grid) {
      hide SavedUnrealized, Cumulative, SumOf, OnTheHour, Hourly;
      forall k: nat | k < |t.marks|
        ensures MarkPasses(initial, t, grid, k) <==> EquityCertified(initial, t.fills + t.funding, grid, t.marks[k])
      {
        BookedCash(t.fills + t.funding, grid, k);
      }
    }
  }

  /** The value a leg hands to the next: its last saved equity. */
  function LastEquity(t: LegTables): real {
    if t.marks != [] && t.marks[|t.marks| - 1].MarkRow? then t.marks[|t.marks| - 1].equity else 0.0
  }

  /** The value carried into leg i. */
  function Carried(initial: real, legs: seq<LegTables>, i: nat): real
    requires i <= |legs|
  {
    if i == 0 then initial else LastEquity(legs[i - 1])
  }

  ghost predicate LegOk(initial: real, legs: seq<LegTables>, grids: seq<Grid>, i: nat)
    requires i < |legs| == |grids|
  {
    VectorPasses(Carried(initial, legs, i), legs[i], grids[i])
  }

  /** The leg loop: each leg starts from the last equity of the one before. */
  method VectorChain(initial: real, legs: seq<LegTables>, grids: seq<Grid>) returns (passed: bool, nav: real)
    requires |grids| == |legs| && forall t | t in legs :: t.Valid()
    ensures passed <==> forall i: nat | i < |legs| :: LegOk(initial, legs, grids, i)
    ensures passed ==> nav == Carried(initial, legs, |legs|)
  {
    hide VectorPasses;
    nav := initial;
    for i := 0 to |legs|
      invariant nav == Carried(initial, legs, i)
      invariant forall j: nat | j < i :: LegOk(initial, legs, grids, j)
    {
      assert legs[i] in legs;
      passed := VectorLeg(nav, legs[i], grids[i]);
      assert passed <==> LegOk(initial, legs, grids, i);
      if !passed { return; }
      nav := LastOf(legs[i]);
    }
    passed := true;
  }

  method LastOf(t: LegTables) returns (equity: real)
    requires t.Valid()
    ensures equity == LastEquity(t)
  {
    equity := 0.0;
    if t.marks != [] {
      assert t.marks[|t.marks| - 1] in t.marks;
      equity := t.marks[|t.marks| - 1].equity;
    }
  }

  // --------------------------------------------------- a leg's verdict

  lemma SelectedInAnyOrder(t: LegTables, cash: Row -> real, grid: Grid, k: nat)
    requires t.Valid()
    ensures Selected(t.Rows(), cash, grid, k) == Selected(t.fills + t.funding, cash, grid, k)
  {
    var f := (r: Row) => if BookedBy(grid, k, r) then cash(r) else 0.0;
    var all := t.fills + t.funding + t.marks;
    SortRowsSorts(all);
    SumOfPermutation(all, t.Rows(), f);
    SumOfConcat(t.fills + t.funding, t.marks, f);
    forall i | 0 <= i < |t.marks| ensures f(t.marks[i]) == 0.0 { assert t.marks[i] in t.marks; }
    SumOfZero(t.marks, f);
    SelectedIs(t.Rows(), cash, grid, k, f);
    SelectedIs(t.fills + t.funding, cash, grid, k, f);
  }

  lemma SelectedIs(rows: seq<Row>, cash: Row -> real, grid: Grid, k: nat, f: Row -> real)
    requires forall r :: f(r) == if BookedBy(grid, k, r) then cash(r) else 0.0
    ensures Selected(rows, cash, grid, k) == SumOf(rows, f)
  {
    SumOfEqual(rows, f, r => if BookedBy(grid, k, r) then cash(r) else 0.0);
  }

  /** The tables may be summed in any order. */
  lemma ReconstructedInAnyOrder(initial: real, t: LegTables, grid: Grid, k: nat, snapshot: map<InstrumentId, Snap>)
    requires t.Valid()
    ensures Reconstructed(initial, t.Rows(), grid, k, snapshot)
         == Reconstructed(initial, t.fills + t.funding, grid, k, snapshot)
  {
    CumulativeIsSelected(t.Rows(), SavedFillCash, grid, k);
    CumulativeIsSelected(t.Rows(), SavedFunding, grid, k);
    CumulativeIsSelected(t.fills + t.funding, SavedFillCash, grid, k);
    CumulativeIsSelected(t.fills + t.funding, SavedFunding, grid, k);
    SelectedInAnyOrder(t, SavedFillCash, grid, k);
    SelectedInAnyOrder(t, SavedFunding, grid, k);
    hide Cumulative, Selected, SavedUnrealized;
  }

  lemma RowsAreTables(t: LegTables, r: Row)
    requires t.Valid()
    ensures InOrder(t.Rows())
    ensures r in t.marks <==> r in t.Rows() && r.MarkRow?
  {
    SortRowsSorts(t.fills + t.funding + t.marks);
    SameMembers(t.fills + t.funding + t.marks, t.Rows());
  }

  lemma GridCovers(grid: Grid, k: nat)
    requires k < Size(grid)
    ensures grid.At(k) <= grid.end
  {
    var n := Size(grid);
    assert n * HOUR <= grid.end - grid.start;
    assert (k + 1) * HOUR <= n * HOUR;
  }

  /** On exactly saved tables a mark passes exactly when what was lost off the grid before it is
      within the tolerance. */
  lemma MarkPassesExactly(initial: real, t: LegTables, grid: Grid, k: nat, m: nat)
    requires t.Valid() && OnGrid(t, grid) && Exact(Flat(initial), t.Rows())
    requires k < |t.marks| && m < |t.Rows()| && t.Rows()[m] == t.marks[k]
    ensures MarkPasses(initial, t, grid, k) <==> Abs(Lost(grid, t.Rows()[..m])) < NAV_TOLERANCE
  {
    var rows, mark := t.Rows(), t.marks[k];
    RowsAreTables(t, mark);
    GridCovers(grid, k);
    assert ExactRow(Replayed(Flat(initial), rows[..m]), rows[m]);
    ReconstructedInAnyOrder(initial, t, grid, k, mark.snapshot);
    hide Reconstructed, Replayed, Lost, Equity, SortRows;
    BucketedRefinesReplay(initial, rows, grid, k, m);
  }

  /** Its verdict on an exactly saved leg: pass exactly when the cash lost off the grid stays within
      the tolerance at every mark. */
  lemma VectorPassesExactly(initial: real, t: LegTables, grid: Grid)
    requires t.Valid() && OnGrid(t, grid) && Exact(Flat(initial), t.Rows())
    ensures VectorPasses(initial, t, grid) <==>
      forall m | 0 <= m < |t.Rows()| && t.Rows()[m].MarkRow? :: Abs(Lost(grid, t.Rows()[..m])) < NAV_TOLERANCE
  {
    var rows := t.Rows();
    hide MarkPasses, Lost, Exact, SortRows, Abs;
    if VectorPasses(initial, t, grid) {
      forall m | 0 <= m < |rows| && rows[m].MarkRow? ensures Abs(Lost(grid, rows[..m])) < NAV_TOLERANCE {
        RowsAreTables(t, rows[m]);
        var k: nat :| k < |t.marks| && t.marks[k] == rows[m];
        MarkPassesExactly(initial, t, grid, k, m);
      }
    } else {
      var k: nat :| k < |t.marks| && !MarkPasses(initial, t, grid, k);
      RowsAreTables(t, t.marks[k]);
      var m: nat :| m < |rows| && rows[m] == t.marks[k];
      MarkPassesExactly(initial, t, grid, k, m);
    }
  }

  // ------------------------------------------------- both audits' chains

  /** Every leg is saved exactly from the value chained so far and ends in its last mark. */
  ghost predicate ExactChain(initial: real, legs: seq<LegTables>) {
    legs == [] ||
    var n := |legs| - 1;
    && ExactChain(initial, legs[..n])
    && ChainMarked(initial, AsLegs(legs[..n]))
    && ExactLeg(ChainedNav(initial, AsLegs(legs[..n])), legs[n])
  }

  ghost predicate ExactLeg(initial: real, t: LegTables) {
    && t.Valid() && t.marks != []
    && Exact(Flat(initial), t.Rows())
    && t.Rows() != [] && t.Rows()[|t.Rows()| - 1] == t.marks[|t.marks| - 1]
  }

  /** An exact leg passes the quantity audit, and its boundary value is its last saved equity. */
  lemma ExactLegValue(initial: real, t: LegTables)
    requires ExactLeg(initial, t)
    ensures LegPasses(initial, t)
    ensures Equity(Replayed(Flat(initial), t.Rows()), MarksOf(t.Last())) == LastEquity(t)
  {
    var rows := t.Rows();
    var n := |rows| - 1;
    assert t.marks[|t.marks| - 1] in t.marks;
    ExactPasses(Flat(initial), rows);
    ReplayedStep(Flat(initial), rows, n);
    assert rows[..n + 1] == rows;
    assert ExactRow(Replayed(Flat(initial), rows[..n]), rows[n]);
    hide Replayed, Exact, AllOk, Equity, SortRows;
  }

  lemma ExactChainStep(initial: real, legs: seq<LegTables>)
    requires ExactChain(initial, legs) && legs != []
    ensures var n := |legs| - 1;
      && ExactChain(initial, legs[..n]) && ChainMarked(initial, AsLegs(legs[..n]))
      && ExactLeg(ChainedNav(initial, AsLegs(legs[..n])), legs[n])
      && legs[..n + 1] == legs && Carried(initial, legs, n + 1) == LastEquity(legs[n])
  {
    hide ExactLeg, ChainedNav, AsLegs, ChainMarked;
  }

  lemma {:induction false} ExactLegsValid(initial: real, legs: seq<LegTables>)
    requires ExactChain(initial, legs)
    ensures forall i | 0 <= i < |legs| :: legs[i].Valid() && legs[i].marks != []
  {
    hide *;
    if legs != [] {
      var n := |legs| - 1;
      ExactChainStep(initial, legs);
      ExactLegIs(ChainedNav(initial, AsLegs(legs[..n])), legs[n]);
      ExactLegsValid(initial, legs[..n]);
      forall i | 0 <= i < |legs| ensures legs[i].Valid() && legs[i].marks != [] {
        if i < n { assert legs[..n][i] == legs[i]; }
      }
    }
  }

  /** On exactly saved legs both audits carry the same value into and out of every leg. */
  lemma {:induction false} AuditsCarryTheSame(initial: real, legs: seq<LegTables>)
    requires ExactChain(initial, legs)
    ensures forall t | t in legs :: t.Valid() && t.marks != []
    ensures ChainPasses(initial, legs) && ChainMarked(initial, AsLegs(legs))
    ensures ChainedNav(initial, AsLegs(legs)) == Carried(initial, legs, |legs|)
  {
    ExactLegsValid(initial, legs);
    if legs == [] {
      ChainStarts(initial);
    } else {
      hide *;
      ExactChainStep(initial, legs);
      var n := |legs| - 1;
      AuditsCarryTheSame(initial, legs[..n]);
      ExactLegValue(ChainedNav(initial, AsLegs(legs[..n])), legs[n]);
      ChainContinues(initial, legs, n);
    }
  }

  /** What the vectorised audit demands of an exactly saved leg: the grid's own marks, and no more
      than the tolerance lost off the grid before any of them. */
  ghost predicate KeptOnGrid(t: LegTables, grid: Grid) {
    && OnGrid(t, grid)
    && forall m | 0 <= m < |t.Rows()| && t.Rows()[m].MarkRow? :: Abs(Lost(grid, t.Rows()[..m])) < NAV_TOLERANCE
  }

  lemma KeptExactly(initial: real, t: LegTables, grid: Grid)
    requires ExactLeg(initial, t)
    ensures VectorPasses(initial, t, grid) <==> KeptOnGrid(t, grid)
  {
    ExactLegIs(initial, t);
    if OnGrid(t, grid) { VectorPassesExactly(initial, t, grid); }
  }

  /** So on exactly saved legs, where the quantity audit passes, the vectorised audit passes a leg
      exactly when it is kept on the grid. */
  lemma AuditsAgree(initial: real, legs: seq<LegTables>, grids: seq<Grid>, i: nat)
    requires i < |legs| == |grids| && ExactChain(initial, legs[..i + 1])
    ensures LegOk(initial, legs, grids, i) <==> KeptOnGrid(legs[i], grids[i])
  {
    var upTo := legs[..i + 1];
    assert upTo[..i] == legs[..i] && upTo[i] == legs[i];
    var nav, t := Carried(initial, legs, i), legs[i];
    assert Carried(initial, legs[..i], i) == nav;
    assert LegOk(initial, legs, grids, i) <==> VectorPasses(nav, t, grids[i]);
    hide *;
    ExactChainStep(initial, upTo);
    AuditsCarryTheSame(initial, legs[..i]);
    ExactLegIs(nav, t);
    KeptExactly(nav, t, grids[i]);
  }

  lemma ExactLegIs(initial: real, t: LegTables)
    requires ExactLeg(initial, t)
    ensures t.Valid() && t.marks != [] && Exact(Flat(initial), t.Rows())
  {}
}
