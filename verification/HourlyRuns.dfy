/** A run of hourly bars also passes the vectorised audit: every one of its cash flows falls into the
    bucket of its own bar. */
module HourlyRuns {
  import opened SeqSums
  import opened Reals
  import opened Sorting
  import opened Accounts
  import opened Legs
  import opened Replay
  import opened Buckets
  import opened VectorAudit
  import opened Ledger
  import opened Reconciliation
  import opened Engine

  /** Hourly bars from the top of an hour. */
  ghost predicate Hourly(open: int, bars: seq<Bar>) {
    open % HOUR == 0 && forall i: nat | i < |bars| :: bars[i].close == open + HOUR * (i + 1)
  }

  function RunGrid(open: int, bars: seq<Bar>): Grid { Grid(open, open + HOUR * |bars|) }

  lemma GridSize(open: int, bars: seq<Bar>)
    ensures Size(RunGrid(open, bars)) == |bars|
  {
    assert HOUR * |bars| / HOUR == |bars|;
  }

  /** A row of an hourly bar is booked at that bar's close. */
  lemma BookedAtClose(r: Row, close: int)
    requires close % HOUR == 0 && IsCash(r) && InBar(r, close - HOUR, close)
    ensures Bucket(r) == close
  {
    AlignedUp(Timestamp(r), close);
    AlignedUp(close, close);
  }

  lemma CloseIsAligned(open: int, i: nat)
    requires open % HOUR == 0
    ensures (open + HOUR * (i + 1)) % HOUR == 0
  {
    assert open == open / HOUR * HOUR;
    assert open + HOUR * (i + 1) == (open / HOUR + i + 1) * HOUR;
  }

  lemma CloseIsOnGrid(open: int, i: nat, n: nat)
    requires i < n
    ensures Grid(open, open + HOUR * n).Has(open + HOUR * (i + 1))
  {
    assert open + HOUR * (i + 1) - open == (i + 1) * HOUR;
    assert HOUR * (i + 1) <= HOUR * n;
  }

  lemma AlignedUp(ts: int, close: int)
    requires close % HOUR == 0
    ensures close - HOUR < ts <= close ==> CeilHour(ts) == close
  {
    CeilHourBounds(ts);
    var x, y := CeilHour(ts) / HOUR, close / HOUR;
    assert CeilHour(ts) == x * HOUR && close == y * HOUR;
  }

  lemma BookedInRun(r: Row, open: int, bars: seq<Bar>)
    requires Hourly(open, bars) && IsCash(r) && InSomeBar(r, open, bars, |bars|)
    ensures RunGrid(open, bars).Has(Bucket(r))
  {
    var i: nat :| i < |bars| && InBar(r, OpenOf(open, bars, i), bars[i].close);
    var close := open + HOUR * (i + 1);
    assert bars[i].close == close && OpenOf(open, bars, i) == close - HOUR;
    assert RunGrid(open, bars) == Grid(open, open + HOUR * |bars|);
    hide *;
    CloseIsAligned(open, i);
    BookedAtClose(r, close);
    CloseIsOnGrid(open, i, |bars|);
  }

  lemma AllBooked(log: seq<Row>, open: int, bars: seq<Bar>)
    requires Hourly(open, bars) && forall r | r in log :: InSomeBar(r, open, bars, |bars|)
    ensures forall r | r in log && IsCash(r) :: RunGrid(open, bars).Has(Bucket(r))
  {
    hide *;
    forall r | r in log && IsCash(r) ensures RunGrid(open, bars).Has(Bucket(r)) {
      BookedInRun(r, open, bars);
    }
  }

  lemma NothingLost(rows: seq<Row>, grid: Grid, m: nat)
    requires m <= |rows| && forall r | r in rows && IsCash(r) :: grid.Has(Bucket(r))
    ensures Lost(grid, rows[..m]) == 0.0
  {
    SumOfZero(rows[..m], r => if IsCash(r) && !grid.Has(Bucket(r)) then SavedCash(r) else 0.0);
  }

  lemma MarksOnGrid(marks: seq<Row>, ts: seq<int>, values: seq<real>, open: int, bars: seq<Bar>)
    requires CurveOf(marks, ts, values) && Hourly(open, bars) && bars != []
    requires |ts| == |bars| && forall i | 0 <= i < |ts| :: ts[i] == bars[i].close
    ensures marks != [] && |marks| == Size(RunGrid(open, bars))
    ensures forall k | 0 <= k < |marks| :: marks[k].MarkRow? && marks[k].ts == RunGrid(open, bars).At(k)
  {
    GridSize(open, bars);
  }

  /** Whatever an hourly run trades, its saved tables pass the vectorised audit on the run's grid. */
  lemma HourlyRunPasses(l: Ledger, open: int, bars: seq<Bar>)
    requires RunOf(l, open, bars, |bars|) && Hourly(open, bars) && bars != []
    ensures TablesOf(l.log).Valid()
    ensures VectorPasses(l.initialCash, TablesOf(l.log), RunGrid(open, bars))
  {
    var initial, log, t := l.initialCash, l.log, TablesOf(l.log);
    RunIs(l, open, bars, |bars|);
    assert Logged(initial, l.View(), log) && CurveOf(OfKind(log, MarkKind), l.equityTs, l.equityValues);
    LoggedIsExact(initial, l.View(), log);
    hide *;
    SavedTablesSortBack(log);
    SortKeepsExact(Flat(initial), log);
    TablesAre(log);
    MarksOnGrid(t.marks, l.equityTs, l.equityValues, open, bars);
    AllBooked(log, open, bars);
    SortRowsSorts(log);
    SameMembers(log, SortRows(log));
    KeptPasses(initial, t, RunGrid(open, bars));
  }

  /** The saved tables of any perpetual-futures run that ends in a mark are exact, hourly or not: what
      the comparison of the two audits asks of a leg. */
  lemma RunIsExactLeg(l: Ledger)
    requires l.Valid() && l.plain
    requires Loose(l.log) && l.log != [] && l.log[|l.log| - 1].MarkRow?
    ensures ExactLeg(l.initialCash, TablesOf(l.log))
  {
    hide *;
    var initial, log := l.initialCash, l.log;
    PlainIsExact(l);
    SavedTablesSortBack(log);
    SortKeepsExact(Flat(initial), log);
    MarksEnd(log);
    ExactLegFrom(initial, TablesOf(log), log[|log| - 1]);
  }

  lemma PlainIsExact(l: Ledger)
    requires l.Valid() && l.plain
    ensures Exact(Flat(l.initialCash), l.log)
  {
    hide Balanced, Curve, Exact, Replayed;
  }

  lemma MarksEnd(log: seq<Row>)
    requires log != [] && log[|log| - 1].MarkRow?
    ensures !log[|log| - 1].FundingRow?
    ensures TablesOf(log).marks != [] && TablesOf(log).marks[|TablesOf(log).marks| - 1] == log[|log| - 1]
  {
    OfKindAppend(log[..|log| - 1], log[|log| - 1], MarkKind);
    assert log == log[..|log| - 1] + [log[|log| - 1]];
  }

  lemma ExactLegFrom(initial: real, t: LegTables, last: Row)
    requires t.Valid() && t.marks != [] && t.marks[|t.marks| - 1] == last
    requires Exact(Flat(initial), t.Rows()) && t.Rows() != [] && t.Rows()[|t.Rows()| - 1] == last
    ensures ExactLeg(initial, t)
  {}

  lemma LoggedIsExact(initial: real, a: Account, log: seq<Row>)
    requires Logged(initial, a, log)
    ensures Exact(Flat(initial), log)
  {}

  lemma KeptPasses(initial: real, t: LegTables, grid: Grid)
    requires t.Valid() && Exact(Flat(initial), t.Rows())
    requires t.marks != [] && |t.marks| == Size(grid)
    requires forall k | 0 <= k < |t.marks| :: t.marks[k].MarkRow? && t.marks[k].ts == grid.At(k)
    requires forall r | r in t.Rows() && IsCash(r) :: grid.Has(Bucket(r))
    ensures VectorPasses(initial, t, grid)
  {
    var rows := t.Rows();
    hide Lost, Exact, SortRows, MarkPasses;
    VectorPassesExactly(initial, t, grid);
    forall m | 0 <= m < |rows| && rows[m].MarkRow? ensures Abs(Lost(grid, rows[..m])) < NAV_TOLERANCE {
      NothingLost(rows, grid, m);
    }
  }
}
