/** The vectorised accounting audit: saved cash flows summed by hour bucket and accumulated
    along the mark grid, and its relation to the event-by-event replay. */
module Buckets {
  import opened Reals
  import opened MapSums
  import opened SeqSums
  import opened Accounts
  import opened Legs
  import opened Replay

  const HOUR: int := 3600000

  function CeilHour(ts: int): int { (ts + HOUR - 1) / HOUR * HOUR }

  predicate IsCash(r: Row) { !r.MarkRow? }

  /** The mark at which the vectorised audit books a cash flow. */
  function Bucket(r: Row): int {
    if r.FillRow? && r.fill.reason == Ordinary then r.fill.ts + HOUR else CeilHour(Timestamp(r))
  }

  function SavedFillCash(r: Row): real { if r.FillRow? then r.realizedPnl - r.fill.fee else 0.0 }

  function SavedFunding(r: Row): real { if r.FundingRow? then r.payment else 0.0 }

  function SavedCash(r: Row): real { SavedFillCash(r) + SavedFunding(r) }

  /** The hourly marks after `start` up to and including `end`. */
  datatype Grid = Grid(start: int, end: int) {
    function At(k: int): int { start + HOUR * (k + 1) }

    predicate Has(t: int) { start < t <= end && (t - start) % HOUR == 0 }
  }

  /** Group by bucket and sum: the cash booked at one timestamp. */
  function BucketSum(rows: seq<Row>, cash: Row -> real, t: int): real {
    SumOf(rows, r => if IsCash(r) && Bucket(r) == t then cash(r) else 0.0)
  }

  /** The cumulative sum, over the first k + 1 marks of the grid, of the sums booked at them. */
  function Cumulative(rows: seq<Row>, cash: Row -> real, grid: Grid, k: nat): real {
    SumTo(k + 1, i => BucketSum(rows, cash, grid.At(i)))
  }

  /** The reconstruction at mark k: initial cash, realized and funded cash accumulated over the
      grid (a bucket off the grid is never looked up), and the unrealized profit saved there. */
  ghost function Reconstructed(
      initial: real, rows: seq<Row>, grid: Grid, k: nat, snapshot: map<InstrumentId, Snap>): real
  {
    initial
    + Cumulative(rows, SavedFillCash, grid, k)
    + Cumulative(rows, SavedFunding, grid, k)
    + SavedUnrealized(snapshot)
  }

  ghost function SavedUnrealized(snapshot: map<InstrumentId, Snap>): real {
    Total(map id | id in snapshot :: snapshot[id].unrealPnl)
  }

  // ------------------------------------------------ swapping the summations

  /** Booked at one of the marks 0..k. */
  predicate BookedBy(grid: Grid, k: nat, r: Row) {
    IsCash(r) && grid.start < Bucket(r) <= grid.At(k) && (Bucket(r) - grid.start) % HOUR == 0
  }

  lemma BookedByNext(grid: Grid, k: nat, r: Row)
    ensures BookedBy(grid, k + 1, r) <==> BookedBy(grid, k, r) || (IsCash(r) && Bucket(r) == grid.At(k + 1))
    ensures !(BookedBy(grid, k, r) && Bucket(r) == grid.At(k + 1))
    ensures BookedBy(grid, 0, r) <==> IsCash(r) && Bucket(r) == grid.At(0)
  {}

  function Selected(rows: seq<Row>, cash: Row -> real, grid: Grid, k: nat): real {
    SumOf(rows, r => if BookedBy(grid, k, r) then cash(r) else 0.0)
  }

  /** Summing by bucket and then along the grid is summing the rows booked so far. */
  lemma {:induction false} CumulativeIsSelected(rows: seq<Row>, cash: Row -> real, grid: Grid, k: nat)
    ensures Cumulative(rows, cash, grid, k) == Selected(rows, cash, grid, k)
  {
    var here := r => if IsCash(r) && Bucket(r) == grid.At(k) then cash(r) else 0.0;
    var upTo := r => if BookedBy(grid, k, r) then cash(r) else 0.0;
    assert BucketSum(rows, cash, grid.At(k)) == SumOf(rows, here);
    if k == 0 {
      assert SumTo(0, i => BucketSum(rows, cash, grid.At(i))) == 0.0;
      forall i | 0 <= i < |rows| ensures here(rows[i]) == upTo(rows[i]) { BookedByNext(grid, 0, rows[i]); }
      SumOfEqual(rows, here, upTo);
    } else {
      var before := r => if BookedBy(grid, k - 1, r) then cash(r) else 0.0;
      CumulativeIsSelected(rows, cash, grid, k - 1);
      forall i | 0 <= i < |rows| ensures upTo(rows[i]) == before(rows[i]) + here(rows[i]) {
        BookedByNext(grid, k - 1, rows[i]);
      }
      SumOfAdd(rows, before, here, upTo);
    }
  }

  // --------------------------------------- which rows a mark has already seen

  lemma CeilHourBounds(ts: int)
    ensures ts <= CeilHour(ts) < ts + HOUR
    ensures CeilHour(ts) % HOUR == 0
  {}

  /** Of the cash rows that sort before a mark on the grid, exactly those whose bucket is on the
      grid are booked by it; of those that sort after it, none is. */
  lemma SeenIsBooked(grid: Grid, k: nat, r: Row, mark: Row)
    requires mark.MarkRow? && mark.ts == grid.At(k) <= grid.end && IsCash(r)
    ensures NotAfter(r, mark) ==> (BookedBy(grid, k, r) <==> grid.Has(Bucket(r)))
    ensures NotAfter(mark, r) ==> !BookedBy(grid, k, r)
  {
    CeilHourBounds(Timestamp(r));
    if NotAfter(r, mark) && grid.Has(Bucket(r)) {
      var t := mark.ts;
      assert (t - grid.start) % HOUR == 0;
      assert Bucket(r) < t + HOUR;
      Aligned(grid.start, Bucket(r), t);
    }
  }

  lemma Aligned(start: int, b: int, t: int)
    requires (b - start) % HOUR == 0 && (t - start) % HOUR == 0 && b < t + HOUR
    ensures b <= t
  {
    var x, y := (b - start) / HOUR, (t - start) / HOUR;
    assert b - start == x * HOUR && t - start == y * HOUR;
    assert x < y + 1;
  }

  /** Cash flows whose bucket is not a mark of the grid: the re-indexing drops them. */
  function Lost(grid: Grid, rows: seq<Row>): real {
    SumOf(rows, r => if IsCash(r) && !grid.Has(Bucket(r)) then SavedCash(r) else 0.0)
  }

  function AllSaved(rows: seq<Row>): real { SumOf(rows, r => SavedCash(r)) }

  /** The selected sum over an ordered leg is the whole saved cash before the mark less what the
      grid lost. */
  lemma SelectedIsPrefix(grid: Grid, k: nat, rows: seq<Row>, m: nat)
    requires InOrder(rows) && m < |rows| && rows[m].MarkRow? && rows[m].ts == grid.At(k) <= grid.end
    ensures Selected(rows, SavedFillCash, grid, k) + Selected(rows, SavedFunding, grid, k)
         == AllSaved(rows[..m]) - Lost(grid, rows[..m])
  {
    var selected := r => if BookedBy(grid, k, r) then SavedCash(r) else 0.0;
    var lost := r => if IsCash(r) && !grid.Has(Bucket(r)) then SavedCash(r) else 0.0;
    var front, back := rows[..m], rows[m..];
    forall i | 0 <= i < |front| ensures SavedCash(front[i]) == selected(front[i]) + lost(front[i]) {
      assert NotAfter(rows[i], rows[m]);
      if IsCash(front[i]) { SeenIsBooked(grid, k, front[i], rows[m]); }
    }
    forall i | 0 <= i < |back| ensures selected(back[i]) == 0.0 {
      if i > 0 && IsCash(back[i]) {
        assert NotAfter(rows[m], rows[m + i]);
        SeenIsBooked(grid, k, back[i], rows[m]);
      }
    }
    assert rows == front + back;
    SumOfConcat(front, back, selected);
    SumOfZero(back, selected);
    SumOfAdd(front, selected, lost, r => SavedCash(r));
    var fills: Row -> real := SavedFillCash;
    var funding: Row -> real := SavedFunding;
    SumOfAdd(rows, r => if BookedBy(grid, k, r) then fills(r) else 0.0,
             r => if BookedBy(grid, k, r) then funding(r) else 0.0, selected);
  }

  /** The vectorised cash at mark k is the sequential saved cash before that mark, less what the
      grid lost. */
  lemma BucketedCash(initial: real, rows: seq<Row>, grid: Grid, k: nat, m: nat)
    requires InOrder(rows) && m < |rows| && rows[m].MarkRow? && rows[m].ts == grid.At(k) <= grid.end
    ensures Reconstructed(initial, rows, grid, k, rows[m].snapshot)
         == initial + AllSaved(rows[..m]) - Lost(grid, rows[..m]) + SavedUnrealized(rows[m].snapshot)
  {
    CumulativeIsSelected(rows, SavedFillCash, grid, k);
    CumulativeIsSelected(rows, SavedFunding, grid, k);
    SelectedIsPrefix(grid, k, rows, m);
  }

  // ----------------------------------------------- against the event replay

  /** The cash flow that the replay recomputes for a row. */
  function TrueCash(a: Account, r: Row): real { Step(a, EventOf(r)).cash - a.cash }

  /** Saved less recomputed cash over a run. */
  function Drift(a: Account, rows: seq<Row>): real {
    if rows == [] then 0.0
    else
      var front, r := rows[..|rows| - 1], rows[|rows| - 1];
      Drift(a, front) + SavedCash(r) - TrueCash(Replayed(a, front), r)
  }

  lemma {:induction false} ReplayedCash(a: Account, rows: seq<Row>)
    ensures Replayed(a, rows).cash == a.cash + AllSaved(rows) - Drift(a, rows)
  {
    if rows == [] {
      assert Events(rows) == [];
    } else {
      var n := |rows| - 1;
      ReplayedCash(a, rows[..n]);
      ReplayedStep(a, rows, n);
      assert rows[..n + 1] == rows;
      hide Replayed, Step;
    }
  }

  /** Saved less recomputed unrealized profit at a mark. */
  ghost function UnrealizedDrift(a: Account, snapshot: map<InstrumentId, Snap>): real
    requires snapshot.Keys == a.book.Keys
  {
    SavedUnrealized(snapshot) - Unrealized(a.book, MarksOf(snapshot))
  }

  /** For every ordered leg and every mark: the bucketed reconstruction plus the cash lost off
      the grid equals the replayed net asset value plus the drift of the saved figures. */
  lemma ReconstructionIdentity(initial: real, rows: seq<Row>, grid: Grid, k: nat, m: nat)
    requires InOrder(rows) && m < |rows| && rows[m].MarkRow? && rows[m].ts == grid.At(k) <= grid.end
    requires rows[m].snapshot.Keys == Replayed(Flat(initial), rows[..m]).book.Keys
    ensures var a, snapshot := Replayed(Flat(initial), rows[..m]), rows[m].snapshot;
      Reconstructed(initial, rows, grid, k, snapshot) + Lost(grid, rows[..m])
      == Equity(a, MarksOf(snapshot)) + Drift(Flat(initial), rows[..m]) + UnrealizedDrift(a, snapshot)
  {
    BucketedCash(initial, rows, grid, k, m);
    ReplayedCash(Flat(initial), rows[..m]);
    hide Reconstructed, Lost, AllSaved, Drift, Replayed, SavedUnrealized, Unrealized;
  }

  // --------------------------------------------------- exactly saved tables

  lemma {:induction false} ExactDriftsNot(a: Account, rows: seq<Row>)
    requires Exact(a, rows)
    ensures Drift(a, rows) == 0.0
  {
    if rows != [] {
      var n := |rows| - 1;
      ExactPrefix(a, rows, n);
      ExactDriftsNot(a, rows[..n]);
      assert ExactRow(Replayed(a, rows[..n]), rows[n]);
      hide Replayed, Realized, Payment, Filled;
    }
  }

  /** The vectorised net asset value equals the event-by-event replay at a mark exactly when the
      cash flows before it that were bucketed off the grid add up to nothing. */
  lemma BucketedRefinesReplay(initial: real, rows: seq<Row>, grid: Grid, k: nat, m: nat)
    requires InOrder(rows) && m < |rows| && rows[m].MarkRow? && rows[m].ts == grid.At(k) <= grid.end
    requires Exact(Flat(initial), rows)
    ensures rows[m].snapshot.Keys == Replayed(Flat(initial), rows[..m]).book.Keys
    ensures var a, snapshot := Replayed(Flat(initial), rows[..m]), rows[m].snapshot;
      && Equity(a, MarksOf(snapshot)) - Reconstructed(initial, rows, grid, k, snapshot) == Lost(grid, rows[..m])
  {
    var a, snapshot := Replayed(Flat(initial), rows[..m]), rows[m].snapshot;
    assert ExactRow(a, rows[m]);
    ExactPrefix(Flat(initial), rows, m);
    ExactDriftsNot(Flat(initial), rows[..m]);
    var saved := map id | id in snapshot :: snapshot[id].unrealPnl;
    assert saved == Gains(a.book, MarksOf(snapshot));
    ReconstructionIdentity(initial, rows, grid, k, m);
    hide Reconstructed, Lost, Drift, Replayed, Total;
  }

  /** Which cash flows stay on the grid: ordinary fills at an hour of the grid that the next mark
      follows; other flows on an hour-aligned grid, after its start and up to its last mark. */
  lemma OnGridExactly(grid: Grid, r: Row)
    requires IsCash(r)
    ensures grid.Has(Bucket(r)) <==>
      if r.FillRow? && r.fill.reason == Ordinary then
        (r.fill.ts - grid.start) % 3600000 == 0 && grid.start <= r.fill.ts <= grid.end - 3600000
      else
        grid.start % 3600000 == 0 && grid.start < Timestamp(r) && CeilHour(Timestamp(r)) <= grid.end
  {
    CeilHourBounds(Timestamp(r));
  }

  /** When no cash-bearing row leaves the grid, both reconstructions agree at every mark. */
  lemma OnGridAgrees(initial: real, rows: seq<Row>, grid: Grid, k: nat, m: nat)
    requires InOrder(rows) && m < |rows| && rows[m].MarkRow? && rows[m].ts == grid.At(k) <= grid.end
    requires Exact(Flat(initial), rows)
    requires forall r | r in rows && IsCash(r) && SavedCash(r) != 0.0 :: grid.Has(Bucket(r))
    ensures rows[m].snapshot.Keys == Replayed(Flat(initial), rows[..m]).book.Keys
    ensures Reconstructed(initial, rows, grid, k, rows[m].snapshot)
         == Equity(Replayed(Flat(initial), rows[..m]), MarksOf(rows[m].snapshot))
  {
    BucketedRefinesReplay(initial, rows, grid, k, m);
    SumOfZero(rows[..m], r => if IsCash(r) && !grid.Has(Bucket(r)) then SavedCash(r) else 0.0);
  }

  // ------------------------------------------- a leg on which cash is lost

  const OFF_GRID: FillRecord := FillRecord(HOUR / 2, "A", Buy, 1.0, 1.0, 1.0, Ordinary)

  /** Bought half an hour after the grid starts, for a fee of one, and marked at the first hour. */
  function HalfHourLeg(initial: real): seq<Row> {
    [FillRow(OFF_GRID, 1.0, 0.0), MarkRow(HOUR, map["A" := Snap(1.0, 1.0, 0.0)], initial - 1.0)]
  }

  /** The leg is ordered and exactly saved, and the vectorised value misses its fee. */
  lemma OffGridFeeIsLost(initial: real)
    ensures var rows, grid := HalfHourLeg(initial), Grid(0, HOUR);
      && InOrder(rows) && Exact(Flat(initial), rows) && rows[1].ts == grid.At(0) <= grid.end
      && Lost(grid, rows[..1]) == -1.0
      && Reconstructed(initial, rows, grid, 0, rows[1].snapshot) == rows[1].equity + 1.0
  {
    var rows, grid := HalfHourLeg(initial), Grid(0, HOUR);
    HalfHourExact(initial);
    HalfHourOrder(initial);
    hide *;
    BucketedRefinesReplay(initial, rows, grid, 0, 1);
  }

  lemma HalfHourOrder(initial: real)
    ensures var rows, grid := HalfHourLeg(initial), Grid(0, HOUR);
      && |rows| == 2 && rows[1].MarkRow? && InOrder(rows) && rows[1].ts == grid.At(0) <= grid.end
      && Lost(grid, rows[..1]) == -1.0
  {
    var fill := HalfHourLeg(initial)[0];
    assert HalfHourLeg(initial)[..1] == [] + [fill];
    SumOfAppend([], fill, r => if IsCash(r) && !Grid(0, HOUR).Has(Bucket(r)) then SavedCash(r) else 0.0);
  }

  lemma HalfHourExact(initial: real)
    ensures var rows := HalfHourLeg(initial);
      && Exact(Flat(initial), rows)
      && rows[1].snapshot.Keys == Replayed(Flat(initial), rows[..1]).book.Keys
      && Equity(Replayed(Flat(initial), rows[..1]), MarksOf(rows[1].snapshot)) == rows[1].equity
  {
    var a, fill, mark := Flat(initial), HalfHourLeg(initial)[0], HalfHourLeg(initial)[1];
    HalfHourFill(initial);
    assert Events([]) == [] && Replayed(a, []) == a && Exact(a, []);
    assert HalfHourLeg(initial) == ([] + [fill]) + [mark] && HalfHourLeg(initial)[..1] == [] + [fill];
    hide Exact, ExactRow, Replayed, Step, Equity;
    ExactAppend(a, [], fill);
    HalfHourMark(initial, Replayed(a, [] + [fill]));
    ExactAppend(a, [] + [fill], mark);
  }

  lemma HalfHourFill(initial: real)
    ensures ExactRow(Flat(initial), HalfHourLeg(initial)[0])
    ensures Step(Flat(initial), EventOf(HalfHourLeg(initial)[0]))
         == Account(initial - 1.0, map["A" := Position(1.0, 1.0)])
  {
    var f: Fill := OFF_GRID;
    assert BookFill(Position(0.0, 0.0), 1.0, 1.0) == Booking(0.0, 1.0);
    assert Held(Flat(initial).book, "A") == Position(0.0, 0.0) && Amount(f) == 1.0;
    assert Realized(Flat(initial), f) == 0.0 && Filled(Flat(initial), f) == Position(1.0, 1.0);
    hide BookFill, Filled, Realized;
    assert Flat(initial).book["A" := Position(1.0, 1.0)] == map["A" := Position(1.0, 1.0)];
  }

  lemma HalfHourMark(initial: real, b: Account)
    requires b == Account(initial - 1.0, map["A" := Position(1.0, 1.0)])
    ensures ExactRow(b, HalfHourLeg(initial)[1])
    ensures HalfHourLeg(initial)[1].snapshot.Keys == b.book.Keys
    ensures Equity(b, MarksOf(HalfHourLeg(initial)[1].snapshot)) == HalfHourLeg(initial)[1].equity
  {
    var gains := Gains(b.book, MarksOf(HalfHourLeg(initial)[1].snapshot));
    assert gains == map["A" := 0.0];
    TotalRemove(gains, "A");
    TotalEmpty(gains - {"A"});
  }

  // --------------------------------------------------------- audited tables

  lemma {:induction false} AuditedDrift(a: Account, rows: seq<Row>)
    requires AllOk(a, rows)
    ensures Abs(Drift(a, rows)) <= |rows| as real * PNL_TOLERANCE
  {
    if rows != [] {
      var n := |rows| - 1;
      AllOkPrefix(a, rows, n);
      AuditedDrift(a, rows[..n]);
      assert RowOk(Replayed(a, rows[..n]), rows[n]);
      hide Replayed, Realized, Payment, Filled;
    }
  }

  lemma AbsAdds(x: real, y: real, t: real, u: real, n: nat, tol: real)
    requires Abs(x - y) <= tol && Abs(t - u) <= n as real * tol
    ensures Abs(x + t - (y + u)) <= (n + 1) as real * tol
  {
    assert (n + 1) as real * tol == n as real * tol + tol;
  }

  lemma {:induction false} BoundedTotal<K>(f: map<K, real>, g: map<K, real>, tol: real)
    requires f.Keys == g.Keys
    requires forall k | k in f :: Abs(f[k] - g[k]) <= tol
    ensures Abs(Total(f) - Total(g)) <= |f| as real * tol
    decreases |f|
  {
    hide *;
    if f == map[] {
      TotalEmpty(f);
      TotalEmpty(g);
      NothingBounded(tol);
    } else {
      var k :| k in f;
      TotalRemove(f, k);
      TotalRemove(g, k);
      BoundedTotal(f - {k}, g - {k}, tol);
      SmallerMap(f, k);
      AbsAdds(f[k], g[k], Total(f - {k}), Total(g - {k}), |f - {k}|, tol);
    }
  }

  lemma NothingBounded(tol: real)
    ensures Abs(0.0 - 0.0) <= 0 as real * tol
  {}

  lemma SmallerMap<K>(f: map<K, real>, k: K)
    requires k in f
    ensures |f| == |f - {k}| + 1
  {
    assert f.Keys == (f - {k}).Keys + {k};
  }

  /** A leg that passes the quantity audit is reconstructed by the vectorised audit to within one
      tolerance per row and per position, up to the cash lost off the grid. */
  lemma AuditedReconstruction(initial: real, rows: seq<Row>, grid: Grid, k: nat, m: nat)
    requires InOrder(rows) && m < |rows| && rows[m].MarkRow? && rows[m].ts == grid.At(k) <= grid.end
    requires AllOk(Flat(initial), rows)
    ensures Abs(Reconstructed(initial, rows, grid, k, rows[m].snapshot) + Lost(grid, rows[..m]) - rows[m].equity)
         <= (m + |rows[m].snapshot| + 1) as real * PNL_TOLERANCE
  {
    var a, snapshot := Replayed(Flat(initial), rows[..m]), rows[m].snapshot;
    assert RowOk(a, rows[m]);
    AllOkPrefix(Flat(initial), rows, m);
    hide *;
    AuditedDrift(Flat(initial), rows[..m]);
    AuditedUnrealized(a, rows[m]);
    ReconstructionIdentity(initial, rows, grid, k, m);
    AuditedSum(a, rows[m], Drift(Flat(initial), rows[..m]), UnrealizedDrift(a, snapshot), m);
  }

  lemma AuditedSum(a: Account, row: Row, x: real, y: real, m: nat)
    requires row.MarkRow? && RowOk(a, row)
    requires Abs(x) <= m as real * PNL_TOLERANCE && Abs(y) <= |row.snapshot| as real * PNL_TOLERANCE
    ensures Abs(Equity(a, MarksOf(row.snapshot)) + x + y - row.equity)
         <= (m + |row.snapshot| + 1) as real * PNL_TOLERANCE
  {
    hide Equity;
  }

  lemma AuditedUnrealized(a: Account, row: Row)
    requires row.MarkRow? && RowOk(a, row)
    ensures Abs(UnrealizedDrift(a, row.snapshot)) <= |row.snapshot| as real * PNL_TOLERANCE
  {
    hide Gain, Equity, Total;
    var snapshot := row.snapshot;
    var saved := map id | id in snapshot :: snapshot[id].unrealPnl;
    var gains := Gains(a.book, MarksOf(snapshot));
    forall id | id in saved ensures Abs(saved[id] - gains[id]) <= PNL_TOLERANCE {
      assert SnapOk(a.book[id], snapshot[id]);
    }
    assert saved.Keys == snapshot.Keys && |saved| == |snapshot|;
    BoundedTotal(saved, gains, PNL_TOLERANCE);
  }
}
