/** Implementation shortfall: each order's cost split at the session open into delay, execution and
    opportunity, and the notional-weighted sum of the parts. */
module Shortfall {
  import opened Reals
  import opened SeqSums

  const BPS: real := 10000.0
  const MAX_ABS_MOVE: real := 0.30

  /** A day of prices; a frame lists days in ascending order. */
  datatype Bar = Bar(day: int, open: real, close: real)

  /** `done` is the status "filled"; a missing fill price or filled quantity reads as zero. */
  datatype Order = Order(
    instrument: string, session: int, buy: bool, qty: real, done: bool, fillPrice: real, filledQty: real)

  datatype Row = Row(notional: real, fraction: real, delay: real, execution: real, opportunity: real)

  datatype Verdict = Usable(row: Row) | NoBar | Implausible | ZeroQuantity

  type Bars = map<string, seq<Bar>>

  ghost predicate Ascending(frame: seq<Bar>) { forall i, j | 0 <= i < j < |frame| :: frame[i].day < frame[j].day }

  /** The number of days before the session: the session's own place in the frame, if it has one. */
  function DaysBefore(frame: seq<Bar>, session: int): (k: nat)
    ensures k <= |frame|
  {
    if frame == [] then 0
    else if frame[|frame| - 1].day < session then |frame|
    else DaysBefore(frame[..|frame| - 1], session)
  }

  lemma {:induction false} DaysBeforeSplits(frame: seq<Bar>, session: int)
    requires Ascending(frame)
    ensures forall i | 0 <= i < |frame| :: frame[i].day < session <==> i < DaysBefore(frame, session)
  {
    if frame != [] && frame[|frame| - 1].day >= session {
      DaysBeforeSplits(frame[..|frame| - 1], session);
    }
  }

  /** The prices an order is decomposed against: the last close before its session, and the
      session's own open and close. */
  datatype Prices = Prices(decision: real, open: real, close: real) | Missing

  function PricesOf(frame: seq<Bar>, session: int): Prices {
    var k := DaysBefore(frame, session);
    if k < |frame| && frame[k].day == session && k > 0
    then Prices(frame[k - 1].close, frame[k].open, frame[k].close)
    else Missing
  }

  /** Prices are missing exactly when the frame lacks the session or any earlier day; otherwise the
      decision is the close of the latest earlier day. */
  lemma PricesExactly(frame: seq<Bar>, session: int)
    requires Ascending(frame)
    ensures PricesOf(frame, session).Prices?
       <==> (exists b :: b in frame && b.day == session) && exists b :: b in frame && b.day < session
    ensures PricesOf(frame, session).Prices? ==> exists now, prior ::
      && now in frame && now.day == session && prior in frame && prior.day < session
      && (forall b | b in frame && b.day < session :: b.day <= prior.day)
      && PricesOf(frame, session) == Prices(prior.close, now.open, now.close)
  {
    DaysBeforeSplits(frame, session);
    var k := DaysBefore(frame, session);
    if PricesOf(frame, session).Prices? {
      var now, prior := frame[k], frame[k - 1];
      assert now in frame && prior in frame;
      forall b | b in frame && b.day < session ensures b.day <= prior.day {
        var i :| 0 <= i < |frame| && frame[i] == b;
      }
    } else if b :| b in frame && b.day == session {
      var i :| 0 <= i < |frame| && frame[i] == b;
      assert i >= k && frame[k].day <= frame[i].day;
      forall e | e in frame ensures !(e.day < session) { var j :| 0 <= j < |frame| && frame[j] == e; }
    }
  }

  function Sign(o: Order): real { if o.buy then 1.0 else -1.0 }

  function FilledFraction(o: Order): real
    requires o.qty != 0.0
  {
    Min(1.0, o.filledQty / o.qty)
  }

  predicate Filled(o: Order)
    requires o.qty != 0.0
  {
    o.done && o.fillPrice != 0.0 && FilledFraction(o) > 0.0
  }

  function Fraction(o: Order): real
    requires o.qty != 0.0
  {
    if Filled(o) then FilledFraction(o) else 0.0
  }

  function Bps(o: Order, later: real, earlier: real, decision: real): real
    requires decision != 0.0
  {
    Sign(o) * (later - earlier) / decision * BPS
  }

  predicate Plausible(p: Prices)
    requires p.Prices?
  {
    p.decision > 0.0 && Max(Abs(p.open / p.decision - 1.0), Abs(p.close / p.decision - 1.0)) <= MAX_ABS_MOVE
  }

  function RowOf(o: Order, p: Prices): Row
    requires o.qty != 0.0 && p.Prices? && p.decision > 0.0
  {
    Row(p.decision * o.qty, Fraction(o),
      Bps(o, p.open, p.decision, p.decision),
      if Filled(o) then Bps(o, o.fillPrice, p.open, p.decision) else 0.0,
      Bps(o, p.close, p.decision, p.decision))
  }

  function PricesFor(o: Order, bars: Bars): Prices {
    if o.instrument in bars then PricesOf(bars[o.instrument], o.session) else Missing
  }

  function Classify(o: Order, bars: Bars): Verdict {
    if o.qty == 0.0 then ZeroQuantity
    else
      var p := PricesFor(o, bars);
      if p.Missing? then NoBar
      else if !Plausible(p) then Implausible
      else Usable(RowOf(o, p))
  }

  /** The rows of the usable orders, in order. */
  function Rows(orders: seq<Order>, bars: Bars): seq<Row> {
    if orders == [] then []
    else
      var out := Classify(orders[|orders| - 1], bars);
      Rows(orders[..|orders| - 1], bars) + if out.Usable? then [out.row] else []
  }

  function Excluded(orders: seq<Order>, bars: Bars, out: Verdict): nat {
    if orders == [] then 0
    else
      Excluded(orders[..|orders| - 1], bars, out) + if Classify(orders[|orders| - 1], bars) == out then 1 else 0
  }

  /** Every order read becomes a row or is counted under exactly one exclusion. */
  method Decompose(orders: seq<Order>, bars: Bars)
    returns (rows: seq<Row>, noBar: nat, implausible: nat, zeroQuantity: nat)
    ensures rows == Rows(orders, bars)
    ensures noBar == Excluded(orders, bars, NoBar)
    ensures implausible == Excluded(orders, bars, Implausible)
    ensures zeroQuantity == Excluded(orders, bars, ZeroQuantity)
    ensures |rows| + noBar + implausible + zeroQuantity == |orders|
  {
    hide Classify;
    rows, noBar, implausible, zeroQuantity := [], 0, 0, 0;
    for i := 0 to |orders|
      invariant rows == Rows(orders[..i], bars)
      invariant noBar == Excluded(orders[..i], bars, NoBar)
      invariant implausible == Excluded(orders[..i], bars, Implausible)
      invariant zeroQuantity == Excluded(orders[..i], bars, ZeroQuantity)
      invariant |rows| + noBar + implausible + zeroQuantity == i
    {
      assert orders[..i + 1][..i] == orders[..i];
      match Classify(orders[i], bars) {
        case Usable(row) => rows := rows + [row];
        case NoBar => noBar := noBar + 1;
        case Implausible => implausible := implausible + 1;
        case ZeroQuantity => zeroQuantity := zeroQuantity + 1;
      }
    }
    assert orders[..|orders|] == orders;
  }

  // ------------------------------------------------------------- totals

  /** The cost of a row in basis-point dollars: delay and execution on what filled, opportunity on
      the rest. */
  function RowCost(r: Row): real {
    (r.delay + r.execution) * (r.notional * r.fraction) + r.opportunity * (r.notional * (1.0 - r.fraction))
  }

  function TotalCost(rows: seq<Row>): real {
    if rows == [] then 0.0 else TotalCost(rows[..|rows| - 1]) + RowCost(rows[|rows| - 1])
  }

  function TotalNotional(rows: seq<Row>): real {
    if rows == [] then 0.0 else TotalNotional(rows[..|rows| - 1]) + rows[|rows| - 1].notional
  }

  const HALF_SPREAD: real := 2.5

  function FilledWeight(r: Row): real { r.notional * r.fraction }

  function UnfilledWeight(r: Row): real { r.notional * (1.0 - r.fraction) }

  function Delay(r: Row): real { r.delay }

  function Execution(r: Row): real { r.execution }

  function Opportunity(r: Row): real { r.opportunity }

  function Notional(r: Row): real { r.notional }

  function Weighted(value: Row -> real, weight: Row -> real): Row -> real { (r: Row) => value(r) * weight(r) }

  lemma TermsAre(r: Row)
    ensures Weighted(Delay, Notional)(r) == r.delay * r.notional
    ensures Weighted(Delay, FilledWeight)(r) == r.delay * FilledWeight(r)
    ensures Weighted(Execution, FilledWeight)(r) == r.execution * FilledWeight(r)
    ensures Weighted(Opportunity, UnfilledWeight)(r) == r.opportunity * UnfilledWeight(r)
  {
    var delay: Row -> real := Delay;
    var execution: Row -> real := Execution;
    var opportunity: Row -> real := Opportunity;
    var notional: Row -> real := Notional;
    assert delay(r) == r.delay && notional(r) == r.notional;
    assert execution(r) == r.execution && opportunity(r) == r.opportunity;
    hide FilledWeight, UnfilledWeight;
  }

  /** A weighted average; without weight there is none. */
  datatype Average = Undefined | Average(value: real)

  ghost predicate Averages(a: Average, rows: seq<Row>, value: Row -> real, weight: Row -> real) {
    if SumOf(rows, weight) == 0.0 then a == Undefined
    else a.Average? && a.value * SumOf(rows, weight) == SumOf(rows, Weighted(value, weight))
  }

  method WeightedAverage(rows: seq<Row>, value: Row -> real, weight: Row -> real) returns (a: Average)
    ensures Averages(a, rows, value, weight)
  {
    var total, sum := 0.0, 0.0;
    var term := Weighted(value, weight);
    for i := 0 to |rows|
      invariant total == SumOf(rows[..i], weight) && sum == SumOf(rows[..i], term)
    {
      assert rows[..i + 1][..i] == rows[..i];
      total := total + weight(rows[i]);
      sum := sum + term(rows[i]);
    }
    assert rows[..|rows|] == rows;
    if total == 0.0 { return Undefined; }
    Quotient(sum, total, sum / total);
    return Average(sum / total);
  }

  /** The report of a frame: nothing but the order count without rows, an error when its notional is
      zero. */
  datatype Summary =
    | NoOrders
    | ZeroDivision
    | Summary(
        orders: nat, notional: real, delay: Average, execution: Average, opportunity: Average,
        shortfall: real, atOpen: real, fillRate: real)

  /** The three averages, each over the quantity it applies to, and the shortfall, the at-open
      benchmark and the fill rate in shares of the decision notional. */
  method Summarize(rows: seq<Row>) returns (s: Summary)
    ensures s.NoOrders? <==> rows == []
    ensures s.ZeroDivision? <==> rows != [] && TotalNotional(rows) == 0.0
    ensures s.Summary? ==>
      && s.orders == |rows| && s.notional == TotalNotional(rows)
      && Averages(s.delay, rows, Delay, FilledWeight)
      && Averages(s.execution, rows, Execution, FilledWeight)
      && Averages(s.opportunity, rows, Opportunity, UnfilledWeight)
      && s.shortfall * s.notional == TotalCost(rows)
      && (s.atOpen - 2.5) * s.notional == SumOf(rows, Weighted(Delay, Notional))
      && s.fillRate * s.notional == SumOf(rows, FilledWeight)
  {
    hide *;
    if rows == [] { return NoOrders; }
    var total, onFilled, onUnfilled, gap, filled := Totals(rows);
    if total == 0.0 { return ZeroDivision; }
    var delay := WeightedAverage(rows, Delay, FilledWeight);
    var execution := WeightedAverage(rows, Execution, FilledWeight);
    var opportunity := WeightedAverage(rows, Opportunity, UnfilledWeight);
    var shortfall, open, rate := Share(onFilled + onUnfilled, total), Share(gap, total), Share(filled, total);
    ShareIs(onFilled + onUnfilled, total);
    ShareIs(gap, total);
    SpreadAdded(open, total, gap);
    ShareIs(filled, total);
    return Summary(|rows|, total, delay, execution, opportunity, shortfall, open + HALF_SPREAD, rate);
  }

  function Share(x: real, total: real): real
    requires total != 0.0
  {
    x / total
  }

  lemma ShareIs(x: real, total: real)
    requires total != 0.0
    ensures Share(x, total) * total == x
  {}

  lemma SpreadAdded(open: real, total: real, gap: real)
    requires open * total == gap
    ensures (open + HALF_SPREAD - 2.5) * total == gap
  {
    assert open + HALF_SPREAD - 2.5 == open;
  }

  method Totals(rows: seq<Row>) returns (total: real, onFilled: real, onUnfilled: real, gap: real, filled: real)
    ensures total == TotalNotional(rows) && onFilled + onUnfilled == TotalCost(rows)
    ensures gap == SumOf(rows, Weighted(Delay, Notional)) && filled == SumOf(rows, FilledWeight)
  {
    total, onFilled, onUnfilled, gap, filled := 0.0, 0.0, 0.0, 0.0, 0.0;
    for i := 0 to |rows|
      invariant total == TotalNotional(rows[..i]) && onFilled + onUnfilled == TotalCost(rows[..i])
      invariant gap == SumOf(rows[..i], Weighted(Delay, Notional)) && filled == SumOf(rows[..i], FilledWeight)
    {
      assert rows[..i + 1][..i] == rows[..i];
      var r := rows[i];
      TermsAre(r);
      total := total + r.notional;
      onFilled := onFilled + (r.delay + r.execution) * FilledWeight(r);
      onUnfilled := onUnfilled + r.opportunity * UnfilledWeight(r);
      gap := gap + r.delay * r.notional;
      filled := filled + FilledWeight(r);
    }
    assert rows[..|rows|] == rows;
  }

  /** The shortfall is made of its reported averages: delay and execution on the filled share, the
      opportunity on the rest. */
  lemma AveragesAddUp(rows: seq<Row>, delay: real, execution: real, opportunity: real)
    requires Averages(Average(delay), rows, Delay, FilledWeight)
    requires Averages(Average(execution), rows, Execution, FilledWeight)
    requires Averages(Average(opportunity), rows, Opportunity, UnfilledWeight)
    ensures TotalCost(rows)
         == (delay + execution) * SumOf(rows, FilledWeight) + opportunity * SumOf(rows, UnfilledWeight)
  {
    CostSplits(rows);
    var f, u := SumOf(rows, FilledWeight), SumOf(rows, UnfilledWeight);
    assert (delay + execution) * f == delay * f + execution * f;
  }

  lemma {:induction false} CostSplits(rows: seq<Row>)
    ensures TotalCost(rows)
         == SumOf(rows, Weighted(Delay, FilledWeight)) + SumOf(rows, Weighted(Execution, FilledWeight))
            + SumOf(rows, Weighted(Opportunity, UnfilledWeight))
  {
    if rows != [] {
      CostSplits(rows[..|rows| - 1]);
      OneCost(rows[|rows| - 1]);
    }
  }

  lemma OneCost(r: Row)
    ensures RowCost(r) == Weighted(Delay, FilledWeight)(r) + Weighted(Execution, FilledWeight)(r)
         + Weighted(Opportunity, UnfilledWeight)(r)
  {
    TermsAre(r);
    assert (r.delay + r.execution) * FilledWeight(r) == r.delay * FilledWeight(r) + r.execution * FilledWeight(r);
  }

  /** What an order cost in dollars against its decision price: the filled part at its fill price,
      the rest at the session close. The session open does not appear. */
  function Dollars(o: Order, decision: real, close: real): real
    requires o.qty != 0.0
  {
    Sign(o) * o.qty * (Fraction(o) * o.fillPrice + (1.0 - Fraction(o)) * close - decision)
  }

  /** A part weighted by its notional is that part in dollars. */
  lemma PartInDollars(o: Order, later: real, earlier: real, decision: real, w: real)
    requires decision > 0.0
    ensures Bps(o, later, earlier, decision) * (decision * o.qty * w) == BPS * (Sign(o) * o.qty * w * (later - earlier))
  {
    var move := Sign(o) * (later - earlier);
    var q := move / decision;
    Quotient(move, decision, q);
    assert q * BPS * (decision * o.qty * w) == BPS * (q * decision) * (o.qty * w);
  }

  lemma RowInDollars(o: Order, p: Prices)
    requires o.qty != 0.0 && p.Prices? && p.decision > 0.0
    ensures RowCost(RowOf(o, p)) == BPS * Dollars(o, p.decision, p.close)
  {
    var f := Fraction(o);
    var r := RowOf(o, p);
    PartInDollars(o, p.open, p.decision, p.decision, f);
    PartInDollars(o, o.fillPrice, p.open, p.decision, f);
    PartInDollars(o, p.close, p.decision, p.decision, 1.0 - f);
    assert Filled(o) || f == 0.0;
    var s := Sign(o) * o.qty;
    assert r.execution * (r.notional * f) == BPS * (s * f * (o.fillPrice - p.open))
        || (f == 0.0 && r.execution == 0.0);
    hide Bps, Fraction, Filled;
    Combine(r.delay, r.execution, r.opportunity, r.notional, f, s, p.open, p.decision, o.fillPrice, p.close);
  }

  lemma Combine(
      delay: real, execution: real, opportunity: real, notional: real, f: real, s: real,
      open: real, decision: real, fill: real, close: real)
    requires delay * (notional * f) == BPS * (s * f * (open - decision))
    requires execution * (notional * f) == BPS * (s * f * (fill - open)) || (f == 0.0 && execution == 0.0)
    requires opportunity * (notional * (1.0 - f)) == BPS * (s * (1.0 - f) * (close - decision))
    ensures (delay + execution) * (notional * f) + opportunity * (notional * (1.0 - f))
         == BPS * (s * (f * fill + (1.0 - f) * close - decision))
  {
    if f != 0.0 {
      assert s * f * (open - decision) + s * f * (fill - open) == s * f * (fill - decision);
    }
    assert s * f * (fill - decision) + s * (1.0 - f) * (close - decision)
        == s * (f * fill + (1.0 - f) * close - decision);
  }

  /** The dollar shortfall of the usable orders. */
  function TotalDollars(orders: seq<Order>, bars: Bars): real {
    if orders == [] then 0.0
    else
      var o := orders[|orders| - 1];
      TotalDollars(orders[..|orders| - 1], bars)
      + if Classify(o, bars).Usable? then Dollars(o, PricesFor(o, bars).decision, PricesFor(o, bars).close) else 0.0
  }

  /** The weighted parts add up to the dollar shortfall of the usable orders. */
  lemma {:induction false} ShortfallIsDollars(orders: seq<Order>, bars: Bars)
    ensures TotalCost(Rows(orders, bars)) == BPS * TotalDollars(orders, bars)
  {
    if orders != [] {
      var front, o := orders[..|orders| - 1], orders[|orders| - 1];
      ShortfallIsDollars(front, bars);
      if Classify(o, bars).Usable? {
        var row := Classify(o, bars).row;
        RowInDollars(o, PricesFor(o, bars));
        assert (Rows(front, bars) + [row])[..|Rows(front, bars)|] == Rows(front, bars);
        hide RowOf, RowCost, Dollars;
      } else {
        assert Rows(orders, bars) == Rows(front, bars);
      }
    }
  }

  /** Bars that differ in their session opens alone. */
  ghost predicate SameButOpens(orders: seq<Order>, bars: Bars, others: Bars) {
    forall o | o in orders && o.qty != 0.0 ::
      && Classify(o, bars).Usable? == Classify(o, others).Usable?
      && (Classify(o, bars).Usable? ==>
            && PricesFor(o, bars).decision == PricesFor(o, others).decision
            && PricesFor(o, bars).close == PricesFor(o, others).close)
  }

  /** Where the open falls moves cost between delay and execution, never the total. */
  lemma {:induction false} OpensCancel(orders: seq<Order>, bars: Bars, others: Bars)
    requires SameButOpens(orders, bars, others)
    ensures TotalCost(Rows(orders, bars)) == TotalCost(Rows(orders, others))
    ensures TotalNotional(Rows(orders, bars)) == TotalNotional(Rows(orders, others))
  {
    if orders != [] {
      var front, o := orders[..|orders| - 1], orders[|orders| - 1];
      OpensCancel(front, bars, others);
      assert o in orders;
      if Classify(o, bars).Usable? {
        RowInDollars(o, PricesFor(o, bars));
        RowInDollars(o, PricesFor(o, others));
        var x, y := Classify(o, bars).row, Classify(o, others).row;
        assert RowCost(x) == RowCost(y) && x.notional == y.notional;
        assert (Rows(front, bars) + [x])[..|Rows(front, bars)|] == Rows(front, bars);
        assert (Rows(front, others) + [y])[..|Rows(front, others)|] == Rows(front, others);
        hide RowOf, RowCost, Dollars;
      } else {
        assert Rows(orders, bars) == Rows(front, bars) && Rows(orders, others) == Rows(front, others);
      }
    }
  }

  // --------------------------------------------------- each part by itself

  datatype Part = Delayed | Executed | Missed

  function PartOf(r: Row, part: Part): real {
    match part
    case Delayed => r.delay
    case Executed => r.execution
    case Missed => r.opportunity
  }

  /** What the order's whole quantity loses, in dollars, when the price moves from one to the other: a
      buyer loses by a rise, a seller by a fall. */
  function Moved(o: Order, before: real, after: real): real {
    (if o.buy then 1.0 else -1.0) * o.qty * (after - before)
  }

  /** The order came back filled, at a price, for some of its quantity. */
  predicate FillReported(o: Order)
    requires o.qty != 0.0
  {
    o.done && o.fillPrice != 0.0 && o.filledQty / o.qty > 0.0
  }

  /** Delay is the move from the decision to the open, execution from the open to the fill, and the
      opportunity from the decision to the close. */
  function PartDollars(o: Order, p: Prices, part: Part): real
    requires o.qty != 0.0 && p.Prices?
  {
    match part
    case Delayed => Moved(o, p.decision, p.open)
    case Executed => if FillReported(o) then Moved(o, p.open, o.fillPrice) else 0.0
    case Missed => Moved(o, p.decision, p.close)
  }

  lemma BpsInDollars(o: Order, later: real, earlier: real, decision: real, notional: real)
    requires decision > 0.0 && notional == decision * o.qty
    ensures Bps(o, later, earlier, decision) * notional == 10000.0 * Moved(o, earlier, later)
  {
    PartInDollars(o, later, earlier, decision, 1.0);
    hide Bps;
  }

  /** The parts of a usable order, each in dollars, its notional, and how much of it counts as filled. */
  lemma PartsAre(o: Order, bars: Bars)
    requires Classify(o, bars).Usable?
    ensures o.qty != 0.0 && PricesFor(o, bars).Prices?
    ensures var r, p := Classify(o, bars).row, PricesFor(o, bars);
      && r.notional == p.decision * o.qty
      && forall part :: PartOf(r, part) * r.notional == 10000.0 * PartDollars(o, p, part)
    ensures var r := Classify(o, bars).row;
      if FillReported(o) then
        0.0 < r.fraction <= 1.0 && r.fraction <= o.filledQty / o.qty
        && (r.fraction == 1.0 || r.fraction == o.filledQty / o.qty)
      else r.fraction == 0.0
  {
    UsableIs(o, bars);
    var p := PricesFor(o, bars);
    hide *;
    RowParts(o, p);
    RowFilled(o, p);
  }

  lemma UsableIs(o: Order, bars: Bars)
    requires Classify(o, bars).Usable?
    ensures o.qty != 0.0
    ensures var p := PricesFor(o, bars); p.Prices? && p.decision > 0.0 && Classify(o, bars).row == RowOf(o, p)
  {
    hide RowOf, PricesFor;
  }

  lemma RowFilled(o: Order, p: Prices)
    requires o.qty != 0.0 && p.Prices? && p.decision > 0.0
    ensures var r := RowOf(o, p);
      if FillReported(o) then
        0.0 < r.fraction <= 1.0 && r.fraction <= o.filledQty / o.qty
        && (r.fraction == 1.0 || r.fraction == o.filledQty / o.qty)
      else r.fraction == 0.0
  {
    hide Bps;
  }

  lemma RowParts(o: Order, p: Prices)
    requires o.qty != 0.0 && p.Prices? && p.decision > 0.0
    ensures var r := RowOf(o, p);
      && r.notional == p.decision * o.qty
      && forall part :: PartOf(r, part) * r.notional == 10000.0 * PartDollars(o, p, part)
  {
    hide *;
    var n := p.decision * o.qty;
    BpsInDollars(o, p.open, p.decision, p.decision, n);
    BpsInDollars(o, p.close, p.decision, p.decision, n);
    BpsInDollars(o, o.fillPrice, p.open, p.decision, n);
    RowFields(o, p);
    var r := RowOf(o, p);
    forall part ensures PartOf(r, part) * n == 10000.0 * PartDollars(o, p, part) {
      DollarsFields(o, p, r, part);
    }
  }

  lemma RowFields(o: Order, p: Prices)
    requires o.qty != 0.0 && p.Prices? && p.decision > 0.0
    ensures var r := RowOf(o, p);
      && r.notional == p.decision * o.qty
      && r.delay == Bps(o, p.open, p.decision, p.decision)
      && r.execution == (if FillReported(o) then Bps(o, o.fillPrice, p.open, p.decision) else 0.0)
      && r.opportunity == Bps(o, p.close, p.decision, p.decision)
  {
    assert Filled(o) <==> FillReported(o);
    hide Bps;
  }

  lemma DollarsFields(o: Order, p: Prices, r: Row, part: Part)
    requires o.qty != 0.0 && p.Prices?
    ensures part == Delayed ==> PartOf(r, part) == r.delay && PartDollars(o, p, part) == Moved(o, p.decision, p.open)
    ensures part == Executed ==>
      PartOf(r, part) == r.execution
      && PartDollars(o, p, part) == (if FillReported(o) then Moved(o, p.open, o.fillPrice) else 0.0)
    ensures part == Missed ==>
      PartOf(r, part) == r.opportunity && PartDollars(o, p, part) == Moved(o, p.decision, p.close)
  {
    hide Moved, FillReported;
  }

  /** A part over all usable orders, in dollars. */
  function TotalPart(orders: seq<Order>, bars: Bars, part: Part): real {
    if orders == [] then 0.0
    else
      var o := orders[|orders| - 1];
      TotalPart(orders[..|orders| - 1], bars, part)
      + if Classify(o, bars).Usable? then PartDollars(o, PricesFor(o, bars), part) else 0.0
  }

  function InNotional(part: Part): Row -> real { (r: Row) => PartOf(r, part) * r.notional }

  lemma RowsGrow(orders: seq<Order>, bars: Bars, part: Part)
    requires orders != []
    ensures var front, out := orders[..|orders| - 1], Classify(orders[|orders| - 1], bars);
      SumOf(Rows(orders, bars), InNotional(part))
      == SumOf(Rows(front, bars), InNotional(part)) + if out.Usable? then InNotional(part)(out.row) else 0.0
  {
    var front, out := orders[..|orders| - 1], Classify(orders[|orders| - 1], bars);
    if out.Usable? {
      SumOfAppend(Rows(front, bars), out.row, InNotional(part));
    } else {
      assert Rows(orders, bars) == Rows(front, bars);
    }
    hide Classify, InNotional;
  }

  lemma TotalGrows(orders: seq<Order>, bars: Bars, part: Part)
    requires orders != []
    ensures var front, o := orders[..|orders| - 1], orders[|orders| - 1];
      TotalPart(orders, bars, part)
      == TotalPart(front, bars, part)
         + if Classify(o, bars).Usable? then PartDollars(o, PricesFor(o, bars), part) else 0.0
  {
    hide Classify, PartDollars, PricesFor;
  }

  lemma NoParts(bars: Bars, part: Part)
    ensures SumOf(Rows([], bars), InNotional(part)) == 0.0 == TotalPart([], bars, part)
  {}

  lemma PartIs(o: Order, bars: Bars, part: Part)
    requires Classify(o, bars).Usable?
    ensures o.qty != 0.0 && PricesFor(o, bars).Prices?
    ensures InNotional(part)(Classify(o, bars).row) == 10000.0 * PartDollars(o, PricesFor(o, bars), part)
  {
    PartsAre(o, bars);
    hide Classify, PartDollars, PricesFor, PartOf;
  }

  /** Over the rows of a decomposition every part adds up to its dollars. */
  lemma {:induction false} PartsAddUp(orders: seq<Order>, bars: Bars, part: Part)
    ensures SumOf(Rows(orders, bars), InNotional(part)) == 10000.0 * TotalPart(orders, bars, part)
  {
    hide *;
    if orders == [] {
      NoParts(bars, part);
    } else {
      var o := orders[|orders| - 1];
      PartsAddUp(orders[..|orders| - 1], bars, part);
      RowsGrow(orders, bars, part);
      TotalGrows(orders, bars, part);
      if Classify(o, bars).Usable? { PartIs(o, bars, part); }
    }
  }

  // ------------------------------------------------------ which orders count

  ghost predicate WithinMove(price: real, decision: real) { 0.7 * decision <= price <= 1.3 * decision }

  lemma MoveExactly(price: real, decision: real)
    requires decision > 0.0
    ensures Abs(price / decision - 1.0) <= MAX_ABS_MOVE <==> WithinMove(price, decision)
  {
    var q := price / decision;
    Quotient(price, decision, q);
    if q >= 0.7 {
      Scaled(decision, 0.7, q, decision * 0.7, decision * q);
    } else {
      StrictlyScaled(decision, q, 0.7, decision * q, decision * 0.7);
    }
    if q <= 1.3 {
      Scaled(decision, q, 1.3, decision * q, decision * 1.3);
    } else {
      StrictlyScaled(decision, 1.3, q, decision * 1.3, decision * q);
    }
  }

  /** Why an order is left out: no quantity first, then no bar or no earlier one, then a decision price
      that is not positive or an open or close more than 30% away from it. */
  lemma ClassifyExactly(o: Order, bars: Bars)
    ensures Classify(o, bars).ZeroQuantity? <==> o.qty == 0.0
    ensures Classify(o, bars).NoBar? <==> o.qty != 0.0 && PricesFor(o, bars).Missing?
    ensures Classify(o, bars).Usable? <==>
      && o.qty != 0.0 && PricesFor(o, bars).Prices?
      && var p := PricesFor(o, bars);
         p.decision > 0.0 && WithinMove(p.open, p.decision) && WithinMove(p.close, p.decision)
    ensures PricesFor(o, bars).Prices? ==>
      o.instrument in bars && PricesFor(o, bars) == PricesOf(bars[o.instrument], o.session)
  {
    var p := PricesFor(o, bars);
    if p.Prices? && p.decision > 0.0 {
      MoveExactly(p.open, p.decision);
      MoveExactly(p.close, p.decision);
    }
    hide WithinMove, RowOf, Abs, PricesOf;
  }
}
