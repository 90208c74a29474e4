/** The quantity audit: replaying a leg's saved fills, funding and marks in event order, and
    checking every saved number against the recomputed one. */
module Replay {
  import opened Sorting
  import opened Reals
  import opened MapSums
  import opened Accounts
  import opened Conservation
  import opened Legs

  /** One saved position at a mark. */
  datatype Snap = Snap(qty: real, mark: real, unrealPnl: real)

  /** A saved record: what happened, and the figures the engine stored beside it. */
  datatype Row =
    | FillRow(fill: Fill, notional: real, realizedPnl: real)
    | FundingRow(funding: Funding, positionQty: real, payment: real)
    | MarkRow(ts: int, snapshot: map<InstrumentId, Snap>, equity: real)

  function EventOf(row: Row): Event {
    match row
    case FillRow(f, _, _) => Trade(f)
    case FundingRow(f, _, _) => Settle(f)
    case MarkRow(ts, _, _) => Close(ts)
  }

  function Events(rows: seq<Row>): seq<Event> { seq(|rows|, i requires 0 <= i < |rows| => EventOf(rows[i])) }

  function Replayed(a: Account, rows: seq<Row>): Account { Run(a, Events(rows)) }

  lemma ReplayedStep(a: Account, rows: seq<Row>, i: nat)
    requires i < |rows|
    ensures Replayed(a, rows[..i + 1]) == Step(Replayed(a, rows[..i]), EventOf(rows[i]))
  {
    assert Events(rows[..i + 1])[..i] == Events(rows[..i]);
  }

  datatype Kind = FillKind | FundingKind | MarkKind

  function KindOf(r: Row): Kind {
    match r
    case FillRow(_, _, _) => FillKind
    case FundingRow(_, _, _) => FundingKind
    case MarkRow(_, _, _) => MarkKind
  }

  /** The rows of one kind, in the order they come. */
  function OfKind(rows: seq<Row>, kind: Kind): seq<Row> { Filter(rows, (r: Row) => KindOf(r) == kind) }

  lemma OfKindAppend(rows: seq<Row>, r: Row, kind: Kind)
    ensures OfKind(rows + [r], kind) == OfKind(rows, kind) + if KindOf(r) == kind then [r] else []
  {
    FilterAppend(rows, r, (q: Row) => KindOf(q) == kind);
  }

  lemma OfOtherKind(rows: seq<Row>, r: Row, kind: Kind)
    requires KindOf(r) != kind
    ensures OfKind(rows + [r], kind) == OfKind(rows, kind)
  {
    OfKindAppend(rows, r, kind);
  }

  // -------------------------------------------------------------- ordering

  function Timestamp(row: Row): int {
    match row
    case FillRow(f, _, _) => f.ts
    case FundingRow(f, _, _) => f.ts
    case MarkRow(ts, _, _) => ts
  }

  /** Within a timestamp: funding, then terminal fills, then the mark, then ordinary fills. */
  function Priority(row: Row): int {
    match row
    case FillRow(f, _, _) => if f.reason == Ordinary then 3 else 1
    case FundingRow(_, _, _) => 0
    case MarkRow(_, _, _) => 2
  }

  predicate NotAfter(r: Row, s: Row) {
    Timestamp(r) < Timestamp(s) || (Timestamp(r) == Timestamp(s) && Priority(r) <= Priority(s))
  }

  ghost predicate InOrder(rows: seq<Row>) {
    forall i, j | 0 <= i < j < |rows| :: NotAfter(rows[i], rows[j])
  }

  function SortRows(rows: seq<Row>): seq<Row> { Sort(rows, NotAfter) }

  predicate SameKey(r: Row, s: Row) { Timestamp(r) == Timestamp(s) && Priority(r) == Priority(s) }

  /** The rows with the key of `k`, in the order they come. */
  function WithKey(rows: seq<Row>, k: Row): seq<Row> { Filter(rows, (r: Row) => SameKey(r, k)) }

  function Matching(r: Row, k: Row): seq<Row> { if SameKey(r, k) then [r] else [] }

  lemma WithKeyAppend(rows: seq<Row>, r: Row, k: Row)
    ensures WithKey(rows + [r], k) == WithKey(rows, k) + Matching(r, k)
  {
    assert (rows + [r])[..|rows|] == rows;
  }

  /** The replay order: sorted by (timestamp, priority), the same rows, and stable. */
  lemma SortRowsSorts(rows: seq<Row>)
    ensures InOrder(SortRows(rows))
    ensures multiset(SortRows(rows)) == multiset(rows)
    ensures forall k :: WithKey(SortRows(rows), k) == WithKey(rows, k)
  {
    assert Preorder(NotAfter);
    SortSorts(rows, NotAfter);
    forall k ensures WithKey(SortRows(rows), k) == WithKey(rows, k) {
      SortIsStable(rows, NotAfter, (r: Row) => SameKey(r, k));
    }
  }

  // ---------------------------------------------------------------- checks

  const NAV_TOLERANCE: real := 0.000001
  const PNL_TOLERANCE: real := 0.000001
  const QTY_TOLERANCE: real := 0.00000001
  const FUNDING_TOLERANCE: real := 0.0000001

  function MarksOf(snapshot: map<InstrumentId, Snap>): Marks { map id | id in snapshot :: snapshot[id].mark }

  ghost function NavResidual(a: Account, row: Row): real
    requires row.MarkRow? && row.snapshot.Keys == a.book.Keys
  {
    Abs(Equity(a, MarksOf(row.snapshot)) - row.equity)
  }

  function RealizedResidual(a: Account, row: Row): real
    requires row.FillRow?
  {
    Abs(Realized(a, row.fill) - row.realizedPnl)
  }

  function FundingResidual(a: Account, row: Row): real
    requires row.FundingRow?
  {
    Abs(Payment(a.book, row.funding) - row.payment)
  }

  predicate SnapOk(p: Position, s: Snap) {
    Abs(p.qty - s.qty) < QTY_TOLERANCE && Abs(Gain(p, s.mark) - s.unrealPnl) < PNL_TOLERANCE
  }

  /** Every assertion made about one row, in the state that precedes it. */
  ghost predicate RowOk(a: Account, row: Row) {
    match row
    case FillRow(f, notional, _) =>
      && Abs(notional - Abs(Amount(f)) * f.price) < PNL_TOLERANCE
      && RealizedResidual(a, row) < PNL_TOLERANCE
    case FundingRow(f, positionQty, _) =>
      && Abs(Quantity(a.book, f.instrument) - positionQty) < QTY_TOLERANCE
      && FundingResidual(a, row) < FUNDING_TOLERANCE
    case MarkRow(_, snapshot, _) =>
      && snapshot.Keys == a.book.Keys
      && (forall id | id in snapshot :: SnapOk(a.book[id], snapshot[id]))
      && NavResidual(a, row) < NAV_TOLERANCE
  }

  ghost predicate AllOk(a: Account, rows: seq<Row>) {
    forall i | 0 <= i < |rows| :: RowOk(Replayed(a, rows[..i]), rows[i])
  }

  /** A row whose saved figures are exactly the recomputed ones. */
  ghost predicate ExactRow(a: Account, row: Row) {
    match row
    case FillRow(f, notional, realizedPnl) =>
      notional == Abs(Amount(f)) * f.price && realizedPnl == Realized(a, f)
    case FundingRow(f, positionQty, payment) =>
      positionQty == Quantity(a.book, f.instrument) && payment == Payment(a.book, f)
    case MarkRow(_, snapshot, equity) =>
      && snapshot.Keys == a.book.Keys
      && (forall id | id in snapshot ::
            && snapshot[id].qty == a.book[id].qty
            && snapshot[id].unrealPnl == Gain(a.book[id], snapshot[id].mark))
      && equity == Equity(a, MarksOf(snapshot))
  }

  ghost predicate Exact(a: Account, rows: seq<Row>) {
    forall i | 0 <= i < |rows| :: ExactRow(Replayed(a, rows[..i]), rows[i])
  }

  lemma ExactRowIsOk(a: Account, row: Row)
    requires ExactRow(a, row)
    ensures RowOk(a, row)
  {
    hide Amount, Realized, Payment, Gain, Equity;
  }

  /** Exactly saved tables pass the audit. */
  lemma ExactPasses(a: Account, rows: seq<Row>)
    requires Exact(a, rows)
    ensures AllOk(a, rows)
  {
    forall i | 0 <= i < |rows| ensures RowOk(Replayed(a, rows[..i]), rows[i]) {
      ExactRowIsOk(Replayed(a, rows[..i]), rows[i]);
    }
  }

  lemma ExactPrefix(a: Account, rows: seq<Row>, n: nat)
    requires n <= |rows| && Exact(a, rows)
    ensures Exact(a, rows[..n])
  {
    forall i | 0 <= i < n ensures ExactRow(Replayed(a, rows[..n][..i]), rows[..n][i]) {
      assert rows[..n][..i] == rows[..i];
      assert ExactRow(Replayed(a, rows[..i]), rows[i]);
    }
  }

  /** Appending one exact row. */
  lemma ExactAppend(a: Account, rows: seq<Row>, row: Row)
    requires Exact(a, rows) && ExactRow(Replayed(a, rows), row)
    ensures Exact(a, rows + [row])
    ensures Replayed(a, rows + [row]) == Step(Replayed(a, rows), EventOf(row))
  {
    var more := rows + [row];
    assert more[..|rows|] == rows;
    forall i | 0 <= i < |more| ensures ExactRow(Replayed(a, more[..i]), more[i]) {
      if i < |rows| {
        assert more[..i] == rows[..i];
        assert ExactRow(Replayed(a, rows[..i]), rows[i]);
      }
    }
    ReplayedStep(a, more, |rows|);
    assert more[..|rows| + 1] == more;
  }

  /** An account replayed in place, with the running maxima of the three residuals. */
  class LegReplay {
    var cash: real
    var book: Book
    var maximum: real
    var realizedError: real
    var fundingError: real

    function Now(): Account
      reads this
    {
      Account(cash, book)
    }

    constructor (initial: real)
      ensures Now() == Flat(initial)
      ensures maximum == realizedError == fundingError == 0.0
    {
      cash := initial;
      book := map[];
      maximum, realizedError, fundingError := 0.0, 0.0, 0.0;
    }

    /** The branches of one fill: increase, or reduce, close and flip. */
    static method BookOne(held: Position, amount: real, price: real) returns (realized: real, newavg: real)
      requires amount != 0.0
      ensures Booking(realized, newavg) == BookFill(held, amount, price)
      ensures Cost(Position(held.qty + amount, newavg)) == Cost(held) + amount * price + realized
    {
      BookingConserves(held, amount, price);
      hide BookFill, Abs, Min;
      var q, avg := held.qty, held.avg;
      realized := 0.0;
      if q == 0.0 || q * amount > 0.0 {
        SizesAdd(q, amount);
        newavg := (Abs(q) * avg + Abs(amount) * price) / (Abs(q) + Abs(amount));
        AddIs(held, amount, price, Abs(q) + Abs(amount), newavg);
      } else {
        var closed, sign := Min(Abs(q), Abs(amount)), if q > 0.0 then 1.0 else -1.0;
        realized := closed * (price - avg) * sign;
        newavg := if Abs(amount) > Abs(q) then price else avg;
        MinCommutes(Abs(q), Abs(amount));
        ReduceIs(held, amount, price, closed, sign, realized);
      }
    }

    method OnFill(row: Row) returns (ok: bool)
      requires row.FillRow? && realizedError < PNL_TOLERANCE
      modifies this
      ensures ok <==> RowOk(old(Now()), row)
      ensures ok ==> Now() == Step(old(Now()), EventOf(row)) && realizedError < PNL_TOLERANCE
      ensures ok ==> realizedError == Max(old(realizedError), RealizedResidual(old(Now()), row))
      ensures maximum == old(maximum) && fundingError == old(fundingError)
    {
      hide BookFill, Amount;
      var f := row.fill;
      AmountNonZero(f);
      var held, amount := Held(book, f.instrument), Amount(f);
      if !(Abs(row.notional - Abs(amount) * f.price) < PNL_TOLERANCE) { return false; }
      var realized, newavg := BookOne(held, amount, f.price);
      assert realized == Realized(old(Now()), f);
      var newq := held.qty + amount;
      if newq == 0.0 {
        book := book - {f.instrument};
      } else {
        book := book[f.instrument := Position(newq, newavg)];
      }
      realizedError := Max(realizedError, Abs(realized - row.realizedPnl));
      if !(realizedError < PNL_TOLERANCE) { return false; }
      cash := cash + realized - f.fee;
      ok := true;
    }

    method OnFunding(row: Row) returns (ok: bool)
      requires row.FundingRow? && fundingError < FUNDING_TOLERANCE
      modifies this
      ensures ok <==> RowOk(old(Now()), row)
      ensures ok ==> Now() == Step(old(Now()), EventOf(row)) && fundingError < FUNDING_TOLERANCE
      ensures ok ==> fundingError == Max(old(fundingError), FundingResidual(old(Now()), row))
      ensures maximum == old(maximum) && realizedError == old(realizedError)
    {
      var f := row.funding;
      var q := Held(book, f.instrument).qty;
      if !(Abs(q - row.positionQty) < QTY_TOLERANCE) { return false; }
      var payment := -q * f.markPrice * f.rate;
      assert payment == Payment(book, f);
      hide Payment;
      fundingError := Max(fundingError, Abs(payment - row.payment));
      if !(fundingError < FUNDING_TOLERANCE) { return false; }
      cash := cash + payment;
      ok := true;
    }

    method OnMark(row: Row) returns (ok: bool)
      requires row.MarkRow? && maximum < NAV_TOLERANCE
      modifies this
      ensures ok <==> RowOk(old(Now()), row)
      ensures Now() == old(Now())
      ensures ok ==> maximum < NAV_TOLERANCE
      ensures ok ==> maximum == Max(old(maximum), NavResidual(old(Now()), row))
      ensures realizedError == old(realizedError) && fundingError == old(fundingError)
    {
      hide Gain, Total;
      var snap := row.snapshot;
      if snap.Keys != book.Keys { return false; }
      var unrealized := 0.0;
      ghost var marks := MarksOf(snap);
      ghost var values := Gains(book, marks);
      var todo := snap.Keys;
      ghost var done: map<InstrumentId, real> := map[];
      TotalEmpty(done);
      while todo != {}
        invariant todo <= snap.Keys == book.Keys && book == old(book) && cash == old(cash)
        invariant maximum == old(maximum) && realizedError == old(realizedError) && fundingError == old(fundingError)
        invariant done == map id | id in book && id !in todo :: values[id]
        invariant unrealized == Total(done)
        invariant forall id | id in snap && id !in todo :: SnapOk(book[id], snap[id])
        decreases |todo|
      {
        var id :| id in todo;
        todo := todo - {id};
        var p, s := book[id], snap[id];
        if !(Abs(p.qty - s.qty) < QTY_TOLERANCE) { return false; }
        var value := Gain(p, s.mark);
        if !(Abs(value - s.unrealPnl) < PNL_TOLERANCE) { return false; }
        unrealized := unrealized + value;
        TotalPut(done, id, value);
        assert id !in done && done - {id} == done;
        done := done[id := value];
        assert values[id] == value;
      }
      assert done == values;
      assert unrealized == Unrealized(book, marks);
      maximum := Max(maximum, Abs(cash + unrealized - row.equity));
      ok := maximum < NAV_TOLERANCE;
    }

    method OnRow(row: Row) returns (ok: bool)
      requires maximum < NAV_TOLERANCE && realizedError < PNL_TOLERANCE && fundingError < FUNDING_TOLERANCE
      modifies this
      ensures ok <==> RowOk(old(Now()), row)
      ensures ok ==> Now() == Step(old(Now()), EventOf(row))
      ensures ok ==> maximum < NAV_TOLERANCE && realizedError < PNL_TOLERANCE && fundingError < FUNDING_TOLERANCE
      ensures ok ==> Errors() == Worse(old(Errors()), old(Now()), row)
    {
      match row
      case FillRow(_, _, _) => ok := OnFill(row);
      case FundingRow(_, _, _) => ok := OnFunding(row);
      case MarkRow(_, _, _) => ok := OnMark(row);
    }

    function Errors(): Residuals
      reads this
    {
      Residuals(maximum, realizedError, fundingError)
    }

    /** Replay rows from a fresh account: passes exactly when every row's checks hold in the
        state that precedes it, and then reports the worst residuals. */
    method Run(rows: seq<Row>) returns (ok: bool)
      requires Errors() == NO_RESIDUALS
      modifies this
      ensures ok <==> AllOk(old(Now()), rows)
      ensures ok ==> Now() == Replayed(old(Now()), rows)
      ensures ok ==> Errors() == Worst(old(Now()), rows)
    {
      ghost var a := Now();
      assert rows[..0] == [] && Events([]) == [];
      assert AllOk(a, rows[..0]) && Replayed(a, rows[..0]) == a && Worst(a, rows[..0]) == NO_RESIDUALS;
      hide RowOk, AllOk, Worse, Worst, Replayed, Step, EventOf;
      var i := 0;
      while i < |rows|
        invariant 0 <= i <= |rows|
        invariant AllOk(a, rows[..i])
        invariant Now() == Replayed(a, rows[..i]) && Errors() == Worst(a, rows[..i])
        invariant maximum < NAV_TOLERANCE && realizedError < PNL_TOLERANCE && fundingError < FUNDING_TOLERANCE
      {
        AllOkStep(a, rows, i);
        ReplayedStep(a, rows, i);
        var rowOk := OnRow(rows[i]);
        if !rowOk { return false; }
        i := i + 1;
      }
      assert rows[..|rows|] == rows;
      ok := true;
    }

    /** Marked value at the leg's end, from the last saved positions; none when an open
        position has no saved mark. */
    method Boundary(last: map<InstrumentId, Snap>) returns (nav: real, marked: bool)
      ensures marked <==> book.Keys <= last.Keys
      ensures marked ==> nav == Equity(Now(), MarksOf(last))
    {
      hide Gain, Total;
      nav := cash;
      if !(book.Keys <= last.Keys) { return nav, false; }
      ghost var values := Gains(book, MarksOf(last));
      var unrealized := 0.0;
      var todo := book.Keys;
      ghost var done: map<InstrumentId, real> := map[];
      TotalEmpty(done);
      while todo != {}
        invariant todo <= book.Keys
        invariant done == map id | id in book && id !in todo :: values[id]
        invariant unrealized == Total(done)
        decreases |todo|
      {
        var id :| id in todo;
        todo := todo - {id};
        var value := Gain(book[id], last[id].mark);
        unrealized := unrealized + value;
        TotalPut(done, id, value);
        assert id !in done && done - {id} == done;
        done := done[id := value];
      }
      assert done == values;
      return cash + unrealized, true;
    }
  }

  lemma SizesAdd(q: real, amount: real)
    requires amount != 0.0
    ensures Abs(q) + Abs(amount) > 0.0
  {}

  lemma MinCommutes(x: real, y: real)
    ensures Min(x, y) == Min(y, x)
  {}

  /** The three running maxima of the audit. */
  datatype Residuals = Residuals(nav: real, realized: real, funding: real)

  const NO_RESIDUALS := Residuals(0.0, 0.0, 0.0)

  ghost function Worse(r: Residuals, a: Account, row: Row): Residuals
    requires RowOk(a, row)
  {
    match row
    case FillRow(_, _, _) => r.(realized := Max(r.realized, RealizedResidual(a, row)))
    case FundingRow(_, _, _) => r.(funding := Max(r.funding, FundingResidual(a, row)))
    case MarkRow(_, _, _) => r.(nav := Max(r.nav, NavResidual(a, row)))
  }

  ghost function Worst(a: Account, rows: seq<Row>): Residuals
    requires AllOk(a, rows)
  {
    if rows == [] then NO_RESIDUALS
    else
      var n := |rows| - 1;
      AllOkPrefix(a, rows, n);
      assert RowOk(Replayed(a, rows[..n]), rows[n]);
      Worse(Worst(a, rows[..n]), Replayed(a, rows[..n]), rows[n])
  }

  lemma AllOkPrefix(a: Account, rows: seq<Row>, n: nat)
    requires n <= |rows| && AllOk(a, rows)
    ensures AllOk(a, rows[..n])
  {
    forall i | 0 <= i < n ensures RowOk(Replayed(a, rows[..n][..i]), rows[..n][i]) {
      assert rows[..n][..i] == rows[..i];
      assert RowOk(Replayed(a, rows[..i]), rows[i]);
    }
  }

  /** The checks of a prefix, one row at a time. */
  lemma AllOkStep(a: Account, rows: seq<Row>, i: nat)
    requires i < |rows| && AllOk(a, rows[..i])
    ensures AllOk(a, rows[..i + 1]) <==> RowOk(Replayed(a, rows[..i]), rows[i])
    ensures AllOk(a, rows) ==> RowOk(Replayed(a, rows[..i]), rows[i])
    ensures RowOk(Replayed(a, rows[..i]), rows[i]) ==>
      Worst(a, rows[..i + 1]) == Worse(Worst(a, rows[..i]), Replayed(a, rows[..i]), rows[i])
  {
    var more := rows[..i + 1];
    assert more[..i] == rows[..i];
    hide RowOk, Replayed;
    if RowOk(Replayed(a, rows[..i]), rows[i]) {
      forall j | 0 <= j < i + 1 ensures RowOk(Replayed(a, more[..j]), more[j]) {
        if j < i {
          assert RowOk(Replayed(a, rows[..i][..j]), rows[..i][j]);
          assert rows[..i][..j] == more[..j];
        }
      }
    } else {
      assert !RowOk(Replayed(a, more[..i]), more[i]);
    }
  }

  // ------------------------------------------------------------ legs and chain

  /** The saved tables of one leg. */
  datatype LegTables = LegTables(fills: seq<Row>, funding: seq<Row>, marks: seq<Row>)
  {
    ghost predicate Valid() {
      && (forall r | r in fills :: r.FillRow?)
      && (forall r | r in funding :: r.FundingRow?)
      && (forall r | r in marks :: r.MarkRow?)
    }

    function Rows(): seq<Row> { SortRows(fills + funding + marks) }

    /** The positions saved at the last mark. */
    function Last(): map<InstrumentId, Snap> {
      if marks != [] && marks[|marks| - 1].MarkRow? then marks[|marks| - 1].snapshot else map[]
    }
  }

  ghost predicate LegPasses(initial: real, t: LegTables)
    requires t.Valid()
  {
    && t.marks != []
    && AllOk(Flat(initial), t.Rows())
    && Replayed(Flat(initial), t.Rows()).book.Keys <= t.Last().Keys
  }

  function AsLeg(t: LegTables): Leg { Leg(Events(t.Rows()), MarksOf(t.Last())) }

  function AsLegs(ts: seq<LegTables>): seq<Leg> { seq(|ts|, i requires 0 <= i < |ts| => AsLeg(ts[i])) }

  method AuditLeg(initial: real, t: LegTables) returns (passed: bool, nav: real, worst: Residuals)
    requires t.Valid()
    ensures passed <==> LegPasses(initial, t)
    ensures passed ==> nav == Equity(Replayed(Flat(initial), t.Rows()), MarksOf(t.Last()))
    ensures passed ==> worst == Worst(Flat(initial), t.Rows())
  {
    passed, nav, worst := false, initial, NO_RESIDUALS;
    if t.marks == [] { return; }
    var leg := new LegReplay(initial);
    var ok := leg.Run(t.Rows());
    if ok {
      worst := leg.Errors();
      nav, passed := leg.Boundary(t.Last());
    }
  }

  /** Every leg passes when started flat with the chained value of the legs before it. */
  ghost predicate ChainPasses(initial: real, ts: seq<LegTables>)
    requires forall t | t in ts :: t.Valid()
  {
    ts == [] ||
    var n := |ts| - 1;
    && ChainPasses(initial, ts[..n])
    && ChainMarked(initial, AsLegs(ts[..n]))
    && LegPasses(ChainedNav(initial, AsLegs(ts[..n])), ts[n])
  }

  /** A passing chain has a boundary mark for every open position, so its value is defined. */
  lemma ChainIsMarked(initial: real, ts: seq<LegTables>)
    requires (forall t | t in ts :: t.Valid()) && ChainPasses(initial, ts)
    ensures ChainMarked(initial, AsLegs(ts))
  {
    if ts != [] {
      var n := |ts| - 1;
      PrefixLegs(ts, n);
      assert ts[..n + 1] == ts;
      hide ChainedNav, Equity;
    }
  }

  lemma {:induction false} ChainPassesPrefix(initial: real, ts: seq<LegTables>, n: nat)
    requires n <= |ts| && (forall t | t in ts :: t.Valid()) && ChainPasses(initial, ts)
    ensures ChainPasses(initial, ts[..n])
    decreases |ts|
  {
    hide LegPasses, ChainMarked, ChainedNav, AsLegs;
    if n < |ts| {
      assert ts[..|ts| - 1][..n] == ts[..n];
      ChainPassesPrefix(initial, ts[..|ts| - 1], n);
    } else {
      assert ts[..n] == ts;
    }
  }

  /** The chain of legs: each restarts flat with the previous leg's marked value. The audit
      passes exactly when every leg does, and reports the chained net asset value. */
  method AuditChain(initial: real, legs: seq<LegTables>) returns (passed: bool, nav: real)
    requires forall t | t in legs :: t.Valid()
    ensures passed <==> ChainPasses(initial, legs)
    ensures passed ==> ChainMarked(initial, AsLegs(legs)) && nav == ChainedNav(initial, AsLegs(legs))
  {
    nav := initial;
    var i := 0;
    assert legs[..0] == [];
    hide ChainPasses, LegPasses, ChainMarked, ChainedNav, AsLegs, Equity;
    ChainStarts(initial);
    while i < |legs|
      invariant 0 <= i <= |legs|
      invariant ChainPasses(initial, legs[..i]) && ChainMarked(initial, AsLegs(legs[..i]))
      invariant nav == ChainedNav(initial, AsLegs(legs[..i]))
    {
      ChainContinues(initial, legs, i);
      var ok, next, _ := AuditLeg(nav, legs[i]);
      if !ok {
        if ChainPasses(initial, legs) { ChainPassesPrefix(initial, legs, i + 1); }
        return false, nav;
      }
      nav := next;
      i := i + 1;
    }
    assert legs[..|legs|] == legs;
    passed := true;
  }

  lemma ChainStarts(initial: real)
    ensures ChainPasses(initial, []) && AsLegs([]) == []
    ensures ChainMarked(initial, []) && ChainedNav(initial, []) == initial
  {}

  lemma PrefixLegs(legs: seq<LegTables>, i: nat)
    requires i < |legs|
    ensures AsLegs(legs[..i + 1])[..i] == AsLegs(legs[..i])
    ensures AsLegs(legs[..i + 1])[i] == AsLeg(legs[i])
    ensures legs[..i + 1][..i] == legs[..i] && |AsLegs(legs[..i + 1])| == i + 1
  {
    hide AsLeg;
  }

  lemma ChainContinues(initial: real, legs: seq<LegTables>, i: nat)
    requires i < |legs| && (forall t | t in legs :: t.Valid())
    requires ChainPasses(initial, legs[..i]) && ChainMarked(initial, AsLegs(legs[..i]))
    ensures var nav := ChainedNav(initial, AsLegs(legs[..i]));
      && (ChainPasses(initial, legs[..i + 1]) <==> LegPasses(nav, legs[i]))
      && (LegPasses(nav, legs[i]) ==>
            && ChainMarked(initial, AsLegs(legs[..i + 1]))
            && ChainedNav(initial, AsLegs(legs[..i + 1]))
            == Equity(Replayed(Flat(nav), legs[i].Rows()), MarksOf(legs[i].Last())))
  {
    var nav := ChainedNav(initial, AsLegs(legs[..i]));
    PrefixLegs(legs, i);
    assert ChainPasses(initial, legs[..i + 1]) <==> LegPasses(nav, legs[i]) by {
      hide LegPasses, AsLegs, Equity, ChainMarked, ChainedNav;
    }
    if LegPasses(nav, legs[i]) {
      ChainIsMarked(initial, legs[..i + 1]);
      ChainedNext(initial, AsLegs(legs[..i + 1]));
      hide AsLegs, Equity, LegPasses, ChainPasses, ChainMarked, ChainedNav;
    }
  }

  lemma ChainedNext(initial: real, legs: seq<Leg>)
    requires legs != [] && ChainMarked(initial, legs)
    ensures var n := |legs| - 1;
      && ChainMarked(initial, legs[..n])
      && ChainedNav(initial, legs)
      == Equity(Run(Flat(ChainedNav(initial, legs[..n])), legs[n].events), legs[n].boundary)
  {
    hide Equity, Run;
  }

  // ------------------------------------------------- the boundary report

  /** The gross value the script reports at a leg's end: of the saved positions, not the replayed. */
  ghost function SavedGross(last: map<InstrumentId, Snap>): real {
    Total(map id | id in last :: Abs(last[id].qty) * last[id].mark)
  }

  lemma QtyClose(q: real, saved: real, mark: real, x: real, y: real)
    requires Abs(q - saved) < QTY_TOLERANCE && mark >= 0.0
    requires x == Abs(saved) * mark && y == Abs(q) * mark
    ensures Within(x - y, QTY_TOLERANCE, mark)
  {
    var d := Abs(saved) - Abs(q);
    assert -QTY_TOLERANCE <= d <= QTY_TOLERANCE;
    Scaled(mark, d, QTY_TOLERANCE, mark * d, mark * QTY_TOLERANCE);
    Scaled(mark, -QTY_TOLERANCE, d, -(mark * QTY_TOLERANCE), mark * d);
    assert x - y == mark * d;
  }

  function SavedValues(last: map<InstrumentId, Snap>): map<InstrumentId, real> {
    map id | id in last :: Abs(last[id].qty) * last[id].mark
  }

  function GrossValues(book: Book, marks: Marks): map<InstrumentId, real>
    requires book.Keys <= marks.Keys
  {
    map id | id in book :: Abs(book[id].qty) * marks[id]
  }

  function Gap(x: map<InstrumentId, real>, y: map<InstrumentId, real>): map<InstrumentId, real>
    requires x.Keys == y.Keys
  {
    map id | id in x :: 1.0 * x[id] + -1.0 * y[id]
  }

  lemma GapsClose(book: Book, last: map<InstrumentId, Snap>)
    requires book.Keys == last.Keys && forall id | id in last :: SnapOk(book[id], last[id]) && last[id].mark >= 0.0
    ensures SavedValues(last).Keys == GrossValues(book, MarksOf(last)).Keys == MarksOf(last).Keys
    ensures forall id | id in last ::
      Within(Gap(SavedValues(last), GrossValues(book, MarksOf(last)))[id], QTY_TOLERANCE, MarksOf(last)[id])
  {
    forall id | id in last
      ensures Within(Gap(SavedValues(last), GrossValues(book, MarksOf(last)))[id], QTY_TOLERANCE, MarksOf(last)[id])
    {
      GapClose(book, last, id);
    }
  }

  lemma GapClose(book: Book, last: map<InstrumentId, Snap>, id: InstrumentId)
    requires book.Keys == last.Keys && id in last && SnapOk(book[id], last[id]) && last[id].mark >= 0.0
    ensures SavedValues(last).Keys == GrossValues(book, MarksOf(last)).Keys
    ensures Within(Gap(SavedValues(last), GrossValues(book, MarksOf(last)))[id], QTY_TOLERANCE, MarksOf(last)[id])
  {
    hide *;
    ValuesAt(book, last, id);
    assert Abs(book[id].qty - last[id].qty) < QTY_TOLERANCE by { SnapIs(book[id], last[id]); }
    var x, y := SavedValues(last), GrossValues(book, MarksOf(last));
    QtyClose(book[id].qty, last[id].qty, last[id].mark, x[id], y[id]);
    GapAt(x, y, id);
    assert Gap(x, y)[id] == x[id] - y[id];
  }

  lemma SnapIs(p: Position, s: Snap)
    requires SnapOk(p, s)
    ensures Abs(p.qty - s.qty) < QTY_TOLERANCE
  {}

  lemma ValuesAt(book: Book, last: map<InstrumentId, Snap>, id: InstrumentId)
    requires book.Keys == last.Keys && id in last
    ensures SavedValues(last).Keys == GrossValues(book, MarksOf(last)).Keys == last.Keys
    ensures SavedValues(last)[id] == Abs(last[id].qty) * last[id].mark
    ensures GrossValues(book, MarksOf(last))[id] == Abs(book[id].qty) * last[id].mark
    ensures MarksOf(last).Keys == last.Keys && MarksOf(last)[id] == last[id].mark
  {
    hide Abs;
  }

  lemma GapAt(x: map<InstrumentId, real>, y: map<InstrumentId, real>, id: InstrumentId)
    requires x.Keys == y.Keys && id in x
    ensures id in Gap(x, y) && Gap(x, y)[id] == x[id] - y[id]
  {}

  lemma GapTotal(x: map<InstrumentId, real>, y: map<InstrumentId, real>)
    requires x.Keys == y.Keys
    ensures Total(Gap(x, y)) == Total(x) - Total(y) && Gap(x, y).Keys == x.Keys
  {
    TotalLinear(1.0, x, -1.0, y, Gap(x, y));
    hide Total;
  }

  /** At a mark that passed, the saved and the replayed gross differ by at most the quantity
      tolerance a unit of mark. */
  lemma SavedGrossIsClose(book: Book, last: map<InstrumentId, Snap>)
    requires book.Keys == last.Keys && forall id | id in last :: SnapOk(book[id], last[id]) && last[id].mark >= 0.0
    ensures MarksOf(last).Keys == book.Keys
    ensures Within(SavedGross(last) - BoundaryGross(book, MarksOf(last)), 0.00000001, Total(MarksOf(last)))
  {
    GapsClose(book, last);
    var x, y := SavedValues(last), GrossValues(book, MarksOf(last));
    assert SavedGross(last) == Total(x) && BoundaryGross(book, MarksOf(last)) == Total(y);
    hide *;
    GapTotal(x, y);
    BoundedBy(Gap(x, y), MarksOf(last), QTY_TOLERANCE);
  }

  lemma CloseAbove(x: real, y: real, c: real, z: real, limit: real)
    requires Within(x - y, c, z) && x <= limit
    ensures y <= limit + c * z
  {}

  /** What an unreported restart can drop: a leg whose saved gross is not above 1e-6 drops at
      most that share of 1e-6 plus the quantity tolerance on its marks. */
  lemma UnreportedDropIsSmall(
      book: Book, last: map<InstrumentId, Snap>, es: seq<Event>, to: Marks, move: real, rate: real)
    requires book.Keys == last.Keys && forall id | id in last :: SnapOk(book[id], last[id]) && last[id].mark >= 0.0
    requires MarksOf(last).Keys == book.Keys <= to.Keys
    requires move >= 0.0 && rate >= 0.0 && RatesWithin(book, es, MarksOf(last), rate)
    requires forall id | id in book :: Within(to[id] - MarksOf(last)[id], move, MarksOf(last)[id])
    requires SavedGross(last) <= 0.000001
    ensures Within(CarriedGain(book, MarksOf(last), to) + CarriedFunding(book, es), move + FundingShare(es, rate),
      0.000001 + 0.00000001 * Total(MarksOf(last)))
  {
    var from := MarksOf(last);
    assert forall id | id in book :: from[id] >= 0.0;
    hide *;
    SavedGrossIsClose(book, last);
    CloseAbove(SavedGross(last), BoundaryGross(book, from), QTY_TOLERANCE, Total(from), 0.000001);
    ShareSign(es, rate);
    RestartDropIsBounded(book, es, from, to, move, rate);
    WithinMore(CarriedGain(book, from, to) + CarriedFunding(book, es), move + FundingShare(es, rate),
      BoundaryGross(book, from), 0.000001 + QTY_TOLERANCE * Total(from));
  }

  /** The value of the net filled quantities. */
  ghost function NetValues(es: seq<Event>, marks: Marks): map<InstrumentId, real> {
    map id | id in marks :: NetFilled(es, id) * marks[id]
  }

  lemma FlatRunEquity(c: real, es: seq<Event>, marks: Marks)
    requires Run(Flat(c), es).book.Keys <= marks.Keys
    ensures Equity(Run(Flat(c), es), marks)
         == c - Spent(es) + FundingReceived(map[], es) + Total(NetValues(es, marks))
  {
    var a := Run(Flat(c), es);
    RunConserves(Flat(c), es);
    FlatBasis(c);
    forall id ensures Quantity(a.book, id) == NetFilled(es, id) {
      assert Quantity(Flat(c).book, id) == 0.0;
    }
    assert NetValues(es, marks) == HeldValues(a.book, marks) by { SameValues(a.book, es, marks); }
    EquityIsNotional(a, marks);
    hide Run, Equity, NotionalCash, Spent, FundingReceived, Total, NetValues, HeldValues;
  }

  lemma SameValues(book: Book, es: seq<Event>, marks: Marks)
    requires forall id :: Quantity(book, id) == NetFilled(es, id)
    ensures NetValues(es, marks) == HeldValues(book, marks)
  {
    hide Quantity, NetFilled;
    forall id | id in marks ensures NetValues(es, marks)[id] == HeldValues(book, marks)[id] {
      assert Quantity(book, id) == NetFilled(es, id);
    }
  }

  // --------------------------------------------- what a verdict means

  /** The cost of the position in `id` after the events. */
  function CostAfter(c: real, es: seq<Event>, id: InstrumentId): real { Cost(Held(Run(Flat(c), es).book, id)) }

  /** The notional is quantity times price, and the profit is what the fill adds to the cost of the
      position less what is paid for it. */
  ghost predicate FillCertified(c: real, es: seq<Event>, f: Fill, notional: real, profit: real) {
    var id := f.instrument;
    && Abs(f.qty * f.price - notional) < 0.000001
    && Abs(CostAfter(c, es + [Trade(f)], id) - CostAfter(c, es, id) - Consideration(f) - profit) < 0.000001
  }

  /** The quantity is what the fills before the settlement net to, and the payment is charged on it. */
  ghost predicate FundingCertified(es: seq<Event>, f: Funding, qty: real, payment: real) {
    && Abs(NetFilled(es, f.instrument) - qty) < 0.00000001
    && Abs(Charge(NetFilled(es, f.instrument), f) - payment) < 0.0000001
  }

  /** A saved position: the net quantity, and its value less its cost. */
  ghost predicate SnapCertified(c: real, es: seq<Event>, id: InstrumentId, s: Snap) {
    && Abs(NetFilled(es, id) - s.qty) < 0.00000001
    && Abs(ValueAt(NetFilled(es, id), s.mark) - CostAfter(c, es, id) - s.unrealPnl) < 0.000001
  }

  function ValueAt(qty: real, mark: real): real { qty * mark }

  /** The positions are those of the instruments whose fills do not net to zero, and the equity is the
      start less everything paid for fills, plus funding, plus the value of the net quantities. */
  ghost predicate MarkCertified(c: real, es: seq<Event>, snapshot: map<InstrumentId, Snap>, equity: real) {
    && (forall id :: id in snapshot <==> NetFilled(es, id) != 0.0)
    && (forall id | id in snapshot :: SnapCertified(c, es, id, snapshot[id]))
    && Abs(c - Spent(es) + FundingReceived(map[], es) + Total(NetValues(es, MarksOf(snapshot))) - equity) < 0.000001
  }

  ghost predicate Certified(c: real, es: seq<Event>, row: Row) {
    match row
    case FillRow(f, notional, profit) => FillCertified(c, es, f, notional, profit)
    case FundingRow(f, qty, payment) => FundingCertified(es, f, qty, payment)
    case MarkRow(_, snapshot, equity) => MarkCertified(c, es, snapshot, equity)
  }

  /** What is held after a run from flat: the instruments whose fills do not net to zero. */
  lemma HeldIsNet(c: real, es: seq<Event>, id: InstrumentId)
    ensures Quantity(Run(Flat(c), es).book, id) == NetFilled(es, id)
    ensures id in Run(Flat(c), es).book <==> NetFilled(es, id) != 0.0
  {
    RunConserves(Flat(c), es);
    assert Quantity(Flat(c).book, id) == 0.0;
    hide NetFilled, NotionalCash, Run;
  }

  lemma CostMoves(c: real, es: seq<Event>, f: Fill)
    ensures CostAfter(c, es + [Trade(f)], f.instrument) - CostAfter(c, es, f.instrument) - Consideration(f)
         == Realized(Run(Flat(c), es), f)
  {
    hide *;
    CostAfterIs(c, es, f.instrument);
    CostAfterIs(c, es + [Trade(f)], f.instrument);
    FilledCost(Run(Flat(c), es), f);
    FilledIsHeld(Run(Flat(c), es), f);
    RunTrade(Flat(c), es, f);
  }

  lemma CostAfterIs(c: real, es: seq<Event>, id: InstrumentId)
    ensures CostAfter(c, es, id) == Cost(Held(Run(Flat(c), es).book, id))
  {}

  lemma RunTrade(a: Account, es: seq<Event>, f: Fill)
    ensures Run(a, es + [Trade(f)]) == ApplyFill(Run(a, es), f)
  {
    assert (es + [Trade(f)])[..|es|] == es;
    hide ApplyFill;
  }

  /** What a fill leaves is held at its quantity and cost. */
  lemma FilledIsHeld(a: Account, f: Fill)
    ensures Cost(Held(ApplyFill(a, f).book, f.instrument)) == Cost(Filled(a, f))
  {
    hide BookFill, Amount;
  }

  lemma FillExactly(c: real, es: seq<Event>, f: Fill, notional: real, profit: real)
    ensures RowOk(Run(Flat(c), es), FillRow(f, notional, profit)) <==> FillCertified(c, es, f, notional, profit)
  {
    CostMoves(c, es, f);
    hide CostAfter, Realized, Run, Consideration;
  }

  lemma FundingExactly(c: real, es: seq<Event>, f: Funding, qty: real, payment: real)
    ensures RowOk(Run(Flat(c), es), FundingRow(f, qty, payment)) <==> FundingCertified(es, f, qty, payment)
  {
    HeldIsNet(c, es, f.instrument);
    PaymentIsCharge(Run(Flat(c), es).book, f);
    hide NetFilled, Run, Quantity, Payment, Charge, Abs;
  }

  lemma PaymentIsCharge(book: Book, f: Funding)
    ensures Payment(book, f) == Charge(Quantity(book, f.instrument), f)
  {
    hide Quantity;
  }

  lemma SnapExactly(c: real, es: seq<Event>, id: InstrumentId, s: Snap)
    requires id in Run(Flat(c), es).book
    ensures SnapOk(Run(Flat(c), es).book[id], s) <==> SnapCertified(c, es, id, s)
  {
    hide *;
    var p := Run(Flat(c), es).book[id];
    HeldIs(Run(Flat(c), es).book, id);
    SnapOkIs(p, s);
    HeldIsNet(c, es, id);
    CostAfterIs(c, es, id);
    SnapCertifiedIs(c, es, id, s, p.qty);
  }

  lemma HeldIs(book: Book, id: InstrumentId)
    requires id in book
    ensures Held(book, id) == book[id] && Quantity(book, id) == book[id].qty
  {}

  lemma SnapOkIs(p: Position, s: Snap)
    ensures SnapOk(p, s) <==>
      Abs(p.qty - s.qty) < 0.00000001 && Abs(Worth(p, s.mark) - Cost(p) - s.unrealPnl) < 0.000001
    ensures Worth(p, s.mark) == ValueAt(p.qty, s.mark)
  {
    MarkLessCost(p, s.mark);
    hide Gain, Abs;
  }

  lemma SnapCertifiedIs(c: real, es: seq<Event>, id: InstrumentId, s: Snap, q: real)
    requires q == NetFilled(es, id)
    ensures SnapCertified(c, es, id, s) <==>
      Abs(q - s.qty) < 0.00000001 && Abs(ValueAt(q, s.mark) - CostAfter(c, es, id) - s.unrealPnl) < 0.000001
  {
    hide NetFilled, CostAfter, Abs, ValueAt;
  }

  lemma MarkExactly(c: real, es: seq<Event>, ts: int, snapshot: map<InstrumentId, Snap>, equity: real)
    ensures RowOk(Run(Flat(c), es), MarkRow(ts, snapshot, equity)) <==> MarkCertified(c, es, snapshot, equity)
  {
    var a := Run(Flat(c), es);
    hide NetFilled, Run, SnapOk, SnapCertified, Equity, Spent, FundingReceived, Total, NetValues;
    forall id ensures id in a.book <==> NetFilled(es, id) != 0.0 { HeldIsNet(c, es, id); }
    KeysExactly(es, snapshot, a.book);
    if snapshot.Keys == a.book.Keys {
      FlatRunEquity(c, es, MarksOf(snapshot));
      forall id | id in snapshot ensures SnapOk(a.book[id], snapshot[id]) <==> SnapCertified(c, es, id, snapshot[id]) {
        SnapExactly(c, es, id, snapshot[id]);
      }
    }
  }

  lemma KeysExactly(es: seq<Event>, snapshot: map<InstrumentId, Snap>, book: Book)
    requires forall id :: id in book <==> NetFilled(es, id) != 0.0
    ensures snapshot.Keys == book.Keys <==> forall id :: id in snapshot <==> NetFilled(es, id) != 0.0
  {
    hide NetFilled;
    if forall id :: id in snapshot <==> NetFilled(es, id) != 0.0 {
      forall id ensures id in snapshot <==> id in book {
        assert id in book <==> NetFilled(es, id) != 0.0;
      }
    }
  }

  /** What the audit's verdict on a row means, in the saved figures and the fills before it alone. */
  lemma RowOkExactly(c: real, es: seq<Event>, row: Row)
    ensures RowOk(Run(Flat(c), es), row) <==> Certified(c, es, row)
  {
    hide RowOk, FillCertified, FundingCertified, MarkCertified, Run;
    match row {
      case FillRow(f, notional, profit) => FillExactly(c, es, f, notional, profit);
      case FundingRow(f, qty, payment) => FundingExactly(c, es, f, qty, payment);
      case MarkRow(ts, snapshot, equity) => MarkExactly(c, es, ts, snapshot, equity);
    }
  }

  /** A leg passes exactly when it has a mark, every saved row is certified by the rows before it, and
      what its fills do not net to zero was saved at its last mark. */
  lemma LegPassesExactly(initial: real, t: LegTables)
    requires t.Valid()
    ensures LegPasses(initial, t) <==>
      && t.marks != []
      && (forall i | 0 <= i < |t.Rows()| :: Certified(initial, Events(t.Rows()[..i]), t.Rows()[i]))
      && forall id | NetFilled(Events(t.Rows()), id) != 0.0 :: id in t.Last()
  {
    var rows := t.Rows();
    hide RowOk, Certified, Run, NetFilled, SortRows;
    forall i | 0 <= i < |rows|
      ensures RowOk(Replayed(Flat(initial), rows[..i]), rows[i]) <==> Certified(initial, Events(rows[..i]), rows[i])
    {
      RowOkExactly(initial, Events(rows[..i]), rows[i]);
    }
    forall id ensures id in Replayed(Flat(initial), rows).book <==> NetFilled(Events(rows), id) != 0.0 {
      HeldIsNet(initial, Events(rows), id);
    }
  }

  /** The audit of a chain passes exactly when every leg passes from the value chained before it. */
  lemma {:induction false} ChainPassesExactly(initial: real, ts: seq<LegTables>)
    requires forall t | t in ts :: t.Valid()
    ensures ChainPasses(initial, ts) <==> forall k: nat | k < |ts| :: PassesFrom(initial, ts, k)
  {
    hide LegPasses, ChainMarked, ChainedNav, AsLegs;
    if ts != [] {
      var n := |ts| - 1;
      ChainPassesExactly(initial, ts[..n]);
      forall k: nat | k < n ensures PassesFrom(initial, ts[..n], k) <==> PassesFrom(initial, ts, k) {
        assert ts[..n][..k] == ts[..k];
      }
      if ChainPasses(initial, ts) {
        ChainIsMarked(initial, ts[..n]);
        forall k: nat | k < |ts| ensures PassesFrom(initial, ts, k) {
          if k < n { assert PassesFrom(initial, ts[..n], k); }
        }
      }
      if forall k: nat | k < |ts| :: PassesFrom(initial, ts, k) {
        assert PassesFrom(initial, ts, n);
        forall k: nat | k < n ensures PassesFrom(initial, ts[..n], k) { assert PassesFrom(initial, ts, k); }
      }
    }
  }

  ghost predicate PassesFrom(initial: real, ts: seq<LegTables>, k: nat)
    requires k < |ts| && forall t | t in ts :: t.Valid()
  {
    && ChainMarked(initial, AsLegs(ts[..k]))
    && LegPasses(ChainedNav(initial, AsLegs(ts[..k])), ts[k])
  }

  /** What a passing leg adds to the chained value: less everything paid for its fills, plus its
      funding, plus the value of its net quantities at the last saved marks. */
  lemma ChainedMoves(initial: real, ts: seq<LegTables>, k: nat)
    requires k < |ts| && (forall t | t in ts :: t.Valid()) && ChainPasses(initial, ts[..k + 1])
    ensures ChainMarked(initial, AsLegs(ts[..k])) && ChainMarked(initial, AsLegs(ts[..k + 1]))
    ensures var es := Events(ts[k].Rows());
      ChainedNav(initial, AsLegs(ts[..k + 1]))
      == ChainedNav(initial, AsLegs(ts[..k])) - Spent(es) + FundingReceived(map[], es)
         + Total(NetValues(es, MarksOf(ts[k].Last())))
  {
    var head := ts[..k + 1];
    ChainPassesExactly(initial, head);
    ChainPassesPrefix(initial, head, k);
    ChainIsMarked(initial, head);
    assert head[..k] == ts[..k] && head[k] == ts[k];
    assert PassesFrom(initial, head, k);
    hide ChainPasses, ChainMarked, ChainedNav, AsLegs, Equity, Spent, FundingReceived, NetValues, Total, AllOk;
    ChainContinues(initial, ts, k);
    FlatRunEquity(ChainedNav(initial, AsLegs(ts[..k])), Events(ts[k].Rows()), MarksOf(ts[k].Last()));
  }

  ghost predicate Bounds(r: Residuals, a: Account, row: Row) {
    match row
    case FillRow(_, _, _) => RealizedResidual(a, row) <= r.realized
    case FundingRow(_, _, _) => FundingResidual(a, row) <= r.funding
    case MarkRow(_, snapshot, _) => snapshot.Keys == a.book.Keys && NavResidual(a, row) <= r.nav
  }

  /** The reported maxima are the greatest residuals: no row exceeds them, and each is zero or the
      residual of some row. */
  lemma {:induction false} WorstIsGreatest(a: Account, rows: seq<Row>)
    requires AllOk(a, rows)
    ensures forall i | 0 <= i < |rows| :: Bounds(Worst(a, rows), Replayed(a, rows[..i]), rows[i])
    ensures var w := Worst(a, rows);
      && (w.realized == 0.0 || exists i | 0 <= i < |rows| ::
            rows[i].FillRow? && w.realized == RealizedResidual(Replayed(a, rows[..i]), rows[i]))
      && (w.funding == 0.0 || exists i | 0 <= i < |rows| ::
            rows[i].FundingRow? && w.funding == FundingResidual(Replayed(a, rows[..i]), rows[i]))
      && (w.nav == 0.0 || exists i | 0 <= i < |rows| ::
            rows[i].MarkRow? && rows[i].snapshot.Keys == Replayed(a, rows[..i]).book.Keys
            && w.nav == NavResidual(Replayed(a, rows[..i]), rows[i]))
  {
    hide Replayed, RealizedResidual, FundingResidual, NavResidual;
    if rows != [] {
      var n := |rows| - 1;
      var front := rows[..n];
      AllOkPrefix(a, rows, n);
      WorstIsGreatest(a, front);
      assert forall i | 0 <= i < n :: front[..i] == rows[..i] && front[i] == rows[i];
      assert RowOk(Replayed(a, rows[..n]), rows[n]);
      forall i | 0 <= i < n ensures Bounds(Worst(a, rows), Replayed(a, rows[..i]), rows[i]) {
        assert Bounds(Worst(a, front), Replayed(a, front[..i]), front[i]);
      }
    }
  }

  /** What a passing audit certifies: every saved equity is within tolerance of the start less
      everything paid for fills, plus funding, plus the net filled quantities at the marks. */
  lemma PassedEquityIsConserved(initial: real, rows: seq<Row>, i: nat)
    requires AllOk(Flat(initial), rows) && i < |rows| && rows[i].MarkRow?
    ensures var es := Events(rows[..i]);
      Abs(initial - Spent(es) + FundingReceived(map[], es)
          + Total(NetValues(es, MarksOf(rows[i].snapshot)))
          - rows[i].equity) < 0.000001
  {
    assert RowOk(Replayed(Flat(initial), rows[..i]), rows[i]);
    FlatRunEquity(initial, Events(rows[..i]), MarksOf(rows[i].snapshot));
  }
}
