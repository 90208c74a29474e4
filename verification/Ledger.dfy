/** The production ledger: full-consideration cash and positions, with derived equity. Its view as
    an average-cost account steps exactly like the replayed account. */
module Ledger {
  import opened Outcomes
  import opened Reals
  import opened MapSums
  import opened Accounts
  import opened Conservation
  import opened Legs
  import opened Replay

  datatype MarketType = Perp | Spot | Cash | Future | Option

  /** A corporate action on the position held before it. */
  datatype Action =
    | Split(ts: int, instrument: InstrumentId, before: real, ratio: real)
    | CashDividend(ts: int, instrument: InstrumentId, before: real, amount: real, payment: real)

  /** A precomputed cash-financing accrual on a stated cash base. */
  datatype Accrual = Accrual(cashBalance: real, payment: real)

  function Credit(m: map<InstrumentId, real>, id: InstrumentId, x: real): map<InstrumentId, real> {
    m[id := (if id in m then m[id] else 0.0) + x]
  }

  lemma CreditAdds(m: map<InstrumentId, real>, id: InstrumentId, x: real)
    ensures Total(Credit(m, id, x)) == Total(m) + x
  {
    TotalPut(m, id, (if id in m then m[id] else 0.0) + x);
    if id in m {
      TotalRemove(m, id);
    } else {
      assert m - {id} == m;
    }
  }

  /** A split multiplies the quantity and divides the per-unit prices. */
  function SplitPosition(p: Position, ratio: real): Position
    requires ratio > 0.0
  {
    Position(p.qty * ratio, p.avg / ratio)
  }

  lemma SplitKeepsCost(p: Position, ratio: real)
    requires ratio > 0.0
    ensures Cost(SplitPosition(p, ratio)) == Cost(p)
    ensures p.qty != 0.0 ==> SplitPosition(p, ratio).qty != 0.0
  {
    Quotient(p.avg, ratio, p.avg / ratio);
    if p.qty > 0.0 { Positive(p.qty, ratio, p.qty * ratio); }
    if p.qty < 0.0 { Mixed(ratio, p.qty, p.qty * ratio); }
  }

  /** The view of full-consideration cash and positions as an average-cost account. */
  ghost function AsAccount(cash: real, book: Book): Account { Account(cash + CostBasis(book), book) }

  lemma FillOnView(cash: real, book: Book, f: Fill)
    ensures AsAccount(cash - Consideration(f) - f.fee, ApplyFill(AsAccount(cash, book), f).book)
         == ApplyFill(AsAccount(cash, book), f)
  {
    FillKeepsNotional(AsAccount(cash, book), f);
    hide ApplyFill, CostBasis, Consideration;
  }

  /** The fundamental identity, cash plus cost basis is the start plus realized profit, less fees,
      plus every net cash flow; over a book of open, known positions. */
  ghost predicate Balanced(
      initial: real, cash: real, book: Book, realized: map<InstrumentId, real>, fees: real, flows: real,
      known: set<InstrumentId>)
  {
    && cash + CostBasis(book) == initial + Total(realized) - fees + flows
    && WellFormed(book)
    && book.Keys <= known
    && fees >= 0.0
  }

  /** The log replays, from the starting cash, to the account, and saves exactly what it recomputes. */
  ghost predicate Logged(initial: real, a: Account, log: seq<Row>) {
    a == Replayed(Flat(initial), log) && Exact(Flat(initial), log)
  }

  /** The marks are those of an equity curve, one for each timestamp, with its equity. */
  ghost predicate CurveOf(marks: seq<Row>, ts: seq<int>, values: seq<real>) {
    && |marks| == |ts| == |values|
    && forall i | 0 <= i < |marks| :: marks[i].MarkRow? && marks[i].ts == ts[i] && marks[i].equity == values[i]
  }

  /** Timestamps increase, and the curve is that of the saved marks. */
  ghost predicate Curve(ts: seq<int>, values: seq<real>, log: seq<Row>) {
    (forall i, j | 0 <= i < j < |ts| :: ts[i] < ts[j]) && CurveOf(OfKind(log, MarkKind), ts, values)
  }

  lemma CurveKept(ts: seq<int>, values: seq<real>, log: seq<Row>, row: Row)
    requires Curve(ts, values, log) && !row.MarkRow?
    ensures Curve(ts, values, log + [row])
  {
    OfOtherKind(log, row, MarkKind);
  }

  class Ledger {
    const initialCash: real
    const instruments: map<InstrumentId, MarketType>
    var cash: real
    var positions: Book
    var realized: map<InstrumentId, real>
    var totalFees: real
    var fundingTotal: real
    var borrowTotal: real
    var corporateActionTotal: real
    var financingTotal: real
    var equityTs: seq<int>
    var equityValues: seq<real>
    /** The saved records of fills, funding and marks, in the order the events happened. */
    var log: seq<Row>
    /** Only fills, funding and marks so far: a perpetual-futures run. */
    ghost var plain: bool
    /** No borrow accrued at a negative rate so far. */
    ghost var chargesOnly: bool
    /** When each open position was last opened or flipped. */
    var openedTs: map<InstrumentId, int>
    var actions: seq<Action>

    ghost function View(): Account
      reads this
    {
      AsAccount(cash, positions)
    }

    function Flows(): real
      reads this
    {
      fundingTotal + borrowTotal + corporateActionTotal + financingTotal
    }

    ghost predicate Valid()
      reads this
    {
      && Balanced(initialCash, cash, positions, realized, totalFees, Flows(), instruments.Keys)
      && Curve(equityTs, equityValues, log)
      && openedTs.Keys == positions.Keys
      && (plain ==> Logged(initialCash, View(), log))
      && (chargesOnly ==> borrowTotal <= 0.0)
    }

    /** Rejects a starting cash that is not positive. */
    static method Open(initialCash: real, instruments: map<InstrumentId, MarketType>) returns (r: Outcome<Ledger>)
      ensures r.Ok? <==> initialCash > 0.0
      ensures r.Ok? ==> fresh(r.value) && r.value.Valid() && r.value.View() == Flat(initialCash)
      ensures r.Ok? ==> r.value.instruments == instruments && r.value.log == [] && r.value.equityTs == []
      ensures r.Ok? ==> r.value.plain && r.value.chargesOnly
      ensures !r.Ok? ==> r.ValueError?
    {
      if initialCash <= 0.0 { return ValueError; }
      var l := new Ledger(initialCash, instruments);
      return Ok(l);
    }

    constructor (initialCash: real, instruments: map<InstrumentId, MarketType>)
      requires initialCash > 0.0
      ensures Valid() && View() == Flat(initialCash)
      ensures this.initialCash == initialCash && this.instruments == instruments && log == []
      ensures realized == map[] && totalFees == fundingTotal == borrowTotal == 0.0
      ensures corporateActionTotal == financingTotal == 0.0
      ensures equityTs == [] && equityValues == [] && plain && chargesOnly && actions == [] && openedTs == map[]
    {
      this.initialCash := initialCash;
      this.instruments := instruments;
      cash, positions, realized := initialCash, map[], map[];
      totalFees, fundingTotal, borrowTotal := 0.0, 0.0, 0.0;
      corporateActionTotal, financingTotal := 0.0, 0.0;
      equityTs, equityValues, log, plain, chargesOnly := [], [], [], true, true;
      openedTs, actions := map[], [];
      new;
      assert CostBasis(map[]) == 0.0;
      assert Events([]) == [];
    }

    /** Equity decomposes, in every reachable state and at any closes, into the start, the
        realized and unrealized profit, less fees, plus every net cash flow. */
    lemma Decomposition(closes: Marks)
      requires Valid() && positions.Keys <= closes.Keys
      ensures cash + MarkedValue(positions, closes)
           == initialCash + Total(realized) + Unrealized(positions, closes) - totalFees
              + fundingTotal + borrowTotal + corporateActionTotal + financingTotal
      ensures cash + MarkedValue(positions, closes) == Equity(View(), closes)
    {
      UnrealizedSplits(positions, closes);
      hide MarkedValue, Unrealized, CostBasis, Total;
    }

    /** What every reachable state keeps: only known instruments are held, none at zero and each with an
        opening time, fees are not negative, the borrow total is not positive while no rate was negative, and the
        curve's timestamps increase. */
    lemma Kept()
      requires Valid()
      ensures forall id | id in positions :: id in instruments && positions[id].qty != 0.0 && id in openedTs
      ensures openedTs.Keys == positions.Keys && totalFees >= 0.0 && (chargesOnly ==> borrowTotal <= 0.0)
      ensures |equityTs| == |equityValues| && forall i, j | 0 <= i < j < |equityTs| :: equityTs[i] < equityTs[j]
    {
      hide Logged, CostBasis, Total, OfKind;
    }

    /** Book an execution. The view steps exactly as the replayed account does. */
    method ApplyFill(f: Fill) returns (r: Outcome<()>)
      requires Valid()
      modifies `cash, `positions, `realized, `totalFees, `log, `openedTs
      ensures Valid()
      ensures r == if f.instrument in instruments then Ok(()) else KeyError
      ensures r.Ok? ==> View() == Step(old(View()), Trade(f))
      ensures r.Ok? ==> cash == old(cash) - Consideration(f) - f.fee && totalFees == old(totalFees) + f.fee
      ensures r.Ok? ==> Total(realized) == old(Total(realized)) + Realized(old(View()), f)
      ensures r.Ok? ==> log == old(log) + [FillRow(f, Notional(f), Realized(old(View()), f))]
      ensures r.Ok? ==> openedTs == Opened(old(openedTs), old(positions), f)
      ensures r.Ok? ==> Earns(old(realized), realized, f.instrument, Realized(old(View()), f))
      ensures !r.Ok? ==> View() == old(View()) && realized == old(realized)
      ensures !r.Ok? ==> log == old(log) && openedTs == old(openedTs)
    {
      hide *;
      if f.instrument !in instruments { return KeyError; }
      BookKnown(f);
      r := Ok(());
    }

    /** The booking of a fill in a known instrument. */
    method BookKnown(f: Fill)
      requires Valid() && f.instrument in instruments
      modifies `cash, `positions, `realized, `totalFees, `log, `openedTs
      ensures Valid() && View() == Step(old(View()), Trade(f))
      ensures cash == old(cash) - Consideration(f) - f.fee && totalFees == old(totalFees) + f.fee
      ensures Total(realized) == old(Total(realized)) + Realized(old(View()), f)
      ensures log == old(log) + [FillRow(f, Notional(f), Realized(old(View()), f))]
      ensures openedTs == Opened(old(openedTs), old(positions), f)
      ensures Earns(old(realized), realized, f.instrument, Realized(old(View()), f))
    {
      hide Amount, Consideration, Notional, Realized, Increases, CostBasis, Total, Step, Credited, Leave, Held;
      hide Earns, BookFill, Balanced, Logged, AsAccount, Curve, Opened;
      var pos := Held(positions, f.instrument);
      AmountNonZero(f);
      KnownHolding(initialCash, cash, positions, realized, totalFees, Flows(), instruments.Keys, f.instrument);
      var next, realizedNow := Branch(f.instrument !in positions, pos, Amount(f), f.price);
      FillBooks(initialCash, cash, positions, realized, totalFees, Flows(), instruments.Keys, log, openedTs,
        f, next, realizedNow);
      CurveKept(equityTs, equityValues, log, FillRow(f, Notional(f), realizedNow));
      var credited := Credited(realized, f.instrument, pos, Amount(f), realizedNow);
      var since := Opened(openedTs, positions, f);
      var left, row := Leave(positions, f.instrument, next), FillRow(f, Notional(f), realizedNow);
      cash, totalFees := cash - Consideration(f) - f.fee, totalFees + f.fee;
      realized, openedTs, positions, log := credited, since, left, log + [row];
    }

    /** Settle one funding event against the position held: a holder of none is unaffected, and
        longs pay shorts when the rate is positive. */
    method ApplyFunding(f: Funding) returns (r: Outcome<real>)
      requires Valid()
      modifies `cash, `fundingTotal, `log
      ensures Valid()
      ensures r.KeyError? <==> f.instrument !in instruments
      ensures r.ValueError? <==>
        f.instrument in instruments && (instruments[f.instrument] != Perp || f.markPrice <= 0.0)
      ensures r.Ok? ==> r.value == Payment(positions, f) && View() == Step(old(View()), Settle(f))
      ensures r.Ok? ==> fundingTotal == old(fundingTotal) + r.value
      ensures log == if r.Ok? && f.instrument in positions
        then old(log) + [FundingRow(f, positions[f.instrument].qty, r.value)] else old(log)
      ensures !r.Ok? ==> View() == old(View())
    {
      hide Payment, Balanced, Logged, AsAccount, Step, Held, Curve;
      if f.instrument !in instruments { return KeyError; }
      if instruments[f.instrument] != Perp { return ValueError; }
      if f.markPrice <= 0.0 { return ValueError; }
      HeldPosition(positions, f.instrument);
      SettleView(initialCash, cash, positions, log, f);
      if f.instrument !in positions { return Ok(0.0); }
      var payment := -positions[f.instrument].qty * f.markPrice * f.rate;
      assert payment == Payment(positions, f) by { PaymentIs(positions, f); }
      cash := cash + payment;
      fundingTotal := fundingTotal + payment;
      CashFlowBalances(
        initialCash, old(cash), positions, realized, totalFees, old(Flows()), Flows(), instruments.Keys, payment);
      CurveKept(equityTs, equityValues, log, FundingRow(f, positions[f.instrument].qty, payment));
      log := log + [FundingRow(f, positions[f.instrument].qty, payment)];
      return Ok(payment);
    }

    /** Accrue borrow on a short position: quantity times mark, rate and days, nothing otherwise.
        The ledger leaves the sign of the rate to its callers. While they pass no negative rate the
        total stays at or below zero; it rises exactly when a short accrues at a negative rate. */
    method ApplyBorrow(id: InstrumentId, ratePerDay: real, days: real, markPrice: real) returns (r: Outcome<real>)
      requires Valid()
      modifies `cash, `borrowTotal, `plain, `chargesOnly
      ensures Valid()
      ensures ratePerDay == 0.0 || days <= 0.0 ==> r == Ok(0.0)
      ensures ratePerDay != 0.0 && days > 0.0 ==>
        && (r.KeyError? <==> id !in instruments)
        && (r.ValueError? <==> id in instruments && markPrice <= 0.0)
      ensures r.Ok? ==> r.value == BorrowCharge(positions, id, ratePerDay, days, markPrice)
      ensures r.Ok? ==> cash == old(cash) + r.value && borrowTotal == old(borrowTotal) + r.value
      ensures chargesOnly <==> old(chargesOnly) && ratePerDay >= 0.0
      ensures r.Ok? ==> (r.value < 0.0 <==> Quantity(positions, id) < 0.0 && ratePerDay > 0.0 && days > 0.0)
      ensures r.Ok? ==> (r.value > 0.0 <==> Quantity(positions, id) < 0.0 && ratePerDay < 0.0 && days > 0.0)
      ensures !r.Ok? ==> View() == old(View())
    {
      hide Balanced, Logged, AsAccount, Held, Curve;
      HeldPosition(positions, id);
      chargesOnly := chargesOnly && ratePerDay >= 0.0;
      if ratePerDay == 0.0 || days <= 0.0 { return Ok(0.0); }
      if id !in instruments { return KeyError; }
      if markPrice <= 0.0 { return ValueError; }
      if id !in positions || positions[id].qty >= 0.0 { return Ok(0.0); }
      var payment := positions[id].qty * markPrice * ratePerDay * days;
      assert payment == BorrowCharge(positions, id, ratePerDay, days, markPrice);
      BorrowSign(positions[id].qty, markPrice, ratePerDay, days, payment);
      cash := cash + payment;
      borrowTotal := borrowTotal + payment;
      CashFlowBalances(
        initialCash, old(cash), positions, realized, totalFees, old(Flows()), Flows(), instruments.Keys, payment);
      plain := false;
      return Ok(payment);
    }

    /** Convert a position across a split: no cash moves, nothing is realized, and equity at the
        split-adjusted closes is equity at the closes before. */
    method ApplySplit(id: InstrumentId, ts: int, ratio: real) returns (r: Outcome<()>)
      requires Valid()
      modifies `positions, `plain, `actions
      ensures Valid()
      ensures r == if id !in instruments then KeyError else if ratio <= 0.0 then ValueError else Ok(())
      ensures r.Ok? ==> positions == SplitBook(old(positions), id, ratio)
      ensures r.Ok? ==> forall i ::
        Quantity(positions, i) == Multiplied(Quantity(old(positions), i), i == id, ratio)
      ensures actions == if r.Ok? && id in old(positions)
        then old(actions) + [Split(ts, id, old(positions)[id].qty, ratio)] else old(actions)
      ensures r.Ok? ==> View().cash == old(View()).cash
      ensures r.Ok? ==> forall closes: Marks | old(positions).Keys <= closes.Keys ::
        Equity(View(), SplitMarks(closes, id, ratio)) == Equity(old(View()), closes)
      ensures !r.Ok? ==> positions == old(positions)
    {
      hide Balanced, Logged, SplitPosition, Equity, CostBasis, SplitMarks, Curve;
      if id !in instruments { return KeyError; }
      if ratio <= 0.0 { return ValueError; }
      SplitBalances(initialCash, cash, positions, realized, totalFees, Flows(), instruments.Keys, id, ratio);
      SplitKeepsEquity(cash, positions, id, ratio);
      SplitMultiplies(positions, id, ratio);
      if id !in positions { return Ok(()); }
      actions := actions + [Split(ts, id, positions[id].qty, ratio)];
      positions := positions[id := SplitPosition(positions[id], ratio)];
      plain := false;
      return Ok(());
    }

    /** Book a cash dividend on the signed position: longs receive, shorts pay. */
    method ApplyCashDividend(id: InstrumentId, ts: int, amount: real) returns (r: Outcome<real>)
      requires Valid()
      modifies `cash, `corporateActionTotal, `plain, `actions
      ensures Valid()
      ensures r == if id !in instruments then KeyError else if amount <= 0.0 then ValueError
                   else Ok(Dividend(positions, id, amount))
      ensures r.Ok? ==> cash == old(cash) + r.value && corporateActionTotal == old(corporateActionTotal) + r.value
      ensures actions == if r.Ok? && id in positions
        then old(actions) + [CashDividend(ts, id, positions[id].qty, amount, r.value)] else old(actions)
      ensures !r.Ok? ==> View() == old(View())
    {
      hide Balanced, Logged, AsAccount, Dividend, Curve;
      DividendIs(positions, id, amount);
      if id !in instruments { return KeyError; }
      if amount <= 0.0 { return ValueError; }
      if id !in positions { return Ok(0.0); }
      var payment := positions[id].qty * amount;
      assert payment == Dividend(positions, id, amount);
      cash := cash + payment;
      corporateActionTotal := corporateActionTotal + payment;
      actions := actions + [CashDividend(ts, id, positions[id].qty, amount, payment)];
      CashFlowBalances(
        initialCash, old(cash), positions, realized, totalFees, old(Flows()), Flows(), instruments.Keys, payment);
      plain := false;
      return Ok(payment);
    }

    /** Book a financing accrual, unless it was computed on a different cash balance. */
    method ApplyFinancing(accrual: Accrual) returns (r: Outcome<real>)
      requires Valid()
      modifies `cash, `financingTotal, `plain
      ensures Valid()
      ensures r == if accrual.cashBalance != old(cash) then ValueError else Ok(accrual.payment)
      ensures r.Ok? ==> cash == old(cash) + accrual.payment && financingTotal == old(financingTotal) + accrual.payment
      ensures !r.Ok? ==> View() == old(View())
    {
      hide Balanced, Logged, AsAccount, Curve;
      if accrual.cashBalance != cash { return ValueError; }
      cash := cash + accrual.payment;
      financingTotal := financingTotal + accrual.payment;
      CashFlowBalances(
        initialCash, old(cash), positions, realized, totalFees, old(Flows()), Flows(), instruments.Keys,
        accrual.payment);
      plain := false;
      return Ok(accrual.payment);
    }

    /** Cash plus quantities at the closes, or nothing when an open position has no positive close. */
    method MarkedEquity(closes: Marks) returns (equity: real, ok: bool)
      ensures ok <==> forall id | id in positions :: id in closes && closes[id] > 0.0
      ensures ok ==> equity == cash + Total(OwnValues(positions, closes))
    {
      hide Total, Worth;
      equity := cash;
      var todo := positions.Keys;
      ghost var done: map<InstrumentId, real> := map[];
      TotalEmpty(done);
      while todo != {}
        invariant todo <= positions.Keys
        invariant forall id | id in positions && id !in todo :: id in closes && closes[id] > 0.0
        invariant done.Keys == positions.Keys - todo
        invariant forall id | id in done :: id in closes && done[id] == Worth(positions[id], closes[id])
        invariant equity == cash + Total(done)
        decreases |todo|
      {
        var id :| id in todo;
        todo := todo - {id};
        if id !in closes || closes[id] <= 0.0 { return equity, false; }
        var value := Worth(positions[id], closes[id]);
        equity := equity + value;
        TotalPut(done, id, value);
        assert done - {id} == done;
        done := done[id := value];
      }
      assert done == OwnValues(positions, closes);
      ok := true;
    }

    /** Mark the book and record the equity: appended at a new timestamp, overwritten at the last one. */
    method Mark(closes: Marks, ts: int) returns (r: Outcome<real>)
      requires Valid()
      modifies `equityTs, `equityValues, `log
      ensures Valid()
      ensures r.Ok? <==>
        && (forall id | id in positions :: id in closes && closes[id] > 0.0)
        && (old(equityTs) == [] || old(equityTs)[|old(equityTs)| - 1] <= ts)
      ensures View() == old(View())
      ensures r.Ok? ==> positions.Keys <= closes.Keys && r.value == Equity(View(), closes)
      ensures r.Ok? ==>
        var n := |old(equityTs)|;
        if n > 0 && old(equityTs)[n - 1] == ts then
          equityTs == old(equityTs) && equityValues == old(equityValues)[..n - 1] + [r.value]
        else
          equityTs == old(equityTs) + [ts] && equityValues == old(equityValues) + [r.value]
      ensures r.Ok? ==>
        var n := |old(equityTs)|;
        log == (if n > 0 && old(equityTs)[n - 1] == ts then WithoutLastMark(old(log)) else old(log))
          + [MarkRow(ts, Snapshot(positions, closes), r.value)]
      ensures !r.Ok? ==>
        r.ValueError? && equityTs == old(equityTs) && equityValues == old(equityValues) && log == old(log)
    {
      hide Balanced, Logged, CostBasis, Equity, Total, Snapshot, OwnValues, WithoutLastMark, CurveOf, OfKind;
      var equity, ok := MarkedEquity(closes);
      if !ok { return ValueError; }
      if equityTs != [] && ts < equityTs[|equityTs| - 1] { return ValueError; }
      ViewEquity(cash, positions, closes);
      MarkLogged(initialCash, View(), log, ts, closes);
      var row := MarkRow(ts, Snapshot(positions, closes), equity);
      MarkRecorded(log, equityTs, equityValues, row);
      if equityTs != [] && ts == equityTs[|equityTs| - 1] {
        equityValues := equityValues[..|equityValues| - 1] + [equity];
        log := WithoutLastMark(log) + [row];
      } else {
        equityTs := equityTs + [ts];
        equityValues := equityValues + [equity];
        log := log + [row];
      }
      return Ok(equity);
    }
  }

  // -------------------------------------------------------------- steps of the view

  function Snapshot(book: Book, closes: Marks): map<InstrumentId, Snap>
    requires book.Keys <= closes.Keys
  {
    map id | id in book :: Snap(book[id].qty, closes[id], Gain(book[id], closes[id]))
  }

  /** The log without its most recent mark: what re-marking a timestamp replaces. */
  function WithoutLastMark(log: seq<Row>): seq<Row> {
    if log == [] then []
    else
      var n := |log| - 1;
      if log[n].MarkRow? then log[..n] else WithoutLastMark(log[..n]) + [log[n]]
  }

  /** Recording a mark appends to the curve; replacing the last one replaces its equity. */
  lemma MarkRecorded(log: seq<Row>, ts: seq<int>, values: seq<real>, row: Row)
    requires CurveOf(OfKind(log, MarkKind), ts, values) && row.MarkRow?
    ensures |ts| == |values| && CurveOf(OfKind(log + [row], MarkKind), ts + [row.ts], values + [row.equity])
    ensures ts != [] && ts[|ts| - 1] == row.ts ==>
      values != [] && CurveOf(OfKind(WithoutLastMark(log) + [row], MarkKind), ts, values[..|values| - 1] + [row.equity])
  {
    hide OfKind;
    OfKindAppend(log, row, MarkKind);
    if ts != [] && ts[|ts| - 1] == row.ts {
      MarksDrop(log);
      OfKindAppend(WithoutLastMark(log), row, MarkKind);
    }
  }

  /** Dropping the most recent mark drops the last of the marks. */
  lemma {:induction false} MarksDrop(log: seq<Row>)
    requires OfKind(log, MarkKind) != []
    ensures OfKind(WithoutLastMark(log), MarkKind) == OfKind(log, MarkKind)[..|OfKind(log, MarkKind)| - 1]
  {
    assert log == [] ==> OfKind(log, MarkKind) == [];
    var front, last := log[..|log| - 1], log[|log| - 1];
    assert log == front + [last];
    OfKindAppend(front, last, MarkKind);
    if !last.MarkRow? {
      MarksDrop(front);
      OfKindAppend(WithoutLastMark(front), last, MarkKind);
    }
  }

  lemma PaymentIs(book: Book, f: Funding)
    requires f.instrument in book
    ensures Payment(book, f) == -book[f.instrument].qty * f.markPrice * f.rate
  {}

  /** What borrow a position accrues: a short its value times rate and days, any other nothing. */
  function BorrowCharge(book: Book, id: InstrumentId, ratePerDay: real, days: real, markPrice: real): real {
    if ratePerDay == 0.0 || days <= 0.0 || id !in book || book[id].qty >= 0.0 then 0.0
    else book[id].qty * markPrice * ratePerDay * days
  }

  lemma BorrowSign(q: real, mark: real, rate: real, days: real, payment: real)
    requires q < 0.0 && mark > 0.0 && rate != 0.0 && days > 0.0
    requires payment == q * mark * rate * days
    ensures payment < 0.0 <==> rate > 0.0
    ensures payment > 0.0 <==> rate < 0.0
  {
    var short := q * mark;
    Mixed(mark, q, short);
    var daily := short * rate;
    if rate > 0.0 {
      Mixed(rate, short, daily);
      Mixed(days, daily, payment);
    } else {
      Negatives(short, rate, daily);
      Positive(daily, days, payment);
    }
  }

  lemma CashFlowBalances(
      initial: real, cash: real, book: Book, realized: map<InstrumentId, real>, fees: real, flows: real,
      flows': real, known: set<InstrumentId>, x: real)
    requires Balanced(initial, cash, book, realized, fees, flows, known) && flows' == flows + x
    ensures Balanced(initial, cash + x, book, realized, fees, flows', known)
    ensures AsAccount(cash + x, book) == Account(AsAccount(cash, book).cash + x, book)
  {}

  /** Funding steps the view, and its log entry is exact. */
  lemma SettleView(initial: real, cash: real, book: Book, log: seq<Row>, f: Funding)
    ensures Step(AsAccount(cash, book), Settle(f)) == AsAccount(cash + Payment(book, f), book)
    ensures f.instrument !in book ==> Payment(book, f) == 0.0
    ensures f.instrument in book && Logged(initial, AsAccount(cash, book), log) ==>
      Logged(initial, AsAccount(cash + Payment(book, f), book),
             log + [FundingRow(f, book[f.instrument].qty, Payment(book, f))])
  {
    var a := AsAccount(cash, book);
    if f.instrument in book && Logged(initial, a, log) {
      ExactAppend(Flat(initial), log, FundingRow(f, book[f.instrument].qty, Payment(book, f)));
    }
    hide CostBasis;
  }

  function SplitMarks(closes: Marks, id: InstrumentId, ratio: real): Marks
    requires ratio > 0.0
  {
    if id in closes then closes[id := closes[id] / ratio] else closes
  }

  function SplitBook(book: Book, id: InstrumentId, ratio: real): Book
    requires ratio > 0.0
  {
    if id in book then book[id := SplitPosition(book[id], ratio)] else book
  }

  lemma SplitKeepsGain(p: Position, ratio: real, mark: real)
    requires ratio > 0.0
    ensures Gain(SplitPosition(p, ratio), mark / ratio) == Gain(p, mark)
  {
    var x, y := p.avg / ratio, mark / ratio;
    assert x * ratio == p.avg && y * ratio == mark;
    assert p.qty * ratio * (y - x) == p.qty * (y * ratio - x * ratio);
  }

  lemma SplitBalances(
      initial: real, cash: real, book: Book, realized: map<InstrumentId, real>, fees: real, flows: real,
      known: set<InstrumentId>, id: InstrumentId, ratio: real)
    requires Balanced(initial, cash, book, realized, fees, flows, known) && ratio > 0.0
    ensures Balanced(initial, cash, SplitBook(book, id, ratio), realized, fees, flows, known)
    ensures CostBasis(SplitBook(book, id, ratio)) == CostBasis(book)
  {
    if id in book {
      SplitKeepsCost(book[id], ratio);
      hide SplitPosition, Cost, CostBasis, Total;
      CostBasisDrop(book, id);
      CostBasisPut(book, id, SplitPosition(book[id], ratio));
      HeldPosition(book, id);
    }
  }

  /** Unrealized profit at the split-adjusted marks is what it was at the marks before. */
  lemma SplitKeepsGains(book: Book, id: InstrumentId, ratio: real, closes: Marks)
    requires ratio > 0.0 && book.Keys <= closes.Keys
    ensures Gains(SplitBook(book, id, ratio), SplitMarks(closes, id, ratio)) == Gains(book, closes)
  {
    if id in book { SplitKeepsGain(book[id], ratio, closes[id]); }
    hide SplitPosition, Gain;
  }

  lemma SplitKeepsEquity(cash: real, book: Book, id: InstrumentId, ratio: real)
    requires ratio > 0.0 && CostBasis(SplitBook(book, id, ratio)) == CostBasis(book)
    ensures forall closes: Marks | book.Keys <= closes.Keys ::
      Equity(AsAccount(cash, SplitBook(book, id, ratio)), SplitMarks(closes, id, ratio))
      == Equity(AsAccount(cash, book), closes)
  {
    hide SplitPosition, CostBasis, Total, Gains;
    forall closes: Marks | book.Keys <= closes.Keys
      ensures Equity(AsAccount(cash, SplitBook(book, id, ratio)), SplitMarks(closes, id, ratio))
           == Equity(AsAccount(cash, book), closes)
    {
      SplitKeepsGains(book, id, ratio, closes);
    }
  }

  lemma ViewEquity(cash: real, book: Book, closes: Marks)
    requires book.Keys <= closes.Keys
    ensures Equity(AsAccount(cash, book), closes) == cash + Total(OwnValues(book, closes))
  {
    EquityIsNotional(AsAccount(cash, book), closes);
    HeldValue(book, closes);
    hide CostBasis, MarkedValue, Equity, Total;
  }

  lemma {:induction false} DropMark(initial: real, log: seq<Row>)
    requires Exact(Flat(initial), log)
    ensures Exact(Flat(initial), WithoutLastMark(log))
    ensures Replayed(Flat(initial), WithoutLastMark(log)) == Replayed(Flat(initial), log)
  {
    if log != [] {
      var n := |log| - 1;
      ExactPrefix(Flat(initial), log, n);
      ReplayedStep(Flat(initial), log, n);
      assert log[..n + 1] == log;
      assert ExactRow(Replayed(Flat(initial), log[..n]), log[n]);
      if !log[n].MarkRow? {
        DropMark(initial, log[..n]);
        ExactAppend(Flat(initial), WithoutLastMark(log[..n]), log[n]);
      }
    }
  }

  /** Recording a mark, or replacing the last one, keeps the log exact. */
  lemma MarkLogged(initial: real, a: Account, log: seq<Row>, ts: int, closes: Marks)
    requires a.book.Keys <= closes.Keys
    ensures Logged(initial, a, log) ==>
      var row := MarkRow(ts, Snapshot(a.book, closes), Equity(a, closes));
      Logged(initial, a, log + [row]) && Logged(initial, a, WithoutLastMark(log) + [row])
  {
    var snapshot := Snapshot(a.book, closes);
    assert Gains(a.book, MarksOf(snapshot)) == Gains(a.book, closes);
    var row := MarkRow(ts, snapshot, Equity(a, closes));
    assert ExactRow(a, row);
    if Logged(initial, a, log) {
      hide ExactRow, Equity;
      ExactAppend(Flat(initial), log, row);
      DropMark(initial, log);
      ExactAppend(Flat(initial), WithoutLastMark(log), row);
    }
  }

  lemma SplitMultiplies(book: Book, id: InstrumentId, ratio: real)
    requires ratio > 0.0
    ensures forall i :: Quantity(SplitBook(book, id, ratio), i) == Multiplied(Quantity(book, i), i == id, ratio)
  {
    assert 0.0 * ratio == 0.0;
  }

  function Multiplied(q: real, applies: bool, ratio: real): real { if applies then q * ratio else q }

  /** The adjusted close times the ratio is the close before, and no other close changes. */
  lemma SplitMarksDivide(closes: Marks, id: InstrumentId, ratio: real, i: InstrumentId)
    requires ratio > 0.0 && i in closes
    ensures SplitMarks(closes, id, ratio).Keys == closes.Keys
    ensures Multiplied(SplitMarks(closes, id, ratio)[i], i == id, ratio) == closes[i]
  {
    if i == id { Quotient(closes[i], ratio, closes[i] / ratio); }
  }

  lemma ViewIsWorth(cash: real, book: Book, closes: Marks)
    requires book.Keys <= closes.Keys
    ensures Equity(AsAccount(cash, book), closes) == cash + MarkedValue(book, closes)
  {
    EquityIsNotional(AsAccount(cash, book), closes);
    hide Equity, CostBasis, MarkedValue;
  }

  lemma CloseFalls(book: Book, id: InstrumentId, amount: real, closes: Marks)
    requires id in closes
    ensures MarkedValue(book, closes[id := closes[id] - amount])
         == MarkedValue(book, closes) - Dividend(book, id, amount)
  {
    hide *;
    var after := closes[id := closes[id] - amount];
    var x, y := HeldValues(book, closes), HeldValues(book, after);
    MarkedIs(book, closes);
    MarkedIs(book, after);
    TotalRemove(x, id);
    TotalRemove(y, id);
    forall i | i in closes && i != id ensures x[i] == y[i] {
      HeldValueIs(book, closes, i, closes[i]);
      HeldValueIs(book, after, i, closes[i]);
    }
    assert x - {id} == y - {id};
    ValueFalls(book, id, amount, closes, after);
  }

  lemma MarkedIs(book: Book, marks: Marks)
    ensures MarkedValue(book, marks) == Total(HeldValues(book, marks))
  {}

  lemma HeldValueIs(book: Book, marks: Marks, i: InstrumentId, mark: real)
    requires i in marks && marks[i] == mark
    ensures HeldValues(book, marks)[i] == Quantity(book, i) * mark
  {
    hide Quantity;
  }

  lemma ValueFalls(book: Book, id: InstrumentId, amount: real, closes: Marks, after: Marks)
    requires id in closes && id in after && after[id] == closes[id] - amount
    ensures HeldValues(book, after)[id] == HeldValues(book, closes)[id] - Dividend(book, id, amount)
  {
    var q := Quantity(book, id);
    HeldValueIs(book, closes, id, closes[id]);
    HeldValueIs(book, after, id, closes[id] - amount);
    assert Dividend(book, id, amount) == q * amount;
    hide *;
    assert q * (closes[id] - amount) == q * closes[id] - q * amount;
  }

  /** A dividend is what the position loses when its close falls by the amount: equity is unchanged. */
  lemma DividendKeepsEquity(cash: real, book: Book, id: InstrumentId, amount: real, closes: Marks)
    requires book.Keys <= closes.Keys && id in closes
    ensures Equity(AsAccount(cash + Dividend(book, id, amount), book), closes[id := closes[id] - amount])
         == Equity(AsAccount(cash, book), closes)
  {
    hide *;
    ViewIsWorth(cash, book, closes);
    ViewIsWorth(cash + Dividend(book, id, amount), book, closes[id := closes[id] - amount]);
    CloseFalls(book, id, amount, closes);
  }

  /** Borrow is carry on the short's value: nothing on a long, the value times rate and days on a short,
      and the same however the days are split. */
  lemma BorrowIsCarry(book: Book, id: InstrumentId, rate: real, first: real, rest: real, mark: real)
    requires first > 0.0 && rest > 0.0
    ensures Quantity(book, id) >= 0.0 ==> BorrowCharge(book, id, rate, first, mark) == 0.0
    ensures Quantity(book, id) < 0.0 ==>
      BorrowCharge(book, id, rate, first, mark) == -(Abs(Quantity(book, id)) * mark * (rate * first))
    ensures BorrowCharge(book, id, rate, first + rest, mark)
         == BorrowCharge(book, id, rate, first, mark) + BorrowCharge(book, id, rate, rest, mark)
  {
    if id in book && book[id].qty < 0.0 {
      var daily := book[id].qty * mark * rate;
      assert daily * (first + rest) == daily * first + daily * rest;
      assert daily * first == -(-book[id].qty * mark * (rate * first));
    }
  }

  /** A position of quantity zero leaves the book. */
  function Leave(book: Book, id: InstrumentId, p: Position): Book {
    if p.qty == 0.0 then book - {id} else book[id := p]
  }

  /** The opening times after a fill: set when a position opens from flat or changes sign, gone when
      it closes, and kept by adds and reductions. */
  function Opened(openedTs: map<InstrumentId, int>, book: Book, f: Fill): map<InstrumentId, int> {
    var id, q := f.instrument, Quantity(book, f.instrument);
    var left := q + Amount(f);
    if left == 0.0 then openedTs - {id}
    else if q == 0.0 || (q > 0.0) != (left > 0.0) then openedTs[id := f.ts]
    else openedTs
  }

  lemma OpenedFollows(openedTs: map<InstrumentId, int>, book: Book, f: Fill, next: Position)
    requires openedTs.Keys == book.Keys && WellFormed(book)
    requires next.qty == Held(book, f.instrument).qty + Amount(f)
    ensures Opened(openedTs, book, f).Keys == Leave(book, f.instrument, next).Keys
  {
    hide Amount;
  }

  /** The opening times a run of events leaves, from flat. */
  function OpenedAfter(cash: real, es: seq<Event>): map<InstrumentId, int> {
    if es == [] then map[]
    else
      var before, e := es[..|es| - 1], es[|es| - 1];
      var opened' := OpenedAfter(cash, before);
      if e.Trade? then Opened(opened', Run(Flat(cash), before).book, e.fill) else opened'
  }

  predicate SameSide(x: real, y: real) { (x > 0.0 && y > 0.0) || (x < 0.0 && y < 0.0) }

  /** Event k is the fill from which the position in `id` has stood on its present side. */
  ghost predicate OpenSince(es: seq<Event>, id: InstrumentId, k: nat) {
    && k < |es| && es[k].Trade? && es[k].fill.instrument == id
    && !SameSide(NetFilled(es[..k], id), NetFilled(es, id))
    && forall j | k < j <= |es| :: SameSide(NetFilled(es[..j], id), NetFilled(es, id))
  }

  /** An opening time is kept for exactly the instruments whose fills do not net to zero, and it is that
      of the fill since which the position has stood on its present side. */
  lemma {:induction false} OpenedSince(cash: real, es: seq<Event>, id: InstrumentId)
    ensures id in OpenedAfter(cash, es) <==> NetFilled(es, id) != 0.0
    ensures id in OpenedAfter(cash, es) ==>
      exists k: nat :: OpenSince(es, id, k) && OpenedAfter(cash, es)[id] == es[k].fill.ts
  {
    if es != [] {
      var n := |es| - 1;
      var front, e := es[..n], es[n];
      OpenedSince(cash, front, id);
      HeldIsNet(cash, front, id);
      assert NetFilled(es, id) == NetFilled(front, id) + FilledBy(e, id);
      hide Run, NetFilled;
      assert es[..|es|] == es;
      if !SameSide(NetFilled(front, id), NetFilled(es, id)) {
        if NetFilled(es, id) != 0.0 { assert OpenSince(es, id, n); }
      } else {
        var k: nat :| OpenSince(front, id, k) && OpenedAfter(cash, front)[id] == front[k].fill.ts;
        StillOpen(es, id, k);
      }
    }
  }

  lemma StillOpen(es: seq<Event>, id: InstrumentId, k: nat)
    requires es != [] && OpenSince(es[..|es| - 1], id, k)
    requires SameSide(NetFilled(es[..|es| - 1], id), NetFilled(es, id))
    ensures OpenSince(es, id, k)
  {
    var front := es[..|es| - 1];
    assert es[..|es|] == es;
    assert forall j | 0 <= j <= |front| :: front[..j] == es[..j];
    hide NetFilled;
    forall j | k < j <= |es| ensures SameSide(NetFilled(es[..j], id), NetFilled(es, id)) {
      if j <= |front| { assert SameSide(NetFilled(front[..j], id), NetFilled(front, id)); }
    }
  }

  /** Only a fill against the position books realized profit. */
  function Credited(
      realized: map<InstrumentId, real>, id: InstrumentId, pos: Position, amount: real, now: real)
    : map<InstrumentId, real>
  {
    if Increases(pos.qty, amount) then realized else Credit(realized, id, now)
  }

  /** The profit of `now` is added to one instrument's realized profit, and to no other's. */
  ghost predicate Earns(
      before: map<InstrumentId, real>, after: map<InstrumentId, real>, id: InstrumentId, now: real)
  {
    forall i :: Profit(after, i) == Profit(before, i) + if i == id then now else 0.0
  }

  function Profit(realized: map<InstrumentId, real>, id: InstrumentId): real {
    if id in realized then realized[id] else 0.0
  }

  lemma CreditedEarns(
      realized: map<InstrumentId, real>, id: InstrumentId, pos: Position, amount: real, price: real, now: real)
    requires amount != 0.0 && now == BookFill(pos, amount, price).realized
    ensures Earns(realized, Credited(realized, id, pos, amount, now), id, now)
  {
    hide Vwap, Abs, Min;
  }

  /** The signed position times the amount per unit. */
  function Dividend(book: Book, id: InstrumentId, amount: real): real { Quantity(book, id) * amount }

  lemma DividendIs(book: Book, id: InstrumentId, amount: real)
    ensures Dividend(book, id, amount) == if id in book then book[id].qty * amount else 0.0
  {}

  lemma HeldPosition(book: Book, id: InstrumentId)
    ensures if id in book then Held(book, id) == book[id] else Held(book, id) == Position(0.0, 0.0)
  {}

  lemma KnownHolding(
      initial: real, cash: real, book: Book, realized: map<InstrumentId, real>, fees: real, flows: real,
      known: set<InstrumentId>, id: InstrumentId)
    requires Balanced(initial, cash, book, realized, fees, flows, known)
    ensures WellFormed(book)
    ensures if id in book then Held(book, id).qty != 0.0 else Held(book, id) == Position(0.0, 0.0)
  {}

  /** A booked fill keeps the ledger balanced and steps its view as the account steps. */
  lemma FillTransition(
      initial: real, cash: real, book: Book, realized: map<InstrumentId, real>, fees: real, flows: real,
      known: set<InstrumentId>, f: Fill, next: Position, now: real)
    requires Amount(f) != 0.0 && f.instrument in known
    requires Balanced(initial, cash, book, realized, fees, flows, known)
    requires var held := Held(book, f.instrument);
      next.qty == held.qty + Amount(f) && Booking(now, next.avg) == BookFill(held, Amount(f), f.price)
    ensures var a, left := AsAccount(cash, book), Leave(book, f.instrument, next);
      var cash' := cash - Consideration(f) - f.fee;
      var credited := Credited(realized, f.instrument, Held(book, f.instrument), Amount(f), now);
      && now == Realized(a, f)
      && Step(a, Trade(f)) == AsAccount(cash', left)
      && Total(credited) == Total(realized) + now
      && Balanced(initial, cash', left, credited, fees + f.fee, flows, known)
  {
    var a := AsAccount(cash, book);
    BranchIsFilled(a, f, next, now);
    CreditAdds(realized, f.instrument, now);
    hide Amount, Consideration, Filled, Realized, CostBasis, BookFill, Total, Credit;
    FillOnView(cash, book, f);
    StepWellFormed(a, Trade(f));
  }

  /** All that booking a fill does to the ledger's values. */
  lemma FillBooks(
      initial: real, cash: real, book: Book, realized: map<InstrumentId, real>, fees: real, flows: real,
      known: set<InstrumentId>, log: seq<Row>, openedTs: map<InstrumentId, int>, f: Fill, next: Position, now: real)
    requires Amount(f) != 0.0 && f.instrument in known && openedTs.Keys == book.Keys
    requires Balanced(initial, cash, book, realized, fees, flows, known)
    requires var held := Held(book, f.instrument);
      next.qty == held.qty + Amount(f) && Booking(now, next.avg) == BookFill(held, Amount(f), f.price)
    ensures var a, left := AsAccount(cash, book), Leave(book, f.instrument, next);
      var cash' := cash - Consideration(f) - f.fee;
      var credited := Credited(realized, f.instrument, Held(book, f.instrument), Amount(f), now);
      && now == Realized(a, f)
      && Step(a, Trade(f)) == AsAccount(cash', left)
      && Total(credited) == Total(realized) + now
      && Earns(realized, credited, f.instrument, now)
      && Balanced(initial, cash', left, credited, fees + f.fee, flows, known)
      && Opened(openedTs, book, f).Keys == left.Keys
      && (Logged(initial, a, log) ==> Logged(initial, AsAccount(cash', left), log + [FillRow(f, Notional(f), now)]))
  {
    hide *;
    KnownHolding(initial, cash, book, realized, fees, flows, known, f.instrument);
    FillTransition(initial, cash, book, realized, fees, flows, known, f, next, now);
    OpenedFollows(openedTs, book, f, next);
    CreditedEarns(realized, f.instrument, Held(book, f.instrument), Amount(f), f.price, now);
    LogFill(initial, log, AsAccount(cash, book), f);
  }

  lemma LogFill(initial: real, log: seq<Row>, a: Account, f: Fill)
    ensures Logged(initial, a, log) ==>
      Logged(initial, Step(a, Trade(f)), log + [FillRow(f, Notional(f), Realized(a, f))])
  {
    hide Replayed, Exact, ExactRow, Step;
    LoggedFillIsExact(a, f);
    if Logged(initial, a, log) {
      ExactAppend(Flat(initial), log, FillRow(f, Notional(f), Realized(a, f)));
    }
  }

  lemma BranchIsFilled(a: Account, f: Fill, next: Position, realizedNow: real)
    requires Amount(f) != 0.0
    requires var held := Held(a.book, f.instrument);
      next.qty == held.qty + Amount(f) && Booking(realizedNow, next.avg) == BookFill(held, Amount(f), f.price)
    ensures next == Filled(a, f) && realizedNow == Realized(a, f)
    ensures Increases(Held(a.book, f.instrument).qty, Amount(f)) ==> realizedNow == 0.0
  {
    var held := Held(a.book, f.instrument);
    assert Increases(held.qty, Amount(f)) ==> BookFill(held, Amount(f), f.price).realized == 0.0;
    hide BookFill, Amount;
  }

  lemma LoggedFillIsExact(a: Account, f: Fill)
    ensures ExactRow(a, FillRow(f, Notional(f), Realized(a, f)))
  {
    AmountNonZero(f);
    assert Notional(f) == Abs(Amount(f)) * f.price;
    hide Realized, Amount, Notional;
  }

  lemma AddedQuantity(q: real, amount: real)
    requires amount != 0.0 && Increases(q, amount)
    ensures Abs(q + amount) == Abs(q) + Abs(amount) > 0.0
  {
    SameSign(q, amount);
  }

  lemma ClosedExactly(q: real, amount: real)
    requires amount != 0.0 && !Increases(q, amount) && Abs(amount) == Abs(q)
    ensures q + amount == 0.0
  {
    OppositeSign(q, amount);
  }

  /** The branches of a fill on the position held, if any: open or add, reduce, close, flip. */
  method Branch(opening: bool, pos: Position, signedQty: real, price: real) returns (next: Position, realizedNow: real)
    requires signedQty != 0.0
    requires if opening then pos == Position(0.0, 0.0) else pos.qty != 0.0
    ensures next.qty == pos.qty + signedQty
    ensures Booking(realizedNow, next.avg) == BookFill(pos, signedQty, price)
  {
    hide BookFill, Vwap, Abs, Min;
    realizedNow := 0.0;
    if opening || pos.qty * signedQty > 0.0 {
      var newQty := pos.qty + signedQty;
      AddedQuantity(pos.qty, signedQty);
      next := Position(newQty, (Abs(pos.qty) * pos.avg + Abs(signedQty) * price) / Abs(newQty));
      AddIs(pos, signedQty, price, Abs(newQty), next.avg);
    } else {
      var posSign := if pos.qty > 0.0 then 1.0 else -1.0;
      var qtyClosed := Min(Abs(signedQty), Abs(pos.qty));
      realizedNow := qtyClosed * (price - pos.avg) * posSign;
      ReduceIs(pos, signedQty, price, qtyClosed, posSign, realizedNow);
      var residual := pos.qty + signedQty;
      if Abs(signedQty) < Abs(pos.qty) {
        next := Position(residual, pos.avg);
      } else if Abs(signedQty) == Abs(pos.qty) {
        ClosedExactly(pos.qty, signedQty);
        next := Position(0.0, pos.avg);
      } else {
        next := Position(residual, price);
      }
    }
  }
}
