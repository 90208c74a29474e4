/** Conservation over every run: quantities add up, and cash less cost basis does not depend
    on how the cost basis was computed. */
module Conservation {
  import opened Reals
  import opened SeqSums
  import opened Accounts

  // ------------------------------------------------------------- one fill

  /** Whatever branch a fill takes, the cost basis changes by its consideration plus the
      profit it realizes. */
  lemma BookingConserves(p: Position, amount: real, price: real)
    requires amount != 0.0
    ensures var b := BookFill(p, amount, price);
      Cost(Position(p.qty + amount, b.avg)) == Cost(p) + amount * price + b.realized
  {
    var b := BookFill(p, amount, price);
    if Increases(p.qty, amount) {
      SameSign(p.qty, amount);
      var s := Abs(p.qty) + Abs(amount);
      Quotient(Abs(p.qty) * p.avg + Abs(amount) * price, s, b.avg);
      if amount > 0.0 {
        assert p.qty + amount == s;
      } else {
        assert p.qty + amount == -s;
      }
    } else {
      OppositeSign(p.qty, amount);
    }
  }

  lemma SameSign(q: real, amount: real)
    requires amount != 0.0 && Increases(q, amount)
    ensures amount > 0.0 ==> q >= 0.0
    ensures amount < 0.0 ==> q <= 0.0
  {
    if amount > 0.0 && q < 0.0 { Mixed(amount, q, q * amount); }
    if amount < 0.0 && q > 0.0 { Mixed(q, amount, q * amount); }
  }

  lemma OppositeSign(q: real, amount: real)
    requires amount != 0.0 && !Increases(q, amount)
    ensures q > 0.0 <==> amount < 0.0
    ensures q < 0.0 <==> amount > 0.0
  {
    if q > 0.0 && amount > 0.0 { Positive(q, amount, q * amount); }
    if q < 0.0 && amount < 0.0 { Negatives(q, amount, q * amount); }
  }

  lemma AddIs(p: Position, amount: real, price: real, total: real, avg: real)
    requires amount != 0.0 && Increases(p.qty, amount) && total == Abs(p.qty) + Abs(amount) > 0.0
    requires avg == (Abs(p.qty) * p.avg + Abs(amount) * price) / total
    ensures BookFill(p, amount, price) == Booking(0.0, avg)
  {}

  lemma ReduceIs(p: Position, amount: real, price: real, closed: real, sign: real, realized: real)
    requires amount != 0.0 && !Increases(p.qty, amount)
    requires closed == Min(Abs(amount), Abs(p.qty)) && sign == (if p.qty > 0.0 then 1.0 else -1.0)
    requires realized == closed * (price - p.avg) * sign
    ensures BookFill(p, amount, price) == Booking(realized, if Abs(amount) > Abs(p.qty) then price else p.avg)
  {
    assert closed == Min(Abs(p.qty), Abs(amount));
  }

  lemma CostBasisPut(book: Book, id: InstrumentId, p: Position)
    ensures CostBasis(book[id := p]) == CostBasis(book - {id}) + Cost(p)
  {
    SumBookPut(book, Cost, id, p);
  }

  lemma CostBasisDrop(book: Book, id: InstrumentId)
    ensures CostBasis(book) == CostBasis(book - {id}) + Cost(Held(book, id))
  {
    SumBookDrop(book, Cost, id);
  }

  lemma FilledCost(a: Account, f: Fill)
    ensures Cost(Filled(a, f)) == Cost(Held(a.book, f.instrument)) + Consideration(f) + Realized(a, f)
    ensures Filled(a, f).qty == 0.0 ==> Cost(Filled(a, f)) == 0.0
  {
    AmountNonZero(f);
    BookingConserves(Held(a.book, f.instrument), Amount(f), f.price);
    hide BookFill;
  }

  /** Whatever it realizes, a fill moves notional cash by minus its consideration less the fee. */
  lemma FillKeepsNotional(a: Account, f: Fill)
    ensures NotionalCash(ApplyFill(a, f)) == NotionalCash(a) - Consideration(f) - f.fee
  {
    hide Consideration, CostBasis, Cost, Filled, Realized, Held;
    FilledCost(a, f);
    CostBasisDrop(a.book, f.instrument);
    CostBasisPut(a.book, f.instrument, Filled(a, f));
  }

  lemma FillMovesQuantity(a: Account, f: Fill, id: InstrumentId)
    ensures Quantity(ApplyFill(a, f).book, id)
         == Quantity(a.book, id) + if id == f.instrument then Amount(f) else 0.0
  {}

  lemma StepWellFormed(a: Account, e: Event)
    requires WellFormed(a.book)
    ensures WellFormed(Step(a, e).book)
  {}

  // ---------------------------------------------- the cost-free account of a run

  function FilledBy(e: Event, id: InstrumentId): real {
    if e.Trade? && e.fill.instrument == id then Amount(e.fill) else 0.0
  }

  function SpentBy(e: Event): real {
    if e.Trade? then Consideration(e.fill) + e.fill.fee else 0.0
  }

  /** The signed quantity of `id` that the fills of a run add up to. */
  function NetFilled(es: seq<Event>, id: InstrumentId): real { SumOf(es, e => FilledBy(e, id)) }

  /** Consideration and fees paid for the fills of a run. */
  function Spent(es: seq<Event>): real { SumOf(es, e => SpentBy(e)) }

  /** The settlement of `f` charged on the quantity `q`. */
  function Charge(q: real, f: Funding): real { -q * f.markPrice * f.rate }

  /** Funding received over a run that starts from the quantities of `book`: each settlement is
      charged on the starting quantity plus everything filled before it. */
  function FundingReceived(book: Book, es: seq<Event>): real {
    if es == [] then 0.0
    else
      var before, e := es[..|es| - 1], es[|es| - 1];
      FundingReceived(book, before)
      + if e.Settle? then
          var id := e.funding.instrument;
          Charge(Quantity(book, id) + NetFilled(before, id), e.funding)
        else 0.0
  }

  /** After every event, cash less cost basis is the start less the consideration and fees paid
      plus the funding received, and every quantity is the start plus the signed fills. */
  lemma {:induction false} RunConserves(a: Account, es: seq<Event>)
    ensures NotionalCash(Run(a, es)) == NotionalCash(a) - Spent(es) + FundingReceived(a.book, es)
    ensures forall id :: Quantity(Run(a, es).book, id) == Quantity(a.book, id) + NetFilled(es, id)
    ensures WellFormed(a.book) ==> WellFormed(Run(a, es).book)
  {
    if es != [] {
      var before, e := es[..|es| - 1], es[|es| - 1];
      RunConserves(a, before);
      var b := Run(a, before);
      hide NotionalCash, Held, Quantity, ApplyFill;
      match e {
        case Trade(f) =>
          FillKeepsNotional(b, f);
          forall id ensures Quantity(Run(a, es).book, id) == Quantity(a.book, id) + NetFilled(es, id) {
            FillMovesQuantity(b, f, id);
          }
        case Settle(f) =>
          SettleMovesCash(b, f);
        case Close(_) =>
      }
      if WellFormed(b.book) { StepWellFormed(b, e); }
    }
  }

  /** Quantity in `id` over the fills of one side, each weighted by its price or by one. */
  function SideTotal(es: seq<Event>, id: InstrumentId, side: Side, priced: bool): real {
    if es == [] then 0.0
    else
      var e := es[|es| - 1];
      SideTotal(es[..|es| - 1], id, side, priced)
      + if e.Trade? && e.fill.instrument == id && e.fill.side == side
        then e.fill.qty * (if priced then e.fill.price else 1.0) else 0.0
  }

  /** What the fills net to is what they buy less what they sell. */
  lemma {:induction false} NetIsBoughtLessSold(es: seq<Event>, id: InstrumentId)
    ensures NetFilled(es, id) == SideTotal(es, id, Buy, false) - SideTotal(es, id, Sell, false)
  {
    if es != [] { NetIsBoughtLessSold(es[..|es| - 1], id); }
  }

  /** In a run that trades one instrument, what is spent is what is bought at its price, less what is
      sold at its price, plus the fees. */
  lemma {:induction false} SpentIsPaidLessReceived(es: seq<Event>, id: InstrumentId)
    requires forall e | e in es && e.Trade? :: e.fill.instrument == id
    ensures Spent(es) == SideTotal(es, id, Buy, true) - SideTotal(es, id, Sell, true)
                         + SumOf(es, (e: Event) => if e.Trade? then e.fill.fee else 0.0)
  {
    if es != [] {
      var n := |es| - 1;
      assert es[n] in es;
      SpentIsPaidLessReceived(es[..n], id);
      if es[n].Trade? { PaidOrReceived(es[n].fill); }
      hide Consideration;
    }
  }

  lemma PaidOrReceived(f: Fill)
    ensures Consideration(f) == if f.side == Buy then f.qty * f.price else -(f.qty * f.price)
  {}

  /** Funding is paid by longs to shorts at a positive rate: the sign of the payment, and nothing is
      left over between opposite positions. */
  lemma LongsPayShorts(book: Book, f: Funding, q: real)
    requires f.markPrice > 0.0 && f.rate > 0.0
    ensures Payment(book, f) < 0.0 <==> Quantity(book, f.instrument) > 0.0
    ensures Payment(book, f) > 0.0 <==> Quantity(book, f.instrument) < 0.0
    ensures Abs(Payment(book, f)) == Abs(Quantity(book, f.instrument)) * (f.markPrice * f.rate)
    ensures Charge(q, f) + Charge(-q, f) == 0.0 && Charge(Quantity(book, f.instrument), f) == Payment(book, f)
  {
    var h, m := Quantity(book, f.instrument), f.markPrice * f.rate;
    Positive(f.markPrice, f.rate, m);
    assert Payment(book, f) == -(h * m);
    hide Quantity, Payment;
    if h > 0.0 { Positive(h, m, h * m); }
    if h < 0.0 { Positive(-h, m, -(h * m)); }
  }

  lemma SettleMovesCash(a: Account, f: Funding)
    ensures NotionalCash(Step(a, Settle(f)))
         == NotionalCash(a) + Charge(Quantity(a.book, f.instrument), f)
  {}

  // ------------------------------------------------------- order of fills

  /** Two accounts that differ at most in how cash is split between profit and cost basis. */
  ghost predicate SameHoldings(a: Account, b: Account) {
    && NotionalCash(a) == NotionalCash(b)
    && forall id :: Quantity(a.book, id) == Quantity(b.book, id)
  }

  lemma SameHoldingsSameEquity(a: Account, b: Account, marks: Marks)
    requires SameHoldings(a, b) && WellFormed(a.book) && WellFormed(b.book)
    requires a.book.Keys <= marks.Keys
    ensures b.book.Keys == a.book.Keys
    ensures Equity(a, marks) == Equity(b, marks)
  {
    forall id ensures id in a.book <==> id in b.book {
      assert Quantity(a.book, id) == Quantity(b.book, id);
    }
    assert b.book.Keys == a.book.Keys;
    EquityIsNotional(a, marks);
    EquityIsNotional(b, marks);
    SameMarkedValue(a.book, b.book, marks);
  }

  lemma SameMarkedValue(a: Book, b: Book, marks: Marks)
    requires forall id :: Quantity(a, id) == Quantity(b, id)
    ensures MarkedValue(a, marks) == MarkedValue(b, marks)
  {
    var x, y := HeldValues(a, marks), HeldValues(b, marks);
    forall id | id in marks ensures x[id] == y[id] {
      assert Quantity(a, id) == Quantity(b, id);
    }
    assert x == y;
  }

  ghost predicate OnlyFills(es: seq<Event>) { forall e | e in es :: e.Trade? }

  lemma {:induction false} NoFundingInFills(book: Book, es: seq<Event>)
    requires OnlyFills(es)
    ensures FundingReceived(book, es) == 0.0
  {
    if es != [] {
      assert es[|es| - 1] in es;
      NoFundingInFills(book, es[..|es| - 1]);
    }
  }

  lemma {:induction false} SameHoldingsRun(a: Account, b: Account, es: seq<Event>)
    requires SameHoldings(a, b)
    ensures SameHoldings(Run(a, es), Run(b, es))
  {
    RunConserves(a, es);
    RunConserves(b, es);
    SameFunding(a.book, b.book, es);
    hide NotionalCash, Quantity;
  }

  lemma {:induction false} SameFunding(a: Book, b: Book, es: seq<Event>)
    requires forall id :: Quantity(a, id) == Quantity(b, id)
    ensures FundingReceived(a, es) == FundingReceived(b, es)
  {
    if es != [] { SameFunding(a, b, es[..|es| - 1]); }
  }

  /** Rearranging the fills between two settlements or marks changes no later net asset value:
      not at the next mark, and not after any further events. */
  lemma ReorderedFillsKeepEquity(
      a: Account, before: seq<Event>, fills: seq<Event>, reordered: seq<Event>, after: seq<Event>, marks: Marks)
    requires WellFormed(a.book)
    requires OnlyFills(fills) && multiset(fills) == multiset(reordered)
    requires Run(a, before + fills + after).book.Keys <= marks.Keys
    ensures Run(a, before + reordered + after).book.Keys == Run(a, before + fills + after).book.Keys
    ensures Equity(Run(a, before + fills + after), marks) == Equity(Run(a, before + reordered + after), marks)
  {
    var b := Run(a, before);
    var x, y := Run(b, fills), Run(b, reordered);
    forall e | e in reordered ensures e.Trade? { assert e in multiset(fills); }
    RunConserves(b, fills);
    RunConserves(b, reordered);
    NoFundingInFills(b.book, fills);
    NoFundingInFills(b.book, reordered);
    SumOfPermutation(fills, reordered, e => SpentBy(e));
    forall id ensures Quantity(x.book, id) == Quantity(y.book, id) {
      SumOfPermutation(fills, reordered, e => FilledBy(e, id));
    }
    assert SameHoldings(x, y);
    SameHoldingsRun(x, y, after);
    RunConcat(a, before, fills);
    RunConcat(a, before + fills, after);
    RunConcat(a, before, reordered);
    RunConcat(a, before + reordered, after);
    RunConserves(a, before + fills + after);
    RunConserves(a, before + reordered + after);
    hide *;
    SameHoldingsSameEquity(Run(x, after), Run(y, after), marks);
  }
}
