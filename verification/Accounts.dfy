/** The average-cost account: fills, funding settlements and the marked book.

    This is the accounting that scripts/audit_crypto_funded_quantities_v4.py replays and that
    src/alphaforge/backtest/ledger.py keeps. Cash here moves by realized profit only; the
    notional (full consideration) cash of the production ledger is derived from it. */
module Accounts {
  import opened Reals
  import opened MapSums

  type InstrumentId = string

  datatype Side = Buy | Sell

  datatype Reason = Ordinary | AdministrativeTerminalSettlement | ForcedFlat

  datatype FillRecord = FillRecord(
    ts: int, instrument: InstrumentId, side: Side, qty: real, price: real, fee: real, reason: Reason)

  /** A fill as the engine can construct it: positive quantity and price, no negative fee. */
  type Fill = f: FillRecord | f.qty > 0.0 && f.price > 0.0 && f.fee >= 0.0
    witness FillRecord(0, "", Buy, 1.0, 1.0, 0.0, Ordinary)

  datatype Funding = Funding(ts: int, instrument: InstrumentId, markPrice: real, rate: real)

  datatype Position = Position(qty: real, avg: real)

  type Book = map<InstrumentId, Position>

  datatype Account = Account(cash: real, book: Book)

  datatype Event = Trade(fill: Fill) | Settle(funding: Funding) | Close(ts: int)

  function Sign(side: Side): real { if side == Buy then 1.0 else -1.0 }

  function Amount(f: Fill): real { f.qty * Sign(f.side) }

  /** What the fill costs before fees: positive for a purchase. */
  function Consideration(f: Fill): real { Amount(f) * f.price }

  function Notional(f: Fill): real { f.qty * f.price }

  function Held(book: Book, id: InstrumentId): Position {
    if id in book then book[id] else Position(0.0, 0.0)
  }

  function Quantity(book: Book, id: InstrumentId): real { Held(book, id).qty }

  // ------------------------------------------------------------ one event

  /** What a signed amount does to a position: the profit it realizes and the new average cost. */
  datatype Booking = Booking(realized: real, avg: real)

  predicate Increases(q: real, amount: real) { q == 0.0 || q * amount > 0.0 }

  function Vwap(x: real, a: real, y: real, b: real): real
    requires x + y != 0.0
  {
    (x * a + y * b) / (x + y)
  }

  function BookFill(p: Position, amount: real, price: real): Booking
    requires amount != 0.0
  {
    if Increases(p.qty, amount) then
      Booking(0.0, Vwap(Abs(p.qty), p.avg, Abs(amount), price))
    else
      Booking(Min(Abs(p.qty), Abs(amount)) * (price - p.avg) * (if p.qty > 0.0 then 1.0 else -1.0),
              if Abs(amount) > Abs(p.qty) then price else p.avg)
  }

  lemma AmountNonZero(f: Fill)
    ensures Amount(f) != 0.0
    ensures Amount(f) > 0.0 <==> f.side == Buy
    ensures Abs(Amount(f)) == f.qty
  {}

  function Realized(a: Account, f: Fill): real {
    AmountNonZero(f);
    BookFill(Held(a.book, f.instrument), Amount(f), f.price).realized
  }

  /** The position that the fill leaves, zero quantity when it closes. */
  function Filled(a: Account, f: Fill): Position {
    AmountNonZero(f);
    var held := Held(a.book, f.instrument);
    Position(held.qty + Amount(f), BookFill(held, Amount(f), f.price).avg)
  }

  function ApplyFill(a: Account, f: Fill): Account {
    var filled := Filled(a, f);
    Account(
      a.cash + Realized(a, f) - f.fee,
      if filled.qty == 0.0 then a.book - {f.instrument} else a.book[f.instrument := filled])
  }

  function Payment(book: Book, f: Funding): real {
    -Quantity(book, f.instrument) * f.markPrice * f.rate
  }

  function Step(a: Account, e: Event): Account {
    match e
    case Trade(f) => ApplyFill(a, f)
    case Settle(f) => Account(a.cash + Payment(a.book, f), a.book)
    case Close(_) => a
  }

  function Run(a: Account, es: seq<Event>): Account {
    if es == [] then a else Step(Run(a, es[..|es| - 1]), es[|es| - 1])
  }

  lemma {:induction false} RunConcat(a: Account, es: seq<Event>, fs: seq<Event>)
    ensures Run(a, es + fs) == Run(Run(a, es), fs)
  {
    if fs == [] {
      assert es + fs == es;
    } else {
      RunConcat(a, es, fs[..|fs| - 1]);
      assert (es + fs)[..|es + fs| - 1] == es + fs[..|fs| - 1];
    }
  }

  // ----------------------------------------------------- sums over the book

  ghost function SumBook(book: Book, g: Position -> real): real {
    Total(map id | id in book :: g(book[id]))
  }

  function Cost(p: Position): real { p.qty * p.avg }

  ghost function CostBasis(book: Book): real { SumBook(book, Cost) }

  /** The cash of an account that pays the full consideration of every fill. */
  ghost function NotionalCash(a: Account): real { a.cash - CostBasis(a.book) }

  type Marks = map<InstrumentId, real>

  /** The unrealized profit of one position. */
  function Gain(p: Position, mark: real): real { p.qty * (mark - p.avg) }

  ghost function Gains(book: Book, marks: Marks): map<InstrumentId, real>
    requires book.Keys <= marks.Keys
  {
    map id | id in book :: Gain(book[id], marks[id])
  }

  ghost function Unrealized(book: Book, marks: Marks): real
    requires book.Keys <= marks.Keys
  {
    Total(Gains(book, marks))
  }

  /** Marked net asset value: cash plus unrealized profit. */
  ghost function Equity(a: Account, marks: Marks): real
    requires a.book.Keys <= marks.Keys
  {
    a.cash + Unrealized(a.book, marks)
  }

  /** The value of the quantities held, over every marked instrument. */
  ghost function MarkedValue(book: Book, marks: Marks): real { Total(HeldValues(book, marks)) }

  ghost function HeldValues(book: Book, marks: Marks): (m: map<InstrumentId, real>)
    ensures m.Keys == marks.Keys
  {
    map id | id in marks :: Quantity(book, id) * marks[id]
  }

  ghost predicate WellFormed(book: Book) {
    forall id | id in book :: book[id].qty != 0.0
  }

  lemma SumBookPut(book: Book, g: Position -> real, id: InstrumentId, p: Position)
    ensures SumBook(book[id := p], g) == SumBook(book - {id}, g) + g(p)
  {
    var after := book[id := p];
    var m := map i | i in after :: g(after[i]);
    TotalRemove(m, id);
    assert m - {id} == map i | i in book - {id} :: g((book - {id})[i]);
  }

  lemma SumBookDrop(book: Book, g: Position -> real, id: InstrumentId)
    ensures SumBook(book, g) == SumBook(book - {id}, g) + if id in book then g(book[id]) else 0.0
  {
    if id in book {
      SumBookPut(book, g, id, book[id]);
      assert book[id := book[id]] == book;
    } else {
      assert book - {id} == book;
    }
  }

  function Worth(p: Position, mark: real): real { p.qty * mark }

  ghost function OwnValues(book: Book, marks: Marks): map<InstrumentId, real>
    requires book.Keys <= marks.Keys
  {
    map id | id in book :: Worth(book[id], marks[id])
  }

  /** Only the instruments in the book contribute to its marked value. */
  lemma HeldValue(book: Book, marks: Marks)
    requires book.Keys <= marks.Keys
    ensures MarkedValue(book, marks) == Total(OwnValues(book, marks))
  {
    hide Total;
    TotalZeros(OwnValues(book, marks), HeldValues(book, marks));
  }

  /** Unrealized profit is marked value less cost basis. */
  lemma UnrealizedSplits(book: Book, marks: Marks)
    requires book.Keys <= marks.Keys
    ensures Unrealized(book, marks) == MarkedValue(book, marks) - CostBasis(book)
  {
    var cost := map id | id in book :: Cost(book[id]);
    forall id | id in book ensures Gains(book, marks)[id] == 1.0 * OwnValues(book, marks)[id] + -1.0 * cost[id] {
      MarkLessCost(book[id], marks[id]);
    }
    assert Unrealized(book, marks) == Total(Gains(book, marks));
    assert Gains(book, marks).Keys == book.Keys;
    var g: Position -> real := Cost;
    assert cost == map id | id in book :: g(book[id]);
    assert CostBasis(book) == SumBook(book, g);
    assert CostBasis(book) == Total(cost);
    assert OwnValues(book, marks).Keys == book.Keys;
    hide *;
    TotalLinear(1.0, OwnValues(book, marks), -1.0, cost, Gains(book, marks));
    HeldValue(book, marks);
  }

  lemma MarkLessCost(p: Position, mark: real)
    ensures Gain(p, mark) == Worth(p, mark) - Cost(p)
  {}

  /** Equity is notional cash plus the marked value of the quantities: no cost basis in it. */
  lemma EquityIsNotional(a: Account, marks: Marks)
    requires a.book.Keys <= marks.Keys
    ensures Equity(a, marks) == NotionalCash(a) + MarkedValue(a.book, marks)
  {
    UnrealizedSplits(a.book, marks);
  }
}
