/** What the average cost of an open position means, and the long/short symmetry of a run. */
module AverageCost {
  import opened Reals
  import opened SeqSums
  import opened Accounts
  import opened Conservation
  import opened Legs

  // ------------------------------------------------- brackets on the average

  /** The prices of the fills that opened or increased the position in `id` since it was last
      flat or changed sign. */
  function OpeningPrices(es: seq<Event>, id: InstrumentId): seq<real> {
    if es == [] then []
    else
      var before, e := es[..|es| - 1], es[|es| - 1];
      var prior := OpeningPrices(before, id);
      if !e.Trade? || e.fill.instrument != id then prior
      else
        var q, amount := NetFilled(before, id), Amount(e.fill);
        if q + amount == 0.0 then []
        else if q == 0.0 || (Abs(amount) > Abs(q) && !Increases(q, amount)) then [e.fill.price]
        else if Increases(q, amount) then prior + [e.fill.price]
        else prior
  }

  lemma WeightedBetween(x: real, a: real, y: real, b: real, lo: real, hi: real, mean: real)
    requires x >= 0.0 && y > 0.0 && lo <= a <= hi && lo <= b <= hi
    requires mean == (x * a + y * b) / (x + y)
    ensures lo <= mean <= hi
  {
    var s := x + y;
    Quotient(x * a + y * b, s, mean);
    var low, high := (mean - lo) * s, (hi - mean) * s;
    assert low == x * (a - lo) + y * (b - lo);
    assert high == x * (hi - a) + y * (hi - b);
    NonNegative(x, a - lo, x * (a - lo));
    NonNegative(y, b - lo, y * (b - lo));
    NonNegative(x, hi - a, x * (hi - a));
    NonNegative(y, hi - b, y * (hi - b));
    if mean < lo { Mixed(s, mean - lo, low); }
    if mean > hi { Mixed(s, hi - mean, high); }
  }

  lemma BookingBetween(p: Position, amount: real, price: real, lo: real, hi: real)
    requires amount != 0.0
    requires Increases(p.qty, amount) || Abs(amount) > Abs(p.qty) ==> lo <= price <= hi
    requires p.qty != 0.0 && (Increases(p.qty, amount) || Abs(amount) <= Abs(p.qty)) ==> lo <= p.avg <= hi
    ensures lo <= BookFill(p, amount, price).avg <= hi
  {
    if Increases(p.qty, amount) {
      if p.qty == 0.0 {
        Quotient(Abs(amount) * price, Abs(amount), price);
      } else {
        WeightedBetween(Abs(p.qty), p.avg, Abs(amount), price, lo, hi, BookFill(p, amount, price).avg);
      }
    }
  }

  lemma {:induction false} OpenExactlyWhenNet(es: seq<Event>, id: InstrumentId)
    ensures OpeningPrices(es, id) != [] <==> NetFilled(es, id) != 0.0
  {
    if es != [] {
      OpenExactlyWhenNet(es[..|es| - 1], id);
      var e := es[|es| - 1];
      if e.Trade? { AmountNonZero(e.fill); }
    }
  }

  lemma ReachableBook(c: real, es: seq<Event>, id: InstrumentId)
    ensures Quantity(Run(Flat(c), es).book, id) == NetFilled(es, id)
    ensures id in Run(Flat(c), es).book <==> NetFilled(es, id) != 0.0
  {
    RunConserves(Flat(c), es);
    assert Quantity(Flat(c).book, id) == 0.0;
    assert WellFormed(Run(Flat(c), es).book);
    hide Run, NotionalCash;
  }

  /** In every reachable book an instrument is held exactly when its fills do not net to zero,
      and then its average cost lies between the least and the greatest price at which the
      position was opened or increased. */
  lemma {:induction false} AverageIsBracketed(c: real, es: seq<Event>, id: InstrumentId, lo: real, hi: real)
    requires forall p | p in OpeningPrices(es, id) :: lo <= p <= hi
    ensures id in Run(Flat(c), es).book <==> OpeningPrices(es, id) != []
    ensures id in Run(Flat(c), es).book ==> lo <= Run(Flat(c), es).book[id].avg <= hi
  {
    ReachableBook(c, es, id);
    OpenExactlyWhenNet(es, id);
    if es != [] {
      var before, e := es[..|es| - 1], es[|es| - 1];
      ReachableBook(c, before, id);
      if e.Trade? && e.fill.instrument == id {
        var p, amount := Held(Run(Flat(c), before).book, id), Amount(e.fill);
        AmountNonZero(e.fill);
        var prior := OpeningPrices(before, id);
        if p.qty != 0.0 && (Increases(p.qty, amount) || Abs(amount) <= Abs(p.qty)) && p.qty + amount != 0.0 {
          forall x | x in prior ensures lo <= x <= hi { assert x in OpeningPrices(es, id); }
          AverageIsBracketed(c, before, id, lo, hi);
        }
        if p.qty + amount != 0.0 {
          if Increases(p.qty, amount) || Abs(amount) > Abs(p.qty) {
            assert OpeningPrices(es, id)[|OpeningPrices(es, id)| - 1] == e.fill.price;
            assert e.fill.price in OpeningPrices(es, id);
          }
          BookingBetween(p, amount, e.fill.price, lo, hi);
        }
      } else {
        AverageIsBracketed(c, before, id, lo, hi);
      }
    }
  }

  // ------------------------------------------------------------ VWAP of adds

  type Sides = InstrumentId -> Side

  /** Fills only, each on the side its instrument is traded on. */
  ghost predicate Adds(es: seq<Event>, sides: Sides) {
    forall e | e in es :: e.Trade? && e.fill.side == sides(e.fill.instrument)
  }

  ghost predicate OnSide(qty: real, side: Side) { if side == Buy then qty > 0.0 else qty < 0.0 }

  /** A book whose positions are all on their instruments' sides. */
  ghost predicate OnSides(book: Book, sides: Sides) { forall id | id in book :: OnSide(book[id].qty, sides(id)) }

  function FeeOf(e: Event): real { if e.Trade? then e.fill.fee else 0.0 }

  function Fees(es: seq<Event>): real { SumOf(es, e => FeeOf(e)) }

  function PaidBy(e: Event, id: InstrumentId): real {
    if e.Trade? && e.fill.instrument == id then Consideration(e.fill) else 0.0
  }

  /** Signed amount times price over the fills in `id`. */
  function Paid(es: seq<Event>, id: InstrumentId): real { SumOf(es, e => PaidBy(e, id)) }

  lemma AddRealizesNothing(a: Account, f: Fill)
    requires f.instrument in a.book ==> OnSide(a.book[f.instrument].qty, f.side)
    ensures Realized(a, f) == 0.0
    ensures OnSide(Filled(a, f).qty, f.side)
    ensures Cost(Filled(a, f)) == Cost(Held(a.book, f.instrument)) + Consideration(f)
  {
    AmountNonZero(f);
    var q, amount := Held(a.book, f.instrument).qty, Amount(f);
    if q > 0.0 { Positive(q, amount, q * amount); }
    if q < 0.0 { Negatives(q, amount, q * amount); }
    FilledCost(a, f);
  }

  lemma AddedFill(a: Account, f: Fill, sides: Sides)
    requires OnSides(a.book, sides) && f.side == sides(f.instrument)
    ensures ApplyFill(a, f).cash == a.cash - f.fee
    ensures OnSides(ApplyFill(a, f).book, sides)
    ensures forall id :: Cost(Held(ApplyFill(a, f).book, id)) == Cost(Held(a.book, id)) + PaidBy(Trade(f), id)
  {
    AddRealizesNothing(a, f);
    hide Cost, Filled, Realized, Consideration;
  }

  /** Adding to positions realizes nothing: only fees leave the cash, and every cost grows by
      what is paid for the instrument. */
  lemma {:induction false} AddsRealizeNothing(a: Account, es: seq<Event>, sides: Sides)
    requires OnSides(a.book, sides) && Adds(es, sides)
    ensures Run(a, es).cash == a.cash - Fees(es)
    ensures OnSides(Run(a, es).book, sides)
    ensures forall id :: Cost(Held(Run(a, es).book, id)) == Cost(Held(a.book, id)) + Paid(es, id)
  {
    if es != [] {
      var before, e := es[..|es| - 1], es[|es| - 1];
      assert e in es;
      AddsRealizeNothing(a, before, sides);
      AddedFill(Run(a, before), e.fill, sides);
      hide ApplyFill, Cost, Held, OnSides, PaidBy;
    }
  }

  /** Same-direction adds in any order, over any instruments and from any positions they add to,
      leave the same account, and each average is the volume-weighted price: what was held and
      what was paid, over the quantity. */
  lemma AddsCommute(a: Account, es: seq<Event>, fs: seq<Event>, sides: Sides)
    requires OnSides(a.book, sides) && Adds(es, sides) && multiset(es) == multiset(fs)
    ensures Run(a, es) == Run(a, fs)
    ensures forall id | id in Run(a, es).book :: Run(a, es).book[id] == Left(a.book, es, id)
  {
    forall e | e in fs ensures e in es { assert e in multiset(es); }
    AddsLeave(a, es, sides);
    AddsLeave(a, fs, sides);
    SumOfPermutation(es, fs, e => FeeOf(e));
    assert Fees(es) == Fees(fs);
    var x, y := Run(a, es), Run(a, fs);
    hide Run, Left, Fees, OnSides, Adds;
    forall id ensures id in x.book <==> id in y.book
      ensures id in x.book ==> x.book[id] == y.book[id]
    {
      SameLeft(a.book, es, fs, id);
    }
    assert x.book == y.book;
  }

  /** What the adds of `es` leave of an instrument: the position at its volume-weighted price. */
  function Left(book: Book, es: seq<Event>, id: InstrumentId): Position {
    Averaged(Quantity(book, id) + NetFilled(es, id), Cost(Held(book, id)) + Paid(es, id))
  }

  lemma SameLeft(book: Book, es: seq<Event>, fs: seq<Event>, id: InstrumentId)
    requires multiset(es) == multiset(fs)
    ensures Left(book, es, id) == Left(book, fs, id)
  {
    SumOfPermutation(es, fs, e => FilledBy(e, id));
    SumOfPermutation(es, fs, e => PaidBy(e, id));
    assert NetFilled(es, id) == NetFilled(fs, id) && Paid(es, id) == Paid(fs, id);
    LeftIs(book, es, id);
    LeftIs(book, fs, id);
    hide *;
  }

  lemma LeftIs(book: Book, es: seq<Event>, id: InstrumentId)
    ensures Left(book, es, id) == Averaged(Quantity(book, id) + NetFilled(es, id), Cost(Held(book, id)) + Paid(es, id))
  {}

  /** A quantity held at a total cost. */
  function Averaged(qty: real, cost: real): Position { Position(qty, if qty == 0.0 then 0.0 else cost / qty) }

  lemma AddsLeave(a: Account, es: seq<Event>, sides: Sides)
    requires OnSides(a.book, sides) && Adds(es, sides)
    ensures Run(a, es).cash == a.cash - Fees(es)
    ensures forall id :: id in Run(a, es).book <==> Left(a.book, es, id).qty != 0.0
    ensures forall id | id in Run(a, es).book :: Run(a, es).book[id] == Left(a.book, es, id)
  {
    hide *;
    AddsRealizeNothing(a, es, sides);
    forall id ensures id in Run(a, es).book <==> Left(a.book, es, id).qty != 0.0
      ensures id in Run(a, es).book ==> Run(a, es).book[id] == Left(a.book, es, id)
    {
      LeavesOne(a, es, sides, id);
    }
  }

  lemma OnSidesWellFormed(book: Book, sides: Sides)
    requires OnSides(book, sides)
    ensures WellFormed(book)
  {}

  lemma LeavesOne(a: Account, es: seq<Event>, sides: Sides, id: InstrumentId)
    requires OnSides(a.book, sides) && Adds(es, sides)
    ensures id in Run(a, es).book <==> Left(a.book, es, id).qty != 0.0
    ensures id in Run(a, es).book ==> Run(a, es).book[id] == Left(a.book, es, id)
  {
    hide *;
    AddsRealizeNothing(a, es, sides);
    RunConserves(a, es);
    OnSidesWellFormed(a.book, sides);
    LeftIs(a.book, es, id);
    AveragedIs(Run(a, es).book, id);
  }

  /** A held position is the average of its own quantity and cost. */
  lemma AveragedIs(book: Book, id: InstrumentId)
    requires WellFormed(book)
    ensures var p := Averaged(Quantity(book, id), Cost(Held(book, id)));
      && (id in book <==> p.qty != 0.0)
      && (id in book ==> book[id] == p)
  {
    if id in book { AverageIs(book[id]); }
  }

  lemma AverageIs(p: Position)
    requires p.qty != 0.0
    ensures p.avg == Cost(p) / p.qty
  {}

  // --------------------------------------------------- long/short symmetry

  function MirrorEvent(e: Event): Event {
    match e
    case Trade(f) => Trade(Opposite(f))
    case _ => e
  }

  function Mirror(es: seq<Event>): seq<Event> { seq(|es|, i requires 0 <= i < |es| => MirrorEvent(es[i])) }

  function MirrorPosition(p: Position): Position { Position(-p.qty, p.avg) }

  ghost predicate MirrorBooks(x: Book, y: Book) {
    x.Keys == y.Keys && forall id | id in x :: y[id] == MirrorPosition(x[id])
  }

  lemma BookingMirrors(p: Position, amount: real, price: real)
    requires amount != 0.0
    ensures BookFill(MirrorPosition(p), -amount, price).realized == -BookFill(p, amount, price).realized
    ensures p.qty + amount != 0.0 ==>
      BookFill(MirrorPosition(p), -amount, price).avg == BookFill(p, amount, price).avg
  {
    assert -p.qty * -amount == p.qty * amount;
    var r := MirrorPosition(p);
    assert Increases(p.qty, amount) == Increases(r.qty, -amount);
    assert Abs(r.qty) == Abs(p.qty) && Abs(-amount) == Abs(amount);
    if !Increases(p.qty, amount) {
      OppositeSign(p.qty, amount);
    }
    hide Vwap;
  }

  /** A run with every side reversed holds the opposite quantities at the same average costs,
      realizes the opposite profit and receives the opposite funding; only fees do not cancel. */
  lemma {:induction false} MirroredRun(c: real, es: seq<Event>)
    ensures var x, y := Run(Flat(c), es), Run(Flat(c), Mirror(es));
      && MirrorBooks(x.book, y.book)
      && x.cash - c + Fees(es) == -(y.cash - c + Fees(es))
  {
    if es != [] {
      var before, e := es[..|es| - 1], es[|es| - 1];
      MirroredRun(c, before);
      assert Mirror(es)[..|es| - 1] == Mirror(before);
      var x, y := Run(Flat(c), before), Run(Flat(c), Mirror(before));
      assert Run(Flat(c), Mirror(es)) == Step(y, MirrorEvent(e));
      hide Run, Mirror;
      MirroredStep(x, y, e);
    }
  }

  function Opposite(f: Fill): Fill { f.(side := if f.side == Buy then Sell else Buy) }

  lemma OppositeAmount(f: Fill)
    ensures Amount(Opposite(f)) == -Amount(f)
  {}

  lemma HeldMirrors(x: Book, y: Book, id: InstrumentId)
    requires MirrorBooks(x, y)
    ensures Held(y, id) == MirrorPosition(Held(x, id))
  {}

  lemma MirroredFill(x: Account, y: Account, f: Fill)
    requires MirrorBooks(x.book, y.book)
    ensures Realized(y, Opposite(f)) == -Realized(x, f)
    ensures Filled(y, Opposite(f)).qty == -Filled(x, f).qty
    ensures Filled(x, f).qty != 0.0 ==> Filled(y, Opposite(f)) == MirrorPosition(Filled(x, f))
  {
    hide Amount, Held, BookFill, MirrorBooks;
    AmountNonZero(f);
    OppositeAmount(f);
    HeldMirrors(x.book, y.book, f.instrument);
    BookingMirrors(Held(x.book, f.instrument), Amount(f), f.price);
  }

  lemma MirroredPayment(x: Book, y: Book, f: Funding)
    requires MirrorBooks(x, y)
    ensures Payment(y, f) == -Payment(x, f)
  {
    assert Quantity(y, f.instrument) == -Quantity(x, f.instrument);
  }

  lemma MirroredStep(x: Account, y: Account, e: Event)
    requires MirrorBooks(x.book, y.book)
    ensures MirrorBooks(Step(x, e).book, Step(y, MirrorEvent(e)).book)
    ensures Step(x, e).cash - x.cash + FeeOf(e) == -(Step(y, MirrorEvent(e)).cash - y.cash + FeeOf(e))
  {
    hide Realized, Filled, Payment;
    match e {
      case Trade(f) => MirroredFill(x, y, f);
      case Settle(f) => MirroredPayment(x.book, y.book, f);
      case Close(_) =>
    }
  }
}
