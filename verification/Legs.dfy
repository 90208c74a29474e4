/** Chaining legs: what a flat restart at each leg boundary keeps and what it drops. */
module Legs {
  import opened Reals
  import opened MapSums
  import opened SeqSums
  import opened Accounts
  import opened Conservation

  function Flat(cash: real): Account { Account(cash, map[]) }

  function MarkOf(marks: Marks, id: InstrumentId): real { if id in marks then marks[id] else 0.0 }

  ghost function PriceGains(book: Book, from: Marks, to: Marks): map<InstrumentId, real> {
    map id | id in book :: book[id].qty * (MarkOf(to, id) - MarkOf(from, id))
  }

  /** What holding the quantities of `book` earns between two markings. */
  ghost function CarriedGain(book: Book, from: Marks, to: Marks): real { Total(PriceGains(book, from, to)) }

  /** The funding that the quantities of `book`, held unchanged, attract over the events. */
  function CarriedFunding(book: Book, es: seq<Event>): real {
    SumOf(es, (e: Event) => if e.Settle? then Charge(Quantity(book, e.funding.instrument), e.funding) else 0.0)
  }

  lemma {:induction false} FundingIsLinear(book: Book, es: seq<Event>)
    ensures FundingReceived(book, es) == FundingReceived(map[], es) + CarriedFunding(book, es)
  {
    if es != [] {
      var before, e := es[..|es| - 1], es[|es| - 1];
      FundingIsLinear(book, before);
      if e.Settle? {
        var id := e.funding.instrument;
        ChargeAdds(Quantity(book, id), NetFilled(before, id), e.funding);
        assert Quantity(map[], id) == 0.0;
      }
    }
  }

  lemma ChargeAdds(q: real, r: real, f: Funding)
    ensures Charge(q + r, f) == Charge(q, f) + Charge(0.0 + r, f)
  {}

  /** Holding earns the change in marked value. */
  lemma CarriedGainIsValueChange(book: Book, from: Marks, to: Marks)
    requires book.Keys <= from.Keys && book.Keys <= to.Keys
    ensures CarriedGain(book, from, to) == MarkedValue(book, to) - MarkedValue(book, from)
  {
    var x, y := OwnValues(book, from), OwnValues(book, to);
    GainsAreDifferences(book, from, to);
    hide *;
    TotalLinear(1.0, y, -1.0, x, PriceGains(book, from, to));
    HeldValue(book, from);
    HeldValue(book, to);
    assert CarriedGain(book, from, to) == Total(PriceGains(book, from, to)) by { CarriedGainTotal(book, from, to); }
  }

  lemma CarriedGainTotal(book: Book, from: Marks, to: Marks)
    ensures CarriedGain(book, from, to) == Total(PriceGains(book, from, to))
  {}

  lemma GainsAreDifferences(book: Book, from: Marks, to: Marks)
    requires book.Keys <= from.Keys && book.Keys <= to.Keys
    ensures PriceGains(book, from, to).Keys == book.Keys
    ensures forall id | id in book ::
      PriceGains(book, from, to)[id] == 1.0 * OwnValues(book, to)[id] + -1.0 * OwnValues(book, from)[id]
  {
    forall id | id in book
      ensures PriceGains(book, from, to)[id] == 1.0 * OwnValues(book, to)[id] + -1.0 * OwnValues(book, from)[id]
    {
      Difference(book[id].qty, to[id], from[id]);
    }
  }

  lemma Difference(q: real, x: real, y: real)
    ensures q * (x - y) == q * x - q * y
  {}

  lemma HeldValuesAdd(p: Book, q: Book, r: Book, marks: Marks)
    requires forall id :: Quantity(p, id) == Quantity(q, id) + Quantity(r, id)
    ensures forall id | id in marks ::
      HeldValues(p, marks)[id] == 1.0 * HeldValues(q, marks)[id] + 1.0 * HeldValues(r, marks)[id]
  {
    hide *;
    forall id | id in marks
      ensures HeldValues(p, marks)[id] == 1.0 * HeldValues(q, marks)[id] + 1.0 * HeldValues(r, marks)[id]
    {
      HeldValueAt(p, marks, id);
      HeldValueAt(q, marks, id);
      HeldValueAt(r, marks, id);
      ValuesAdd(Quantity(q, id), Quantity(r, id), marks[id]);
    }
  }

  lemma HeldValueAt(book: Book, marks: Marks, id: InstrumentId)
    requires id in marks
    ensures HeldValues(book, marks)[id] == Quantity(book, id) * marks[id]
  {}

  lemma ValuesAdd(x: real, y: real, mark: real)
    ensures (x + y) * mark == 1.0 * (x * mark) + 1.0 * (y * mark)
  {}

  lemma MarkedValueTotals(p: Book, q: Book, r: Book, marks: Marks)
    ensures MarkedValue(p, marks) == Total(HeldValues(p, marks))
    ensures MarkedValue(q, marks) == Total(HeldValues(q, marks))
    ensures MarkedValue(r, marks) == Total(HeldValues(r, marks))
  {}

  /** Starting from quantities instead of flat adds those quantities to every later book. */
  lemma QuantityIsLinear(a: Account, c: real, es: seq<Event>)
    ensures forall id ::
      Quantity(Run(a, es).book, id) == Quantity(Run(Flat(c), es).book, id) + Quantity(a.book, id)
  {
    RunConserves(a, es);
    RunConserves(Flat(c), es);
    assert forall id :: Quantity(Flat(c).book, id) == 0.0;
    hide Run, NotionalCash;
  }

  /** ... and so adds their value to every later marking. */
  lemma ValueIsLinear(a: Account, c: real, es: seq<Event>, marks: Marks)
    ensures MarkedValue(Run(a, es).book, marks)
         == MarkedValue(Run(Flat(c), es).book, marks) + MarkedValue(a.book, marks)
  {
    hide *;
    var p, q := Run(a, es).book, Run(Flat(c), es).book;
    QuantityIsLinear(a, c, es);
    HeldValuesAdd(p, q, a.book, marks);
    MarkedValueTotals(p, q, a.book, marks);
    TotalLinear(1.0, HeldValues(q, marks), 1.0, HeldValues(a.book, marks), HeldValues(p, marks));
  }

  /** Every instrument carried into a leg is held at its end by the continuous book, by the
      restarted book, or by both; so marks that cover both cover the carried book. */
  lemma CarriedIsMarked(a: Account, c: real, es: seq<Event>, marks: Marks)
    requires WellFormed(a.book)
    requires Run(a, es).book.Keys <= marks.Keys && Run(Flat(c), es).book.Keys <= marks.Keys
    ensures a.book.Keys <= marks.Keys
  {
    QuantityIsLinear(a, c, es);
    forall id | id in a.book ensures id in marks {
      assert Quantity(a.book, id) != 0.0;
      assert Quantity(Run(a, es).book, id) == Quantity(Run(Flat(c), es).book, id) + Quantity(a.book, id);
    }
  }

  /** The gap between a continuous run and a flat one moves, over any events, by exactly the
      price change and the funding of the carried quantities. */
  lemma LegGap(a: Account, c: real, es: seq<Event>, from: Marks, to: Marks)
    requires WellFormed(a.book) && a.book.Keys <= from.Keys
    requires Run(a, es).book.Keys <= to.Keys && Run(Flat(c), es).book.Keys <= to.Keys
    ensures Equity(Run(a, es), to) - Equity(Run(Flat(c), es), to)
         == Equity(a, from) - c + CarriedGain(a.book, from, to) + CarriedFunding(a.book, es)
  {
    RunConserves(a, es);
    RunConserves(Flat(c), es);
    FundingIsLinear(a.book, es);
    FundingIsLinear(Flat(c).book, es);
    assert NotionalCash(Flat(c)) == c by { FlatBasis(c); }
    CarriedIsMarked(a, c, es, to);
    hide *;
    ValueIsLinear(a, c, es, to);
    CarriedGainIsValueChange(a.book, from, to);
    EquityIsNotional(a, from);
    EquityIsNotional(Run(a, es), to);
    EquityIsNotional(Run(Flat(c), es), to);
  }

  lemma FlatBasis(c: real)
    ensures NotionalCash(Flat(c)) == c
    ensures forall marks :: Equity(Flat(c), marks) == c
  {}

  // ---------------------------------------------------------- chains of legs

  datatype Leg = Leg(events: seq<Event>, boundary: Marks)

  /** The net asset value after the legs when each restarts flat with the previous one's value. */
  ghost function ChainedNav(cash: real, legs: seq<Leg>): real
    requires ChainMarked(cash, legs)
    decreases |legs|, 1
  {
    if legs == [] then cash
    else
      var n := |legs| - 1;
      Equity(Run(Flat(ChainedNav(cash, legs[..n])), legs[n].events), legs[n].boundary)
  }

  /** Every position still open at a boundary has a boundary mark. */
  ghost predicate ChainMarked(cash: real, legs: seq<Leg>)
    decreases |legs|, 0
  {
    legs == [] ||
    var n := |legs| - 1;
    && ChainMarked(cash, legs[..n])
    && Run(Flat(ChainedNav(cash, legs[..n])), legs[n].events).book.Keys <= legs[n].boundary.Keys
  }

  /** One account carried through all the legs without a restart. */
  function Continuous(a: Account, legs: seq<Leg>): Account {
    if legs == [] then a
    else Run(Continuous(a, legs[..|legs| - 1]), legs[|legs| - 1].events)
  }

  ghost predicate ContinuousMarked(a: Account, legs: seq<Leg>) {
    forall k | 0 <= k < |legs| ::
      Continuous(a, legs[..k + 1]).book.Keys <= legs[k].boundary.Keys
  }

  /** What the restarts drop: per boundary, the price change and the funding over the next leg
      of the quantities the continuous book carries across it. */
  ghost function Dropped(a: Account, legs: seq<Leg>): real {
    if |legs| <= 1 then 0.0
    else
      var n := |legs| - 1;
      var carried := Continuous(a, legs[..n]).book;
      Dropped(a, legs[..n])
      + CarriedGain(carried, legs[n - 1].boundary, legs[n].boundary)
      + CarriedFunding(carried, legs[n].events)
  }

  lemma {:induction false} ContinuousWellFormed(a: Account, legs: seq<Leg>)
    requires WellFormed(a.book)
    ensures WellFormed(Continuous(a, legs).book)
  {
    if legs != [] {
      var n := |legs| - 1;
      ContinuousWellFormed(a, legs[..n]);
      RunConserves(Continuous(a, legs[..n]), legs[n].events);
    }
  }

  /** Continuous minus chained net asset value, after any number of legs, is exactly what the
      restarts dropped. */
  lemma {:induction false} ChainGap(cash: real, legs: seq<Leg>)
    requires legs != []
    requires ChainMarked(cash, legs) && ContinuousMarked(Flat(cash), legs)
    ensures Continuous(Flat(cash), legs).book.Keys <= legs[|legs| - 1].boundary.Keys
    ensures Equity(Continuous(Flat(cash), legs), legs[|legs| - 1].boundary)
         == ChainedNav(cash, legs) + Dropped(Flat(cash), legs)
  {
    var n := |legs| - 1;
    var a := Flat(cash);
    assert legs[..n + 1] == legs;
    assert Continuous(a, legs[..n + 1]).book.Keys <= legs[n].boundary.Keys;
    if n == 0 {
      assert legs[..0] == [];
      assert Continuous(a, legs) == Run(a, legs[0].events);
      assert ChainedNav(cash, legs) == Equity(Run(a, legs[0].events), legs[0].boundary);
    } else {
      var prior := legs[..n];
      forall k | 0 <= k < n
        ensures Continuous(a, prior[..k + 1]).book.Keys <= prior[k].boundary.Keys
      {
        assert prior[..k + 1] == legs[..k + 1];
      }
      ChainGap(cash, prior);
      ContinuousWellFormed(a, prior);
      LegGap(Continuous(a, prior), ChainedNav(cash, prior), legs[n].events, legs[n - 1].boundary, legs[n].boundary);
    }
  }

  /** When the continuous book is empty at every boundary but the last, restarting changes nothing. */
  lemma {:induction false} FlatBoundariesDropNothing(a: Account, legs: seq<Leg>)
    requires forall k | 0 < k < |legs| :: Continuous(a, legs[..k]).book == map[]
    ensures Dropped(a, legs) == 0.0
  {
    if |legs| > 1 {
      var n := |legs| - 1;
      var prior := legs[..n];
      forall k | 0 < k < n ensures Continuous(a, prior[..k]).book == map[] {
        assert prior[..k] == legs[..k];
      }
      FlatBoundariesDropNothing(a, prior);
      assert Continuous(a, legs[..n]).book == map[];
      EmptyBookCarriesNothing(legs[n - 1].boundary, legs[n].boundary, legs[n].events);
    }
  }

  lemma EmptyBookCarriesNothing(from: Marks, to: Marks, es: seq<Event>)
    ensures CarriedGain(map[], from, to) == 0.0
    ensures CarriedFunding(map[], es) == 0.0
  {
    SumOfZero(es, (e: Event) => if e.Settle? then Charge(Quantity(map[], e.funding.instrument), e.funding) else 0.0);
  }

  /** The book with which leg k ends when it is restarted flat: what the audit holds and reports. */
  ghost function RestartedBook(cash: real, legs: seq<Leg>, k: nat): Book
    requires k < |legs| && ChainMarked(cash, legs[..k])
  {
    Run(Flat(ChainedNav(cash, legs[..k])), legs[k].events).book
  }

  ghost predicate EndsFlat(cash: real, legs: seq<Leg>, k: nat)
    requires k < |legs|
  {
    ChainMarked(cash, legs[..k]) && RestartedBook(cash, legs, k) == map[]
  }

  /** If every restarted leg but the last ends flat, restarting changes nothing: the account
      carried through all legs is the last leg's restarted account, with the chained value. */
  lemma {:induction false} FlatRestartsDropNothing(cash: real, legs: seq<Leg>)
    requires legs != [] && ChainMarked(cash, legs)
    requires forall k: nat | k < |legs| - 1 :: EndsFlat(cash, legs, k)
    ensures var n := |legs| - 1;
      && ChainMarked(cash, legs[..n])
      && Continuous(Flat(cash), legs) == Run(Flat(ChainedNav(cash, legs[..n])), legs[n].events)
      && Continuous(Flat(cash), legs).book.Keys <= legs[n].boundary.Keys
      && Equity(Continuous(Flat(cash), legs), legs[n].boundary) == ChainedNav(cash, legs)
  {
    var n := |legs| - 1;
    if n == 0 {
      assert legs[..0] == [];
    } else {
      var prior := legs[..n];
      forall k: nat | k < n - 1 ensures EndsFlat(cash, prior, k) {
        assert EndsFlat(cash, legs, k);
        assert prior[..k] == legs[..k];
      }
      FlatRestartsDropNothing(cash, prior);
      assert EndsFlat(cash, legs, n - 1);
      assert prior[..n - 1] == legs[..n - 1];
      var end := Continuous(Flat(cash), prior);
      assert end.book == map[];
      FlatBasis(end.cash);
      assert end == Flat(end.cash);
    }
  }

  lemma {:induction false} ChainMarkedPrefix(cash: real, legs: seq<Leg>, k: nat)
    requires k <= |legs| && ChainMarked(cash, legs)
    ensures ChainMarked(cash, legs[..k])
    decreases |legs|
  {
    if k == |legs| {
      assert legs[..k] == legs;
    } else {
      var n := |legs| - 1;
      assert legs[..n][..k] == legs[..k];
      hide ChainedNav, Equity, Run;
      ChainMarkedPrefix(cash, legs[..n], k);
    }
  }

  /** The account carried through all legs is empty at the end of leg k. */
  ghost predicate CarriedFlat(cash: real, legs: seq<Leg>, k: nat)
    requires k < |legs|
  {
    Continuous(Flat(cash), legs[..k + 1]).book == map[]
  }

  /** While every restarted leg so far ended flat, the next one's book is the carried one. */
  lemma RestartIsCarried(cash: real, legs: seq<Leg>, k: nat)
    requires k < |legs| && ChainMarked(cash, legs) && forall j: nat | j < k :: EndsFlat(cash, legs, j)
    ensures EndsFlat(cash, legs, k) <==> CarriedFlat(cash, legs, k)
  {
    var prior := legs[..k + 1];
    ChainMarkedPrefix(cash, legs, k + 1);
    ChainMarkedPrefix(cash, legs, k);
    assert prior[..k] == legs[..k] && prior[k] == legs[k];
    forall j: nat | j < k ensures EndsFlat(cash, prior, j) {
      assert EndsFlat(cash, legs, j);
      assert prior[..j] == legs[..j];
    }
    FlatRestartsDropNothing(cash, prior);
    hide Equity, Run, ChainedNav, Continuous;
  }

  lemma {:induction false} FlatUpTo(cash: real, legs: seq<Leg>, n: nat)
    requires n <= |legs| && ChainMarked(cash, legs)
    ensures (forall k: nat | k < n :: CarriedFlat(cash, legs, k)) <==> forall k: nat | k < n :: EndsFlat(cash, legs, k)
  {
    hide *;
    if n > 0 {
      FlatUpTo(cash, legs, n - 1);
      if forall k: nat | k < n - 1 :: EndsFlat(cash, legs, k) { RestartIsCarried(cash, legs, n - 1); }
    }
  }

  /** The carried account is empty at every boundary but the last exactly when every restarted leg but
      the last ends flat. */
  lemma FlatEitherWay(cash: real, legs: seq<Leg>)
    requires legs != [] && ChainMarked(cash, legs)
    ensures (forall k: nat | k < |legs| - 1 :: CarriedFlat(cash, legs, k))
       <==> forall k: nat | k < |legs| - 1 :: EndsFlat(cash, legs, k)
  {
    hide *;
    FlatUpTo(cash, legs, |legs| - 1);
  }

  /** Either way of being flat drops nothing. */
  lemma FlatEndsDropNothing(cash: real, legs: seq<Leg>)
    requires legs != [] && ChainMarked(cash, legs) && forall k: nat | k < |legs| - 1 :: EndsFlat(cash, legs, k)
    ensures Dropped(Flat(cash), legs) == 0.0
  {
    FlatEitherWay(cash, legs);
    forall k | 0 < k < |legs| ensures Continuous(Flat(cash), legs[..k]).book == map[] {
      assert CarriedFlat(cash, legs, k - 1);
    }
    hide Continuous, EndsFlat, ChainMarked, Dropped;
    FlatBoundariesDropNothing(Flat(cash), legs);
  }

  // ------------------------------------------------- the boundary report

  /** Gross value of the positions at a boundary. */
  ghost function BoundaryGross(book: Book, marks: Marks): real
    requires book.Keys <= marks.Keys
  {
    Total(map id | id in book :: Abs(book[id].qty) * marks[id])
  }

  /** With positive marks the gross value is zero exactly when the book is empty. */
  lemma ZeroGrossIsFlat(book: Book, marks: Marks)
    requires WellFormed(book) && book.Keys <= marks.Keys
    requires forall id | id in book :: marks[id] > 0.0
    ensures BoundaryGross(book, marks) >= 0.0
    ensures BoundaryGross(book, marks) == 0.0 <==> book == map[]
  {
    var gross := map id | id in book :: Abs(book[id].qty) * marks[id];
    forall id | id in book ensures gross[id] > 0.0 {
      Positive(Abs(book[id].qty), marks[id], gross[id]);
    }
    hide Total;
    TotalNonNegative(gross);
    if book == map[] {
      TotalEmpty(gross);
    } else {
      var id :| id in book;
      assert gross[id] > 0.0;
    }
  }

  /** So a leg whose reported gross is zero ends flat: zero everywhere but in the last leg is enough
      to know that the restarts drop nothing. */
  lemma ZeroGrossEndsFlat(cash: real, legs: seq<Leg>, k: nat)
    requires k < |legs| && ChainMarked(cash, legs[..k])
    requires RestartedBook(cash, legs, k).Keys <= legs[k].boundary.Keys
    requires forall id | id in RestartedBook(cash, legs, k) :: legs[k].boundary[id] > 0.0
    ensures BoundaryGross(RestartedBook(cash, legs, k), legs[k].boundary) == 0.0 <==> EndsFlat(cash, legs, k)
  {
    var c := ChainedNav(cash, legs[..k]);
    var book := RestartedBook(cash, legs, k);
    assert book == Run(Flat(c), legs[k].events).book && WellFormed(Flat(c).book);
    hide *;
    RunConserves(Flat(c), legs[k].events);
    ZeroGrossIsFlat(book, legs[k].boundary);
    EndsFlatIs(cash, legs, k);
  }

  lemma EndsFlatIs(cash: real, legs: seq<Leg>, k: nat)
    requires k < |legs| && ChainMarked(cash, legs[..k])
    ensures EndsFlat(cash, legs, k) <==> RestartedBook(cash, legs, k) == map[]
  {}

  /** What a restart drops in price is at most the boundary's gross value times the largest
      relative move of a held mark over the next leg. */
  lemma DroppedIsBounded(book: Book, from: Marks, to: Marks, move: real)
    requires book.Keys <= from.Keys && book.Keys <= to.Keys
    requires forall id | id in book :: Within(to[id] - from[id], move, from[id])
    ensures Within(CarriedGain(book, from, to), move, BoundaryGross(book, from))
  {
    var gains, gross := PriceGains(book, from, to), map id | id in book :: Abs(book[id].qty) * from[id];
    forall id | id in gains ensures Within(gains[id], move, gross[id]) {
      MoveTimes(book[id].qty, to[id] - from[id], from[id], move, gains[id], gross[id]);
    }
    assert gains.Keys == gross.Keys;
    assert CarriedGain(book, from, to) == Total(gains) && BoundaryGross(book, from) == Total(gross);
    hide *;
    BoundedBy(gains, gross, move);
  }

  /** At most the share `c` of `y`, either way. */
  predicate Within(x: real, c: real, y: real) { Abs(x) <= c * y }

  lemma MoveTimes(q: real, d: real, from: real, move: real, gain: real, gross: real)
    requires gain == q * d && gross == Abs(q) * from && Within(d, move, from)
    ensures Within(gain, move, gross)
  {
    var x := move * from;
    var size := Abs(q) * Abs(d);
    assert size == Abs(gain) by {
      if q >= 0.0 && d < 0.0 { NonNegative(q, -d, -gain); }
      if q >= 0.0 && d >= 0.0 { NonNegative(q, d, gain); }
      if q < 0.0 && d < 0.0 { Negatives(q, d, gain); }
      if q < 0.0 && d >= 0.0 { NonNegative(-q, d, -gain); }
    }
    assert move * gross == Abs(q) * x;
    assert Abs(q) >= 0.0;
    hide Abs;
    Scaled(Abs(q), Abs(d), x, size, Abs(q) * x);
  }

  lemma {:induction false} BoundedBy<K>(f: map<K, real>, g: map<K, real>, c: real)
    requires f.Keys == g.Keys && (forall k | k in f :: Within(f[k], c, g[k]))
    ensures Within(Total(f), c, Total(g))
    decreases |f|
  {
    hide Total, Within;
    if f == map[] {
      TotalEmpty(f);
      TotalEmpty(g);
      NothingWithin(c);
    } else {
      var k :| k in f;
      TotalRemove(f, k);
      TotalRemove(g, k);
      BoundedBy(f - {k}, g - {k}, c);
      WithinAdds(f[k], Total(f - {k}), c, g[k], Total(g - {k}));
    }
  }

  lemma NothingWithin(c: real)
    ensures Within(0.0, c, 0.0)
  {}

  lemma WithinAdds(x: real, y: real, c: real, u: real, v: real)
    requires Within(x, c, u) && Within(y, c, v)
    ensures Within(x + y, c, u + v)
  {
    assert c * (u + v) == c * u + c * v;
  }

  // ------------------------------------------- what dropped funding can be

  /** The rate, once for each settlement among the events. */
  function FundingShare(es: seq<Event>, rate: real): real {
    if es == [] then 0.0 else FundingShare(es[..|es| - 1], rate) + if es[|es| - 1].Settle? then rate else 0.0
  }

  function CarriedCharge(book: Book, e: Event): real {
    if e.Settle? then Charge(Quantity(book, e.funding.instrument), e.funding) else 0.0
  }

  lemma {:induction false} CarriedSplit(book: Book, es: seq<Event>)
    requires es != []
    ensures CarriedFunding(book, es) == CarriedFunding(book, es[..|es| - 1]) + CarriedCharge(book, es[|es| - 1])
  {}

  /** Settlement marks times rates at most the share `rate` of the boundary mark. */
  ghost predicate RatesWithin(book: Book, es: seq<Event>, from: Marks, rate: real)
    requires book.Keys <= from.Keys
  {
    forall e | e in es && e.Settle? && e.funding.instrument in book ::
      Within(e.funding.markPrice * e.funding.rate, rate, from[e.funding.instrument])
  }

  lemma ChargeWithin(q: real, f: Funding, rate: real, mark: real, gross: real)
    requires Within(f.markPrice * f.rate, rate, mark) && gross == Abs(q) * mark
    ensures Within(Charge(q, f), rate, gross)
  {
    var d := f.markPrice * f.rate;
    assert Charge(q, f) == -(q * d);
    MoveTimes(q, d, mark, rate, q * d, gross);
  }

  lemma WithinMore(x: real, c: real, y: real, z: real)
    requires Within(x, c, y) && c >= 0.0 && y <= z
    ensures Within(x, c, z)
  {
    Scaled(c, y, z, c * y, c * z);
  }

  lemma ChargeIsBounded(book: Book, e: Event, from: Marks, rate: real)
    requires book.Keys <= from.Keys && rate >= 0.0 && forall id | id in book :: from[id] >= 0.0
    requires e.Settle? && e.funding.instrument in book ==>
      Within(e.funding.markPrice * e.funding.rate, rate, from[e.funding.instrument])
    ensures Within(CarriedCharge(book, e), if e.Settle? then rate else 0.0, BoundaryGross(book, from))
  {
    var gross := map id | id in book :: Abs(book[id].qty) * from[id];
    forall id | id in book ensures gross[id] >= 0.0 { NonNegative(Abs(book[id].qty), from[id], gross[id]); }
    TotalNonNegative(gross);
    var total := BoundaryGross(book, from);
    assert total == Total(gross);
    NonNegative(rate, total, rate * total);
    if e.Settle? && e.funding.instrument in book {
      var id := e.funding.instrument;
      ChargeWithin(book[id].qty, e.funding, rate, from[id], gross[id]);
      TotalBounds(gross, id);
      WithinMore(CarriedCharge(book, e), rate, gross[id], total);
    } else {
      assert CarriedCharge(book, e) == 0.0;
    }
  }

  lemma SharesAdd(x: real, y: real, a: real, b: real, c: real, z: real)
    requires Within(x, a, z) && Within(y, b, z) && c == a + b
    ensures Within(x + y, c, z)
  {
    assert c * z == a * z + b * z;
  }

  lemma NothingCarried(book: Book, gross: real)
    ensures Within(CarriedFunding(book, []), 0.0, gross)
  {
    assert 0.0 * gross == 0.0;
  }

  /** What a restart drops in funding is at most one such share of the boundary gross a settlement. */
  lemma {:induction false} FundingIsBounded(book: Book, es: seq<Event>, from: Marks, rate: real)
    requires book.Keys <= from.Keys && rate >= 0.0 && forall id | id in book :: from[id] >= 0.0
    requires RatesWithin(book, es, from, rate)
    ensures Within(CarriedFunding(book, es), FundingShare(es, rate), BoundaryGross(book, from))
  {
    if es == [] {
      NothingCarried(book, BoundaryGross(book, from));
    } else {
      var before, e := es[..|es| - 1], es[|es| - 1];
      assert e in es;
      assert FundingShare(es, rate) == FundingShare(before, rate) + if e.Settle? then rate else 0.0;
      assert RatesWithin(book, before, from, rate);
      hide CarriedFunding, CarriedCharge, BoundaryGross, Within, FundingShare;
      FundingIsBounded(book, before, from, rate);
      ChargeIsBounded(book, e, from, rate);
      CarriedSplit(book, es);
      SharesAdd(CarriedFunding(book, before), CarriedCharge(book, e), FundingShare(before, rate),
        if e.Settle? then rate else 0.0, FundingShare(es, rate), BoundaryGross(book, from));
    }
  }

  /** All that one restart drops, in price and in funding, as a share of the boundary gross. */
  lemma RestartDropIsBounded(book: Book, es: seq<Event>, from: Marks, to: Marks, move: real, rate: real)
    requires book.Keys <= from.Keys && book.Keys <= to.Keys && rate >= 0.0
    requires forall id | id in book :: from[id] >= 0.0 && Within(to[id] - from[id], move, from[id])
    requires RatesWithin(book, es, from, rate)
    ensures Within(CarriedGain(book, from, to) + CarriedFunding(book, es),
      move + FundingShare(es, rate), BoundaryGross(book, from))
  {
    hide *;
    DroppedIsBounded(book, from, to, move);
    FundingIsBounded(book, es, from, rate);
    SharesAdd(CarriedGain(book, from, to), CarriedFunding(book, es), move, FundingShare(es, rate),
      move + FundingShare(es, rate), BoundaryGross(book, from));
  }

  lemma {:induction false} ShareSign(es: seq<Event>, rate: real)
    requires rate >= 0.0
    ensures FundingShare(es, rate) >= 0.0
  {
    if es != [] { ShareSign(es[..|es| - 1], rate); }
  }
}
