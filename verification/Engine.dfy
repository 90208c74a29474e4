/** The engine's bars: orders filled at the open, settlements, the mark at the close, forced closes
    and the mark again, and what a whole run of them leaves in the ledger. */
module Engine {
  import opened Reals
  import opened Accounts
  import opened Legs
  import opened Replay
  import opened Sorting
  import opened Ledger
  import opened Reconciliation

  // --------------------------------------------------- the engine's bars

  /** One bar of the engine, from the close before it to its own: the orders filled at its open, the
      settlements since, one instrument after the other, and the positions closed by force. A bar
      that closes none is marked again at the same closes, which changes nothing. */
  datatype Bar = Bar(
    close: int, fills: seq<Fill>, settlements: seq<Funding>, closes: Marks, forced: seq<Fill>, closes': Marks)

  ghost predicate Follows(b: Bar, open: int) {
    && open < b.close
    && (forall f | f in b.fills :: f.ts == open && f.reason == Ordinary)
    && (forall f | f in b.settlements :: open < f.ts <= b.close)
    && (forall f | f in b.forced :: f.ts == b.close && f.reason == ForcedFlat)
  }

  // ------------------------------------------------ what a bar books

  function Trades(fills: seq<Fill>): seq<Event> { seq(|fills|, i requires 0 <= i < |fills| => Trade(fills[i])) }

  function Settles(fs: seq<Funding>): seq<Event> { seq(|fs|, i requires 0 <= i < |fs| => Settle(fs[i])) }

  /** Every order filled, every settlement, every forced close. */
  function BarEvents(b: Bar): seq<Event> { Trades(b.fills) + Settles(b.settlements) + Trades(b.forced) }

  function RunEvents(bars: seq<Bar>): seq<Event> {
    if bars == [] then [] else RunEvents(bars[..|bars| - 1]) + BarEvents(bars[|bars| - 1])
  }

  /** The fills a log saves, in order. */
  function FillsOf(log: seq<Row>): seq<Fill> {
    if log == [] then []
    else FillsOf(log[..|log| - 1]) + if log[|log| - 1].FillRow? then [log[|log| - 1].fill] else []
  }

  /** The settlements a log saves, in order. */
  function FundingsOf(log: seq<Row>): seq<Funding> {
    if log == [] then []
    else FundingsOf(log[..|log| - 1]) + if log[|log| - 1].FundingRow? then [log[|log| - 1].funding] else []
  }

  /** The settlements of the instruments held: the others leave no row. */
  function Due(book: Book, fs: seq<Funding>): seq<Funding> { Filter(fs, (f: Funding) => f.instrument in book) }

  /** Every open position has a positive close. */
  ghost predicate Covers(closes: Marks, book: Book) { forall id | id in book :: id in closes && closes[id] > 0.0 }

  type Markets = map<InstrumentId, MarketType>

  ghost predicate Known(known: Markets, fills: seq<Fill>) { forall f | f in fills :: f.instrument in known }

  ghost predicate Settleable(known: Markets, fs: seq<Funding>) {
    forall f | f in fs :: f.instrument in known && known[f.instrument] == Perp && f.markPrice > 0.0
  }

  /** The bar has nothing that the ledger refuses. */
  ghost predicate Accepted(known: Markets, a: Account, b: Bar) {
    && Known(known, b.fills) && Settleable(known, b.settlements)
    && Covers(b.closes, Run(a, Trades(b.fills)).book)
    && Known(known, b.forced)
    && Covers(b.closes', Run(a, BarEvents(b)).book)
  }

  lemma TradesAppend(fills: seq<Fill>, i: nat)
    requires i < |fills|
    ensures Trades(fills[..i + 1]) == Trades(fills[..i]) + [Trade(fills[i])]
    ensures Trades(fills[..0]) == [] && fills[..|fills|] == fills
  {}

  lemma SettlesAppend(fs: seq<Funding>, i: nat)
    requires i < |fs|
    ensures Settles(fs[..i + 1]) == Settles(fs[..i]) + [Settle(fs[i])]
  {}

  lemma RunAppend(a: Account, es: seq<Event>, e: Event)
    ensures Run(a, es + [e]) == Step(Run(a, es), e)
  {
    assert (es + [e])[..|es|] == es;
  }

  lemma {:induction false} FillsOfConcat(xs: seq<Row>, ys: seq<Row>)
    ensures FillsOf(xs + ys) == FillsOf(xs) + FillsOf(ys)
    ensures FundingsOf(xs + ys) == FundingsOf(xs) + FundingsOf(ys)
  {
    if ys == [] {
      assert xs + ys == xs;
    } else {
      FillsOfConcat(xs, ys[..|ys| - 1]);
      assert (xs + ys)[..|xs + ys| - 1] == xs + ys[..|ys| - 1];
    }
  }

  /** A row appended to a log. */
  lemma FillsOfRow(log: seq<Row>, row: Row)
    ensures FillsOf(log + [row]) == FillsOf(log) + if row.FillRow? then [row.fill] else []
    ensures FundingsOf(log + [row]) == FundingsOf(log) + if row.FundingRow? then [row.funding] else []
  {
    assert (log + [row])[..|log|] == log;
  }

  lemma SettlementsKeepBook(a: Account, fs: seq<Funding>)
    ensures Run(a, Settles(fs)).book == a.book
  {
    if fs != [] {
      SettlementsKeepBook(a, fs[..|fs| - 1]);
      SettlesAppend(fs, |fs| - 1);
      assert fs[..|fs|] == fs;
      RunAppend(a, Settles(fs[..|fs| - 1]), Settle(fs[|fs| - 1]));
    }
  }

  lemma DueAppend(book: Book, fs: seq<Funding>, i: nat)
    requires i < |fs|
    ensures Due(book, fs[..i + 1]) == Due(book, fs[..i]) + if fs[i].instrument in book then [fs[i]] else []
  {
    assert fs[..i + 1] == fs[..i] + [fs[i]];
    FilterAppend(fs[..i], fs[i], (f: Funding) => f.instrument in book);
  }

  /** At or before the event of priority p at time t. */
  predicate By(r: Row, t: int, p: int) { Timestamp(r) < t || (Timestamp(r) == t && Priority(r) <= p) }

  ghost predicate UpTo(log: seq<Row>, t: int, p: int) { Loose(log) && forall r | r in log :: By(r, t, p) }

  /** The state after a bar, or before the first. */
  ghost predicate At(l: Ledger, t: int)
    reads l
  {
    l.Valid() && l.plain && UpTo(l.log, t, 2) && forall s | s in l.equityTs :: s <= t
  }

  lemma LooseAppend(log: seq<Row>, row: Row)
    requires Loose(log) && forall r | r in log :: NotAfter(r, row) || (r.FundingRow? && row.FundingRow?)
    ensures Loose(log + [row])
  {
    var more := log + [row];
    forall i, j | 0 <= i < j < |more|
      ensures NotAfter(more[i], more[j]) || (more[i].FundingRow? && more[j].FundingRow?)
    {
      if j < |log| { assert more[i] == log[i] && more[j] == log[j]; } else { assert log[i] in log; }
    }
  }

  /** Appending a row at the latest time and priority so far. */
  lemma AppendBy(log: seq<Row>, row: Row, t: int, p: int)
    requires UpTo(log, t, p) && Timestamp(row) == t && Priority(row) == p
    ensures UpTo(log + [row], t, p)
  {
    LooseAppend(log, row);
  }

  lemma Later(log: seq<Row>, t: int, p: int, t': int, p': int)
    requires UpTo(log, t, p) && (t < t' || (t == t' && p <= p'))
    ensures UpTo(log, t', p')
  {}

  lemma {:induction false} DropInnerMark(front: seq<Row>, mark: Row, fills: seq<Row>)
    requires mark.MarkRow? && forall r | r in fills :: r.FillRow?
    ensures WithoutLastMark(front + [mark] + fills) == front + fills
  {
    var log := front + [mark] + fills;
    if fills == [] {
      assert log == front + [mark] && log[..|front|] == front;
    } else {
      var rest, last := fills[..|fills| - 1], fills[|fills| - 1];
      assert fills == rest + [last];
      assert last in fills;
      assert log == (front + [mark] + rest) + [last];
      assert log[..|log| - 1] == front + [mark] + rest;
      DropInnerMark(front, mark, rest);
    }
  }

  lemma FillRowKey(f: Fill, notional: real, profit: real)
    ensures var r := FillRow(f, notional, profit);
      Timestamp(r) == f.ts && Priority(r) == if f.reason == Ordinary then 3 else 1
  {}

  lemma OneFill(a: Account, fills: seq<Fill>, i: nat)
    requires i < |fills|
    ensures Run(a, Trades(fills[..i + 1])) == Step(Run(a, Trades(fills[..i])), Trade(fills[i]))
  {
    TradesAppend(fills, i);
    RunAppend(a, Trades(fills[..i]), Trade(fills[i]));
  }

  lemma NoFill(a: Account)
    ensures Run(a, Trades([])) == a && Run(a, Settles([])) == a
  {}

  lemma KnownIs(known: Markets, fills: seq<Fill>)
    ensures Known(known, fills) <==> forall f | f in fills :: f.instrument in known
  {}

  /** Books every fill, unless one is in an unknown instrument. */
  method FillAll(l: Ledger, fills: seq<Fill>, t: int, ghost p: int) returns (ok: bool, ghost rows: seq<Row>)
    requires l.Valid() && l.plain
    requires forall f | f in fills :: f.ts == t && p == if f.reason == Ordinary then 3 else 1
    modifies l
    ensures l.Valid() && l.plain && l.equityTs == old(l.equityTs) && l.equityValues == old(l.equityValues)
    ensures l.log == old(l.log) + rows
    ensures forall r | r in rows :: r.FillRow? && Timestamp(r) == t && Priority(r) == p
    ensures ok <==> Known(l.instruments, fills)
    ensures ok ==> |rows| == |fills| && forall i | 0 <= i < |rows| :: rows[i].FillRow? && rows[i].fill == fills[i]
    ensures ok ==> l.View() == Run(old(l.View()), Trades(fills))
  {
    hide *;
    rows := [];
    ghost var a := l.View();
    NoFill(a);
    KnownIs(l.instruments, fills);
    assert fills[..0] == [] && fills[..|fills|] == fills;
    for i := 0 to |fills|
      invariant l.Valid() && l.plain && l.log == old(l.log) + rows
      invariant l.equityTs == old(l.equityTs) && l.equityValues == old(l.equityValues)
      invariant forall r | r in rows :: r.FillRow? && Timestamp(r) == t && Priority(r) == p
      invariant |rows| == i && forall j | 0 <= j < i :: rows[j].FillRow? && rows[j].fill == fills[j]
      invariant forall j | 0 <= j < i :: fills[j].instrument in l.instruments
      invariant l.View() == Run(a, Trades(fills[..i]))
    {
      var r := l.ApplyFill(fills[i]);
      if !r.Ok? { return false, rows; }
      ghost var row := l.log[|l.log| - 1];
      FillRowKey(fills[i], row.notional, row.realizedPnl);
      OneFill(a, fills, i);
      rows := rows + [row];
    }
    ok := true;
  }

  lemma FilledBy(log: seq<Row>, rows: seq<Row>, t: int, p: int)
    requires UpTo(log, t, p) && forall r | r in rows :: Timestamp(r) == t && Priority(r) == p
    ensures UpTo(log + rows, t, p)
  {
    if rows == [] {
      assert log + rows == log;
    } else {
      var front, last := rows[..|rows| - 1], rows[|rows| - 1];
      assert rows == front + [last] && log + rows == (log + front) + [last];
      FilledBy(log, front, t, p);
      AppendBy(log + front, last, t, p);
    }
  }

  /** Every row is one of before, or happened in the bar. */
  ghost predicate Extends(before: seq<Row>, log: seq<Row>, open: int, close: int) {
    forall r | r in log :: r in before || InBar(r, open, close)
  }

  /** Where in a bar a row can come from: ordinary fills at the open, closes by force at the close,
      settlements in between. */
  predicate InBar(r: Row, open: int, close: int) {
    match r
    case FillRow(f, _, _) => f.ts == if f.reason == Ordinary then open else close
    case FundingRow(f, _, _) => open < f.ts <= close
    case MarkRow(ts, _, _) => ts == close
  }

  lemma FillsExtend(before: seq<Row>, log: seq<Row>, rows: seq<Row>, open: int, close: int, t: int, p: int)
    requires Extends(before, log, open, close)
    requires forall r | r in rows :: r.FillRow? && Timestamp(r) == t && Priority(r) == p
    requires (t == open && p == 3) || (t == close && p == 1)
    ensures Extends(before, log + rows, open, close)
  {
    forall r | r in log + rows ensures r in before || InBar(r, open, close) {
      if r !in log { assert r in rows; }
    }
  }

  lemma MarkExtends(before: seq<Row>, log: seq<Row>, mark: Row, open: int, close: int)
    requires Extends(before, log, open, close) && mark.MarkRow? && mark.ts == close
    ensures Extends(before, log + [mark], open, close)
  {}

  lemma ExtendsTwice(before: seq<Row>, mid: seq<Row>, log: seq<Row>, open: int, close: int)
    requires Extends(before, mid, open, close) && Extends(mid, log, open, close)
    ensures Extends(before, log, open, close)
  {}

  lemma ExtendsItself(log: seq<Row>, open: int, close: int)
    ensures Extends(log, log, open, close)
  {}

  /** Amid a bar's settlements: every other row is at or before the open's fills. */
  ghost predicate Settling(before: seq<Row>, log: seq<Row>, open: int, close: int) {
    && UpTo(log, close, 0)
    && (forall r | r in log && !r.FundingRow? :: By(r, open, 3))
    && Extends(before, log, open, close)
  }

  lemma SettlesOne(before: seq<Row>, log: seq<Row>, row: Row, open: int, close: int)
    requires Settling(before, log, open, close) && row.FundingRow? && open < row.funding.ts <= close
    ensures Settling(before, log + [row], open, close)
  {
    LooseAppend(log, row);
    hide Loose;
  }

  lemma SettlingStarts(log: seq<Row>, open: int, close: int)
    requires UpTo(log, open, 3) && open < close
    ensures Settling(log, log, open, close)
  {
    hide Loose;
  }

  lemma SettlingEnds(before: seq<Row>, log: seq<Row>, open: int, close: int)
    requires Settling(before, log, open, close)
    ensures UpTo(log, close, 0) && Extends(before, log, open, close)
  {}

  lemma OneSettlement(a: Account, fs: seq<Funding>, i: nat)
    requires i < |fs|
    ensures Run(a, Settles(fs[..i + 1])) == Step(Run(a, Settles(fs[..i])), Settle(fs[i]))
    ensures Run(a, Settles(fs[..i])).book == a.book
  {
    SettlesAppend(fs, i);
    RunAppend(a, Settles(fs[..i]), Settle(fs[i]));
    SettlementsKeepBook(a, fs[..i]);
  }

  lemma NoneDue(book: Book)
    ensures Due(book, []) == []
  {}

  lemma SettleableIs(known: Markets, fs: seq<Funding>)
    ensures Settleable(known, fs)
       <==> forall f | f in fs :: f.instrument in known && known[f.instrument] == Perp && f.markPrice > 0.0
  {}

  lemma ViewIs(l: Ledger)
    ensures l.View().book == l.positions
  {}

  /** Books every settlement, one row for each in an instrument held, unless one is refused. */
  method SettleAll(l: Ledger, settlements: seq<Funding>, open: int, close: int) returns (ok: bool)
    requires l.Valid() && l.plain && UpTo(l.log, open, 3) && open < close
    requires forall f | f in settlements :: open < f.ts <= close
    modifies l
    ensures l.Valid() && l.plain && l.equityTs == old(l.equityTs) && l.equityValues == old(l.equityValues)
    ensures UpTo(l.log, close, 0) && Extends(old(l.log), l.log, open, close)
    ensures ok <==> Settleable(l.instruments, settlements)
    ensures ok ==> FillsOf(l.log) == FillsOf(old(l.log))
    ensures ok ==> FundingsOf(l.log) == FundingsOf(old(l.log)) + Due(old(l.positions), settlements)
    ensures ok ==> l.View() == Run(old(l.View()), Settles(settlements))
  {
    hide *;
    ghost var start, a, book := l.log, l.View(), l.positions;
    SettlingStarts(start, open, close);
    ViewIs(l);
    NoFill(a);
    NoneDue(book);
    SettleableIs(l.instruments, settlements);
    assert settlements[..0] == [] && settlements[..|settlements|] == settlements;
    ok := true;
    for i := 0 to |settlements|
      invariant l.Valid() && l.plain && l.equityTs == old(l.equityTs) && l.equityValues == old(l.equityValues)
      invariant l.positions == book
      invariant Settling(start, l.log, open, close)
      invariant FillsOf(l.log) == FillsOf(start)
      invariant FundingsOf(l.log) == FundingsOf(start) + Due(book, settlements[..i])
      invariant l.View() == Run(a, Settles(settlements[..i]))
      invariant ok && forall j | 0 <= j < i :: var f := settlements[j];
        f.instrument in l.instruments && l.instruments[f.instrument] == Perp && f.markPrice > 0.0
    {
      ghost var before := l.log;
      var r := l.ApplyFunding(settlements[i]);
      if !r.Ok? {
        ok := false;
        break;
      }
      OneSettlement(a, settlements, i);
      DueAppend(book, settlements, i);
      if settlements[i].instrument in book {
        SettlesOne(start, before, l.log[|before|], open, close);
        FillsOfRow(before, l.log[|before|]);
      }
    }
    SettlingEnds(start, l.log, open, close);
  }

  lemma Opening(l: Ledger, open: int, b: Bar)
    requires At(l, open) && Follows(b, open)
    ensures l.Valid() && l.plain && UpTo(l.log, open, 3)
    ensures open < b.close && forall s | s in l.equityTs :: s <= open
    ensures forall f | f in b.fills :: f.ts == open && 3 == if f.reason == Ordinary then 3 else 1
    ensures forall f | f in b.settlements :: open < f.ts <= b.close
    ensures forall f | f in b.forced :: f.ts == b.close && 1 == if f.reason == Ordinary then 3 else 1
  {
    Later(l.log, open, 2, open, 3);
  }

  /** The log of a bar's fills, then a mark, is up to the mark. */
  lemma MarkedBy(base: seq<Row>, rows: seq<Row>, mark: Row, t: int)
    requires UpTo(base, t, 0) && mark.MarkRow? && mark.ts == t
    requires forall r | r in rows :: r.FillRow? && Timestamp(r) == t && Priority(r) == 1
    ensures UpTo(base + rows + [mark], t, 2)
  {
    Later(base, t, 0, t, 1);
    FilledBy(base, rows, t, 1);
    Later(base + rows, t, 1, t, 2);
    AppendBy(base + rows, mark, t, 2);
  }

  lemma Closing(l: Ledger, t: int)
    requires l.Valid() && l.plain && UpTo(l.log, t, 2)
    requires l.equityTs != [] && l.equityTs[|l.equityTs| - 1] == t
    ensures At(l, t)
  {
    hide Balanced, Logged;
  }

  /** The mark that ends a bar. */
  ghost function MarkOn(l: Ledger, b: Bar): Row
    requires l.positions.Keys <= b.closes'.Keys && l.View().book == l.positions
    reads l
  {
    MarkRow(b.close, Snapshot(l.positions, b.closes'), Equity(l.View(), b.closes'))
  }

  lemma MarkOnIs(l: Ledger, b: Bar)
    requires l.positions.Keys <= b.closes'.Keys && l.View().book == l.positions
    ensures MarkOn(l, b) == MarkRow(b.close, Snapshot(l.positions, b.closes'), Equity(l.View(), b.closes'))
  {}

  lemma CurveLengths(l: Ledger)
    requires l.Valid()
    ensures |l.equityTs| == |l.equityValues|
  {}

  lemma CoversIs(closes: Marks, book: Book)
    ensures Covers(closes, book) <==> forall id | id in book :: id in closes && closes[id] > 0.0
    ensures Covers(closes, book) ==> book.Keys <= closes.Keys
  {}

  lemma {:induction false} FillsOfFills(rows: seq<Row>, fills: seq<Fill>)
    requires |rows| == |fills| && forall i | 0 <= i < |rows| :: rows[i].FillRow? && rows[i].fill == fills[i]
    ensures FillsOf(rows) == fills && FundingsOf(rows) == []
  {
    if rows != [] {
      var n := |rows| - 1;
      FillsOfFills(rows[..n], fills[..n]);
      assert rows == rows[..n] + [rows[n]] && fills == fills[..n] + [fills[n]];
      FillsOfRow(rows[..n], rows[n]);
      hide *;
    }
  }

  /** What a bar's fills, and then a mark, add to what the log saves. */
  lemma LogGrows(base: seq<Row>, rows: seq<Row>, fills: seq<Fill>)
    requires |rows| == |fills| && forall i | 0 <= i < |rows| :: rows[i].FillRow? && rows[i].fill == fills[i]
    ensures FillsOf(base + rows) == FillsOf(base) + fills && FundingsOf(base + rows) == FundingsOf(base)
  {
    hide *;
    FillsOfConcat(base, rows);
    FillsOfFills(rows, fills);
  }

  lemma BarRuns(a: Account, b: Bar)
    ensures Run(a, BarEvents(b)) == Run(Run(Run(a, Trades(b.fills)), Settles(b.settlements)), Trades(b.forced))
    ensures Run(Run(a, Trades(b.fills)), Settles(b.settlements)).book == Run(a, Trades(b.fills)).book
  {
    RunConcat(a, Trades(b.fills) + Settles(b.settlements), Trades(b.forced));
    RunConcat(a, Trades(b.fills), Settles(b.settlements));
    SettlementsKeepBook(Run(a, Trades(b.fills)), b.settlements);
  }

  lemma AcceptedIs(known: Markets, a: Account, b: Bar)
    ensures Accepted(known, a, b) <==>
      && Known(known, b.fills) && Settleable(known, b.settlements)
      && Covers(b.closes, Run(a, Trades(b.fills)).book)
      && Known(known, b.forced)
      && Covers(b.closes', Run(a, BarEvents(b)).book)
  {}

  /** A bar in the engine's order: fills, settlements, mark, forced closes, mark again. */
  method TradeBar(l: Ledger, open: int, b: Bar) returns (ok: bool)
    requires At(l, open) && Follows(b, open)
    modifies l
    ensures l.Valid() && l.plain
    ensures ok <==> Accepted(l.instruments, old(l.View()), b)
    ensures ok ==> l.View() == Run(old(l.View()), BarEvents(b))
    ensures ok ==> FillsOf(l.log) == FillsOf(old(l.log)) + b.fills + b.forced
    ensures ok ==>
      FundingsOf(l.log) == FundingsOf(old(l.log)) + Due(Run(old(l.View()), Trades(b.fills)).book, b.settlements)
    ensures ok ==> l.positions.Keys <= b.closes'.Keys && l.equityTs == old(l.equityTs) + [b.close]
    ensures ok ==> l.equityValues == old(l.equityValues) + [Equity(l.View(), b.closes')]
    ensures ok ==> l.log != [] && l.log[|l.log| - 1] == MarkOn(l, b)
    ensures ok ==> At(l, b.close) && Extends(old(l.log), l.log, open, b.close)
  {
    hide *;
    Opening(l, open, b);
    ghost var a := l.View();
    AcceptedIs(l.instruments, a, b);
    BarRuns(a, b);
    ghost var rows;
    ghost var start, base := l.log, l.log;
    ok, rows := FillAll(l, b.fills, open, 3);
    if ok {
      FilledBy(base, rows, open, 3);
      LogGrows(base, rows, b.fills);
      ExtendsItself(start, open, b.close);
      FillsExtend(start, start, rows, open, b.close, open, 3);
      base := l.log;
      ViewIs(l);
      ok := SettleAll(l, b.settlements, open, b.close);
    }
    if ok {
      ExtendsTwice(start, base, l.log, open, b.close);
      base := l.log;
      ok, rows := MarkTwice(l, b);
      if ok {
        ghost var mark := l.log[|l.log| - 1];
        ViewIs(l);
        MarkOnIs(l, b);
        LogGrows(base, rows, b.forced);
        FillsOfRow(base + rows, mark);
        MarkedBy(base, rows, mark, b.close);
        FillsExtend(start, base, rows, open, b.close, b.close, 1);
        MarkExtends(start, base + rows, mark, open, b.close);
        Closing(l, b.close);
      }
    }
  }

  /** The mark at a bar's close, replaced by a second one once forced closes are booked. */
  method MarkTwice(l: Ledger, b: Bar) returns (ok: bool, ghost rows: seq<Row>)
    requires l.Valid() && l.plain && forall s | s in l.equityTs :: s < b.close
    requires forall f | f in b.forced :: f.ts == b.close && 1 == if f.reason == Ordinary then 3 else 1
    modifies l
    ensures l.Valid() && l.plain
    ensures ok <==>
      && Covers(b.closes, old(l.View()).book) && Known(l.instruments, b.forced)
      && Covers(b.closes', Run(old(l.View()), Trades(b.forced)).book)
    ensures forall r | r in rows :: r.FillRow? && Timestamp(r) == b.close && Priority(r) == 1
    ensures ok ==>
      |rows| == |b.forced| && forall i | 0 <= i < |rows| :: rows[i].FillRow? && rows[i].fill == b.forced[i]
    ensures ok ==> l.View() == Run(old(l.View()), Trades(b.forced))
    ensures ok ==> l.positions.Keys <= b.closes'.Keys && l.equityTs == old(l.equityTs) + [b.close]
    ensures ok ==> l.equityValues == old(l.equityValues) + [Equity(l.View(), b.closes')]
    ensures ok ==> l.log == old(l.log) + rows + [MarkOn(l, b)]
  {
    hide *;
    rows := [];
    ghost var base := l.log;
    ViewIs(l);
    CoversIs(b.closes, l.positions);
    assert l.equityTs != [] ==> l.equityTs[|l.equityTs| - 1] in l.equityTs;
    var marked := l.Mark(b.closes, b.close);
    if !marked.Ok? { return false, rows; }
    assert l.log == base + [l.log[|base|]];
    CurveLengths(l);
    ghost var values := l.equityValues;
    ok, rows := FillAll(l, b.forced, b.close, 1);
    if ok {
      ViewIs(l);
      CoversIs(b.closes', l.positions);
      DropInnerMark(base, l.log[|base|], rows);
      marked := l.Mark(b.closes', b.close);
      ok := marked.Ok?;
      if ok {
        ViewIs(l);
        MarkOnIs(l, b);
        assert values[..|values| - 1] == old(l.equityValues);
      }
    }
  }

  /** The close before bar i. */
  function OpenOf(open: int, bars: seq<Bar>, i: nat): int
    requires i <= |bars|
  {
    if i == 0 then open else bars[i - 1].close
  }

  ghost predicate Consecutive(open: int, bars: seq<Bar>) {
    forall i: nat | i < |bars| :: Follows(bars[i], OpenOf(open, bars, i))
  }

  lemma NextFollows(open: int, bars: seq<Bar>, i: nat)
    requires Consecutive(open, bars) && i < |bars|
    ensures Follows(bars[i], OpenOf(open, bars, i)) && OpenOf(open, bars, i + 1) == bars[i].close
  {}

  /** A row of one of the first n bars. */
  ghost predicate InSomeBar(r: Row, open: int, bars: seq<Bar>, n: nat)
    requires n <= |bars|
  {
    exists i: nat :: i < n && InBar(r, OpenOf(open, bars, i), bars[i].close)
  }

  /** The account before bar i. */
  function AccountAt(initialCash: real, bars: seq<Bar>, i: nat): Account
    requires i <= |bars|
  {
    Run(Flat(initialCash), RunEvents(bars[..i]))
  }

  /** Every fill of the bars: each bar's orders, then its forced closes. */
  function RunFills(bars: seq<Bar>): seq<Fill> {
    if bars == [] then []
    else RunFills(bars[..|bars| - 1]) + bars[|bars| - 1].fills + bars[|bars| - 1].forced
  }

  /** Every settlement of the bars in an instrument held once the bar's orders are filled. */
  function RunDue(initialCash: real, bars: seq<Bar>): seq<Funding> {
    if bars == [] then []
    else
      var n := |bars| - 1;
      RunDue(initialCash, bars[..n])
      + Due(Run(AccountAt(initialCash, bars, n), Trades(bars[n].fills)).book, bars[n].settlements)
  }

  /** The equity recorded at bar i: of the account after it, at the bar's last closes. */
  ghost predicate MarkedAt(initialCash: real, bars: seq<Bar>, i: nat, equity: real)
    requires i < |bars|
  {
    var a := AccountAt(initialCash, bars, i + 1);
    a.book.Keys <= bars[i].closes'.Keys && equity == Equity(a, bars[i].closes')
  }

  /** What n bars leave in the ledger: the account of all their events, every order, forced close and
      due settlement saved once and in order, and an equity for each close. */
  ghost predicate Booked(l: Ledger, bars: seq<Bar>, n: nat)
    requires n <= |bars|
    reads l
  {
    && l.View() == AccountAt(l.initialCash, bars, n)
    && FillsOf(l.log) == RunFills(bars[..n])
    && FundingsOf(l.log) == RunDue(l.initialCash, bars[..n])
    && |l.equityValues| == n && forall i: nat | i < n :: MarkedAt(l.initialCash, bars, i, l.equityValues[i])
  }

  lemma NoBars(initialCash: real, bars: seq<Bar>)
    ensures AccountAt(initialCash, bars, 0) == Flat(initialCash)
    ensures RunFills(bars[..0]) == [] && RunDue(initialCash, bars[..0]) == []
  {}

  lemma OneBar(initialCash: real, bars: seq<Bar>, n: nat)
    requires n < |bars|
    ensures AccountAt(initialCash, bars, n + 1) == Run(AccountAt(initialCash, bars, n), BarEvents(bars[n]))
    ensures RunFills(bars[..n + 1]) == RunFills(bars[..n]) + bars[n].fills + bars[n].forced
    ensures RunDue(initialCash, bars[..n + 1]) == RunDue(initialCash, bars[..n])
      + Due(Run(AccountAt(initialCash, bars, n), Trades(bars[n].fills)).book, bars[n].settlements)
  {
    assert bars[..n + 1][..n] == bars[..n];
    RunConcat(Flat(initialCash), RunEvents(bars[..n]), BarEvents(bars[n]));
  }

  lemma BookedGrows(l: Ledger, bars: seq<Bar>, n: nat, values: seq<real>)
    requires n < |bars| && |values| == n
    requires l.View() == AccountAt(l.initialCash, bars, n + 1) && l.View().book.Keys <= bars[n].closes'.Keys
    requires FillsOf(l.log) == RunFills(bars[..n + 1]) && FundingsOf(l.log) == RunDue(l.initialCash, bars[..n + 1])
    requires l.equityValues == values + [Equity(l.View(), bars[n].closes')]
    requires forall i: nat | i < n :: MarkedAt(l.initialCash, bars, i, values[i])
    ensures Booked(l, bars, n + 1)
  {
    hide RunFills, RunDue, FillsOf, FundingsOf, AccountAt, Equity;
  }

  lemma BookedIs(l: Ledger, bars: seq<Bar>, n: nat)
    requires n <= |bars| && Booked(l, bars, n)
    ensures l.View() == AccountAt(l.initialCash, bars, n)
    ensures FillsOf(l.log) == RunFills(bars[..n]) && FundingsOf(l.log) == RunDue(l.initialCash, bars[..n])
    ensures |l.equityValues| == n
    ensures forall i: nat | i < n :: MarkedAt(l.initialCash, bars, i, l.equityValues[i])
  {}

  lemma BookedStarts(l: Ledger, bars: seq<Bar>)
    requires l.View() == Flat(l.initialCash) && l.log == [] && l.equityValues == []
    ensures Booked(l, bars, 0)
  {
    NoBars(l.initialCash, bars);
  }

  /** The ledger after n bars: marked at each of their closes, every row from one of them. */
  ghost predicate RunOf(l: Ledger, open: int, bars: seq<Bar>, n: nat)
    requires n <= |bars|
    reads l
  {
    && At(l, OpenOf(open, bars, n))
    && (n > 0 ==> l.log != [] && l.log[|l.log| - 1].MarkRow?)
    && |l.equityTs| == n && (forall i | 0 <= i < n :: l.equityTs[i] == bars[i].close)
    && forall r | r in l.log :: InSomeBar(r, open, bars, n)
  }

  lemma NextBar(log: seq<Row>, after: seq<Row>, open: int, bars: seq<Bar>, n: nat)
    requires n < |bars| && Extends(log, after, OpenOf(open, bars, n), bars[n].close)
    requires forall r | r in log :: InSomeBar(r, open, bars, n)
    ensures forall r | r in after :: InSomeBar(r, open, bars, n + 1)
  {
    forall r | r in after ensures InSomeBar(r, open, bars, n + 1) {
      if r in log {
        var i: nat :| i < n && InBar(r, OpenOf(open, bars, i), bars[i].close);
        assert i < n + 1 && InBar(r, OpenOf(open, bars, i), bars[i].close);
      }
    }
  }

  lemma RunIs(l: Ledger, open: int, bars: seq<Bar>, n: nat)
    requires n <= |bars| && RunOf(l, open, bars, n)
    ensures At(l, OpenOf(open, bars, n)) && forall r | r in l.log :: InSomeBar(r, open, bars, n)
    ensures |l.equityTs| == n && forall i | 0 <= i < n :: l.equityTs[i] == bars[i].close
    ensures n > 0 ==> l.log != [] && l.log[|l.log| - 1].MarkRow?
    ensures l.Valid() && l.plain && Loose(l.log)
  {}

  lemma RunStarts(l: Ledger, open: int, bars: seq<Bar>)
    requires l.Valid() && l.plain && l.log == [] && l.equityTs == []
    ensures RunOf(l, open, bars, 0)
  {}

  lemma RunGrows(l: Ledger, open: int, bars: seq<Bar>, n: nat, ts: seq<int>)
    requires n < |bars| && At(l, bars[n].close) && l.log != [] && l.log[|l.log| - 1].MarkRow?
    requires |ts| == n && (forall i | 0 <= i < n :: ts[i] == bars[i].close) && l.equityTs == ts + [bars[n].close]
    requires forall r | r in l.log :: InSomeBar(r, open, bars, n + 1)
    ensures RunOf(l, open, bars, n + 1)
  {
    hide InSomeBar, At;
  }

  /** A whole run. It is accepted exactly when every bar is, and then it books exactly the bars' fills
      and due settlements, marks each close, and passes the audit. */
  method Backtest(initialCash: real, instruments: Markets, open: int, bars: seq<Bar>) returns (ok: bool, l: Ledger)
    requires initialCash > 0.0
    requires Consecutive(open, bars)
    ensures fresh(l) && l.initialCash == initialCash && l.instruments == instruments
    ensures ok <==> forall i: nat | i < |bars| :: Accepted(instruments, AccountAt(initialCash, bars, i), bars[i])
    ensures ok ==> Booked(l, bars, |bars|) && RunOf(l, open, bars, |bars|)
    ensures ok && bars != [] ==>
      var t := TablesOf(l.log);
      && t.Valid() && LegPasses(initialCash, t)
      && Replayed(Flat(initialCash), t.Rows()) == l.View()
      && CurveOf(t.marks, l.equityTs, l.equityValues)
  {
    hide *;
    l := new Ledger(initialCash, instruments);
    RunStarts(l, open, bars);
    BookedStarts(l, bars);
    for i := 0 to |bars|
      invariant fresh(l) && l.initialCash == initialCash && l.instruments == instruments
      invariant RunOf(l, open, bars, i) && Booked(l, bars, i)
      invariant forall j: nat | j < i :: Accepted(instruments, AccountAt(initialCash, bars, j), bars[j])
    {
      NextFollows(open, bars, i);
      RunIs(l, open, bars, i);
      BookedIs(l, bars, i);
      ghost var before, ts, values := l.log, l.equityTs, l.equityValues;
      ok := TradeBar(l, OpenOf(open, bars, i), bars[i]);
      if !ok { return; }
      OneBar(initialCash, bars, i);
      ViewIs(l);
      MarkOnIs(l, bars[i]);
      NextBar(before, l.log, open, bars, i);
      RunGrows(l, open, bars, i, ts);
      BookedGrows(l, bars, i, values);
    }
    ok := true;
    if bars != [] {
      RunIs(l, open, bars, |bars|);
      ProductionRunPassesAudit(l);
    }
  }
}
