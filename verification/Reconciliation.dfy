/** End to end: the tables a production run saves, taken apart by kind and sorted again by the
    audit, replay to the ledger's own account. */
module Reconciliation {
  import opened Accounts
  import opened Legs
  import opened Replay
  import opened Sorting
  import opened Ledger

  /** The three saved tables of a log, each in log order. */
  function TablesOf(log: seq<Row>): LegTables {
    LegTables(OfKind(log, FillKind), OfKind(log, FundingKind), OfKind(log, MarkKind))
  }

  lemma OfKindHas(log: seq<Row>, kind: Kind)
    ensures forall r | r in OfKind(log, kind) :: KindOf(r) == kind
  {
    FilterMembers(log, (r: Row) => KindOf(r) == kind);
  }

  lemma WithKeyConcat(xs: seq<Row>, ys: seq<Row>, k: Row)
    ensures WithKey(xs + ys, k) == WithKey(xs, k) + WithKey(ys, k)
  {
    FilterConcat(xs, ys, (r: Row) => SameKey(r, k));
  }

  /** A key belongs to one kind of row. */
  lemma {:induction false} WithKeyOfKind(log: seq<Row>, kind: Kind, k: Row)
    ensures WithKey(OfKind(log, kind), k) == if KindOf(k) == kind then WithKey(log, k) else []
  {
    if log != [] {
      var front, last := log[..|log| - 1], log[|log| - 1];
      assert log == front + [last];
      WithKeyOfKind(front, kind, k);
      OneMoreOfKind(front, last, kind, k);
    }
  }

  lemma OneMoreOfKind(front: seq<Row>, last: Row, kind: Kind, k: Row)
    requires WithKey(OfKind(front, kind), k) == if KindOf(k) == kind then WithKey(front, k) else []
    ensures WithKey(OfKind(front + [last], kind), k) == if KindOf(k) == kind then WithKey(front + [last], k) else []
  {
    assert KindOf(last) != KindOf(k) ==> Matching(last, k) == [];
    hide *;
    var xs, m := OfKind(front, kind), Matching(last, k);
    OfKindAppend(front, last, kind);
    WithKeyAppend(front, last, k);
    if KindOf(last) == kind {
      WithKeyAppend(xs, last, k);
      if KindOf(k) != kind { NoTail(WithKey(xs, k), m); }
    } else {
      NoTail(xs, []);
      if KindOf(k) == kind { NoTail(WithKey(front, k), m); }
    }
  }

  lemma NoTail(xs: seq<Row>, t: seq<Row>)
    requires t == []
    ensures xs + t == xs
  {}

  /** The last row ends the rows under its key. */
  lemma LastUnderKey(rows: seq<Row>, k: Row)
    requires rows != [] && SameKey(rows[|rows| - 1], k)
    ensures WithKey(rows, k) != [] && WithKey(rows, k)[|WithKey(rows, k)| - 1] == rows[|rows| - 1]
  {}

  /** The last rows of two ordered arrangements with the same rows under every key agree. */
  lemma LastAgrees(xs: seq<Row>, ys: seq<Row>)
    requires InOrder(xs) && InOrder(ys) && xs != []
    requires forall k :: WithKey(xs, k) == WithKey(ys, k)
    ensures ys != [] && ys[|ys| - 1] == xs[|xs| - 1]
  {
    hide WithKey, InOrder;
    var x := xs[|xs| - 1];
    LastUnderKey(xs, x);
    assert WithKey(ys, x) == WithKey(xs, x);
    Present(ys, x);
    var y := ys[|ys| - 1];
    LastUnderKey(ys, y);
    assert WithKey(xs, y) == WithKey(ys, y);
    Present(xs, y);
    LastUnderKey(ys, x);
  }

  /** A key with rows is not after the last row of an ordered arrangement. */
  lemma {:induction false} Present(rows: seq<Row>, k: Row)
    requires InOrder(rows) && WithKey(rows, k) != []
    ensures rows != [] && NotAfter(k, rows[|rows| - 1])
  {
    var n := |rows| - 1;
    if !SameKey(rows[n], k) {
      Present(rows[..n], k);
      assert NotAfter(rows[n - 1], rows[n]);
    }
  }

  lemma SameTail(xs: seq<Row>, ys: seq<Row>, t: seq<Row>)
    requires xs + t == ys + t
    ensures xs == ys
  {
    assert |xs + t| == |ys + t|;
    assert xs == (xs + t)[..|xs|] && ys == (ys + t)[..|ys|];
  }

  /** An ordered arrangement is determined by its rows under each key. */
  lemma {:induction false} OrderIsUnique(xs: seq<Row>, ys: seq<Row>)
    requires InOrder(xs) && InOrder(ys)
    requires forall k :: WithKey(xs, k) == WithKey(ys, k)
    ensures xs == ys
  {
    if xs == [] {
      if ys != [] { LastAgrees(ys, xs); }
    } else {
      LastAgrees(xs, ys);
      var x := xs[|xs| - 1];
      var xf, yf := xs[..|xs| - 1], ys[..|ys| - 1];
      assert xs == xf + [x] && ys == yf + [x];
      hide WithKey;
      forall k ensures WithKey(xf, k) == WithKey(yf, k) {
        assert WithKey(xs, k) == WithKey(ys, k);
        WithKeyAppend(xf, x, k);
        WithKeyAppend(yf, x, k);
        SameTail(WithKey(xf, k), WithKey(yf, k), Matching(x, k));
      }
      OrderIsUnique(xf, yf);
    }
  }

  lemma TablesHaveKeys(log: seq<Row>)
    ensures TablesOf(log).Valid()
    ensures var t := TablesOf(log);
      forall k :: WithKey(t.fills + t.funding + t.marks, k) == WithKey(log, k)
  {
    var t := TablesOf(log);
    OfKindHas(log, FillKind);
    OfKindHas(log, FundingKind);
    OfKindHas(log, MarkKind);
    hide WithKey, OfKind;
    forall k ensures WithKey(t.fills + t.funding + t.marks, k) == WithKey(log, k) {
      WithKeyConcat(t.fills + t.funding, t.marks, k);
      WithKeyConcat(t.fills, t.funding, k);
      WithKeyOfKind(log, FillKind, k);
      WithKeyOfKind(log, FundingKind, k);
      WithKeyOfKind(log, MarkKind, k);
    }
  }

  /** Saving a log by kind and sorting the tables together is sorting the log, whatever its order;
      an ordered log comes back as it was. */
  lemma SavedTablesSortBack(log: seq<Row>)
    ensures TablesOf(log).Valid()
    ensures TablesOf(log).Rows() == SortRows(log)
    ensures InOrder(log) ==> SortRows(log) == log
  {
    var t := TablesOf(log);
    var rows := t.fills + t.funding + t.marks;
    TablesHaveKeys(log);
    SortRowsSorts(rows);
    SortRowsSorts(log);
    hide SortRows, WithKey, InOrder, TablesOf;
    OrderIsUnique(SortRows(rows), SortRows(log));
    if InOrder(log) { OrderIsUnique(SortRows(log), log); }
  }

  // ------------------------------------------- settlements out of order

  /** In audit order, except that settlements may come in any order between the same fills and
      marks: a bar settles one instrument after the other, and settlement stamps carry jitter. */
  ghost predicate Loose(log: seq<Row>) {
    forall i, j | 0 <= i < j < |log| :: NotAfter(log[i], log[j]) || (log[i].FundingRow? && log[j].FundingRow?)
  }

  lemma SettlementsCommute(a: Account, f: Row, g: Row)
    requires f.FundingRow? && g.FundingRow?
    ensures Step(Step(a, EventOf(f)), EventOf(g)) == Step(Step(a, EventOf(g)), EventOf(f))
    ensures ExactRow(Step(a, EventOf(g)), f) <==> ExactRow(a, f)
  {}

  /** Sorting a settlement into place, past later settlements only, keeps the tables exact and the
      account they replay to. */
  lemma {:induction false} InsertSettlement(a: Account, rows: seq<Row>, f: Row)
    requires f.FundingRow? && Exact(a, rows) && ExactRow(Replayed(a, rows), f)
    requires forall r | r in rows :: NotAfter(r, f) || r.FundingRow?
    ensures Exact(a, Insert(rows, f, NotAfter))
    ensures Replayed(a, Insert(rows, f, NotAfter)) == Step(Replayed(a, rows), EventOf(f))
  {
    hide Exact, Replayed, ExactRow, Step;
    if rows == [] || NotAfter(rows[|rows| - 1], f) {
      ExactAppend(a, rows, f);
    } else {
      var front, g := rows[..|rows| - 1], rows[|rows| - 1];
      assert rows == front + [g];
      assert g in rows;
      LastIsExact(a, front, g);
      SettlementsCommute(Replayed(a, front), f, g);
      InsertSettlement(a, front, f);
      SettlementsCommute(Replayed(a, front), g, f);
      ExactAppend(a, Insert(front, f, NotAfter), g);
    }
  }

  lemma LastIsExact(a: Account, front: seq<Row>, last: Row)
    requires Exact(a, front + [last])
    ensures Exact(a, front) && ExactRow(Replayed(a, front), last)
    ensures Replayed(a, front + [last]) == Step(Replayed(a, front), EventOf(last))
  {
    var rows := front + [last];
    ExactPrefix(a, rows, |front|);
    ReplayedStep(a, rows, |front|);
    assert rows[..|front|] == front && rows[..|front| + 1] == rows;
    assert ExactRow(Replayed(a, rows[..|front|]), rows[|front|]);
  }

  lemma SortAppend(front: seq<Row>, last: Row)
    ensures SortRows(front + [last]) == Insert(SortRows(front), last, NotAfter)
    ensures SortRows([]) == []
  {
    assert (front + [last])[..|front|] == front;
  }

  lemma LoosePrefix(front: seq<Row>, last: Row)
    requires Loose(front + [last])
    ensures Loose(front)
    ensures forall r | r in SortRows(front) :: NotAfter(r, last) || (r.FundingRow? && last.FundingRow?)
  {
    var log := front + [last];
    assert forall i | 0 <= i < |front| :: log[i] == front[i];
    SortRowsSorts(front);
    SameMembers(front, SortRows(front));
    forall r | r in front ensures NotAfter(r, last) || (r.FundingRow? && last.FundingRow?) {
      var i :| 0 <= i < |front| && front[i] == r;
      assert NotAfter(log[i], log[|front|]) || (log[i].FundingRow? && log[|front|].FundingRow?);
    }
  }

  /** An exact log whose settlements alone are out of order is still exact once sorted, and replays
      to the same account. */
  lemma {:induction false} SortKeepsExact(a: Account, log: seq<Row>)
    requires Exact(a, log) && Loose(log)
    ensures Exact(a, SortRows(log)) && Replayed(a, SortRows(log)) == Replayed(a, log)
    ensures log != [] && !log[|log| - 1].FundingRow? ==>
      SortRows(log) == SortRows(log[..|log| - 1]) + [log[|log| - 1]]
  {
    hide Exact, Replayed, ExactRow, Step, SortRows, Loose;
    if log == [] {
      SortAppend([], MarkRow(0, map[], 0.0));
    } else {
      var front, last := log[..|log| - 1], log[|log| - 1];
      assert log == front + [last];
      LastIsExact(a, front, last);
      LoosePrefix(front, last);
      SortKeepsExact(a, front);
      SortAppend(front, last);
      if last.FundingRow? {
        InsertSettlement(a, SortRows(front), last);
      } else {
        var sorted := SortRows(front);
        if sorted != [] { assert sorted[|sorted| - 1] in sorted; }
        ExactAppend(a, sorted, last);
      }
    }
  }

  lemma LastMark(log: seq<Row>)
    requires log != [] && log[|log| - 1].MarkRow?
    ensures TablesOf(log).marks != [] && TablesOf(log).Last() == log[|log| - 1].snapshot
  {
    OfKindAppend(log[..|log| - 1], log[|log| - 1], MarkKind);
    assert log == log[..|log| - 1] + [log[|log| - 1]];
  }

  /** A perpetual-futures run of the production ledger that ends in a mark, in audit order up to
      settlements between the same fills and marks, passes the quantity audit. The audit recovers
      the ledger's own account, the marks it checks are the ledger's equity curve, and its final
      value is the last equity of that curve. */
  lemma ProductionRunPassesAudit(l: Ledger)
    requires l.Valid() && l.plain
    requires Loose(l.log) && l.log != [] && l.log[|l.log| - 1].MarkRow?
    ensures var t := TablesOf(l.log);
      && t.Valid() && LegPasses(l.initialCash, t)
      && Replayed(Flat(l.initialCash), t.Rows()) == l.View()
      && CurveOf(t.marks, l.equityTs, l.equityValues)
      && l.equityValues != []
      && Equity(l.View(), MarksOf(t.Last())) == l.equityValues[|l.equityValues| - 1]
  {
    var initial, log := l.initialCash, l.log;
    assert Logged(initial, l.View(), log) && CurveOf(OfKind(log, MarkKind), l.equityTs, l.equityValues);
    EndingMark(initial, l.View(), log);
    hide *;
    LoggedRunPasses(initial, l.View(), log);
    CurveEnds(log, l.equityTs, l.equityValues);
    TablesAre(log);
  }

  lemma TablesAre(log: seq<Row>)
    ensures TablesOf(log).marks == OfKind(log, MarkKind)
  {}

  lemma CurveEnds(log: seq<Row>, ts: seq<int>, values: seq<real>)
    requires CurveOf(OfKind(log, MarkKind), ts, values) && log != [] && log[|log| - 1].MarkRow?
    ensures values != [] && values[|values| - 1] == log[|log| - 1].equity
  {
    OfKindAppend(log[..|log| - 1], log[|log| - 1], MarkKind);
    assert log == log[..|log| - 1] + [log[|log| - 1]];
  }

  lemma EndingMark(initial: real, a: Account, log: seq<Row>)
    requires Logged(initial, a, log) && log != [] && log[|log| - 1].MarkRow?
    ensures var last := log[|log| - 1];
      last.snapshot.Keys == a.book.Keys && Equity(a, MarksOf(last.snapshot)) == last.equity
  {
    var front, last := log[..|log| - 1], log[|log| - 1];
    assert log == front + [last];
    LastIsExact(Flat(initial), front, last);
    hide Replayed, Equity;
  }

  lemma LoggedRunPasses(initial: real, a: Account, log: seq<Row>)
    requires Logged(initial, a, log) && Loose(log) && log != [] && log[|log| - 1].MarkRow?
    requires log[|log| - 1].snapshot.Keys == a.book.Keys
    ensures var t := TablesOf(log);
      t.Valid() && LegPasses(initial, t) && Replayed(Flat(initial), t.Rows()) == a
      && t.Last() == log[|log| - 1].snapshot
  {
    SavedTablesSortBack(log);
    LastMark(log);
    SortKeepsExact(Flat(initial), log);
    ExactPasses(Flat(initial), SortRows(log));
    hide Replayed, TablesOf, AllOk, Exact, Loose, SortRows;
  }
}
