/** The frozen sample: index rows grouped into one entry per accession, and the first entries of
    each year by digest rank. The digest is an arbitrary function of year and accession. */
module Sampling {
  import opened Sorting

  datatype IndexRow = IndexRow(
    year: int, quarter: int, cik: int, form: string, date: string,
    accession: string, filename: string, archive: int)

  datatype Entry = Entry(
    year: int, quarter: int, date: string, form: string, accession: string,
    filename: string, archive: int, ciks: seq<int>, count: nat)

  // ------------------------------------------------------ grouping

  predicate EarlierRow(a: IndexRow, b: IndexRow) {
    || a.year < b.year
    || (a.year == b.year && (a.quarter < b.quarter || (a.quarter == b.quarter && a.cik <= b.cik)))
  }

  function IntLe(a: int, b: int): bool { a <= b }

  /** The distinct values of s, ascending. */
  function Distinct<T(==)>(s: seq<T>): seq<T> {
    if s == [] then []
    else
      var front := Distinct(s[..|s| - 1]);
      if s[|s| - 1] in front then front else front + [s[|s| - 1]]
  }

  function Project<S, T>(s: seq<S>, f: S -> T): seq<T> { seq(|s|, i requires 0 <= i < |s| => f(s[i])) }

  function Frame(rows: seq<IndexRow>, accession: string): seq<IndexRow> {
    Filter(rows, (r: IndexRow) => r.accession == accession)
  }

  function Accessions(rows: seq<IndexRow>): seq<string> {
    Sort(Distinct(Project(rows, (r: IndexRow) => r.accession)), StringLe)
  }

  function EntryOf(rows: seq<IndexRow>, accession: string): Entry
    requires exists r :: r in rows && r.accession == accession
  {
    var frame := Frame(rows, accession);
    FirstExists(rows, accession);
    var first := Sort(frame, EarlierRow)[0];
    var ciks := Sort(Distinct(Project(frame, (r: IndexRow) => r.cik)), IntLe);
    Entry(first.year, first.quarter, first.date, first.form, accession, first.filename, first.archive, ciks, |ciks|)
  }

  lemma RowOrder()
    ensures Preorder(EarlierRow) && Preorder(IntLe)
  {}

  lemma StringOrder()
    ensures Preorder(StringLe)
    ensures forall s: seq<string> :: NoTies(s, StringLe)
  {
    forall x, y ensures StringLe(x, y) || StringLe(y, x) { StringTotal(x, y); }
    forall x, y, z | StringLe(x, y) && StringLe(y, z) ensures StringLe(x, z) { StringTransitive(x, y, z); }
    forall s: seq<string> ensures NoTies(s, StringLe) {
      forall x, y | x in s && y in s && StringLe(x, y) && StringLe(y, x) ensures x == y { StringTotal(x, y); }
    }
  }

  lemma FirstExists(rows: seq<IndexRow>, accession: string)
    requires exists r :: r in rows && r.accession == accession
    ensures Sort(Frame(rows, accession), EarlierRow) != []
  {
    var r :| r in rows && r.accession == accession;
    FilterMembers(rows, (q: IndexRow) => q.accession == accession);
    RowOrder();
    SortSorts(Frame(rows, accession), EarlierRow);
    SameMembers(Frame(rows, accession), Sort(Frame(rows, accession), EarlierRow));
    assert r in Sort(Frame(rows, accession), EarlierRow);
  }

  ghost predicate NoDuplicates<T>(s: seq<T>) { forall i, j | 0 <= i < j < |s| :: s[i] != s[j] }

  lemma {:induction false} DistinctFacts<T>(s: seq<T>)
    ensures NoDuplicates(Distinct(s)) && forall x :: x in Distinct(s) <==> x in s
  {
    if s != [] {
      DistinctFacts(s[..|s| - 1]);
      FrontLast(s);
    }
  }

  lemma {:induction false} NoDuplicatesMultiset<T(!new)>(s: seq<T>)
    ensures NoDuplicates(s) <==> forall x :: multiset(s)[x] <= 1
    ensures NoDuplicates(s) ==> forall x :: multiset(s)[x] == if x in s then 1 else 0
  {
    if s != [] {
      var front, last := s[..|s| - 1], s[|s| - 1];
      NoDuplicatesMultiset(front);
      FrontLast(s);
      if NoDuplicates(s) {
        assert last !in front;
      } else if NoDuplicates(front) {
        var i :| 0 <= i < |front| && front[i] == last;
        assert last in multiset(front);
        assert multiset(s)[last] >= 2;
      } else {
        var x :| multiset(front)[x] > 1;
        assert multiset(s)[x] > 1;
      }
    }
  }

  /** Distinct values with the same members are the same up to order. */
  lemma DistinctIgnoresOrder<T(!new)>(a: seq<T>, b: seq<T>)
    requires forall x :: x in a <==> x in b
    ensures multiset(Distinct(a)) == multiset(Distinct(b))
  {
    DistinctFacts(a);
    DistinctFacts(b);
    NoDuplicatesMultiset(Distinct(a));
    NoDuplicatesMultiset(Distinct(b));
    forall x ensures multiset(Distinct(a))[x] == multiset(Distinct(b))[x] {}
  }

  lemma SortedDistinct<T(!new)>(s: seq<T>, le: (T, T) -> bool)
    requires Preorder(le)
    ensures Ordered(Sort(Distinct(s), le), le) && NoDuplicates(Sort(Distinct(s), le))
    ensures forall x :: x in Sort(Distinct(s), le) <==> x in s
  {
    DistinctFacts(s);
    SortSorts(Distinct(s), le);
    SameMembers(Distinct(s), Sort(Distinct(s), le));
    NoDuplicatesMultiset(Distinct(s));
    NoDuplicatesMultiset(Sort(Distinct(s), le));
  }

  lemma ProjectMembers<S(!new), T(!new)>(s: seq<S>, f: S -> T)
    ensures forall y :: y in Project(s, f) <==> exists x :: x in s && f(x) == y
  {
    forall y ensures y in Project(s, f) <==> exists x :: x in s && f(x) == y {
      if y in Project(s, f) {
        var i :| 0 <= i < |s| && Project(s, f)[i] == y;
        assert s[i] in s && f(s[i]) == y;
      }
      if x :| x in s && f(x) == y {
        var i :| 0 <= i < |s| && s[i] == x;
        assert Project(s, f)[i] == y;
      }
    }
  }

  lemma AccessionsFacts(rows: seq<IndexRow>)
    ensures NoDuplicates(Accessions(rows)) && Ordered(Accessions(rows), StringLe)
    ensures forall a :: a in Accessions(rows) <==> exists r :: r in rows && r.accession == a
  {
    StringOrder();
    SortedDistinct(Project(rows, (r: IndexRow) => r.accession), StringLe);
    ProjectMembers(rows, (r: IndexRow) => r.accession);
  }

  /** The group-by loop: one entry per accession, in accession order. */
  method AccessionTable(rows: seq<IndexRow>) returns (grouped: seq<Entry>)
    ensures IsTable(rows, grouped)
  {
    AccessionsFacts(rows);
    hide Accessions, EntryOf;
    grouped := [];
    for i := 0 to |Accessions(rows)|
      invariant |grouped| == i
      invariant forall k | 0 <= k < i :: IsEntry(rows, Accessions(rows)[k], grouped[k])
    {
      var accession := Accessions(rows)[i];
      assert accession in Accessions(rows);
      grouped := grouped + [EntryOf(rows, accession)];
    }
  }

  ghost predicate IsEntry(rows: seq<IndexRow>, accession: string, e: Entry) {
    (exists r :: r in rows && r.accession == accession) && e == EntryOf(rows, accession)
  }

  ghost predicate IsTable(rows: seq<IndexRow>, table: seq<Entry>) {
    |table| == |Accessions(rows)| && forall i | 0 <= i < |table| :: IsEntry(rows, Accessions(rows)[i], table[i])
  }

  /** An entry's fields: its accession's exact set of CIKs, strictly ascending and counted, and
      the remaining fields of an earliest row of that accession. */
  lemma EntryFacts(rows: seq<IndexRow>, accession: string)
    requires exists r :: r in rows && r.accession == accession
    ensures var e := EntryOf(rows, accession);
      && e.accession == accession && e.count == |e.ciks|
      && (forall i, j | 0 <= i < j < |e.ciks| :: e.ciks[i] < e.ciks[j])
      && (forall c :: c in e.ciks <==> exists r :: r in rows && r.accession == accession && r.cik == c)
      && exists first ::
          && first in rows && first.accession == accession
          && (forall r | r in rows && r.accession == accession ::
                && first.year <= r.year && (first.year == r.year ==> first.quarter <= r.quarter)
                && (first.year == r.year && first.quarter == r.quarter ==> first.cik <= r.cik))
          && e.year == first.year && e.quarter == first.quarter && e.date == first.date && e.form == first.form
          && e.filename == first.filename && e.archive == first.archive
  {
    var frame := Frame(rows, accession);
    var cik := (r: IndexRow) => r.cik;
    FilterMembers(rows, (r: IndexRow) => r.accession == accession);
    FirstExists(rows, accession);
    SortedDistinct(Project(frame, cik), IntLe);
    ProjectMembers(frame, cik);
    var first := Sort(frame, EarlierRow)[0];
    hide EarlierRow, Sort, Distinct, Filter;
    FirstIsEarliest(frame);
  }

  /** The first row of a frame in order. */
  lemma FirstIsEarliest(frame: seq<IndexRow>)
    requires frame != []
    ensures Sort(frame, EarlierRow) != []
    ensures var first := Sort(frame, EarlierRow)[0];
      && first in frame
      && forall r | r in frame ::
           && first.year <= r.year && (first.year == r.year ==> first.quarter <= r.quarter)
           && (first.year == r.year && first.quarter == r.quarter ==> first.cik <= r.cik)
  {
    RowOrder();
    SortSorts(frame, EarlierRow);
    var sorted := Sort(frame, EarlierRow);
    SameMembers(frame, sorted);
    assert sorted != [] by { assert frame[0] in sorted; }
    var first := sorted[0];
    assert first in sorted;
    forall r | r in frame ensures EarlierRow(first, r) {
      assert r in sorted;
      var k :| 0 <= k < |sorted| && sorted[k] == r;
    }
  }

  /** One entry per accession: no accession repeats, and each row's accession has its entry. */
  lemma TableFacts(rows: seq<IndexRow>, table: seq<Entry>)
    requires IsTable(rows, table)
    ensures forall i, j | 0 <= i < j < |table| ::
      Precedes(table[i].accession, table[j].accession) && table[i].accession != table[j].accession
    ensures forall r | r in rows :: exists e :: e in table && e.accession == r.accession
    ensures forall e | e in table :: exists r :: r in rows && r.accession == e.accession
  {
    AccessionsFacts(rows);
    hide Accessions, EntryOf;
    forall i | 0 <= i < |table| ensures table[i].accession == Accessions(rows)[i] {
      EntryFacts(rows, Accessions(rows)[i]);
    }
    forall i, j | 0 <= i < j < |table|
      ensures Precedes(table[i].accession, table[j].accession) && table[i].accession != table[j].accession
    {
      StringLeExactly(Accessions(rows)[i], Accessions(rows)[j]);
    }
    forall r | r in rows ensures exists e :: e in table && e.accession == r.accession {
      assert r.accession in Accessions(rows);
      var i :| 0 <= i < |table| && Accessions(rows)[i] == r.accession;
      assert table[i] in table;
    }
  }

  /** Rows of one accession that tie on year, quarter and CIK are the same row. */
  ghost predicate RowsDoNotTie(rows: seq<IndexRow>) {
    forall a, b | a in rows && b in rows && a.accession == b.accession && EarlierRow(a, b) && EarlierRow(b, a) :: a == b
  }

  lemma EntryIgnoresOrder(rows: seq<IndexRow>, others: seq<IndexRow>, accession: string)
    requires multiset(rows) == multiset(others) && RowsDoNotTie(rows)
    requires (exists r :: r in rows && r.accession == accession) && exists r :: r in others && r.accession == accession
    ensures EntryOf(rows, accession) == EntryOf(others, accession)
  {
    var p := (r: IndexRow) => r.accession == accession;
    var cik := (r: IndexRow) => r.cik;
    var a, b := Frame(rows, accession), Frame(others, accession);
    RowOrder();
    FilterIgnoresOrder(rows, others, p);
    FilterMembers(rows, p);
    SortIgnoresOrder(a, b, EarlierRow);
    SameMembers(a, b);
    ProjectMembers(a, cik);
    ProjectMembers(b, cik);
    DistinctIgnoresOrder(Project(a, cik), Project(b, cik));
    SortIgnoresOrder(Distinct(Project(a, cik)), Distinct(Project(b, cik)), IntLe);
  }

  /** The table does not depend on the order of the index rows. */
  lemma TableIgnoresOrder(rows: seq<IndexRow>, others: seq<IndexRow>, table: seq<Entry>, other: seq<Entry>)
    requires multiset(rows) == multiset(others) && RowsDoNotTie(rows)
    requires IsTable(rows, table) && IsTable(others, other)
    ensures table == other
  {
    SameMembers(rows, others);
    AccessionsFacts(rows);
    AccessionsFacts(others);
    AccessionsIgnoreOrder(rows, others);
    hide Accessions, EntryOf, RowsDoNotTie;
    forall i | 0 <= i < |table| ensures table[i] == other[i] {
      assert Accessions(rows)[i] in Accessions(others);
      EntryIgnoresOrder(rows, others, Accessions(rows)[i]);
    }
  }

  lemma AccessionsIgnoreOrder(rows: seq<IndexRow>, others: seq<IndexRow>)
    requires forall r :: r in rows <==> r in others
    ensures Accessions(rows) == Accessions(others)
  {
    var f := (r: IndexRow) => r.accession;
    var a, b := Project(rows, f), Project(others, f);
    ProjectMembers(rows, f);
    ProjectMembers(others, f);
    assert forall x :: x in a <==> x in b;
    assert Accessions(rows) == Sort(Distinct(a), StringLe) && Accessions(others) == Sort(Distinct(b), StringLe);
    hide *;
    StringOrder();
    DistinctIgnoresOrder(a, b);
    SortIgnoresOrder(Distinct(a), Distinct(b), StringLe);
  }

  // ------------------------------------------------------ the locked sample

  type Digest = (int, string) -> string

  predicate Outranks(digest: Digest, a: Entry, b: Entry) {
    || a.year < b.year
    || (a.year == b.year
        && (var x, y := digest(a.year, a.accession), digest(b.year, b.accession);
            StringLe(x, y) && (x == y ==> StringLe(a.accession, b.accession))))
  }

  function ByRank(digest: Digest): (Entry, Entry) -> bool { (a, b) => Outranks(digest, a, b) }

  /** The first perYear entries of each year, in the order given. */
  function Heads(s: seq<Entry>, perYear: nat): seq<Entry> {
    if s == [] then []
    else
      var front, last := s[..|s| - 1], s[|s| - 1];
      Heads(front, perYear) + if Count(front, OfYear(last.year)) < perYear then [last] else []
  }

  function Least(a: nat, b: nat): nat { if a < b then a else b }

  function OfYear(year: int): Entry -> bool { (e: Entry) => e.year == year }

  function LockedSample(digest: Digest, entries: seq<Entry>, perYear: nat): seq<Entry> {
    Heads(Sort(entries, ByRank(digest)), perYear)
  }

  ghost predicate OnePerAccession(entries: seq<Entry>) {
    forall i, j | 0 <= i < j < |entries| :: entries[i].accession != entries[j].accession
  }

  lemma OutranksTransitive(digest: Digest, a: Entry, b: Entry, c: Entry)
    requires Outranks(digest, a, b) && Outranks(digest, b, c)
    ensures Outranks(digest, a, c)
  {
    if a.year == b.year == c.year {
      var x, y, z := digest(a.year, a.accession), digest(b.year, b.accession), digest(c.year, c.accession);
      StringTransitive(x, y, z);
      if x == z {
        StringTotal(x, y);
        StringTransitive(a.accession, b.accession, c.accession);
      }
    }
  }

  lemma RankOrder(digest: Digest)
    ensures Preorder(ByRank(digest))
  {
    forall a, b ensures ByRank(digest)(a, b) || ByRank(digest)(b, a) {
      StringTotal(digest(a.year, a.accession), digest(b.year, b.accession));
      StringTotal(a.accession, b.accession);
    }
    forall a, b, c | ByRank(digest)(a, b) && ByRank(digest)(b, c) ensures ByRank(digest)(a, c) {
      OutranksTransitive(digest, a, b, c);
    }
  }

  /** Entries of different accessions never tie, whatever the digest. */
  lemma RankNoTies(digest: Digest, entries: seq<Entry>)
    requires OnePerAccession(entries)
    ensures NoTies(entries, ByRank(digest)) && NoDuplicates(entries)
  {
    forall a, b | a in entries && b in entries && ByRank(digest)(a, b) && ByRank(digest)(b, a) ensures a == b {
      StringTotal(digest(a.year, a.accession), digest(b.year, b.accession));
      StringTotal(a.accession, b.accession);
    }
  }

  /** The entries of its year that rank strictly before e. */
  function Ahead(digest: Digest, e: Entry): Entry -> bool {
    (f: Entry) => f.year == e.year && !Outranks(digest, e, f)
  }

  lemma {:induction false} HeadsMembers(s: seq<Entry>, perYear: nat, k: nat)
    requires k < |s| && NoDuplicates(s)
    ensures s[k] in Heads(s, perYear) <==> Count(s[..k], OfYear(s[k].year)) < perYear
  {
    var front, last := s[..|s| - 1], s[|s| - 1];
    HeadsAreMembers(front, perYear);
    if k < |front| {
      HeadsMembers(front, perYear, k);
      assert front[..k] == s[..k];
    } else {
      assert last !in front;
    }
  }

  lemma {:induction false} HeadsAreMembers(s: seq<Entry>, perYear: nat)
    ensures forall e | e in Heads(s, perYear) :: e in s
  {
    if s != [] {
      HeadsAreMembers(s[..|s| - 1], perYear);
      FrontLast(s);
    }
  }

  /** An entry is sampled exactly when fewer than perYear entries of its year rank before it. */
  lemma LockedSampleExactly(digest: Digest, entries: seq<Entry>, perYear: nat, e: Entry)
    requires OnePerAccession(entries)
    ensures e in LockedSample(digest, entries, perYear)
       <==> e in entries && Count(entries, Ahead(digest, e)) < perYear
  {
    var le := ByRank(digest);
    var s := Sort(entries, le);
    RankOrder(digest);
    RankNoTies(digest, entries);
    SortSorts(entries, le);
    SameMembers(entries, s);
    HeadsAreMembers(s, perYear);
    if e in entries {
      NoDuplicatesMultiset(entries);
      NoDuplicatesMultiset(s);
      var k :| 0 <= k < |s| && s[k] == e;
      HeadsMembers(s, perYear, k);
      FilterIgnoresOrder(entries, s, Ahead(digest, e));
      AheadIsBefore(digest, s, k);
    }
  }

  lemma AheadIsBefore(digest: Digest, s: seq<Entry>, k: nat)
    requires k < |s| && Ordered(s, ByRank(digest)) && NoDuplicates(s) && NoTies(s, ByRank(digest))
    ensures Count(s, Ahead(digest, s[k])) == Count(s[..k], OfYear(s[k].year))
  {
    AheadInFront(digest, s, k);
    AheadInBack(digest, s, k);
    var e := s[k];
    hide *;
    assert s == s[..k] + s[k..];
    CountSplit(s[..k], s[k..], Ahead(digest, e));
    CountSame(s[..k], Ahead(digest, e), OfYear(e.year));
    CountNone(s[k..], Ahead(digest, e));
  }

  lemma AheadInFront(digest: Digest, s: seq<Entry>, k: nat)
    requires k < |s| && Ordered(s, ByRank(digest)) && NoDuplicates(s) && NoTies(s, ByRank(digest))
    ensures forall f | f in s[..k] :: Ahead(digest, s[k])(f) == OfYear(s[k].year)(f)
  {
    forall f | f in s[..k] ensures Ahead(digest, s[k])(f) == OfYear(s[k].year)(f) {
      var i :| 0 <= i < k && s[i] == f;
      assert ByRank(digest)(f, s[k]) && f != s[k] && f in s && s[k] in s;
      assert !ByRank(digest)(s[k], f);
      hide Outranks;
    }
  }

  lemma AheadInBack(digest: Digest, s: seq<Entry>, k: nat)
    requires k < |s| && Ordered(s, ByRank(digest))
    ensures forall f | f in s[k..] :: !Ahead(digest, s[k])(f)
  {
    RankOrder(digest);
    hide Outranks;
    forall f | f in s[k..] ensures !Ahead(digest, s[k])(f) {
      var i :| k <= i < |s| && s[i] == f;
      assert ByRank(digest)(s[k], s[k]);
      assert ByRank(digest)(s[k], f);
    }
  }

  /** Every year contributes all its entries up to perYear of them. */
  lemma {:induction false} HeadsCount(s: seq<Entry>, perYear: nat, year: int)
    ensures Count(Heads(s, perYear), OfYear(year)) == Least(Count(s, OfYear(year)), perYear)
  {
    if s != [] {
      var front, last := s[..|s| - 1], s[|s| - 1];
      HeadsCount(front, perYear, year);
      CountSplit(front, [last], OfYear(year));
      FrontLast(s);
      CountSplit(Heads(front, perYear), [last], OfYear(year));
      One(last, OfYear(year));
      assert Heads(front, perYear) + [] == Heads(front, perYear);
      hide Count;
    }
  }

  lemma One(e: Entry, p: Entry -> bool)
    ensures Count([e], p) == if p(e) then 1 else 0
  {
    assert [e][..0] == [] && Filter([e][..0], p) == [];
    assert Filter([e], p) == Filter([e][..0], p) + if p(e) then [e] else [];
  }

  /** Per year the sample holds min(perYear, entries of the year), no entry left out outranks one
      of its year that is in, and the sample does not depend on the order of the entries. */
  lemma LockedSampleFacts(digest: Digest, entries: seq<Entry>, others: seq<Entry>, perYear: nat)
    requires OnePerAccession(entries) && multiset(entries) == multiset(others)
    ensures LockedSample(digest, entries, perYear) == LockedSample(digest, others, perYear)
    ensures forall year ::
      Count(LockedSample(digest, entries, perYear), OfYear(year)) == Least(Count(entries, OfYear(year)), perYear)
    ensures forall e, f | e in LockedSample(digest, entries, perYear) && f in entries
          && f !in LockedSample(digest, entries, perYear) && e.year == f.year :: Outranks(digest, e, f)
  {
    var le := ByRank(digest);
    RankOrder(digest);
    RankNoTies(digest, entries);
    SortIgnoresOrder(entries, others, le);
    SortSorts(entries, le);
    var sample := LockedSample(digest, entries, perYear);
    forall year ensures Count(sample, OfYear(year)) == Least(Count(entries, OfYear(year)), perYear) {
      HeadsCount(Sort(entries, le), perYear, year);
      FilterIgnoresOrder(entries, Sort(entries, le), OfYear(year));
    }
    forall e, f | e in sample && f in entries && f !in sample && e.year == f.year ensures Outranks(digest, e, f) {
      LockedSampleExactly(digest, entries, perYear, e);
      LockedSampleExactly(digest, entries, perYear, f);
      if !Outranks(digest, e, f) { FewerAhead(digest, entries, e, f); }
    }
  }

  // ------------------------------------------------ what the digest decides

  /** f comes before e among the entries of its year: by digest, and by accession where digests agree. */
  ghost predicate DrawnBefore(digest: Digest, f: Entry, e: Entry) {
    var x, y := digest(f.year, f.accession), digest(e.year, e.accession);
    f.year == e.year && (Precedes(x, y) || (x == y && Precedes(f.accession, e.accession)))
  }

  lemma AheadExactly(digest: Digest, e: Entry, f: Entry)
    ensures Ahead(digest, e)(f) <==> DrawnBefore(digest, f, e)
  {
    if f.year == e.year {
      var x, y := digest(e.year, e.accession), digest(f.year, f.accession);
      PrecedesIsStrict(x, y);
      PrecedesIsStrict(e.accession, f.accession);
      StringTotal(x, y);
      hide StringLe, Precedes;
    }
  }

  /** Whoever comes before a sampled entry of its year, by digest and then accession, is sampled. */
  lemma SampledByDigest(digest: Digest, entries: seq<Entry>, perYear: nat, e: Entry, f: Entry)
    requires OnePerAccession(entries) && e in LockedSample(digest, entries, perYear) && f in entries
    requires DrawnBefore(digest, f, e)
    ensures f in LockedSample(digest, entries, perYear)
  {
    AheadExactly(digest, e, f);
    hide DrawnBefore, Outranks, Precedes;
    if f !in LockedSample(digest, entries, perYear) {
      LockedSampleFacts(digest, entries, entries, perYear);
    }
  }

  lemma {:induction false} HeadsOrdered(s: seq<Entry>, perYear: nat, le: (Entry, Entry) -> bool)
    requires Ordered(s, le) && NoDuplicates(s)
    ensures Ordered(Heads(s, perYear), le) && NoDuplicates(Heads(s, perYear))
  {
    if s != [] {
      var n := |s| - 1;
      HeadsOrdered(s[..n], perYear, le);
      HeadsAreMembers(s[..n], perYear);
      var front := Heads(s[..n], perYear);
      forall i | 0 <= i < |front| ensures le(front[i], s[n]) && front[i] != s[n] {
        assert front[i] in front;
        var k :| 0 <= k < n && s[k] == front[i];
      }
      hide Count;
    }
  }

  /** The sample comes out by year, then digest, then accession. */
  lemma SampleInOrder(digest: Digest, entries: seq<Entry>, perYear: nat)
    requires OnePerAccession(entries)
    ensures var s := LockedSample(digest, entries, perYear);
      forall i, j | 0 <= i < j < |s| :: s[i].year < s[j].year || DrawnBefore(digest, s[i], s[j])
  {
    var le := ByRank(digest);
    var sorted := Sort(entries, le);
    RankOrder(digest);
    RankNoTies(digest, entries);
    SortSorts(entries, le);
    SameMembers(entries, sorted);
    NoDuplicatesMultiset(entries);
    NoDuplicatesMultiset(sorted);
    HeadsOrdered(sorted, perYear, le);
    HeadsAreMembers(sorted, perYear);
    var s := LockedSample(digest, entries, perYear);
    forall i, j | 0 <= i < j < |s| ensures s[i].year < s[j].year || DrawnBefore(digest, s[i], s[j]) {
      assert s[i] in s && s[j] in s && le(s[i], s[j]) && s[i] != s[j];
      assert !le(s[j], s[i]);
      AheadExactly(digest, s[j], s[i]);
      YearsOrdered(digest, s[i], s[j]);
    }
  }

  lemma YearsOrdered(digest: Digest, a: Entry, b: Entry)
    requires ByRank(digest)(a, b) && !ByRank(digest)(b, a)
    ensures a.year < b.year || Ahead(digest, b)(a)
  {
    hide StringLe;
  }

  lemma FewerAhead(digest: Digest, entries: seq<Entry>, e: Entry, f: Entry)
    requires e.year == f.year && !Outranks(digest, e, f)
    ensures Count(entries, Ahead(digest, f)) <= Count(entries, Ahead(digest, e))
  {
    RankOrder(digest);
    forall g | Ahead(digest, f)(g) ensures Ahead(digest, e)(g) {
      assert ByRank(digest)(f, e) || ByRank(digest)(e, f);
      if Outranks(digest, e, g) {
        assert ByRank(digest)(g, f) || ByRank(digest)(f, g);
        OutranksTransitive(digest, e, g, f);
      }
    }
    CountMonotone(entries, Ahead(digest, f), Ahead(digest, e));
  }

  lemma {:induction false} CountMonotone(s: seq<Entry>, p: Entry -> bool, q: Entry -> bool)
    requires forall g | p(g) :: q(g)
    ensures Count(s, p) <= Count(s, q)
  {
    if s != [] { CountMonotone(s[..|s| - 1], p, q); }
  }

  /** End to end: from index rows that do not tie, the frozen sample is the same in any order. */
  lemma FrozenSampleIgnoresOrder(
      digest: Digest, rows: seq<IndexRow>, others: seq<IndexRow>, table: seq<Entry>, other: seq<Entry>, perYear: nat)
    requires multiset(rows) == multiset(others) && RowsDoNotTie(rows)
    requires IsTable(rows, table) && IsTable(others, other)
    ensures LockedSample(digest, table, perYear) == LockedSample(digest, other, perYear)
    ensures OnePerAccession(table)
  {
    TableIgnoresOrder(rows, others, table, other);
    TableFacts(rows, table);
  }
}
