/** What the scanner accepts: a slice is matched exactly when it is the flat text of a braced tree
    of quoted strings, nested braces and other characters; every printed JSON object is one. */
module Layout {
  import opened Scanner

  /** One character of a string body: itself, or a backslash and the character it escapes. */
  datatype Unit = Plain(c: char) | Escape(c: char)

  datatype Piece = Gap(c: char) | Quoted(units: seq<Unit>) | Braces(inner: Pieces)

  datatype Pieces = End | Then(first: Piece, rest: Pieces)

  predicate ValidUnits(units: seq<Unit>) {
    forall u | u in units :: u.Plain? ==> u.c != '"' && u.c != '\\'
  }

  predicate ValidPiece(p: Piece) {
    match p
    case Gap(c) => c != '"' && c != '{' && c != '}'
    case Quoted(units) => ValidUnits(units)
    case Braces(inner) => Valid(inner)
  }

  predicate Valid(ps: Pieces) {
    match ps
    case End => true
    case Then(p, rest) => ValidPiece(p) && Valid(rest)
  }

  function UnitText(u: Unit): string {
    match u
    case Plain(c) => [c]
    case Escape(c) => ['\\', c]
  }

  function UnitsText(units: seq<Unit>): string {
    if units == [] then "" else UnitText(units[0]) + UnitsText(units[1..])
  }

  function PieceText(p: Piece): string {
    match p
    case Gap(c) => [c]
    case Quoted(units) => "\"" + UnitsText(units) + "\""
    case Braces(inner) => "{" + Flat(inner) + "}"
  }

  function Flat(ps: Pieces): string {
    match ps
    case End => ""
    case Then(p, rest) => PieceText(p) + Flat(rest)
  }

  function Braced(inner: Pieces): string { "{" + Flat(inner) + "}" }

  // ----------------------------------------------- a tree scans back to its depth

  /** The scan of `text` from `s` ends in `t` and never falls below `floor`. */
  ghost predicate Scans(s: Scan, text: string, t: Scan, floor: int) {
    After(s, text) == t && StaysAt(s, text, floor)
  }

  lemma ScansConcat(s: Scan, x: string, t: Scan, y: string, u: Scan, floor: int)
    requires Scans(s, x, t, floor) && Scans(t, y, u, floor)
    ensures Scans(s, x + y, u, floor)
  {
    AfterConcat(s, x, y);
    forall i | 0 <= i <= |x + y| ensures After(s, (x + y)[..i]).depth >= floor {
      if i <= |x| {
        assert (x + y)[..i] == x[..i];
      } else {
        assert (x + y)[..i] == x + y[..i - |x|];
        AfterConcat(s, x, y[..i - |x|]);
      }
    }
  }

  lemma ScansOne(s: Scan, c: char, floor: int)
    requires s.depth >= floor && Next(s, c).depth >= floor
    ensures Scans(s, [c], Next(s, c), floor)
  {
    assert [c][..0] == "" && [c][..1] == [c];
  }

  lemma {:induction false} UnitsScan(d: int, units: seq<Unit>)
    requires ValidUnits(units)
    ensures Scans(Scan(d, true, false), UnitsText(units), Scan(d, true, false), d)
  {
    var s := Scan(d, true, false);
    if units != [] {
      var u := units[0];
      match u {
        case Plain(c) =>
          ScansOne(s, c, d);
        case Escape(c) =>
          ScansOne(s, '\\', d);
          ScansOne(Scan(d, true, true), c, d);
          ScansConcat(s, ['\\'], Scan(d, true, true), [c], s, d);
          assert ['\\'] + [c] == UnitText(u);
      }
      UnitsScan(d, units[1..]);
      ScansConcat(s, UnitText(u), s, UnitsText(units[1..]), s, d);
    }
  }

  lemma {:induction false} PieceScans(d: int, p: Piece)
    requires ValidPiece(p)
    ensures Scans(Outside(d), PieceText(p), Outside(d), d)
    decreases p
  {
    match p {
      case Gap(c) =>
        ScansOne(Outside(d), c, d);
      case Quoted(units) =>
        var s := Scan(d, true, false);
        ScansOne(Outside(d), '"', d);
        UnitsScan(d, units);
        ScansOne(s, '"', d);
        ScansConcat(Outside(d), "\"", s, UnitsText(units), s, d);
        ScansConcat(Outside(d), "\"" + UnitsText(units), s, "\"", Outside(d), d);
      case Braces(inner) =>
        PiecesScan(d + 1, inner);
        Lower(Outside(d + 1), Flat(inner), Outside(d + 1), d + 1, d);
        ScansOne(Outside(d), '{', d);
        ScansOne(Outside(d + 1), '}', d);
        ScansConcat(Outside(d), "{", Outside(d + 1), Flat(inner), Outside(d + 1), d);
        ScansConcat(Outside(d), "{" + Flat(inner), Outside(d + 1), "}", Outside(d), d);
    }
  }

  lemma Lower(s: Scan, text: string, t: Scan, high: int, low: int)
    requires Scans(s, text, t, high) && low <= high
    ensures Scans(s, text, t, low)
  {}

  lemma {:induction false} PiecesScan(d: int, ps: Pieces)
    requires Valid(ps)
    ensures Scans(Outside(d), Flat(ps), Outside(d), d)
    decreases ps
  {
    match ps {
      case End =>
      case Then(p, rest) =>
        PieceScans(d, p);
        PiecesScan(d, rest);
        ScansConcat(Outside(d), PieceText(p), Outside(d), Flat(rest), Outside(d), d);
    }
  }

  lemma TreeCloses(ps: Pieces)
    requires Valid(ps)
    ensures ClosesFrom(1, Flat(ps) + "}")
  {
    var x := Flat(ps);
    PiecesScan(1, ps);
    AfterConcat(Outside(1), x, "}");
    assert After(Outside(1), "}") == Outside(0) by { assert "}"[..0] == ""; }
    forall i | 0 <= i < |x + "}"| ensures After(Outside(1), (x + "}")[..i]).depth >= 1 {
      assert (x + "}")[..i] == x[..i];
    }
  }

  // ----------------------------------------------- every match is a tree

  lemma AfterFront(s: Scan, text: string)
    requires text != ""
    ensures After(s, text) == After(Next(s, text[0]), text[1..])
    ensures forall i | 0 <= i < |text| :: After(s, text[..i + 1]) == After(Next(s, text[0]), text[1..][..i])
  {
    var c := [text[0]];
    assert c[..0] == "";
    assert After(s, c) == Next(s, text[0]);
    forall i | 0 <= i < |text|
      ensures After(s, text[..i + 1]) == After(Next(s, text[0]), text[1..][..i])
    {
      assert text[..i + 1] == c + text[1..][..i];
      AfterConcat(s, c, text[1..][..i]);
    }
    assert text[..|text|] == text && text[1..][..|text| - 1] == text[1..];
  }

  lemma UnitsPrepend(u: Unit, rest: seq<Unit>)
    requires ValidUnits([u]) && ValidUnits(rest)
    ensures ValidUnits([u] + rest)
    ensures UnitsText([u] + rest) == UnitText(u) + UnitsText(rest)
  {
    assert ([u] + rest)[1..] == rest;
  }

  /** From inside a string, skipping one unit leaves the scan where it was. */
  lemma SkipUnit(d: int, u: Unit, tail: string)
    requires ValidUnits([u])
    ensures After(Scan(d, true, false), UnitText(u) + tail) == After(Scan(d, true, false), tail)
  {
    assert u in [u];
    UnitsScan(d, [u]);
    UnitsPrepend(u, []);
    assert UnitsText([u] + []) == UnitText(u) && [u] + [] == [u];
    AfterConcat(Scan(d, true, false), UnitText(u), tail);
  }

  /** Text that changes the depth from inside a string first closes the string. */
  lemma {:induction false} ParseUnits(d: int, text: string) returns (units: seq<Unit>, n: nat)
    requires After(Scan(d, true, false), text).depth != d
    ensures n <= |text| && ValidUnits(units)
    ensures text[..n] == UnitsText(units) + "\""
    decreases |text|
  {
    NotEmpty(d, text);
    if text[0] == '"' {
      units, n := [], 1;
    } else {
      var u, tail := Plain(text[0]), text[1..];
      if text[0] == '\\' {
        EscapeHasMore(d, text);
        u, tail := Escape(text[1]), text[2..];
      }
      hide After;
      assert text == UnitText(u) + tail;
      SkipUnit(d, u, tail);
      var rest, m := ParseUnits(d, tail);
      UnitsPrepend(u, rest);
      units, n := [u] + rest, |UnitText(u)| + m;
      assert text[..n] == UnitText(u) + tail[..m];
    }
  }

  lemma NotEmpty(d: int, text: string)
    requires After(Scan(d, true, false), text).depth != d
    ensures text != ""
  {}

  lemma EscapeHasMore(d: int, text: string)
    requires text != "" && text[0] == '\\' && After(Scan(d, true, false), text).depth != d
    ensures |text| > 1
  {
    AfterFront(Scan(d, true, false), text);
    assert text[1..] != "";
  }

  /** A closed string returns the scan to where the string opened. */
  lemma StringReturns(d: int, units: seq<Unit>)
    requires ValidUnits(units)
    ensures After(Outside(d), "\"" + UnitsText(units) + "\"") == Outside(d)
  {
    PieceScans(d, Quoted(units));
  }

  /** A scan that starts at depth d + 1 and ends below it first returns to depth d outside strings. */
  lemma {:induction false} FirstReturn(d: int, text: string) returns (n: nat)
    requires After(Outside(d + 1), text).depth <= d
    ensures n <= |text| && ClosesFrom(d + 1, text[..n])
    ensures After(Outside(d + 1), text[..n]) == Outside(d)
  {
    var s := Outside(d + 1);
    assert text[..0] == "" && text[..|text|] == text;
    n := 0;
    while After(s, text[..n]).depth > d
      invariant n <= |text|
      invariant forall i | 0 <= i < n :: After(s, text[..i]).depth >= d + 1
      invariant n > 0 ==> After(s, text[..n]) == Next(After(s, text[..n - 1]), text[n - 1])
      invariant n > 0 ==> After(s, text[..n - 1]).depth >= d + 1
      decreases |text| - n
    {
      AfterStep(s, text, n);
      n := n + 1;
    }
    assert n > 0;
    EscapeInString(s, text[..n - 1]);
    Returns(d, text, n);
  }

  /** The first position below depth d + 1 ends a stretch that closes, outside strings. */
  lemma Returns(d: int, text: string, n: nat)
    requires 0 < n <= |text| && After(Outside(d + 1), text[..n]).depth <= d
    requires forall i | 0 <= i < n :: After(Outside(d + 1), text[..i]).depth >= d + 1
    requires After(Outside(d + 1), text[..n]) == Next(After(Outside(d + 1), text[..n - 1]), text[n - 1])
    requires var s := After(Outside(d + 1), text[..n - 1]); s.escaped ==> s.inString
    ensures ClosesFrom(d + 1, text[..n]) && After(Outside(d + 1), text[..n]) == Outside(d)
  {
    forall i | 0 <= i < n ensures After(Outside(d + 1), text[..n][..i]).depth >= d + 1 {
      assert text[..n][..i] == text[..i];
    }
    hide After;
  }

  /** The escape flag is set only inside a string. */
  lemma {:induction false} EscapeInString(s: Scan, text: string)
    requires s.escaped ==> s.inString
    ensures After(s, text).escaped ==> After(s, text).inString
  {
    if text != "" { EscapeInString(s, text[..|text| - 1]); }
  }

  /** What remains of a closing text after a prefix that comes back to depth d. */
  lemma RestCloses(d: int, body: string, n: nat)
    requires ClosesFrom(d, body) && n <= |body| && After(Outside(d), body[..n]) == Outside(d)
    ensures ClosesFrom(d, body[n..])
  {
    assert body == body[..n] + body[n..];
    AfterConcat(Outside(d), body[..n], body[n..]);
    assert body[..|body|] == body;
    forall i | 0 <= i < |body| - n ensures After(Outside(d), body[n..][..i]).depth >= d {
      assert body[..n + i] == body[..n] + body[n..][..i];
      AfterConcat(Outside(d), body[..n], body[n..][..i]);
    }
  }

  /** What each first character tells about a closing text. */
  lemma ClosesCases(d: int, body: string)
    requires ClosesFrom(d, body)
    ensures body[0] == '}' ==> body == "}"
    ensures body[0] == '{' ==> After(Outside(d + 1), body[1..]).depth <= d
    ensures body[0] == '"' ==> After(Scan(d, true, false), body[1..]).depth != d
    ensures body[0] != '}' && body[0] != '{' && body[0] != '"' ==> ClosesFrom(d, body[1..])
  {
    var c, tail := body[0], body[1..];
    AfterFront(Outside(d), body);
    assert tail[..0] == "";
    assert After(Outside(d), body[..1]) == Next(Outside(d), c);
    if c != '}' && c != '{' && c != '"' {
      RestCloses(d, body, 1);
    }
  }

  lemma AfterBraces(d: int, body: string, n: nat)
    requires body != "" && body[0] == '{' && n < |body|
    requires After(Outside(d + 1), body[1..][..n]) == Outside(d)
    ensures After(Outside(d), body[..n + 1]) == Outside(d)
  {
    AfterFront(Outside(d), body);
  }

  lemma Grow(p: Piece, rest: Pieces, body: string, k: nat)
    requires ValidPiece(p) && Valid(rest) && k <= |body|
    requires body[..k] == PieceText(p) && body[k..] == Flat(rest) + "}"
    ensures Valid(Then(p, rest)) && body == Flat(Then(p, rest)) + "}"
  {
    assert body == body[..k] + body[k..];
  }

  lemma InnerText(inner: Pieces, body: string, n: nat)
    requires body != "" && body[0] == '{' && n < |body| && Valid(inner)
    requires body[1..][..n] == Flat(inner) + "}"
    ensures ValidPiece(Braces(inner)) && body[..n + 1] == PieceText(Braces(inner))
  {
    assert body[..n + 1] == "{" + body[1..][..n];
  }

  lemma StringText(d: int, units: seq<Unit>, body: string, n: nat)
    requires body != "" && body[0] == '"' && n < |body|
    requires ValidUnits(units)
    requires body[1..][..n] == UnitsText(units) + "\""
    ensures ValidPiece(Quoted(units)) && body[..n + 1] == PieceText(Quoted(units))
    ensures After(Outside(d), body[..n + 1]) == Outside(d)
  {
    assert body[..n + 1] == "\"" + body[1..][..n];
    StringReturns(d, units);
  }

  /** Every text that closes is the flat text of a valid tree and the brace that ends it. */
  lemma {:induction false} Parse(d: int, body: string) returns (ps: Pieces)
    requires ClosesFrom(d, body)
    ensures Valid(ps) && body == Flat(ps) + "}"
    decreases |body|
  {
    assert body != "";
    ClosesCases(d, body);
    if body[0] == '}' {
      ps := End;
      assert Flat(ps) + "}" == "}";
    } else {
      hide *;
      var n := 0;
      var piece := Gap(body[0]);
      if body[0] == '{' {
        n := FirstReturn(d, body[1..]);
        AfterBraces(d, body, n);
        RestCloses(d, body, n + 1);
        var inner := Parse(d + 1, body[1..][..n]);
        piece := Braces(inner);
        InnerText(inner, body, n);
      } else if body[0] == '"' {
        var units;
        units, n := ParseUnits(d, body[1..]);
        piece := Quoted(units);
        StringText(d, units, body, n);
        RestCloses(d, body, n + 1);
      } else {
        OneGap(body[0]);
      }
      var rest := Parse(d, body[n + 1..]);
      ps := Then(piece, rest);
      Grow(piece, rest, body, n + 1);
    }
  }

  lemma OneGap(c: char)
    requires c != '"' && c != '{' && c != '}'
    ensures ValidPiece(Gap(c)) && PieceText(Gap(c)) == [c]
  {}

  /** The scanner's matches are exactly the braced trees. */
  lemma MatchedIsTree(text: string, start: nat, end: nat)
    requires start <= end < |text|
    ensures IsMatched(text, start, end) <==>
      exists ps :: Valid(ps) && text[start..end + 1] == Braced(ps)
  {
    if IsMatched(text, start, end) {
      var body := text[start + 1..end + 1];
      var ps := Parse(1, body);
      assert text[start..end + 1] == "{" + body == Braced(ps);
    }
    if exists ps :: Valid(ps) && text[start..end + 1] == Braced(ps) {
      var ps :| Valid(ps) && text[start..end + 1] == Braced(ps);
      TreeCloses(ps);
      assert text[start..end + 1][0] == '{';
      assert text[start + 1..end + 1] == text[start..end + 1][1..] == Flat(ps) + "}";
    }
  }

  // --------------------------------------------------------------- JSON

  /** JSON values as written, with the whitespace around every bracket, comma and colon. Atoms are
      numbers and the three literal names. */
  datatype Json = Atom(text: string) | Text(s: string) | Array(items: Items) | Object(members: Members)
  datatype Items = NoItems(gap: string) | Item(lead: string, value: Json, trail: string, rest: Items)
  datatype Members =
    | NoMembers(gap: string)
    | Member(lead: string, name: string, colon: string, after: string, value: Json, trail: string, rest: Members)

  predicate IsSpace(s: string) { forall c | c in s :: c == ' ' || c == '\t' || c == '\n' || c == '\r' }

  predicate PlainText(s: string) { forall c | c in s :: c != '"' && c != '{' && c != '}' }

  predicate WellFormed(j: Json) {
    match j
    case Atom(text) => PlainText(text)
    case Text(_) => true
    case Array(items) => WellFormedItems(items)
    case Object(members) => WellFormedMembers(members)
  }

  predicate WellFormedItems(items: Items) {
    match items
    case NoItems(gap) => IsSpace(gap)
    case Item(lead, value, trail, rest) =>
      IsSpace(lead) && WellFormed(value) && IsSpace(trail) && WellFormedItems(rest)
  }

  predicate WellFormedMembers(members: Members) {
    match members
    case NoMembers(gap) => IsSpace(gap)
    case Member(lead, name, colon, after, value, trail, rest) =>
      && IsSpace(lead) && IsSpace(colon) && IsSpace(after) && IsSpace(trail)
      && WellFormed(value) && WellFormedMembers(rest)
  }

  /** How a printer writes a character inside a string. */
  type Spelling = char -> seq<Unit>

  ghost predicate Spells(sp: Spelling) { forall c :: ValidUnits(sp(c)) }

  function Hex(d: int): char
    requires 0 <= d < 16
  {
    "0123456789abcdef"[d]
  }

  /** The escapes that section 7 of RFC 8259 requires: quotes, backslashes and control characters. */
  function Required(c: char): seq<Unit> {
    if c == '"' || c == '\\' then [Escape(c)]
    else if c == '\n' then [Escape('n')]
    else if c == '\r' then [Escape('r')]
    else if c == '\t' then [Escape('t')]
    else if c as int < 32 then
      [Escape('u'), Plain('0'), Plain('0'), Plain(Hex(c as int / 16)), Plain(Hex(c as int % 16))]
    else [Plain(c)]
  }

  lemma RequiredSpells()
    ensures Spells(Required)
  {
    forall c ensures ValidUnits(Required(c)) {
      if c as int < 32 {
        HexIsPlain(c as int / 16);
        HexIsPlain(c as int % 16);
      }
    }
  }

  lemma HexIsPlain(d: int)
    requires 0 <= d < 16
    ensures Hex(d) != '"' && Hex(d) != '\\'
  {}

  function UnitsOf(sp: Spelling, s: string): seq<Unit> {
    if s == "" then [] else sp(s[0]) + UnitsOf(sp, s[1..])
  }

  function Quote(sp: Spelling, s: string): string { "\"" + UnitsText(UnitsOf(sp, s)) + "\"" }

  function Print(sp: Spelling, j: Json): string {
    match j
    case Atom(text) => text
    case Text(s) => Quote(sp, s)
    case Array(items) => "[" + PrintItems(sp, items) + "]"
    case Object(members) => "{" + PrintMembers(sp, members) + "}"
  }

  function PrintItems(sp: Spelling, items: Items): string {
    match items
    case NoItems(gap) => gap
    case Item(lead, v, trail, rest) =>
      lead + Print(sp, v) + trail + (if rest.NoItems? then "" else ",") + PrintItems(sp, rest)
  }

  function PrintMembers(sp: Spelling, members: Members): string {
    match members
    case NoMembers(gap) => gap
    case Member(lead, name, colon, after, v, trail, rest) =>
      lead + Quote(sp, name) + colon + ":" + after + Print(sp, v) + trail
      + (if rest.NoMembers? then "" else ",") + PrintMembers(sp, rest)
  }

  /** The text is the flat text of some valid tree. */
  ghost predicate IsTree(text: string) { exists ps :: Valid(ps) && text == Flat(ps) }

  function Append(xs: Pieces, ys: Pieces): Pieces {
    match xs
    case End => ys
    case Then(p, rest) => Then(p, Append(rest, ys))
  }

  lemma {:induction false} AppendFlat(xs: Pieces, ys: Pieces)
    requires Valid(xs) && Valid(ys)
    ensures Valid(Append(xs, ys)) && Flat(Append(xs, ys)) == Flat(xs) + Flat(ys)
  {
    match xs {
      case End =>
      case Then(p, rest) =>
        AppendFlat(rest, ys);
        assert PieceText(p) + (Flat(rest) + Flat(ys)) == PieceText(p) + Flat(rest) + Flat(ys);
    }
  }

  lemma {:induction false} TreesConcat(x: string, y: string)
    requires IsTree(x) && IsTree(y)
    ensures IsTree(x + y)
  {
    var xs :| Valid(xs) && x == Flat(xs);
    var ys :| Valid(ys) && y == Flat(ys);
    AppendFlat(xs, ys);
  }

  lemma {:induction false} PlainIsTree(s: string)
    requires PlainText(s)
    ensures IsTree(s)
  {
    if s == "" {
      assert s == Flat(End);
    } else {
      assert forall c | c in s[1..] :: c in s;
      PlainIsTree(s[1..]);
      assert s[0] in s;
      OneIsTree(Gap(s[0]));
      TreesConcat([s[0]], s[1..]);
      assert s == [s[0]] + s[1..];
    }
  }

  lemma {:induction false} OneIsTree(p: Piece)
    requires ValidPiece(p)
    ensures IsTree(PieceText(p))
  {
    var ps := Then(p, End);
    assert Flat(ps) == PieceText(p) + Flat(End) && Flat(End) == "";
    assert Valid(ps) && Flat(ps) == PieceText(p);
  }

  lemma {:induction false} UnitsValid(sp: Spelling, s: string)
    requires Spells(sp)
    ensures ValidUnits(UnitsOf(sp, s))
  {
    if s != "" { UnitsValid(sp, s[1..]); }
  }

  lemma {:induction false} QuoteIsTree(sp: Spelling, s: string)
    requires Spells(sp)
    ensures IsTree(Quote(sp, s))
  {
    UnitsValid(sp, s);
    OneIsTree(Quoted(UnitsOf(sp, s)));
  }

  lemma {:induction false} PrintIsTree(sp: Spelling, j: Json)
    requires WellFormed(j) && Spells(sp)
    ensures IsTree(Print(sp, j))
    decreases j
  {
    match j {
      case Atom(text) => PlainIsTree(text);
      case Text(s) => QuoteIsTree(sp, s);
      case Array(items) =>
        PrintItemsIsTree(sp, items);
        PlainIsTree("[");
        PlainIsTree("]");
        TreesConcat("[", PrintItems(sp, items));
        TreesConcat("[" + PrintItems(sp, items), "]");
      case Object(members) =>
        PrintMembersIsTree(sp, members);
        var ps :| Valid(ps) && PrintMembers(sp, members) == Flat(ps);
        assert PieceText(Braces(ps)) == Print(sp, j);
        OneIsTree(Braces(ps));
    }
  }

  lemma {:induction false} SpaceIsTree(s: string)
    requires IsSpace(s)
    ensures IsTree(s)
  {
    PlainIsTree(s);
  }

  lemma {:induction false} PrintItemsIsTree(sp: Spelling, items: Items)
    requires WellFormedItems(items) && Spells(sp)
    ensures IsTree(PrintItems(sp, items))
    decreases items
  {
    match items {
      case NoItems(gap) => SpaceIsTree(gap);
      case Item(lead, v, trail, rest) =>
        var comma := if rest.NoItems? then "" else ",";
        SpaceIsTree(lead);
        PrintIsTree(sp, v);
        SpaceIsTree(trail);
        PlainIsTree(comma);
        PrintItemsIsTree(sp, rest);
        TreesConcat(lead, Print(sp, v));
        TreesConcat(lead + Print(sp, v), trail);
        TreesConcat(lead + Print(sp, v) + trail, comma);
        TreesConcat(lead + Print(sp, v) + trail + comma, PrintItems(sp, rest));
    }
  }

  lemma {:induction false} NameIsTree(sp: Spelling, lead: string, name: string, colon: string, after: string)
    requires IsSpace(lead) && IsSpace(colon) && IsSpace(after) && Spells(sp)
    ensures IsTree(lead + Quote(sp, name) + colon + ":" + after)
  {
    SpaceIsTree(lead);
    QuoteIsTree(sp, name);
    SpaceIsTree(colon);
    PlainIsTree(":");
    SpaceIsTree(after);
    TreesConcat(lead, Quote(sp, name));
    TreesConcat(lead + Quote(sp, name), colon);
    TreesConcat(lead + Quote(sp, name) + colon, ":");
    TreesConcat(lead + Quote(sp, name) + colon + ":", after);
  }

  lemma {:induction false} PrintMembersIsTree(sp: Spelling, members: Members)
    requires WellFormedMembers(members) && Spells(sp)
    ensures IsTree(PrintMembers(sp, members))
    decreases members
  {
    match members {
      case NoMembers(gap) => SpaceIsTree(gap);
      case Member(lead, name, colon, after, v, trail, rest) =>
        var comma := if rest.NoMembers? then "" else ",";
        var key := lead + Quote(sp, name) + colon + ":" + after;
        NameIsTree(sp, lead, name, colon, after);
        PrintIsTree(sp, v);
        SpaceIsTree(trail);
        PlainIsTree(comma);
        PrintMembersIsTree(sp, rest);
        TreesConcat(key, Print(sp, v));
        TreesConcat(key + Print(sp, v), trail);
        TreesConcat(key + Print(sp, v) + trail, comma);
        TreesConcat(key + Print(sp, v) + trail + comma, PrintMembers(sp, rest));
    }
  }

  /** Round trip: whatever surrounds it, however it is spaced and its strings escaped, a printed object is
      scanned to exactly itself, braces, quotes and backslashes in its strings included. */
  lemma {:induction false} PrintedObjectScansBack(sp: Spelling, members: Members, before: string, after: string)
    requires WellFormedMembers(members) && Spells(sp)
    ensures var o := Print(sp, Object(members));
      && IsMatched(before + o + after, |before|, |before| + |o| - 1)
      && forall end | IsMatched(before + o + after, |before|, end) :: end == |before| + |o| - 1
  {
    var o := Print(sp, Object(members));
    var text := before + o + after;
    PrintMembersIsTree(sp, members);
    var ps :| Valid(ps) && PrintMembers(sp, members) == Flat(ps);
    assert text[|before|..|before| + |o| - 1 + 1] == o == Braced(ps);
    MatchedIsTree(text, |before|, |before| + |o| - 1);
    forall end | IsMatched(text, |before|, end) ensures end == |before| + |o| - 1 {
      MatchIsUnique(text, |before|, end, |before| + |o| - 1);
    }
  }

  // ------------------------------------------- extraction from a whole text

  /** A key in quotes and its colon, at i. */
  ghost predicate KeyAt(text: string, key: string, i: int) {
    && 0 <= i <= |text| - |key| - 3
    && text[i] == '"' && text[i + 1..i + 1 + |key|] == key
    && text[i + 1 + |key|] == '"' && text[i + 2 + |key|] == ':'
  }

  lemma MarkerIsKey(text: string, key: string, i: int)
    ensures OccursAt(text, Marker(key), i) <==> KeyAt(text, key, i)
  {
    var n := |key| + 3;
    assert Marker(key) == ['"'] + key + ['"', ':'] && |Marker(key)| == n;
    if 0 <= i <= |text| - n {
      var slice := text[i..i + n];
      SameSlice(text, i, n, |key|);
      assert Marker(key)[1..1 + |key|] == key;
      if KeyAt(text, key, i) { assert slice == ['"'] + slice[1..1 + |key|] + ['"', ':']; }
    }
  }

  lemma SameSlice(text: string, i: nat, n: nat, len: nat)
    requires i + n <= |text| && 1 + len <= n
    ensures text[i..i + n][1..1 + len] == text[i + 1..i + 1 + len]
  {
    var whole := text[i..i + n];
    var a, b := whole[1..1 + len], text[i + 1..i + 1 + len];
    forall j | 0 <= j < len ensures a[j] == b[j] {
      assert a[j] == whole[1 + j] == text[i + (1 + j)];
      assert b[j] == text[i + 1 + j];
    }
  }

  lemma BraceAt(text: string, i: int)
    ensures OccursAt(text, "{", i) <==> 0 <= i < |text| && text[i] == '{'
  {
    if 0 <= i < |text| { assert text[i..i + 1] == [text[i]]; }
  }

  /** At most one extraction fits a text and a key. */
  lemma ExtractionIsUnique(text: string, key: string, r: Extraction, q: Extraction)
    requires Extracts(text, key, r) && Extracts(text, key, q)
    ensures r == q
  {
    hide IsMatched;
    if !NoneFrom(text, Marker(key), 0) {
      var m: nat :| FirstAt(text, Marker(key), 0, m) && ExtractsAfter(text, m + |Marker(key)|, r);
      var m': nat :| FirstAt(text, Marker(key), 0, m') && ExtractsAfter(text, m' + |Marker(key)|, q);
      assert m == m';
      UniqueAfter(text, m + |Marker(key)|, r, q);
    }
  }

  lemma UniqueAfter(text: string, from: nat, r: Extraction, q: Extraction)
    requires ExtractsAfter(text, from, r) && ExtractsAfter(text, from, q)
    ensures r == q
  {
    hide IsMatched;
    if !NoneFrom(text, "{", from) {
      var s: nat :| FirstAt(text, "{", from, s) && ExtractsObject(text, s, r);
      var s': nat :| FirstAt(text, "{", from, s') && ExtractsObject(text, s', q);
      assert s == s';
      if r.Found? && q.Found? { MatchIsUnique(text, s, r.end, q.end); }
    }
  }

  /** The key occurs first at m, and no brace comes after it. */
  ghost predicate FirstWithoutBrace(text: string, key: string, m: int) {
    && KeyAt(text, key, m) && (forall i | 0 <= i < m :: !KeyAt(text, key, i))
    && forall i | m + |key| + 3 <= i < |text| :: text[i] != '{'
  }

  /** Why there is nothing to extract, in the text alone: no such key, or no brace after the first one,
      or a first brace whose unquoted depth never comes back to zero. */
  lemma FailsExactly(text: string, key: string, r: Extraction)
    requires Extracts(text, key, r)
    ensures r.MissingKey? <==> forall i :: !KeyAt(text, key, i)
    ensures r.MissingObject? <==> exists m :: FirstWithoutBrace(text, key, m)
  {
    var n := |key| + 3;
    assert |Marker(key)| == n;
    forall i ensures OccursAt(text, Marker(key), i) <==> KeyAt(text, key, i) { MarkerIsKey(text, key, i); }
    forall i ensures OccursAt(text, "{", i) <==> 0 <= i < |text| && text[i] == '{' { BraceAt(text, i); }
    hide KeyAt, OccursAt, Marker, ExtractsObject;
    if r.MissingObject? {
      var m: nat :| FirstAt(text, Marker(key), 0, m) && ExtractsAfter(text, m + n, r);
      assert KeyAt(text, key, m) && forall i | 0 <= i < m :: !KeyAt(text, key, i);
      NoObject(text, m + n, r);
      assert FirstWithoutBrace(text, key, m);
    }
    if exists m :: FirstWithoutBrace(text, key, m) {
      var m :| FirstWithoutBrace(text, key, m);
      KeyIsInside(text, key, m);
      assert FirstAt(text, Marker(key), 0, m);
      var m': nat :| FirstAt(text, Marker(key), 0, m') && ExtractsAfter(text, m' + n, r);
      assert m' == m;
      assert NoneFrom(text, "{", m + n);
    }
  }

  lemma KeyIsInside(text: string, key: string, i: int)
    requires KeyAt(text, key, i)
    ensures i >= 0
  {}

  lemma NoObject(text: string, from: nat, r: Extraction)
    requires ExtractsAfter(text, from, r) && r.MissingObject?
    ensures forall i | from <= i < |text| :: text[i] != '{'
  {
    forall i | from <= i < |text| ensures text[i] != '{' { BraceAt(text, i); }
  }

  /** The text of a key, its colon and what follows, behind some text. */
  function Embedded(before: string, key: string, gap: string, o: string, after: string): string {
    before + "\"" + key + "\":" + gap + o + after
  }

  /** Round trip: a printed object behind the first occurrence of its key, with no brace in between, is
      what is extracted, whatever comes before and after. */
  lemma EmbeddedObjectIsExtracted(
      sp: Spelling, members: Members, key: string, before: string, gap: string, after: string, r: Extraction)
    requires WellFormedMembers(members) && Spells(sp)
    requires forall c | c in gap :: c != '{'
    requires forall i | 0 <= i < |before| ::
      !KeyAt(Embedded(before, key, gap, Print(sp, Object(members)), after), key, i)
    requires Extracts(Embedded(before, key, gap, Print(sp, Object(members)), after), key, r)
    ensures var start := |before| + |key| + 3 + |gap|;
      r == Found(start, start + |Print(sp, Object(members))| - 1)
  {
    hide *;
    var o := Print(sp, Object(members));
    var lead := before + "\"" + key + "\":" + gap;
    EmbeddedIs(before, key, gap, o, after);
    PrintedObjectScansBack(sp, members, lead, after);
    MatchedIsExtracted(Embedded(before, key, gap, o, after), key, before, gap, |lead|, |lead| + |o| - 1, r);
  }

  lemma EmbeddedIs(before: string, key: string, gap: string, o: string, after: string)
    ensures var lead := before + "\"" + key + "\":" + gap;
      && Embedded(before, key, gap, o, after) == lead + o + after
      && |lead| == |before| + |key| + 3 + |gap|
      && Embedded(before, key, gap, o, after)[..|lead|] == lead
  {}

  lemma MatchedIsExtracted(
      text: string, key: string, before: string, gap: string, start: nat, end: nat, r: Extraction)
    requires start <= |text| && text[..start] == before + "\"" + key + "\":" + gap
    requires forall c | c in gap :: c != '{'
    requires forall i | 0 <= i < |before| :: !KeyAt(text, key, i)
    requires IsMatched(text, start, end) && Extracts(text, key, r)
    ensures r == Found(start, end)
  {
    assert start < |text| && text[start] == '{';
    hide IsMatched, KeyAt, NoneFrom, Marker;
    var from := |before| + |key| + 3;
    assert text[..from] == text[..start][..from] == before + "\"" + key + "\":";
    KeyBehind(text, key, before, start);
    assert text[from..start] == text[..start][from..] == gap;
    BraceBehind(text, from, gap, start);
    assert ExtractsObject(text, start, Found(start, end));
    AtFirst(text, "{", from, start);
    assert ExtractsAfter(text, from, Found(start, end));
    AtFirst(text, Marker(key), 0, |before|);
    assert Extracts(text, key, Found(start, end));
    hide *;
    ExtractionIsUnique(text, key, r, Found(start, end));
  }

  lemma AtFirst(text: string, pattern: string, from: nat, i: nat)
    requires FirstAt(text, pattern, from, i)
    ensures !NoneFrom(text, pattern, from)
  {}

  lemma KeyBehind(text: string, key: string, before: string, start: nat)
    requires start <= |text| && |before| + |key| + 3 <= start
    requires text[..|before| + |key| + 3] == before + "\"" + key + "\":"
    requires forall i | 0 <= i < |before| :: !KeyAt(text, key, i)
    ensures FirstAt(text, Marker(key), 0, |before|) && |Marker(key)| == |key| + 3
  {
    var n := |before| + |key| + 3;
    assert text[|before|..n] == text[..n][|before|..] == Marker(key);
    forall i | 0 <= i < |before| ensures !OccursAt(text, Marker(key), i) { MarkerIsKey(text, key, i); }
  }

  lemma BraceBehind(text: string, from: nat, gap: string, start: nat)
    requires start == from + |gap| < |text| && text[from..start] == gap && text[start] == '{'
    requires forall c | c in gap :: c != '{'
    ensures FirstAt(text, "{", from, start)
  {
    BraceAt(text, start);
    forall i | from <= i < start ensures !OccursAt(text, "{", i) {
      BraceAt(text, i);
      assert text[i] == gap[i - from] && gap[i - from] in gap;
    }
  }
}
