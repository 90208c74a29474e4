/** The embedded-object scanner: a string-aware, escape-aware brace matcher over JSON text
    (objects as in section 4 and strings as in section 7 of RFC 8259). */
module Scanner {

  datatype Scan = Scan(depth: int, inString: bool, escaped: bool)

  function Outside(depth: int): Scan { Scan(depth, false, false) }

  function Next(s: Scan, c: char): Scan {
    if s.inString then
      if s.escaped then s.(escaped := false)
      else if c == '\\' then s.(escaped := true)
      else if c == '"' then s.(inString := false)
      else s
    else if c == '"' then s.(inString := true)
    else if c == '{' then s.(depth := s.depth + 1)
    else if c == '}' then s.(depth := s.depth - 1)
    else s
  }

  function After(s: Scan, text: string): Scan {
    if text == "" then s else Next(After(s, text[..|text| - 1]), text[|text| - 1])
  }

  lemma {:induction false} AfterConcat(s: Scan, x: string, y: string)
    ensures After(s, x + y) == After(After(s, x), y)
  {
    if y == "" {
      assert x + y == x;
    } else {
      AfterConcat(s, x, y[..|y| - 1]);
      assert (x + y)[..|x + y| - 1] == x + y[..|y| - 1];
    }
  }

  lemma AfterStep(s: Scan, text: string, i: nat)
    requires i < |text|
    ensures After(s, text[..i + 1]) == Next(After(s, text[..i]), text[i])
  {
    assert text[..i + 1][..i] == text[..i];
  }

  /** Unquoted depth: the depth after the text, opened at depth zero outside any string. */
  function Depth(text: string): int { After(Outside(0), text).depth }

  /** No prefix of the text takes the depth below `floor`. */
  ghost predicate StaysAt(s: Scan, text: string, floor: int) {
    forall i | 0 <= i <= |text| :: After(s, text[..i]).depth >= floor
  }

  /** `body` returns from depth d to depth d - 1 at its last character and not before. */
  ghost predicate ClosesFrom(d: int, body: string) {
    && body != ""
    && After(Outside(d), body).depth == d - 1
    && forall i | 0 <= i < |body| :: After(Outside(d), body[..i]).depth >= d
  }

  /** The unquoted depth of the slice from `start` through `e`. */
  function DepthThrough(text: string, start: nat, e: nat): int
    requires start <= e < |text|
  {
    Depth(text[start..e + 1])
  }

  /** The slice runs from an opening brace to the brace that matches it. */
  ghost predicate IsMatched(text: string, start: nat, end: nat) {
    start < end < |text| && text[start] == '{' && ClosesFrom(1, text[start + 1..end + 1])
  }

  // ------------------------------------------------------------ the scanner

  predicate OccursAt(text: string, pattern: string, i: int) {
    0 <= i <= |text| - |pattern| && text[i..i + |pattern|] == pattern
  }

  ghost predicate FirstAt(text: string, pattern: string, from: nat, i: int) {
    from <= i && OccursAt(text, pattern, i) && forall j | from <= j < i :: !OccursAt(text, pattern, j)
  }

  ghost predicate NoneFrom(text: string, pattern: string, from: nat) {
    forall j | from <= j :: !OccursAt(text, pattern, j)
  }

  /** The first occurrence at or after `from`, or -1. */
  method Find(text: string, pattern: string, from: nat) returns (i: int)
    ensures if i == -1 then NoneFrom(text, pattern, from) else FirstAt(text, pattern, from, i)
  {
    i := from;
    while i + |pattern| <= |text|
      invariant from <= i
      invariant forall j | from <= j < i :: !OccursAt(text, pattern, j)
    {
      if text[i..i + |pattern|] == pattern { return; }
      i := i + 1;
    }
    i := -1;
  }

  /** The scan from an opening brace: the position of the brace that matches it, or -1 when the
      depth of every slice from it stays positive. */
  method ScanObject(text: string, start: nat) returns (end: int)
    requires start < |text| && text[start] == '{'
    ensures end == -1 || (start < end && IsMatched(text, start, end))
    ensures end == -1 ==> forall e | start <= e < |text| :: DepthThrough(text, start, e) >= 1
  {
    var depth, inString, escaped := 0, false, false;
    var index := start;
    while index < |text|
      invariant start <= index <= |text|
      invariant Scan(depth, inString, escaped) == After(Outside(0), text[start..index])
      invariant index > start ==> depth >= 1
      invariant forall e | start <= e < index :: DepthThrough(text, start, e) >= 1
    {
      var c := text[index];
      ghost var slice := text[start..index + 1];
      AfterStep(Outside(0), slice, index - start);
      assert slice[..index - start] == text[start..index] && slice[index - start] == c;
      assert slice[..index - start + 1] == slice;
      if inString {
        if escaped {
          escaped := false;
        } else if c == '\\' {
          escaped := true;
        } else if c == '"' {
          inString := false;
        }
      } else if c == '"' {
        inString := true;
      } else if c == '{' {
        depth := depth + 1;
      } else if c == '}' {
        depth := depth - 1;
        if depth == 0 {
          MatchedIsLeast(text, start, index);
          return index;
        }
      }
      index := index + 1;
    }
    return -1;
  }

  datatype Extraction = Found(start: nat, end: nat) | MissingKey | MissingObject | Unterminated

  function Marker(key: string): string { "\"" + key + "\":" }

  /** The extraction that the text determines: the first marker, the first brace after it, and the
      brace that matches it. */
  ghost predicate Extracts(text: string, key: string, r: Extraction) {
    if NoneFrom(text, Marker(key), 0) then r == MissingKey
    else exists m: nat | FirstAt(text, Marker(key), 0, m) :: ExtractsAfter(text, m + |Marker(key)|, r)
  }

  ghost predicate ExtractsAfter(text: string, from: nat, r: Extraction) {
    if NoneFrom(text, "{", from) then r == MissingObject
    else exists start: nat | FirstAt(text, "{", from, start) :: ExtractsObject(text, start, r)
  }

  ghost predicate ExtractsObject(text: string, start: nat, r: Extraction) {
    if r.Found? then r.start == start && IsMatched(text, start, r.end)
    else r == Unterminated && forall e: nat :: !IsMatched(text, start, e)
  }

  /** Where the object embedded under `key` starts and ends, or why there is none. */
  method ExtractBalancedObject(text: string, key: string) returns (r: Extraction)
    ensures Extracts(text, key, r)
  {
    hide IsMatched, DepthThrough;
    var m := Find(text, Marker(key), 0);
    if m < 0 { return MissingKey; }
    var start := Find(text, "{", m + |Marker(key)|);
    if start < 0 { return MissingObject; }
    assert OccursAt(text, "{", start) && text[start] == text[start..start + 1][0];
    var end := ScanObject(text, start);
    if end < 0 {
      NothingMatches(text, start);
      assert ExtractsObject(text, start, Unterminated);
      assert ExtractsAfter(text, m + |Marker(key)|, Unterminated);
      return Unterminated;
    }
    return Found(start, end);
  }

  lemma NothingMatches(text: string, start: nat)
    requires start < |text| && text[start] == '{'
    requires forall e | start <= e < |text| :: DepthThrough(text, start, e) >= 1
    ensures forall e: nat :: !IsMatched(text, start, e)
  {
    forall e: nat ensures !IsMatched(text, start, e) {
      if start < e < |text| {
        MatchedIsLeast(text, start, e);
        assert DepthThrough(text, start, e) >= 1;
      }
    }
  }

  lemma OpenBrace(text: string, start: nat, e: nat)
    requires start < e <= |text| && text[start] == '{'
    ensures After(Outside(0), text[start..e]) == After(Outside(1), text[start + 1..e])
  {
    assert text[start..e] == "{" + text[start + 1..e];
    AfterConcat(Outside(0), "{", text[start + 1..e]);
    assert "{"[..0] == "";
  }

  /** The matching brace is the first position at which the unquoted depth is zero again. */
  lemma MatchedIsLeast(text: string, start: nat, end: nat)
    requires start < end < |text| && text[start] == '{'
    ensures IsMatched(text, start, end) <==>
      DepthThrough(text, start, end) == 0 && forall e | start <= e < end :: DepthThrough(text, start, e) >= 1
  {
    var body := text[start + 1..end + 1];
    OpenBrace(text, start, end + 1);
    forall e | start <= e < end
      ensures DepthThrough(text, start, e) == After(Outside(1), body[..e - start]).depth
    {
      OpenBrace(text, start, e + 1);
      assert body[..e - start] == text[start + 1..e + 1];
    }
    forall i | 0 <= i < |body|
      ensures After(Outside(1), body[..i]).depth == DepthThrough(text, start, start + i)
    {}
  }

  lemma NoShorterMatch(text: string, start: nat, d: nat, e: nat)
    requires IsMatched(text, start, e) && d < e
    ensures !IsMatched(text, start, d)
  {
    if start < d {
      assert text[start + 1..e + 1][..d - start] == text[start + 1..d + 1];
    }
  }

  /** At most one end matches: the extraction is determined by the text. */
  lemma MatchIsUnique(text: string, start: nat, d: nat, e: nat)
    requires IsMatched(text, start, d) && IsMatched(text, start, e)
    ensures d == e
  {
    if d < e { NoShorterMatch(text, start, d, e); }
    if e < d { NoShorterMatch(text, start, e, d); }
  }
}
