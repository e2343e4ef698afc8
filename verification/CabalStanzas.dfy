/** The dependency scanner for Cabal files, and the filter that keeps a file's
    ordinary stanzas.  A file is a sequence of lines without line breaks. */
module CabalStanzas {
  import opened Wrappers

  type Lines = seq<string>

  // ----- One line -----

  predicate IsSpace(c: char) {
    c == ' ' || ('\t' <= c <= '\r') || ('\U{1C}' <= c <= '\U{1F}')
  }

  predicate IsAlnum(c: char) {
    ('0' <= c <= '9') || ('A' <= c <= 'Z') || ('a' <= c <= 'z')
  }

  predicate AllSpace(s: string) {
    forall c :: c in s ==> IsSpace(c)
  }

  /** The text up to the first comment. */
  function BeforeComment(raw: string): (r: string)
    ensures r <= raw
  {
    if raw == "" || "--" <= raw then "" else [raw[0]] + BeforeComment(raw[1..])
  }

  function TrimRight(s: string): (r: string)
    ensures r <= s
    ensures r != "" ==> !IsSpace(r[|r| - 1])
    ensures AllSpace(s[|r|..])
  {
    if s != "" && IsSpace(s[|s| - 1]) then TrimRight(s[..|s| - 1]) else s
  }

  /** The line without its comment and trailing space. */
  function Clean(raw: string): string {
    TrimRight(BeforeComment(raw))
  }

  function Indent(s: string): (n: nat)
    ensures n <= |s|
    ensures n < |s| ==> !IsSpace(s[n])
    ensures AllSpace(s[..n])
  {
    if s != "" && IsSpace(s[0]) then 1 + Indent(s[1..]) else 0
  }

  function TrimLeft(s: string): string {
    s[Indent(s)..]
  }

  function Lower(s: string): (r: string)
    ensures |r| == |s|
  {
    seq(|s|, i requires 0 <= i < |s| => if 'A' <= s[i] <= 'Z' then s[i] + 32 as char else s[i])
  }

  const FIELD: string := "build-depends"

  /** What follows the colon of a build-depends field, in any case. */
  function FieldValue(line: string): Option<string> {
    var s := TrimLeft(line);
    if |s| < |FIELD| || Lower(s[..|FIELD|]) != FIELD then None
    else
      var t := TrimLeft(s[|FIELD|..]);
      if t == "" || t[0] != ':' then None else Some(t[1..])
  }

  function Alnums(s: string): (r: string)
    ensures r <= s && forall c :: c in r ==> IsAlnum(c)
    ensures |r| < |s| ==> !IsAlnum(s[|r|])
  {
    if s == "" || !IsAlnum(s[0]) then "" else [s[0]] + Alnums(s[1..])
  }

  /** The longest run of hyphen-joined words at the front. */
  function PackageName(s: string): string
    decreases |s|
  {
    var word := Alnums(s);
    if word == "" || |s| == |word| || s[|word|] != '-' then word
    else
      var more := PackageName(s[|word| + 1..]);
      if more == "" then word else word + "-" + more
  }

  /** Words of letters and digits, joined by single hyphens. */
  predicate IsName(s: string) {
    s != "" && forall i :: 0 <= i < |s| ==> NameAt(s, i)
  }

  predicate NameAt(s: string, i: nat)
    requires i < |s|
  {
    IsAlnum(s[i]) || (s[i] == '-' && 0 < i < |s| - 1 && IsAlnum(s[i + 1]))
  }

  /** No name at the front of the text is longer than n. */
  ghost predicate NoLonger(s: string, n: nat) {
    forall k :: n < k <= |s| ==> !IsName(s[..k])
  }

  /** A word, alone or with a name after a hyphen, is a name. */
  lemma JoinedName(s: string, word: string, more: string)
    requires word <= s && forall c :: c in word ==> IsAlnum(c)
    requires more != "" ==> word != "" && IsName(more) && |word| < |s| && s[|word|] == '-' && more <= s[|word| + 1..]
    ensures var name := if more == "" then word else word + "-" + more;
            name <= s && (name != "" ==> IsName(name))
  {
    var name := if more == "" then word else word + "-" + more;
    forall i | 0 <= i < |name| ensures NameAt(name, i) {
      if i < |word| {
        assert name[i] == word[i];
      } else if i == |word| {
        assert NameAt(more, 0) && name[i + 1] == more[0];
      } else {
        assert NameAt(more, i - |word| - 1);
      }
    }
    if more != "" { assert s == word + "-" + s[|word| + 1..]; }
  }

  /** What follows a hyphen of a name is a name, and so is its first letter. */
  lemma LaterWords(s: string, hyphen: nat, n: nat)
    requires hyphen < n <= |s| && IsName(s[..n]) && s[hyphen] == '-'
    ensures hyphen + 1 < n && IsName(s[hyphen + 1..][..n - hyphen - 1]) && IsName(s[hyphen + 1..][..1])
  {
    var whole := s[..n];
    assert NameAt(whole, hyphen) && !IsAlnum('-');
    var later := s[hyphen + 1..][..n - hyphen - 1];
    forall i | 0 <= i < |later| ensures NameAt(later, i) {
      assert NameAt(whole, hyphen + 1 + i);
    }
  }

  lemma LongestWord(s: string, word: string)
    requires word == Alnums(s) && (word == "" || |s| == |word| || s[|word|] != '-')
    ensures NoLonger(s, |word|)
  {
    forall n | |word| < n <= |s| ensures !IsName(s[..n]) {
      assert !NameAt(s[..n], |word|);
    }
  }

  lemma LongestJoined(s: string, word: string, m: nat)
    requires word == Alnums(s) && |word| < |s| && s[|word|] == '-'
    requires NoLonger(s[|word| + 1..], m)
    ensures NoLonger(s, if m == 0 then |word| else |word| + 1 + m)
  {
    var bound := if m == 0 then |word| else |word| + 1 + m;
    forall n | bound < n <= |s| ensures !IsName(s[..n]) {
      if IsName(s[..n]) {
        LaterWords(s, |word|, n);
        assert false;
      }
    }
  }

  /** It is the longest name that the text begins with, and empty without one. */
  lemma {:induction false} PackageNameIsLongest(s: string)
    ensures PackageName(s) <= s && (PackageName(s) != "" ==> IsName(PackageName(s)))
    ensures NoLonger(s, |PackageName(s)|)
    decreases |s|
  {
    var word := Alnums(s);
    if word != "" && |word| < |s| && s[|word|] == '-' {
      var rest := s[|word| + 1..];
      PackageNameIsLongest(rest);
      JoinedName(s, word, PackageName(rest));
      LongestJoined(s, word, |PackageName(rest)|);
    } else {
      JoinedName(s, word, "");
      LongestWord(s, word);
    }
  }

  function Commas(value: string): (r: seq<string>)
    ensures r != []
  {
    if value == "" then [""]
    else
      var rest := Commas(value[1..]);
      if value[0] == ',' then [""] + rest else [[value[0]] + rest[0]] + rest[1..]
  }

  /** The package names in a comma-separated list of constraints. */
  function Names(value: string): set<string> {
    set dependency | dependency in Commas(value) && PackageName(TrimLeft(dependency)) != ""
      :: PackageName(TrimLeft(dependency))
  }

  // ----- The scanner -----

  /** Where the scanner is: inside a field at an indentation, or not. */
  type Position = Option<nat>

  predicate Blank(line: string) {
    Indent(line) == |line|
  }

  /** The position after a line, and the dependencies the line adds. */
  function Step(at: Position, raw: string): (Position, set<string>) {
    var line := Clean(raw);
    if Blank(line) then (at, {})
    else if FieldValue(line).Some? then (Some(Indent(line)), Names(FieldValue(line).value))
    else if at.Some? && Indent(line) > at.value then (at, Names(line))
    else (None, {})
  }

  function Scan(at: Position, lines: Lines): set<string>
    decreases |lines|
  {
    if lines == [] then {}
    else Step(at, lines[0]).1 + Scan(Step(at, lines[0]).0, lines[1..])
  }

  function Ends(at: Position, lines: Lines): Position
    decreases |lines|
  {
    if lines == [] then at else Ends(Step(at, lines[0]).0, lines[1..])
  }

  /** What dependencies(source) returns. */
  function Dependencies(lines: Lines): set<string> {
    Scan(None, lines)
  }

  lemma {:induction false} ScanConcat(at: Position, a: Lines, b: Lines)
    ensures Scan(at, a + b) == Scan(at, a) + Scan(Ends(at, a), b)
    ensures Ends(at, a + b) == Ends(Ends(at, a), b)
    decreases |a|
  {
    if a == [] {
      assert a + b == b;
    } else {
      assert (a + b)[1..] == a[1..] + b;
      ScanConcat(Step(at, a[0]).0, a[1..], b);
    }
  }

  class Scanner {
    var fieldIndent: Position
    var result: set<string>

    constructor ()
      ensures fieldIndent == None && result == {}
    {
      fieldIndent, result := None, {};
    }

    /** The names in one list of constraints. */
    method AddNames(value: string)
      modifies this`result
      ensures result == old(result) + Names(value)
    {
      hide PackageName, TrimLeft, Commas;
      var pieces := Commas(value);
      ghost var before := result;
      for i := 0 to |pieces|
        invariant result
               == before + set d | d in pieces[..i] && PackageName(TrimLeft(d)) != "" :: PackageName(TrimLeft(d))
      {
        assert pieces[..i + 1] == pieces[..i] + [pieces[i]];
        var name := PackageName(TrimLeft(pieces[i]));
        if name != "" { result := result + {name}; }
      }
      assert pieces[..|pieces|] == pieces;
    }

    method Run(lines: Lines)
      modifies this
      ensures result == old(result) + Scan(old(fieldIndent), lines)
      ensures fieldIndent == Ends(old(fieldIndent), lines)
    {
      hide Clean, FieldValue, Blank, Indent, Names;
      for i := 0 to |lines|
        invariant result + Scan(fieldIndent, lines[i..]) == old(result) + Scan(old(fieldIndent), lines)
        invariant Ends(fieldIndent, lines[i..]) == Ends(old(fieldIndent), lines)
      {
        assert lines[i..][1..] == lines[i + 1..];
        var line := Clean(lines[i]);
        if Blank(line) { continue; }
        var value := FieldValue(line);
        if value.Some? {
          fieldIndent := Some(Indent(line));
          AddNames(value.value);
        } else if fieldIndent.Some? && Indent(line) > fieldIndent.value {
          AddNames(line);
        } else {
          fieldIndent := None;
        }
      }
    }
  }

  // ----- The filter -----

  predicate Header(raw: string) {
    Clean(raw) != "" && !IsSpace(Clean(raw)[0])
  }

  predicate OrdinaryHeader(raw: string) {
    var clean := Clean(raw);
    clean == "library" || "library " <= clean || "common " <= clean
  }

  function Keeps(keeping: bool, raw: string): bool {
    if Header(raw) then OrdinaryHeader(raw) else keeping
  }

  function Filter(keeping: bool, lines: Lines): Lines
    decreases |lines|
  {
    if lines == [] then []
    else
      var now := Keeps(keeping, lines[0]);
      (if now then [lines[0]] else []) + Filter(now, lines[1..])
  }

  lemma FilterStep(done: Lines, keeping: bool, lines: Lines, i: nat)
    requires i < |lines|
    ensures var now := Keeps(keeping, lines[i]);
            done + Filter(keeping, lines[i..])
            == (if now then done + [lines[i]] else done) + Filter(now, lines[i + 1..])
  {
    hide Keeps;
    assert lines[i..][1..] == lines[i + 1..];
  }

  method Ordinary(lines: Lines) returns (ordinary: Lines)
    ensures ordinary == Filter(false, lines)
  {
    hide Header, OrdinaryHeader, Filter;
    ordinary := [];
    var keeping := false;
    for i := 0 to |lines|
      invariant ordinary + Filter(keeping, lines[i..]) == Filter(false, lines)
    {
      FilterStep(ordinary, keeping, lines, i);
      if Header(lines[i]) { keeping := OrdinaryHeader(lines[i]); }
      if keeping { ordinary := ordinary + [lines[i]]; }
    }
    FilterNothing(keeping);
    assert lines[|lines|..] == [];
  }

  lemma FilterNothing(keeping: bool)
    ensures Filter(keeping, []) == []
  {
  }

  // ----- Stanzas -----

  /** The lines up to the next header. */
  function Body(lines: Lines): (r: Lines)
    ensures r <= lines
    ensures |r| < |lines| ==> Header(lines[|r|])
    ensures forall line :: line in r ==> !Header(line)
  {
    if lines == [] || Header(lines[0]) then [] else [lines[0]] + Body(lines[1..])
  }

  /** A header and the lines up to the next. */
  datatype Stanza = Stanza(header: string, body: Lines) {
    function Lines(): Lines { [header] + body }

    predicate WellFormed() {
      Header(header) && forall line :: line in body ==> !Header(line)
    }
  }

  function FirstStanza(lines: Lines): (s: Stanza)
    requires lines != []
  {
    Stanza(lines[0], Body(lines[1..]))
  }

  /** The stanzas of lines that begin with a header. */
  function Stanzas(lines: Lines): seq<Stanza>
    decreases |lines|
  {
    if lines == [] then []
    else
      var first := FirstStanza(lines);
      [first] + Stanzas(lines[1 + |first.body|..])
  }

  /** The stanzas of a file, which may begin with lines that belong to none. */
  function FileStanzas(lines: Lines): seq<Stanza> {
    Stanzas(lines[|Body(lines)|..])
  }

  function Union(stanzas: seq<Stanza>): set<string> {
    set s, d | s in stanzas && d in Dependencies(s.Lines()) :: d
  }

  function OrdinaryUnion(stanzas: seq<Stanza>): set<string> {
    set s, d | s in stanzas && OrdinaryHeader(s.header) && d in Dependencies(s.Lines()) :: d
  }

  function Kept(stanzas: seq<Stanza>): seq<Stanza> {
    if stanzas == [] then []
    else (if OrdinaryHeader(stanzas[0].header) then [stanzas[0]] else []) + Kept(stanzas[1..])
  }

  function Flatten(stanzas: seq<Stanza>): Lines {
    if stanzas == [] then [] else stanzas[0].Lines() + Flatten(stanzas[1..])
  }

  predicate AllWellFormed(stanzas: seq<Stanza>) {
    forall s :: s in stanzas ==> s.WellFormed()
  }

  /** The split loses nothing, and splits at the headers only. */
  lemma {:induction false} StanzasPartition(lines: Lines)
    requires lines != [] ==> Header(lines[0])
    ensures Flatten(Stanzas(lines)) == lines
    ensures AllWellFormed(Stanzas(lines))
    decreases |lines|
  {
    hide Header;
    if lines != [] {
      var first := FirstStanza(lines);
      var next := lines[1 + |first.body|..];
      assert next != [] ==> next[0] == lines[1..][|first.body|];
      StanzasPartition(next);
      assert lines == first.Lines() + next;
    }
  }

  /** A header at the margin ends whatever field came before it. */
  lemma HeaderForgets(a: Position, b: Position, raw: string)
    requires Header(raw)
    ensures Step(a, raw) == Step(b, raw)
  {
    assert Indent(Clean(raw)) == 0;
  }

  lemma StanzaForgets(at: Position, stanza: Stanza)
    requires stanza.WellFormed()
    ensures Scan(at, stanza.Lines()) == Dependencies(stanza.Lines())
  {
    HeaderForgets(at, None, stanza.header);
  }

  /** Scanning stanzas one after another is scanning each on its own. */
  lemma {:induction false} ScanFlatten(at: Position, stanzas: seq<Stanza>)
    requires AllWellFormed(stanzas)
    ensures Scan(at, Flatten(stanzas)) == Union(stanzas)
    decreases |stanzas|
  {
    if stanzas != [] {
      var s := stanzas[0];
      ScanConcat(at, s.Lines(), Flatten(stanzas[1..]));
      StanzaForgets(at, s);
      ScanFlatten(Ends(at, s.Lines()), stanzas[1..]);
      assert stanzas == [s] + stanzas[1..];
      assert Union(stanzas) == Dependencies(s.Lines()) + Union(stanzas[1..]);
    }
  }

  lemma {:induction false} FilterBody(keeping: bool, body: Lines, rest: Lines)
    requires forall line :: line in body ==> !Header(line)
    ensures Filter(keeping, body + rest) == (if keeping then body else []) + Filter(keeping, rest)
  {
    hide Header, OrdinaryHeader;
    if body == [] {
      assert body + rest == rest;
    } else {
      assert (body + rest)[1..] == body[1..] + rest;
      FilterBody(keeping, body[1..], rest);
    }
  }

  lemma FilterStanza(keeping: bool, s: Stanza, rest: Lines)
    requires s.WellFormed()
    ensures Filter(keeping, s.Lines() + rest)
         == (if OrdinaryHeader(s.header) then s.Lines() else []) + Filter(OrdinaryHeader(s.header), rest)
  {
    hide Header, OrdinaryHeader;
    assert (s.Lines() + rest)[0] == s.header && (s.Lines() + rest)[1..] == s.body + rest;
    FilterBody(OrdinaryHeader(s.header), s.body, rest);
  }

  lemma FlattenCons(s: Stanza, rest: seq<Stanza>)
    ensures Flatten([s] + rest) == s.Lines() + Flatten(rest)
  {
    assert ([s] + rest)[1..] == rest;
  }

  lemma FlattenKept(s: Stanza, left: seq<Stanza>)
    ensures Flatten(Kept([s] + left))
         == (if OrdinaryHeader(s.header) then s.Lines() else []) + Flatten(Kept(left))
  {
    assert ([s] + left)[1..] == left;
    if OrdinaryHeader(s.header) {
      FlattenCons(s, Kept(left));
    } else {
      assert Kept([s] + left) == Kept(left);
    }
  }

  lemma {:induction false} FilterFlatten(keeping: bool, stanzas: seq<Stanza>)
    requires AllWellFormed(stanzas)
    ensures Filter(keeping, Flatten(stanzas)) == Flatten(Kept(stanzas))
    decreases |stanzas|
  {
    if stanzas != [] {
      var s, left := stanzas[0], stanzas[1..];
      var keep := OrdinaryHeader(s.header);
      assert s in stanzas;
      FilterStanza(keeping, s, Flatten(left));
      FilterFlatten(keep, left);
      FlattenKept(s, left);
      assert stanzas == [s] + left;
      FlattenCons(s, left);
    }
  }

  lemma {:induction false} KeptStanzas(stanzas: seq<Stanza>)
    ensures forall s :: s in Kept(stanzas) <==> s in stanzas && OrdinaryHeader(s.header)
  {
    if stanzas != [] {
      var first, left := stanzas[0], stanzas[1..];
      KeptStanzas(left);
      assert stanzas == [first] + left;
      assert Kept(stanzas) == (if OrdinaryHeader(first.header) then [first] else []) + Kept(left);
    }
  }

  lemma FileSplits(lines: Lines)
    ensures AllWellFormed(FileStanzas(lines)) && lines == Body(lines) + Flatten(FileStanzas(lines))
  {
    hide Header, Stanzas, Flatten;
    StanzasPartition(lines[|Body(lines)|..]);
  }

  /** The whole file depends on what its stanzas depend on, each read on its own,
      and on what comes before them. */
  lemma ScanIsByStanza(lines: Lines)
    ensures Dependencies(lines) == Dependencies(Body(lines)) + Union(FileStanzas(lines))
  {
    var stanzas := FileStanzas(lines);
    FileSplits(lines);
    ScanConcat(None, Body(lines), Flatten(stanzas));
    ScanFlatten(Ends(None, Body(lines)), stanzas);
  }

  lemma FilterKeepsStanzas(lines: Lines)
    ensures Filter(false, lines) == Flatten(Kept(FileStanzas(lines)))
  {
    var stanzas := FileStanzas(lines);
    FileSplits(lines);
    FilterBody(false, Body(lines), Flatten(stanzas));
    FilterFlatten(false, stanzas);
  }

  /** The filtered file depends on exactly what the ordinary stanzas depend on,
      each read on its own, and so on no more than the whole file. */
  lemma FilterIsExact(lines: Lines)
    ensures Dependencies(Filter(false, lines)) == OrdinaryUnion(FileStanzas(lines))
    ensures Dependencies(Filter(false, lines)) <= Dependencies(lines)
  {
    var stanzas := FileStanzas(lines);
    FileSplits(lines);
    KeptStanzas(stanzas);
    FilterKeepsStanzas(lines);
    ScanFlatten(None, Kept(stanzas));
    ScanIsByStanza(lines);
    assert Union(Kept(stanzas)) == OrdinaryUnion(stanzas) <= Union(stanzas);
  }

  /** A line of space and comment changes nothing, wherever it stands. */
  lemma BlankLinesDoNotMatter(before: Lines, blank: string, after: Lines)
    requires Clean(blank) == ""
    ensures Dependencies(before + [blank] + after) == Dependencies(before + after)
  {
    var at := Ends(None, before);
    ScanConcat(None, before + [blank], after);
    ScanConcat(None, before, [blank]);
    ScanConcat(None, before, after);
    assert Ends(at, [blank]) == at;
  }
}
