/** What the dependency scanner finds, said without it: which lines belong to a
    build-depends field, and which packages a list of constraints names. */
module CabalFields {
  import opened CabalStanzas
  import opened Wrappers

  // ----- Comments -----

  predicate NoComment(s: string) {
    forall i :: 0 <= i < |s| - 1 ==> s[i] != '-' || s[i + 1] != '-'
  }

  /** The comment, if there is one, is the first. */
  predicate BeginsComment(before: string, comment: string) {
    && NoComment(before) && (comment == "" || "--" <= comment)
    && (comment != "" && before != "" ==> before[|before| - 1] != '-')
  }

  lemma {:induction false} BeforeCommentSplits(raw: string)
    ensures var r := BeforeComment(raw);
            BeginsComment(r, raw[|r|..])
  {
    if raw != "" && !("--" <= raw) {
      BeforeCommentSplits(raw[1..]);
      var r, rest := BeforeComment(raw), BeforeComment(raw[1..]);
      assert r == [raw[0]] + rest && raw[|r|..] == raw[1..][|rest|..];
      forall i | 0 <= i < |r| - 1 ensures r[i] != '-' || r[i + 1] != '-' {
        if i > 0 { assert r[i] == rest[i - 1] && r[i + 1] == rest[i]; }
      }
      if rest == "" && |r| < |raw| { assert raw[1] == '-'; }
    }
  }

  /** A line is its text, space, and a comment if it has one; the text does not
      end with space. */
  lemma CleanSplits(raw: string) returns (space: string, comment: string)
    ensures raw == Clean(raw) + space + comment
    ensures AllSpace(space) && BeginsComment(Clean(raw) + space, comment)
    ensures Clean(raw) != "" ==> !IsSpace(Clean(raw)[|Clean(raw)| - 1])
  {
    BeforeCommentSplits(raw);
    hide BeginsComment, BeforeComment, TrimRight, IsSpace;
    var before := BeforeComment(raw);
    space, comment := before[|TrimRight(before)|..], raw[|before|..];
    assert before == Clean(raw) + space && raw == before + comment;
  }

  // ----- The field's name -----

  /** The same letters, small or capital. */
  predicate SpellsField(s: string) {
    |s| == 13 && forall i :: 0 <= i < 13 ==> s[i] == "build-depends"[i] || s[i] == "BUILD-DEPENDS"[i]
  }

  /** A line of the field: its name in any case, a colon, and space around the
      name only. */
  ghost predicate IsFieldLine(line: string, value: string) {
    exists margin, name, gap ::
      AllSpace(margin) && SpellsField(name) && AllSpace(gap) && line == margin + name + gap + ":" + value
  }

  lemma SpellsFieldIff(s: string)
    requires |s| == 13
    ensures Lower(s) == FIELD <==> SpellsField(s)
  {
    if Lower(s) == FIELD {
      forall i | 0 <= i < 13 ensures s[i] == "build-depends"[i] || s[i] == "BUILD-DEPENDS"[i] {
        assert Lower(s)[i] == FIELD[i];
      }
    }
    if SpellsField(s) {
      forall i | 0 <= i < 13 ensures Lower(s)[i] == FIELD[i] {}
    }
  }

  /** Space is skipped up to what is none. */
  lemma {:induction false} TrimLeftSkips(space: string, rest: string)
    requires AllSpace(space) && (rest != "" ==> !IsSpace(rest[0]))
    ensures Indent(space + rest) == |space| && TrimLeft(space + rest) == rest
  {
    if space == "" {
      assert space + rest == rest;
    } else {
      assert (space + rest)[1..] == space[1..] + rest;
      TrimLeftSkips(space[1..], rest);
    }
  }

  lemma ValueIsOnFieldLine(line: string, value: string) returns (margin: string, name: string, gap: string)
    requires FieldValue(line) == Some(value)
    ensures AllSpace(margin) && SpellsField(name) && AllSpace(gap) && line == margin + name + gap + ":" + value
  {
    hide Lower, Indent, AllSpace;
    var s := TrimLeft(line);
    name := s[..|FIELD|];
    SpellsFieldIff(name);
    var after := s[|FIELD|..];
    margin, gap := line[..Indent(line)], after[..Indent(after)];
    assert TrimLeft(after) == ":" + value;
    hide FieldValue, SpellsField;
    assert line == margin + s && s == name + after && after == gap + (":" + value);
    assert line == margin + name + gap + ":" + value;
  }

  lemma FieldLineHasValue(margin: string, name: string, gap: string, value: string)
    requires AllSpace(margin) && SpellsField(name) && AllSpace(gap)
    ensures FieldValue(margin + name + gap + ":" + value) == Some(value)
  {
    var after := gap + (":" + value);
    var line := margin + name + gap + ":" + value;
    assert line == margin + (name + after);
    assert name[0] == "build-depends"[0] || name[0] == "BUILD-DEPENDS"[0];
    TrimLeftSkips(margin, name + after);
    SpellsFieldIff(name);
    TrimLeftSkips(gap, ":" + value);
    hide Lower, TrimLeft, SpellsField, Indent;
    assert (name + after)[..|FIELD|] == name && (name + after)[|FIELD|..] == after;
    assert (":" + value)[1..] == value;
  }

  /** The field's value is found exactly on the field's lines. */
  lemma FieldValueIff(line: string, value: string)
    ensures FieldValue(line) == Some(value) <==> IsFieldLine(line, value)
  {
    hide FieldValue, AllSpace, SpellsField;
    if FieldValue(line) == Some(value) { var margin, name, gap := ValueIsOnFieldLine(line, value); }
    if IsFieldLine(line, value) {
      var margin, name, gap :|
        AllSpace(margin) && SpellsField(name) && AllSpace(gap) && line == margin + name + gap + ":" + value;
      FieldLineHasValue(margin, name, gap, value);
    }
  }

  // ----- Lists of constraints -----

  /** One constraint: a package name, and what follows it up to the comma. */
  datatype Constraint = Constraint(space: string, name: string, rest: string) {
    predicate WellFormed() {
      && AllSpace(space) && ',' !in space && IsName(name) && ',' !in rest
      && (rest != "" ==> !IsAlnum(rest[0]) && (rest[0] == '-' && |rest| > 1 ==> !IsAlnum(rest[1])))
    }

    function Text(): string { space + name + rest }
  }

  /** Constraints separated by commas. */
  function List(constraints: seq<Constraint>): string
    requires constraints != []
  {
    if |constraints| == 1 then constraints[0].Text() else constraints[0].Text() + "," + List(constraints[1..])
  }

  lemma NamesHaveNoCommas(name: string)
    requires IsName(name)
    ensures ',' !in name
  {
    forall i | 0 <= i < |name| ensures name[i] != ',' { assert NameAt(name, i); }
  }

  /** The name is what the scanner takes, in whatever it is embedded. */
  lemma ConstraintNames(c: Constraint)
    requires c.WellFormed()
    ensures PackageName(TrimLeft(c.Text())) == c.name && ',' !in c.Text()
  {
    NamesHaveNoCommas(c.name);
    var s := c.name + c.rest;
    assert NameAt(c.name, 0);
    TrimLeftSkips(c.space, s);
    assert c.Text() == c.space + s;
    PackageNameIsLongest(s);
    var found := PackageName(s);
    assert s[..|c.name|] == c.name;
    assert |found| > |c.name| ==> NameAt(found, |c.name|);
  }

  lemma {:induction false} CommasOfPiece(piece: string)
    requires ',' !in piece
    ensures Commas(piece) == [piece]
  {
    if piece != "" {
      CommasOfPiece(piece[1..]);
      assert [piece[0]] + piece[1..] == piece;
    }
  }

  /** A comma ends a constraint and begins the next. */
  lemma {:induction false} CommasConcat(a: string, b: string)
    ensures Commas(a + "," + b) == Commas(a) + Commas(b)
  {
    if a == "" {
      assert a + "," + b == "," + b && ("," + b)[1..] == b;
    } else {
      assert (a + "," + b)[1..] == a[1..] + "," + b;
      CommasConcat(a[1..], b);
    }
  }

  lemma NamesConcat(a: string, b: string)
    ensures Names(a + "," + b) == Names(a) + Names(b)
  {
    CommasConcat(a, b);
    hide Commas, PackageName, TrimLeft;
    assert forall d :: d in Commas(a + "," + b) <==> d in Commas(a) || d in Commas(b);
  }

  lemma NamesOfPiece(piece: string)
    requires ',' !in piece
    ensures Names(piece) == if PackageName(TrimLeft(piece)) == "" then {} else {PackageName(TrimLeft(piece))}
  {
    CommasOfPiece(piece);
    hide PackageName, TrimLeft;
  }

  /** Whatever constraints are listed, their packages' names are what is found. */
  lemma {:induction false} NamesOfList(constraints: seq<Constraint>)
    requires constraints != [] && forall c :: c in constraints ==> c.WellFormed()
    ensures Names(List(constraints)) == set c | c in constraints :: c.name
  {
    hide Names, PackageName, TrimLeft;
    var c := constraints[0];
    ConstraintNames(c);
    NamesOfPiece(c.Text());
    if |constraints| == 1 {
      assert constraints == [c];
    } else {
      NamesOfList(constraints[1..]);
      NamesConcat(c.Text(), List(constraints[1..]));
      assert constraints == [c] + constraints[1..];
      hide List;
    }
  }

  // ----- Which lines belong to a field -----

  predicate OpensField(raw: string) {
    FieldValue(Clean(raw)).Some?
  }

  /** A line that leaves the field that `head` opens as it is: blank, or deeper
      than `head` and no field itself. */
  predicate Continues(head: string, raw: string) {
    Blank(Clean(raw)) || (Indent(Clean(raw)) > Indent(Clean(head)) && !OpensField(raw))
  }

  /** Line j belongs to the field that line i opens: the lines between continue it. */
  predicate Belongs(lines: Lines, i: nat, j: nat) {
    && i <= j < |lines| && OpensField(lines[i])
    && forall k :: i < k <= j ==> Continues(lines[i], lines[k])
  }

  /** The text of line j in which constraints are listed. */
  function Listed(lines: Lines, i: nat, j: nat): string
    requires Belongs(lines, i, j)
  {
    if i == j then FieldValue(Clean(lines[i])).value else Clean(lines[j])
  }

  /** Some line of some field lists the package. */
  ghost predicate ListsPackage(lines: Lines, package: string) {
    exists i: nat, j: nat :: Belongs(lines, i, j) && package in Names(Listed(lines, i, j))
  }

  /** The last line belongs to the field that line i opens. */
  predicate EndsIn(lines: Lines, i: nat) {
    lines != [] && Belongs(lines, i, |lines| - 1)
  }

  /** The last line lists the package, for the field it belongs to. */
  ghost predicate LastLists(lines: Lines, package: string) {
    exists i: nat :: EndsIn(lines, i) && package in Names(Listed(lines, i, |lines| - 1))
  }

  /** The scanner is in the field in which the lines end, if they end in one. */
  ghost predicate At(lines: Lines, at: Position) {
    match at
    case None => forall i: nat :: !EndsIn(lines, i)
    case Some(n) => exists i: nat :: EndsIn(lines, i) && Indent(Clean(lines[i])) == n
  }

  lemma BelongsInFront(front: Lines, last: string, i: nat, j: nat)
    requires j < |front|
    ensures Belongs(front + [last], i, j) <==> Belongs(front, i, j)
    ensures Belongs(front, i, j) ==> Listed(front + [last], i, j) == Listed(front, i, j)
  {
    if i <= j { assert forall k :: i <= k <= j ==> (front + [last])[k] == front[k]; }
  }

  /** The last line opens a field, or belongs to the one before it, or to none. */
  lemma LastBelongs(front: Lines, last: string, i: nat)
    ensures EndsIn(front + [last], i) <==>
      if i == |front| then OpensField(last) else EndsIn(front, i) && Continues(front[i], last)
  {
    hide OpensField, Continues;
    var lines := front + [last];
    if i < |front| {
      assert lines[|front|] == last && forall k :: i <= k < |front| ==> lines[k] == front[k];
    }
  }

  lemma OneFieldAtATime(lines: Lines, i: nat, k: nat)
    requires EndsIn(lines, i) && EndsIn(lines, k)
    ensures i == k
  {
    var earlier, later := if i < k then i else k, if i < k then k else i;
    OpeningDoesNotContinue(lines[earlier], lines[later]);
    hide OpensField, Continues;
  }

  lemma OpeningDoesNotContinue(head: string, raw: string)
    ensures OpensField(raw) ==> !Continues(head, raw) && !Blank(Clean(raw))
  {
  }

  /** Blank lines name nothing. */
  lemma BlankNamesNothing(raw: string)
    requires Blank(Clean(raw))
    ensures Names(Clean(raw)) == {}
  {
    NamesOfPiece("");
    var line := Clean(raw);
    assert line[..Indent(line)] == line && AllSpace(line);
  }

  /** A last line that opens no field belongs to an earlier one, and lists as it is. */
  lemma LastLater(front: Lines, last: string, i: nat)
    requires !OpensField(last)
    ensures EndsIn(front + [last], i) <==> EndsIn(front, i) && Continues(front[i], last)
    ensures EndsIn(front + [last], i) ==> Listed(front + [last], i, |front|) == Clean(last)
    ensures EndsIn(front, i) ==> i < |front|
  {
    LastBelongs(front, last, i);
    hide OpensField, Continues, Clean;
  }

  lemma BlankIsByField(front: Lines, last: string, at: Position)
    requires At(front, at) && Blank(Clean(last))
    ensures At(front + [last], at) && forall d :: !LastLists(front + [last], d)
  {
    var lines := front + [last];
    OpeningDoesNotContinue("", last);
    BlankNamesNothing(last);
    assert forall head :: Continues(head, last);
    hide EndsIn, Belongs, Clean, OpensField, Continues, Blank, Indent, Names, Listed;
    forall i: nat
      ensures EndsIn(lines, i) <==> EndsIn(front, i)
      ensures EndsIn(lines, i) ==> Listed(lines, i, |front|) == Clean(last)
      ensures EndsIn(front, i) ==> i < |front| && lines[i] == front[i]
    {
      LastLater(front, last, i);
    }
    if at.Some? {
      var i: nat :| EndsIn(front, i) && Indent(Clean(front[i])) == at.value;
      assert EndsIn(lines, i);
    }
  }

  lemma OpeningIsByField(front: Lines, last: string)
    requires OpensField(last)
    ensures At(front + [last], Some(Indent(Clean(last))))
    ensures forall d :: LastLists(front + [last], d) <==> d in Names(FieldValue(Clean(last)).value)
  {
    var lines := front + [last];
    forall i: nat ensures EndsIn(lines, i) <==> i == |front| {
      LastBelongs(front, last, i);
      if i < |front| { OpeningDoesNotContinue(front[i], last); }
    }
    hide Clean, Blank, Indent, Names, Belongs, Continues;
    assert EndsIn(lines, |front|);
  }

  lemma OtherIsByField(front: Lines, last: string, at: Position)
    requires At(front, at) && !Blank(Clean(last)) && !OpensField(last)
    ensures var lines, deeper := front + [last], at.Some? && Indent(Clean(last)) > at.value;
            && At(lines, if deeper then at else None)
            && forall d :: LastLists(lines, d) <==> deeper && d in Names(Clean(last))
  {
    var lines := front + [last];
    assert forall head :: Continues(head, last) <==> Indent(Clean(last)) > Indent(Clean(head));
    hide EndsIn, Belongs, Clean, OpensField, Continues, Blank, Indent, Names, Listed;
    forall i: nat
      ensures EndsIn(lines, i) <==> EndsIn(front, i) && Indent(Clean(last)) > Indent(Clean(front[i]))
      ensures EndsIn(lines, i) ==> Listed(lines, i, |front|) == Clean(last)
      ensures EndsIn(front, i) ==> i < |front| && lines[i] == front[i]
    {
      LastLater(front, last, i);
    }
    if at.Some? {
      var i: nat :| EndsIn(front, i) && Indent(Clean(front[i])) == at.value;
      forall k: nat | EndsIn(front, k) ensures k == i { OneFieldAtATime(front, i, k); }
      assert EndsIn(lines, i) <==> Indent(Clean(last)) > at.value;
    }
  }

  /** One line, read by where it is. */
  lemma StepIsByField(front: Lines, last: string, at: Position)
    requires At(front, at)
    ensures At(front + [last], Step(at, last).0)
    ensures forall d :: d in Step(at, last).1 <==> LastLists(front + [last], d)
  {
    if Blank(Clean(last)) {
      BlankIsByField(front, last, at);
    } else if OpensField(last) {
      OpeningIsByField(front, last);
    } else {
      OtherIsByField(front, last, at);
    }
    hide Clean, Blank, Indent, Names, LastLists, At;
  }

  lemma BelongsBounds(lines: Lines, i: nat, j: nat)
    requires Belongs(lines, i, j)
    ensures i <= j < |lines|
  {
  }

  lemma ListedInFront(front: Lines, last: string, d: string)
    ensures ListsPackage(front, d) ==> ListsPackage(front + [last], d)
  {
    hide Names, Listed, Belongs;
    if i: nat, j: nat :| Belongs(front, i, j) && d in Names(Listed(front, i, j)) {
      BelongsBounds(front, i, j);
      BelongsInFront(front, last, i, j);
    }
  }

  /** What is listed somewhere is listed in the front or on the last line. */
  lemma ListedSomewhere(front: Lines, last: string, d: string)
    ensures ListsPackage(front + [last], d) <==> ListsPackage(front, d) || LastLists(front + [last], d)
  {
    hide Names, Listed, Belongs;
    var lines := front + [last];
    ListedInFront(front, last, d);
    if i: nat, j: nat :| Belongs(lines, i, j) && d in Names(Listed(lines, i, j)) {
      BelongsBounds(lines, i, j);
      if j < |front| { BelongsInFront(front, last, i, j); } else { assert EndsIn(lines, i); }
    }
    if i: nat :| EndsIn(lines, i) && d in Names(Listed(lines, i, |lines| - 1)) {
      assert Belongs(lines, i, |lines| - 1);
    }
  }

  lemma {:induction false} ScanIsByField(lines: Lines)
    ensures At(lines, Ends(None, lines))
    ensures forall d :: d in Dependencies(lines) <==> ListsPackage(lines, d)
  {
    hide At, ListsPackage, LastLists, Step;
    if lines == [] {
      NothingListed();
    } else {
      var front, last := lines[..|lines| - 1], lines[|lines| - 1];
      assert lines == front + [last];
      ScanIsByField(front);
      ScanConcat(None, front, [last]);
      StepIsByField(front, last, Ends(None, front));
      forall d { ListedSomewhere(front, last, d); }
    }
  }

  lemma NothingListed()
    ensures At([], None) && forall d :: !ListsPackage([], d)
  {
  }

  /** A file depends on exactly the packages that some line of some field lists:
      the line that opens the field, after its colon, or a deeper line below it
      with nothing but deeper or blank lines in between. */
  lemma DependenciesAreByField(lines: Lines, package: string)
    ensures package in Dependencies(lines) <==> ListsPackage(lines, package)
  {
    ScanIsByField(lines);
  }

  lemma ContinuingStep(head: string, raw: string)
    requires Continues(head, raw)
    ensures Step(Some(Indent(Clean(head))), raw) == (Some(Indent(Clean(head))), Names(Clean(raw)))
  {
    if Blank(Clean(raw)) { BlankNamesNothing(raw); }
    hide Names, Clean;
  }

  /** What some line lists, read as a continuation. */
  function NamedOn(lines: Lines): set<string> {
    set line, d | line in lines && d in Names(Clean(line)) :: d
  }

  lemma {:induction false} DeeperLines(head: string, deeper: Lines)
    requires forall line :: line in deeper ==> Continues(head, line)
    ensures Scan(Some(Indent(Clean(head))), deeper) == NamedOn(deeper)
  {
    hide Step, Clean, Names, Indent, Continues;
    if deeper != [] {
      ContinuingStep(head, deeper[0]);
      DeeperLines(head, deeper[1..]);
      assert deeper == [deeper[0]] + deeper[1..];
    }
  }

  /** A field with deeper lines below it depends on what its value and each of
      those lines name. */
  lemma FieldDependsOnItsLines(head: string, deeper: Lines)
    requires OpensField(head) && forall line :: line in deeper ==> Continues(head, line)
    ensures Dependencies([head] + deeper) == Names(FieldValue(Clean(head)).value) + NamedOn(deeper)
  {
    DeeperLines(head, deeper);
    OpeningDoesNotContinue("", head);
    hide Clean, Names, Indent, Continues, FieldValue, NamedOn, Blank;
    assert ([head] + deeper)[1..] == deeper;
  }

  lemma SpaceNamesNothing(space: string)
    requires AllSpace(space)
    ensures ',' !in space && Names(space) == {}
  {
    assert !IsSpace(',');
    TrimLeftSkips(space, "");
    assert space + "" == space;
    NamesOfPiece(space);
  }

  lemma CommaContinues(head: string, raw: string, space: string, b: string)
    requires Clean(raw) == space + ("," + b) && AllSpace(space) && |space| > Indent(Clean(head))
    ensures Continues(head, raw)
  {
    TrimLeftSkips(space, "," + b);
    var s := TrimLeft(Clean(raw));
    hide Clean, Indent;
    assert |s| >= |FIELD| ==> Lower(s[..|FIELD|])[0] == ',' && FIELD[0] == 'b';
  }

  /** A list broken before a comma, with the rest on a deeper line, lists the same. */
  lemma BrokenListIsWhole(whole: string, head: string, deeper: string, a: string, space: string, b: string)
    requires FieldValue(Clean(whole)) == Some(a + "," + b)
    requires FieldValue(Clean(head)) == Some(a) && Clean(deeper) == space + ("," + b)
    requires AllSpace(space) && |space| > Indent(Clean(head))
    ensures Dependencies([head] + [deeper]) == Dependencies([whole]) == Names(a) + Names(b)
  {
    hide *;
    assert Dependencies([head] + [deeper]) == Names(a) + Names(Clean(deeper)) by {
      CommaContinues(head, deeper, space, b);
      OpensWithValue(head, a);
      FieldDependsOnItsLines(head, [deeper]);
      NamedOnFew(deeper);
    }
    assert Dependencies([whole]) == Names(a + "," + b) by {
      OpensWithValue(whole, a + "," + b);
      FieldDependsOnItsLines(whole, []);
      NamedOnFew(deeper);
      assert [whole] + [] == [whole];
    }
    assert Names(Clean(deeper)) == Names(b) by {
      SpaceNamesNothing(space);
      NamesConcat(space, b);
      assert space + "," + b == space + ("," + b);
    }
    NamesConcat(a, b);
  }

  lemma OpensWithValue(raw: string, value: string)
    requires FieldValue(Clean(raw)) == Some(value)
    ensures OpensField(raw)
  {
  }

  lemma NamedOnFew(line: string)
    ensures NamedOn([]) == {} && NamedOn([line]) == Names(Clean(line))
  {
    hide Names, Clean;
    assert line in [line];
  }

  // ----- Which stanzas are ordinary -----

  /** The word at the beginning of a header. */
  predicate FirstWord(header: string, word: string) {
    word <= header && ' ' !in word && (|header| == |word| || header[|word|] == ' ')
  }

  /** Libraries, with or without a name, and common stanzas, which have one. */
  lemma OrdinaryByFirstWord(raw: string, word: string)
    requires FirstWord(Clean(raw), word)
    ensures OrdinaryHeader(raw) <==> word == "library" || (word == "common" && Clean(raw) != "common")
  {
    var line := Clean(raw);
    assert line == word + line[|word|..];
    if "library " <= line { assert line[7] == ' ' && "library" == line[..7]; }
    if "common " <= line { assert line[6] == ' ' && "common" == line[..6]; }
  }
}
