/** Texts with known fields: parsing undoes rendering, and what that means for repeated names. */
module FieldText {
  import opened Basics
  import opened Text
  import opened SecurityTxt
  import opened FieldLoss

  function Line(f: Field): string { f.name + ": " + f.value }

  function Lines(fields: seq<Field>): seq<string> {
    seq(|fields|, i requires 0 <= i < |fields| => Line(fields[i]))
  }

  /** A file with one field a line. */
  function Render(fields: seq<Field>): string { Join(Lines(fields), "\n") }

  predicate PlainName(name: string) {
    name != "" && Trim(name) == name && ':' !in name && '\n' !in name && !(COMMENT <= name) && !(ARMOR <= name)
  }

  predicate PlainValue(value: string) { OneLine(value) && Trim(value) == value }

  predicate Plain(f: Field) { PlainName(f.name) && PlainValue(f.value) }

  lemma NoMarker(name: string, rest: string, marker: string)
    requires ':' !in marker && !(marker <= name)
    ensures !(marker <= name + ":" + rest)
  {
    assert (name + ":" + rest)[|name|] == ':';
  }

  lemma LineIsNotSkipped(name: string, rest: string)
    requires PlainName(name)
    ensures !(COMMENT <= name + ":" + rest) && !(ARMOR <= name + ":" + rest) && Trim(name + ":" + rest) != ""
  {
    var line := name + ":" + rest;
    NoMarker(name, rest, COMMENT);
    NoMarker(name, rest, ARMOR);
    TrimmedStart(name);
    assert line[0] == name[0];
    TrimEndShape(line);
  }

  lemma SpacedValue(value: string)
    requires PlainValue(value)
    ensures ValuePart(" " + value) && Trim(" " + value) == value
  {
    var rest := " " + value;
    assert rest[..1] == " " && rest[1..] == value;
    CutGivesValue(rest, 1);
  }

  lemma LineHasField(name: string, value: string)
    requires PlainName(name) && PlainValue(value)
    ensures FieldOf(name + ":" + " " + value) == Some(Field(name, value))
  {
    var rest := " " + value;
    var line := name + ":" + rest;
    assert line == name + ":" + " " + value;
    FindFirst(name, ':', rest);
    assert line[..|name|] == name && line[|name| + 1..] == rest;
    SpacedValue(value);
  }

  /** The parser takes a rendered line, as the field it renders. */
  lemma LineIsAccepted(f: Field)
    requires Plain(f)
    ensures Accepted(Line(f)) == Some(f)
    ensures '\n' !in Line(f)
  {
    var line := Line(f);
    assert line == f.name + ":" + (" " + f.value) == f.name + ":" + " " + f.value;
    LineIsNotSkipped(f.name, " " + f.value);
    LineHasField(f.name, f.value);
    assert LineTerminator('\n');
  }

  /** Parsing a rendered file gives back its fields, in order. */
  lemma ParsingUndoesRendering(fields: seq<Field>)
    requires forall i | 0 <= i < |fields| :: Plain(fields[i])
    ensures AcceptedFields(Split(Render(fields), '\n')) == fields
  {
    if fields == [] {
      EmptyText();
    } else {
      var lines := Lines(fields);
      forall i | 0 <= i < |lines| ensures Accepted(lines[i]) == Some(fields[i]) && '\n' !in lines[i] {
        LineIsAccepted(fields[i]);
      }
      CollectAll(lines, fields, Accepted, |lines|);
      assert lines[..|lines|] == lines && fields[..|fields|] == fields;
      SplitJoin(lines, '\n');
    }
  }

  lemma EmptyText()
    ensures AcceptedFields(Split("", '\n')) == []
  {
    assert Split("", '\n') == [""] && [""][..0] == [];
    assert Accepted("") == None;
  }

  /** So a rendered file keeps all its values exactly if its names take no key twice. */
  lemma RenderedFileKeepsAll(fields: seq<Field>)
    requires forall i | 0 <= i < |fields| :: Plain(fields[i])
    ensures NothingLost(AddAll(AcceptedFields(Split(Render(fields), '\n'))), fields) <==> NoKeyTaken(Names(fields))
  {
    ParsingUndoesRendering(fields);
    NothingLostIffNoKeyTaken(fields);
  }

  // ---------------------------------------------------------------- files with white space and other lines

  /** A line of a file: an entry, a comment, an armour line, a blank line, or a line without a name before a colon. */
  datatype FileLine =
    | Entry(name: Padded, value: Padded)
    | Comment(text: string)
    | Armor(text: string)
    | Blank(text: string)
    | Nameless(text: string)

  function LineText(line: FileLine): string {
    match line
    case Entry(name, value) => PaddedText(name) + ":" + PaddedText(value)
    case Comment(text) => "#" + text
    case Armor(text) => "-----" + text
    case Blank(text) => text
    case Nameless(text) => text
  }

  predicate WellWritten(line: FileLine) {
    && '\n' !in LineText(line)
    && match line
       case Entry(name, value) =>
         && WellPadded(name) && name.core != "" && ':' !in PaddedText(name)
         && !("#" <= PaddedText(name)) && !("-----" <= PaddedText(name))
         && WellPadded(value) && OneLine(value.core + value.trail)
       case Comment(_) => true
       case Armor(_) => true
       case Blank(text) => AllSpace(text)
       case Nameless(text) => ':' !in text || text[0] == ':'
  }

  function EntryOf(line: FileLine): Option<Field> {
    if line.Entry? then Some(Field(line.name.core, line.value.core)) else None
  }

  function LineTexts(file: seq<FileLine>): seq<string> {
    seq(|file|, i requires 0 <= i < |file| => LineText(file[i]))
  }

  lemma SpaceTrimsAway(s: string)
    requires AllSpace(s)
    ensures Trim(s) == ""
  {
    TrimPads(s, "", "");
    assert s + "" + "" == s;
  }

  lemma EntryIsNotSkipped(name: Padded, rest: string)
    requires WellPadded(name) && name.core != "" && !("#" <= PaddedText(name)) && !("-----" <= PaddedText(name))
    ensures var line := PaddedText(name) + ":" + rest;
      !(COMMENT <= line) && !(ARMOR <= line) && Trim(line) != ""
  {
    NoMarker(PaddedText(name), rest, COMMENT);
    NoMarker(PaddedText(name), rest, ARMOR);
    EntryIsNotBlank(name.lead, name.core, name.trail, rest);
  }

  lemma EntryIsNotBlank(lead: string, core: string, trail: string, rest: string)
    requires AllSpace(lead) && core != "" && !IsSpace(core[0])
    ensures Trim(lead + core + trail + ":" + rest) != ""
  {
    var s := core + (trail + ":" + rest);
    assert s[0] == core[0];
    NotBlank(lead, s);
    assert lead + s == lead + core + trail + ":" + rest;
  }

  lemma EntryHasField(name: Padded, value: Padded)
    requires WellPadded(name) && name.core != "" && ':' !in PaddedText(name)
    requires WellPadded(value) && OneLine(value.core + value.trail)
    ensures FieldOf(PaddedText(name) + ":" + PaddedText(value)) == Some(Field(name.core, value.core))
  {
    var head, rest := PaddedText(name), PaddedText(value);
    var line := head + ":" + rest;
    FindFirst(head, ':', rest);
    assert line[..|head|] == head && line[|head| + 1..] == rest;
    assert rest[..|value.lead|] == value.lead && rest[|value.lead|..] == value.core + value.trail;
    CutGivesValue(rest, |value.lead|);
    TrimPads(name.lead, name.core, name.trail);
    TrimPads(value.lead, value.core, value.trail);
  }

  /** An entry gives its field, trimmed; every other line gives nothing. */
  lemma LineIsRead(line: FileLine)
    requires WellWritten(line)
    ensures Accepted(LineText(line)) == EntryOf(line)
  {
    match line {
      case Entry(name, value) =>
        EntryIsNotSkipped(name, PaddedText(value));
        EntryHasField(name, value);
      case Comment(text) =>
        assert COMMENT <= LineText(line);
      case Armor(text) =>
        assert ARMOR <= LineText(line);
      case Blank(text) =>
        SpaceTrimsAway(text);
      case Nameless(text) =>
        FindIn(text, ':');
        assert FieldOf(text) == None;
    }
  }

  /** A written file gives exactly its entries, in order, whatever stands between them. */
  lemma FileIsRead(file: seq<FileLine>)
    requires file != [] && forall i | 0 <= i < |file| :: WellWritten(file[i])
    ensures AcceptedFields(Split(Join(LineTexts(file), "\n"), '\n')) == Collect(file, EntryOf)
  {
    LinesAreCut(file);
    LinesAreRead(file);
  }

  lemma LinesAreCut(file: seq<FileLine>)
    requires file != [] && forall i | 0 <= i < |file| :: WellWritten(file[i])
    ensures Split(Join(LineTexts(file), "\n"), '\n') == LineTexts(file)
  {
    var lines := LineTexts(file);
    forall i | 0 <= i < |lines| ensures '\n' !in lines[i] {
      assert WellWritten(file[i]);
    }
    SplitJoin(lines, '\n');
  }

  lemma LinesAreRead(file: seq<FileLine>)
    requires forall i | 0 <= i < |file| :: WellWritten(file[i])
    ensures AcceptedFields(LineTexts(file)) == Collect(file, EntryOf)
  {
    var lines := LineTexts(file);
    forall i | 0 <= i < |file| ensures Accepted(lines[i]) == EntryOf(file[i]) {
      LineIsRead(file[i]);
    }
    CollectSame(lines, file, Accepted, EntryOf, |file|);
    assert lines[..|file|] == lines && file[..|file|] == file;
  }

  // ---------------------------------------------------------------- a repeated inherited name

  /** The second line with an inherited name is stored under a key that ends in the source text of a function. */
  lemma RepeatedInherited(name: string)
    requires name in INHERITED && name != PROTO
    ensures KeyOf([name], name) ==
      name + ("function " + (if name == "constructor" then "Object" else name) + "() { [native code] }" + "1")
  {
    OneEarlier(name);
    assert Ones(1) == Ones(0) + "1" == "1";
  }

  lemma OneEarlier(name: string)
    ensures Renamings([name], name) == 1
  {
    assert [name][..0] == [];
    assert !Displaced([], name);
    assert !Displaced([name], name);
  }

  // ---------------------------------------------------------------- two files with a repeated Contact

  const CONTACT := "Contact"
  const CONTACT1 := "Contact1"

  lemma ContactIsPlain()
    ensures PlainName(CONTACT) && !Special(CONTACT)
  {
    assert CONTACT[0] == 'C' && CONTACT[|CONTACT| - 1] == 't';
    assert CONTACT[1] == 'o' && CONTACT[2] == 'n';
    TrimKeeps(CONTACT);
  }

  lemma Contact1IsPlain()
    ensures PlainName(CONTACT1) && !Special(CONTACT1)
    ensures CONTACT1 == CONTACT + Decimal(1)
  {
    assert CONTACT1[0] == 'C' && CONTACT1[|CONTACT1| - 1] == '1';
    TrimKeeps(CONTACT1);
    assert |CONTACT1| == 8;
  }

  lemma ThreePlain(f1: Field, f2: Field, f3: Field)
    requires Plain(f1) && Plain(f2) && Plain(f3)
    ensures AcceptedFields(Split(Render([f1, f2, f3]), '\n')) == [f1, f2, f3]
  {
    ParsingUndoesRendering([f1, f2, f3]);
  }

  predicate Special(name: string) { name == PROTO || name in INHERITED }

  lemma ThreeLines(f1: Field, f2: Field, f3: Field)
    ensures AddAll([f1, f2, f3]) == Add(Add(Add(EMPTY, f1), f2), f3)
  {
    assert [f1, f2, f3][..2] == [f1, f2] && [f1, f2][..1] == [f1] && [f1][..0] == [];
    assert AddAll([]) == EMPTY;
    assert AddAll([f1]) == Add(EMPTY, f1);
    assert AddAll([f1, f2]) == Add(AddAll([f1]), f2);
  }

  lemma RepeatMeetsName(name: string, other: string, a: string, b: string, c: string)
    requires other == name + Decimal(1) && !Special(name) && !Special(other)
    ensures AddAll([Field(other, a), Field(name, b), Field(name, c)]).fields == map[other := c, name := b]
  {
    DecimalShape(1);
    assert |other| > |name|;
    ThreeLines(Field(other, a), Field(name, b), Field(name, c));
  }

  lemma NameMeetsRepeat(name: string, other: string, a: string, b: string, c: string)
    requires other == name + Decimal(1) && !Special(name) && !Special(other) && other + Decimal(1) != PROTO
    ensures AddAll([Field(name, a), Field(name, b), Field(other, c)]).fields ==
            map[name := a, other := b, other + Decimal(1) := c]
  {
    DecimalShape(1);
    assert |other| > |name|;
    ThreeLines(Field(name, a), Field(name, b), Field(other, c));
  }

  /** A file that loses a value: the renamed second Contact overwrites the line that was already called Contact1. */
  lemma RenamedRepeatOverwrites(a: string, b: string, c: string)
    requires PlainValue(a) && PlainValue(b) && PlainValue(c)
    ensures var text := Render([Field(CONTACT1, a), Field(CONTACT, b), Field(CONTACT, c)]);
      AddAll(AcceptedFields(Split(text, '\n'))).fields == map[CONTACT1 := c, CONTACT := b]
  {
    ContactIsPlain();
    Contact1IsPlain();
    ThreePlain(Field(CONTACT1, a), Field(CONTACT, b), Field(CONTACT, c));
    RepeatMeetsName(CONTACT, CONTACT1, a, b, c);
  }

  /** With the clashing line last it is itself renamed, and nothing is lost. */
  lemma DisplacedNameMovesOn(a: string, b: string, c: string)
    requires PlainValue(a) && PlainValue(b) && PlainValue(c)
    ensures var text := Render([Field(CONTACT, a), Field(CONTACT, b), Field(CONTACT1, c)]);
      AddAll(AcceptedFields(Split(text, '\n'))).fields == map[CONTACT := a, CONTACT1 := b, CONTACT1 + Decimal(1) := c]
  {
    ContactIsPlain();
    Contact1IsPlain();
    ThreePlain(Field(CONTACT, a), Field(CONTACT, b), Field(CONTACT1, c));
    RenamedIsNotProto(CONTACT1, 1);
    NameMeetsRepeat(CONTACT, CONTACT1, a, b, c);
  }
}
