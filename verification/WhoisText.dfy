/** What `parseWhoisResponse` reads from a reply written line by line: labels, values, and bare host lines. */
module WhoisText {
  import opened Basics
  import opened Text
  import opened WhoisParser

  datatype ReplyLine =
    | Labelled(name: Padded, value: Padded)
    | Bare(text: Padded)

  function LineText(line: ReplyLine): string {
    match line
    case Labelled(name, value) => PaddedText(name) + ":" + PaddedText(value)
    case Bare(text) => PaddedText(text)
  }

  predicate WellWritten(line: ReplyLine) {
    && '\n' !in LineText(line)
    && match line
       case Labelled(name, value) => WellPadded(name) && WellPadded(value) && ':' !in PaddedText(name)
       case Bare(text) => WellPadded(text) && ':' !in PaddedText(text)
  }

  function LineTexts(reply: seq<ReplyLine>): seq<string> {
    seq(|reply|, i requires 0 <= i < |reply| => LineText(reply[i]))
  }

  function Render(reply: seq<ReplyLine>): string { Join(LineTexts(reply), "\n") }

  // ---------------------------------------------------------------- what a reply says

  predicate HasKey(line: ReplyLine, key: string, lower: string -> string) {
    line.Labelled? && lower(line.name.core) == key
  }

  /** The line gives the field: its lower-cased name is an ordinary key of that field, and its value is not empty. */
  predicate Gives(line: ReplyLine, field: string, table: map<string, string>, lower: string -> string) {
    && line.Labelled? && line.value.core != ""
    && var key := lower(line.name.core);
       && key != "name server" && key != "name servers information" && key != "domain status"
       && key in table && table[key] == field
  }

  /** The nearest labelled line before line n is the header of the name server section. */
  ghost predicate UnderHeader(reply: seq<ReplyLine>, n: nat, lower: string -> string)
    requires n <= |reply|
  {
    exists k | 0 <= k < n ::
      HasKey(reply[k], "name servers information", lower) && forall j | k < j < n :: reply[j].Bare?
  }

  /** The line names the server: the first word of a name server's value, or a bare host name in the section. */
  ghost predicate NamesServer(reply: seq<ReplyLine>, n: nat, server: string, lower: string -> string)
    requires n < |reply|
  {
    server != "" &&
    match reply[n]
    case Labelled(name, value) =>
      HasKey(reply[n], "name server", lower) && value.core != "" && server == FirstWord(lower(value.core))
    case Bare(text) =>
      UnderHeader(reply, n, lower) && text.core != "" && server == lower(text.core) && HostName(server)
  }

  predicate TellsStatus(line: ReplyLine, status: string, lower: string -> string) {
    status != "" && HasKey(line, "domain status", lower) && status == FirstWord(line.value.core)
  }

  // ---------------------------------------------------------------- line by line

  lemma LabelledLine(line: ReplyLine, lower: string -> string)
    requires WellWritten(line) && line.Labelled?
    ensures HasColon(LineText(line))
    ensures KeyOf(LineText(line), lower) == lower(line.name.core)
    ensures ValueOf(LineText(line)) == line.value.core
  {
    var name, value, text := PaddedText(line.name), PaddedText(line.value), LineText(line);
    FindFirst(name, ':', value);
    assert text[|name|] == ':';
    assert text[..|name|] == name && text[|name| + 1..] == value;
    TrimPads(line.name.lead, line.name.core, line.name.trail);
    TrimPads(line.value.lead, line.value.core, line.value.trail);
  }

  lemma BareLine(line: ReplyLine)
    requires WellWritten(line) && line.Bare?
    ensures !HasColon(LineText(line)) && Trim(LineText(line)) == line.text.core
  {
    TrimPads(line.text.lead, line.text.core, line.text.trail);
  }

  lemma FieldOfLine(line: ReplyLine, field: string, table: map<string, string>, lower: string -> string)
    requires WellWritten(line)
    ensures FieldAt(LineText(line), field, table, lower) ==
      if Gives(line, field, table, lower) then line.value.core else ""
  {
    if line.Labelled? {
      LabelledLine(line, lower);
    } else {
      BareLine(line);
    }
  }

  lemma StatusOfLine(line: ReplyLine, lower: string -> string)
    requires WellWritten(line)
    ensures forall status | status != "" ::
      StatusAt(LineText(line), lower) == status <==> TellsStatus(line, status, lower)
  {
    if line.Labelled? {
      LabelledLine(line, lower);
    } else {
      BareLine(line);
    }
  }

  function ReplyMarks(reply: seq<ReplyLine>, lower: string -> string): seq<Option<bool>> {
    seq(|reply|, i requires 0 <= i < |reply| =>
      if reply[i].Labelled? then Some(HasKey(reply[i], "name servers information", lower)) else None)
  }

  lemma SameMarks(reply: seq<ReplyLine>, lower: string -> string)
    requires forall i | 0 <= i < |reply| :: WellWritten(reply[i])
    ensures MarksAt(LineTexts(reply), lower) == ReplyMarks(reply, lower)
  {
    forall i | 0 <= i < |reply| ensures MarksAt(LineTexts(reply), lower)[i] == ReplyMarks(reply, lower)[i] {
      if reply[i].Labelled? {
        LabelledLine(reply[i], lower);
      } else {
        BareLine(reply[i]);
      }
    }
  }

  ghost predicate Opened(marks: seq<Option<bool>>, n: nat, k: nat)
    requires n <= |marks|
  {
    k < n && marks[k] == Some(true) && forall j | k < j < n :: marks[j].None?
  }

  lemma {:induction false} NearestIsOpened(marks: seq<Option<bool>>, n: nat)
    requires n <= |marks|
    ensures NearestMark(marks, n) <==> exists k: nat :: Opened(marks, n, k)
  {
    if n == 0 {
    } else {
      NearestIsOpened(marks, n - 1);
      if marks[n - 1] == Some(true) {
        assert Opened(marks, n, n - 1);
      } else if marks[n - 1].None? {
        var m: nat := n - 1;
        if k: nat :| Opened(marks, m, k) {
          assert Opened(marks, n, k);
        }
        if k: nat :| Opened(marks, n, k) {
          assert Opened(marks, m, k);
        }
      } else {
        forall k: nat ensures !Opened(marks, n, k) {
          assert k < n - 1 ==> marks[n - 1].Some?;
        }
      }
    }
  }

  lemma SectionOfLine(reply: seq<ReplyLine>, n: nat, lower: string -> string)
    requires n <= |reply| && forall i | 0 <= i < |reply| :: WellWritten(reply[i])
    ensures InSection(LineTexts(reply), n, lower) <==> UnderHeader(reply, n, lower)
  {
    SameMarks(reply, lower);
    NearestIsOpened(ReplyMarks(reply, lower), n);
    forall k: nat
      ensures Opened(ReplyMarks(reply, lower), n, k) <==>
        k < n && HasKey(reply[k], "name servers information", lower) && forall j | k < j < n :: reply[j].Bare?
    {
      OpenedByHeader(reply, n, k, lower);
    }
  }

  lemma OpenedByHeader(reply: seq<ReplyLine>, n: nat, k: nat, lower: string -> string)
    requires n <= |reply|
    ensures Opened(ReplyMarks(reply, lower), n, k) <==>
      k < n && HasKey(reply[k], "name servers information", lower) && forall j | k < j < n :: reply[j].Bare?
  {
    var marks := ReplyMarks(reply, lower);
    if Opened(marks, n, k) {
      forall j | k < j < n ensures reply[j].Bare? {
        assert marks[j].None?;
      }
    }
  }

  lemma ServerOfLine(reply: seq<ReplyLine>, n: nat, lower: string -> string)
    requires n < |reply| && forall i | 0 <= i < |reply| :: WellWritten(reply[i])
    ensures forall server | server != "" ::
      ServerAt(LineTexts(reply), n, lower) == server <==> NamesServer(reply, n, server, lower)
  {
    assert LineTexts(reply)[n] == LineText(reply[n]);
    if reply[n].Labelled? {
      LabelledLine(reply[n], lower);
    } else {
      BareLine(reply[n]);
      SectionOfLine(reply, n, lower);
    }
  }

  // ---------------------------------------------------------------- the whole reply

  /** A written reply is cut back into its lines. */
  lemma RenderedLines(reply: seq<ReplyLine>)
    requires reply != [] && forall i | 0 <= i < |reply| :: WellWritten(reply[i])
    ensures Split(Render(reply), '\n') == LineTexts(reply)
  {
    forall i | 0 <= i < |reply| ensures '\n' !in LineTexts(reply)[i] {
      assert WellWritten(reply[i]);
    }
    SplitJoin(LineTexts(reply), '\n');
  }

  lemma {:induction false} NonEmptyMembers(texts: seq<string>, n: nat, x: string)
    requires n <= |texts|
    ensures x in NonEmpties(texts, n) <==> x != "" && exists i :: 0 <= i < n && texts[i] == x
  {
    if n == 0 {
    } else {
      NonEmptyMembers(texts, n - 1, x);
    }
  }

  lemma ServerTexts(reply: seq<ReplyLine>, lower: string -> string, x: string)
    requires x != "" && forall i | 0 <= i < |reply| :: WellWritten(reply[i])
    ensures var servers := ServersAt(LineTexts(reply), lower);
      |servers| == |reply| && forall i | 0 <= i < |reply| :: servers[i] == x <==> NamesServer(reply, i, x, lower)
  {
    var servers := ServersAt(LineTexts(reply), lower);
    forall i | 0 <= i < |reply| ensures servers[i] == x <==> NamesServer(reply, i, x, lower) {
      ServerOfLine(reply, i, lower);
    }
  }

  lemma StatusTexts(reply: seq<ReplyLine>, lower: string -> string, x: string)
    requires x != "" && forall i | 0 <= i < |reply| :: WellWritten(reply[i])
    ensures var statuses := StatusesAt(LineTexts(reply), lower);
      |statuses| == |reply| && forall i | 0 <= i < |reply| :: statuses[i] == x <==> TellsStatus(reply[i], x, lower)
  {
    var statuses := StatusesAt(LineTexts(reply), lower);
    forall i | 0 <= i < |reply| ensures statuses[i] == x <==> TellsStatus(reply[i], x, lower) {
      StatusOfLine(reply[i], lower);
    }
  }

  /** One of the first n lines names the server. */
  ghost predicate Named(reply: seq<ReplyLine>, n: nat, x: string, lower: string -> string)
    requires n <= |reply|
  {
    exists i :: 0 <= i < n && NamesServer(reply, i, x, lower)
  }

  ghost predicate Told(reply: seq<ReplyLine>, n: nat, x: string, lower: string -> string)
    requires n <= |reply|
  {
    exists i :: 0 <= i < n && TellsStatus(reply[i], x, lower)
  }

  /** The servers the lines name: each of them, and nothing else. */
  lemma ServersOfReply(reply: seq<ReplyLine>, n: nat, lower: string -> string, x: string)
    requires n <= |reply| && forall i | 0 <= i < |reply| :: WellWritten(reply[i])
    ensures x in Servers(LineTexts(reply), n, lower) <==> Named(reply, n, x, lower)
  {
    NonEmptyMembers(ServersAt(LineTexts(reply), lower), n, x);
    if x != "" {
      ServerTexts(reply, lower, x);
    }
  }

  /** The statuses they tell. */
  lemma StatusesOfReply(reply: seq<ReplyLine>, n: nat, lower: string -> string, x: string)
    requires n <= |reply| && forall i | 0 <= i < |reply| :: WellWritten(reply[i])
    ensures x in Statuses(LineTexts(reply), n, lower) <==> Told(reply, n, x, lower)
  {
    NonEmptyMembers(StatusesAt(LineTexts(reply), lower), n, x);
    if x != "" {
      StatusTexts(reply, lower, x);
    }
  }

  lemma {:induction false} NonEmptiesGrow(texts: seq<string>, m: nat, n: nat)
    requires m <= n <= |texts|
    ensures NonEmpties(texts, m) <= NonEmpties(texts, n)
    decreases n
  {
    if m == n {
    } else {
      NonEmptiesGrow(texts, m, n - 1);
    }
  }

  lemma FirstOccurrencesOfMore(xs: seq<string>, ys: seq<string>)
    requires xs <= ys
    ensures FirstOccurrences(xs) <= FirstOccurrences(ys)
  {
    FirstOccurrencesGrow(xs, ys[|xs|..]);
    assert xs + ys[|xs|..] == ys;
  }

  /** What the first n lines name stands first: so the order is that of the lines. */
  ghost predicate NamedFirst(servers: seq<string>, reply: seq<ReplyLine>, n: nat, lower: string -> string)
    requires n <= |reply|
  {
    exists k | 0 <= k <= |servers| :: forall x :: x in servers[..k] <==> Named(reply, n, x, lower)
  }

  ghost predicate ToldFirst(statuses: seq<string>, reply: seq<ReplyLine>, n: nat, lower: string -> string)
    requires n <= |reply|
  {
    exists k | 0 <= k <= |statuses| :: forall x :: x in statuses[..k] <==> Told(reply, n, x, lower)
  }

  lemma ServersInOrder(reply: seq<ReplyLine>, n: nat, lower: string -> string)
    requires n <= |reply| && forall i | 0 <= i < |reply| :: WellWritten(reply[i])
    ensures NamedFirst(FirstOccurrences(Servers(LineTexts(reply), |reply|, lower)), reply, n, lower)
  {
    var all, some := Servers(LineTexts(reply), |reply|, lower), Servers(LineTexts(reply), n, lower);
    NonEmptiesGrow(ServersAt(LineTexts(reply), lower), n, |reply|);
    FirstOccurrencesOfMore(some, all);
    FirstOccurrencesMembers(some);
    var servers, k := FirstOccurrences(all), |FirstOccurrences(some)|;
    assert servers[..k] == FirstOccurrences(some);
    forall x ensures x in servers[..k] <==> Named(reply, n, x, lower) {
      ServersOfReply(reply, n, lower, x);
    }
  }

  lemma StatusesInOrder(reply: seq<ReplyLine>, n: nat, lower: string -> string)
    requires n <= |reply| && forall i | 0 <= i < |reply| :: WellWritten(reply[i])
    ensures ToldFirst(FirstOccurrences(Statuses(LineTexts(reply), |reply|, lower)), reply, n, lower)
  {
    var all, some := Statuses(LineTexts(reply), |reply|, lower), Statuses(LineTexts(reply), n, lower);
    NonEmptiesGrow(StatusesAt(LineTexts(reply), lower), n, |reply|);
    FirstOccurrencesOfMore(some, all);
    FirstOccurrencesMembers(some);
    var statuses, k := FirstOccurrences(all), |FirstOccurrences(some)|;
    assert statuses[..k] == FirstOccurrences(some);
    forall x ensures x in statuses[..k] <==> Told(reply, n, x, lower) {
      StatusesOfReply(reply, n, lower, x);
    }
  }

  // ---------------------------------------------------------------- fields

  ghost predicate GivenFirst(reply: seq<ReplyLine>, i: nat, field: string,
                             table: map<string, string>, lower: string -> string)
  {
    && i < |reply| && Gives(reply[i], field, table, lower)
    && forall j | 0 <= j < i :: !Gives(reply[j], field, table, lower)
  }

  function ValuesAt(lines: seq<string>, field: string,
                    table: map<string, string>, lower: string -> string): seq<string>
  {
    seq(|lines|, i requires 0 <= i < |lines| => FieldAt(lines[i], field, table, lower))
  }

  ghost predicate FirstNonEmpty(values: seq<string>, i: nat) {
    i < |values| && values[i] != "" && forall j | 0 <= j < i :: values[j] == ""
  }

  lemma FieldValues(lines: seq<string>, fields: map<string, string>, field: string,
                    table: map<string, string>, lower: string -> string)
    requires FieldsMatch(fields, lines, |lines|, table, lower)
    ensures var values := ValuesAt(lines, field, table, lower);
      && (field !in fields ==> forall i | 0 <= i < |values| :: values[i] == "")
      && (field in fields ==> exists i: nat :: FirstNonEmpty(values, i) && values[i] == fields[field])
  {
    var values := ValuesAt(lines, field, table, lower);
    if field in fields {
      assert FirstValue(lines, |lines|, field, fields[field], table, lower);
      var i: nat :| i < |lines| && FieldAt(lines[i], field, table, lower) == fields[field] != ""
                    && NoValue(lines, i, field, table, lower);
      assert FirstNonEmpty(values, i);
    } else {
      assert NoValue(lines, |lines|, field, table, lower);
    }
  }

  /** Which lines give the field. */
  function GivenAt(reply: seq<ReplyLine>, field: string,
                   table: map<string, string>, lower: string -> string): seq<bool>
  {
    seq(|reply|, i requires 0 <= i < |reply| => Gives(reply[i], field, table, lower))
  }

  ghost predicate FirstTrue(given: seq<bool>, i: nat) {
    i < |given| && given[i] && forall j | 0 <= j < i :: !given[j]
  }

  lemma ValuesOfReply(reply: seq<ReplyLine>, field: string, table: map<string, string>, lower: string -> string)
    requires forall i | 0 <= i < |reply| :: WellWritten(reply[i])
    ensures var values, given := ValuesAt(LineTexts(reply), field, table, lower), GivenAt(reply, field, table, lower);
      && |values| == |reply|
      && (forall i | 0 <= i < |reply| :: given[i] <==> values[i] != "")
      && (forall i | 0 <= i < |reply| && given[i] :: reply[i].Labelled? && values[i] == reply[i].value.core)
  {
    var values, given := ValuesAt(LineTexts(reply), field, table, lower), GivenAt(reply, field, table, lower);
    forall i | 0 <= i < |reply|
      ensures given[i] <==> values[i] != ""
      ensures given[i] ==> reply[i].Labelled? && values[i] == reply[i].value.core
    {
      FieldOfLine(reply[i], field, table, lower);
    }
  }

  lemma GivenIsFirstTrue(reply: seq<ReplyLine>, i: nat, field: string,
                         table: map<string, string>, lower: string -> string)
    ensures GivenFirst(reply, i, field, table, lower) <==> FirstTrue(GivenAt(reply, field, table, lower), i)
  {
    var given := GivenAt(reply, field, table, lower);
    if FirstTrue(given, i) {
      forall j | 0 <= j < i ensures !Gives(reply[j], field, table, lower) {
        assert !given[j];
      }
    }
  }

  /** The first non-empty text is at the first position marked as not empty. */
  lemma ReadFirst(values: seq<string>, given: seq<bool>, present: bool, v: string)
    requires |values| == |given| && forall k | 0 <= k < |values| :: given[k] <==> values[k] != ""
    requires !present ==> forall k | 0 <= k < |values| :: values[k] == ""
    requires present ==> exists i: nat :: FirstNonEmpty(values, i) && values[i] == v
    ensures present <==> exists i: nat :: FirstTrue(given, i)
    ensures forall i: nat | FirstTrue(given, i) :: present && values[i] == v
  {
    if present {
      var i: nat :| FirstNonEmpty(values, i) && values[i] == v;
      assert FirstTrue(given, i);
    }
  }

  /** A field is there exactly if some line gives it, and has the value of the first line that does. */
  lemma FieldOfReply(reply: seq<ReplyLine>, fields: map<string, string>,
                     table: map<string, string>, lower: string -> string, field: string)
    requires forall i | 0 <= i < |reply| :: WellWritten(reply[i])
    requires FieldsMatch(fields, LineTexts(reply), |reply|, table, lower)
    ensures field in fields <==> exists i: nat :: FirstTrue(GivenAt(reply, field, table, lower), i)
    ensures forall i: nat | FirstTrue(GivenAt(reply, field, table, lower), i) ::
      field in fields && reply[i].Labelled? && fields[field] == reply[i].value.core
  {
    FieldValues(LineTexts(reply), fields, field, table, lower);
    ValuesOfReply(reply, field, table, lower);
    ReadFirst(ValuesAt(LineTexts(reply), field, table, lower), GivenAt(reply, field, table, lower),
              field in fields, if field in fields then fields[field] else "");
  }

  lemma FieldsOfReply(reply: seq<ReplyLine>, fields: map<string, string>,
                      table: map<string, string>, lower: string -> string, field: string)
    requires forall i | 0 <= i < |reply| :: WellWritten(reply[i])
    requires FieldsMatch(fields, LineTexts(reply), |reply|, table, lower)
    ensures field in fields <==> exists i: nat :: GivenFirst(reply, i, field, table, lower)
    ensures forall i: nat | GivenFirst(reply, i, field, table, lower) ::
      field in fields && fields[field] == reply[i].value.core
  {
    FieldOfReply(reply, fields, table, lower, field);
    forall i: nat
      ensures GivenFirst(reply, i, field, table, lower) <==> FirstTrue(GivenAt(reply, field, table, lower), i)
    {
      GivenIsFirstTrue(reply, i, field, table, lower);
    }
  }

  // ---------------------------------------------------------------- every text is a reply

  lemma WrittenLine(line: string) returns (written: ReplyLine)
    requires '\n' !in line
    ensures WellWritten(written) && LineText(written) == line
  {
    var k := Find(line, ':');
    if k < |line| {
      var name := Unpadded(line[..k]);
      var value := Unpadded(line[k + 1..]);
      written := Labelled(name, value);
      assert line == line[..k] + ":" + line[k + 1..];
    } else {
      var text := Unpadded(line);
      written := Bare(text);
      assert line[..k] == line;
    }
  }

  lemma {:induction false} WrittenLines(lines: seq<string>) returns (reply: seq<ReplyLine>)
    requires forall i | 0 <= i < |lines| :: '\n' !in lines[i]
    ensures |reply| == |lines| && forall i | 0 <= i < |reply| :: WellWritten(reply[i]) && LineText(reply[i]) == lines[i]
  {
    if lines == [] {
      reply := [];
    } else {
      var first := WrittenLine(lines[0]);
      var rest := WrittenLines(lines[1..]);
      reply := [first] + rest;
    }
  }

  /** Every text is a written reply. */
  lemma EveryTextIsWritten(text: string) returns (reply: seq<ReplyLine>)
    ensures reply != [] && Render(reply) == text
    ensures forall i | 0 <= i < |reply| :: WellWritten(reply[i])
  {
    SplitExact(text, '\n');
    reply := WrittenLines(Split(text, '\n'));
    assert LineTexts(reply) == Split(text, '\n');
  }

  /** The reading of a reply, in terms of its names, values and bare lines alone. */
  ghost predicate Reads(parsed: Parsed, reply: seq<ReplyLine>, table: map<string, string>, lower: string -> string) {
    && (forall field :: field in parsed.fields <==> exists i: nat :: GivenFirst(reply, i, field, table, lower))
    && (forall field, i: nat | GivenFirst(reply, i, field, table, lower) ::
          field in parsed.fields && parsed.fields[field] == reply[i].value.core)
    && Distinct(parsed.nameServers) && Distinct(parsed.domainStatus)
    && (forall x :: x in parsed.nameServers <==> Named(reply, |reply|, x, lower))
    && (forall x :: x in parsed.domainStatus <==> Told(reply, |reply|, x, lower))
    && (forall n: nat | n <= |reply| :: NamedFirst(parsed.nameServers, reply, n, lower))
    && (forall n: nat | n <= |reply| :: ToldFirst(parsed.domainStatus, reply, n, lower))
  }

  lemma ReadsFields(reply: seq<ReplyLine>, parsed: Parsed, table: map<string, string>, lower: string -> string)
    requires forall i | 0 <= i < |reply| :: WellWritten(reply[i])
    requires FieldsMatch(parsed.fields, LineTexts(reply), |reply|, table, lower)
    ensures forall field :: field in parsed.fields <==> exists i: nat :: GivenFirst(reply, i, field, table, lower)
    ensures forall field, i: nat | GivenFirst(reply, i, field, table, lower) ::
      field in parsed.fields && parsed.fields[field] == reply[i].value.core
  {
    forall field
      ensures field in parsed.fields <==> exists i: nat :: GivenFirst(reply, i, field, table, lower)
      ensures forall i: nat | GivenFirst(reply, i, field, table, lower) ::
        field in parsed.fields && parsed.fields[field] == reply[i].value.core
    {
      FieldsOfReply(reply, parsed.fields, table, lower, field);
    }
  }

  lemma ReadsNames(reply: seq<ReplyLine>, parsed: Parsed, lower: string -> string)
    requires forall i | 0 <= i < |reply| :: WellWritten(reply[i])
    requires parsed.nameServers == FirstOccurrences(Servers(LineTexts(reply), |reply|, lower))
    ensures Distinct(parsed.nameServers)
    ensures forall x :: x in parsed.nameServers <==> Named(reply, |reply|, x, lower)
    ensures forall n: nat | n <= |reply| :: NamedFirst(parsed.nameServers, reply, n, lower)
  {
    FirstOccurrencesMembers(Servers(LineTexts(reply), |reply|, lower));
    forall x ensures x in parsed.nameServers <==> Named(reply, |reply|, x, lower) {
      ServersOfReply(reply, |reply|, lower, x);
    }
    forall n: nat | n <= |reply| ensures NamedFirst(parsed.nameServers, reply, n, lower) {
      ServersInOrder(reply, n, lower);
    }
  }

  lemma ReadsStatuses(reply: seq<ReplyLine>, parsed: Parsed, lower: string -> string)
    requires forall i | 0 <= i < |reply| :: WellWritten(reply[i])
    requires parsed.domainStatus == FirstOccurrences(Statuses(LineTexts(reply), |reply|, lower))
    ensures Distinct(parsed.domainStatus)
    ensures forall x :: x in parsed.domainStatus <==> Told(reply, |reply|, x, lower)
    ensures forall n: nat | n <= |reply| :: ToldFirst(parsed.domainStatus, reply, n, lower)
  {
    FirstOccurrencesMembers(Statuses(LineTexts(reply), |reply|, lower));
    forall x ensures x in parsed.domainStatus <==> Told(reply, |reply|, x, lower) {
      StatusesOfReply(reply, |reply|, lower, x);
    }
    forall n: nat | n <= |reply| ensures ToldFirst(parsed.domainStatus, reply, n, lower) {
      StatusesInOrder(reply, n, lower);
    }
  }

  lemma ReplyIsRead(reply: seq<ReplyLine>, parsed: Parsed, table: map<string, string>, lower: string -> string)
    requires reply != [] && forall i | 0 <= i < |reply| :: WellWritten(reply[i])
    requires var lines := Split(Render(reply), '\n');
      && FieldsMatch(parsed.fields, lines, |lines|, table, lower)
      && parsed.nameServers == FirstOccurrences(Servers(lines, |lines|, lower))
      && parsed.domainStatus == FirstOccurrences(Statuses(lines, |lines|, lower))
    ensures Reads(parsed, reply, table, lower)
  {
    RenderedLines(reply);
    ReadsFields(reply, parsed, table, lower);
    ReadsNames(reply, parsed, lower);
    ReadsStatuses(reply, parsed, lower);
  }

  /**
   The parser on every text, read as named values and bare lines with white space around them. A
   field has the value of the first line that gives it, and is absent if none does. The name servers
   are those the lines name and the statuses those they tell, once each, in the order of the lines.
   */
  method ReadReply(text: string, lower: string -> string) returns (parsed: Parsed, ghost reply: seq<ReplyLine>)
    ensures reply != [] && Render(reply) == text && forall i | 0 <= i < |reply| :: WellWritten(reply[i])
    ensures Reads(parsed, reply, FIELD_MAP, lower)
  {
    parsed := ParseWhoisResponse(text, lower);
    reply := EveryTextIsWritten(text);
    ReplyIsRead(reply, parsed, FIELD_MAP, lower);
  }
}
