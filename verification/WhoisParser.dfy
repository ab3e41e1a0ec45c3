/**
 `parseWhoisResponse` in backend/scan/whois.js: one pass over the reply with a section flag.
 `lower` stands for the source's lower-casing of keys and host names and may be any function.
 */
module WhoisParser {
  import opened Basics
  import opened Text

  const NAME_SERVER := "name server"
  const SECTION := "name servers information"
  const DOMAIN_STATUS := "domain status"

  /** The field table. The last two keys are inherited by every object literal and so act as entries too. */
  const FIELD_MAP: map<string, string> := map[
    "domain name" := "domainName",
    "registrar" := "registrar",
    "registrar name" := "registrar",
    "registrar url" := "registrarUrl",
    "registrar whois server" := "registrarWhoisServer",
    "updated date" := "updatedDate",
    "creation date" := "creationDate",
    "registry expiry date" := "expiryDate",
    "registrar registration expiration date" := "expiryDate",
    "registration date" := "creationDate",
    "domain name commencement date" := "creationDate",
    "expiry date" := "expiryDate",
    "expiration date" := "expiryDate",
    "name server" := "nameServers",
    "domain status" := "domainStatus",
    "registrant organization" := "registrantOrg",
    "registrant country" := "registrantCountry",
    "registrant state/province" := "registrantState",
    "admin email" := "adminEmail",
    "tech email" := "techEmail",
    "dnssec" := "dnssec",
    "constructor" := "function Object() { [native code] }",
    "__proto__" := "[object Object]"
  ]

  datatype Parsed = Parsed(fields: map<string, string>, nameServers: seq<string>, domainStatus: seq<string>)

  predicate HasColon(line: string) { ':' in line }

  function KeyOf(line: string, lower: string -> string): string {
    lower(Trim(line[..Find(line, ':')]))
  }

  function ValueOf(line: string): string
    requires HasColon(line)
  {
    FindIn(line, ':');
    Trim(line[Find(line, ':') + 1..])
  }

  predicate HostChar(c: char) {
    'a' <= c <= 'z' || 'A' <= c <= 'Z' || '0' <= c <= '9' || c == '.' || c == '-'
  }

  /** The host name pattern for bare lines: an alphanumeric start, an inner dot, host characters throughout. */
  predicate HostName(s: string) {
    && |s| >= 3
    && (forall i | 0 <= i < |s| :: HostChar(s[i]))
    && s[0] != '.' && s[0] != '-'
    && '.' in s[1..|s| - 1]
  }

  // ---------------------------------------------------------------- what the reply says

  /** What each line does to the section: a colon line opens or closes it, any other leaves it. */
  function MarksAt(lines: seq<string>, lower: string -> string): seq<Option<bool>> {
    seq(|lines|, i requires 0 <= i < |lines| =>
      if HasColon(lines[i]) then Some(KeyOf(lines[i], lower) == SECTION) else None)
  }

  predicate NearestMark(marks: seq<Option<bool>>, n: nat)
    requires n <= |marks|
  {
    n > 0 && if marks[n - 1].Some? then marks[n - 1].value else NearestMark(marks, n - 1)
  }

  /** The nearest colon line before line n opens a name server section. */
  predicate InSection(lines: seq<string>, n: nat, lower: string -> string)
    requires n <= |lines|
  {
    NearestMark(MarksAt(lines, lower), n)
  }

  /** The name server line n contributes, or the empty string. */
  function ServerAt(lines: seq<string>, n: nat, lower: string -> string): string
    requires n < |lines|
  {
    if HasColon(lines[n]) then
      if KeyOf(lines[n], lower) == NAME_SERVER && ValueOf(lines[n]) != ""
      then FirstWord(lower(ValueOf(lines[n]))) else ""
    else
      var host := lower(Trim(lines[n]));
      if InSection(lines, n, lower) && Trim(lines[n]) != "" && HostName(host) then host else ""
  }

  function StatusAt(line: string, lower: string -> string): string {
    if HasColon(line) && KeyOf(line, lower) == DOMAIN_STATUS then FirstWord(ValueOf(line)) else ""
  }

  /** The value a line gives an ordinary field, or the empty string. */
  function FieldAt(line: string, field: string, table: map<string, string>, lower: string -> string): string {
    if HasColon(line) && Ordinary(KeyOf(line, lower))
       && KeyOf(line, lower) in table && table[KeyOf(line, lower)] == field
    then ValueOf(line) else ""
  }

  predicate Ordinary(key: string) {
    key != SECTION && key != NAME_SERVER && key != DOMAIN_STATUS
  }

  function ServersAt(lines: seq<string>, lower: string -> string): seq<string> {
    seq(|lines|, i requires 0 <= i < |lines| => ServerAt(lines, i, lower))
  }

  function StatusesAt(lines: seq<string>, lower: string -> string): seq<string> {
    seq(|lines|, i requires 0 <= i < |lines| => StatusAt(lines[i], lower))
  }

  /** The non-empty ones of the first n texts. */
  function NonEmpties(texts: seq<string>, n: nat): seq<string>
    requires n <= |texts|
  {
    if n == 0 then [] else NonEmpties(texts, n - 1) + Kept(texts[n - 1])
  }

  /** What the first n lines contribute, repeats included. */
  function Servers(lines: seq<string>, n: nat, lower: string -> string): seq<string>
    requires n <= |lines|
  {
    NonEmpties(ServersAt(lines, lower), n)
  }

  function Statuses(lines: seq<string>, n: nat, lower: string -> string): seq<string>
    requires n <= |lines|
  {
    NonEmpties(StatusesAt(lines, lower), n)
  }

  function Kept(s: string): seq<string> {
    if s == "" then [] else [s]
  }

  /** Every element that does not occur earlier, in order. */
  function FirstOccurrences(xs: seq<string>): seq<string> {
    if xs == [] then []
    else
      var init, last := xs[..|xs| - 1], xs[|xs| - 1];
      FirstOccurrences(init) + (if last in init then [] else [last])
  }

  ghost predicate FirstValue(lines: seq<string>, n: nat, field: string, value: string,
                             table: map<string, string>, lower: string -> string)
    requires n <= |lines|
  {
    exists i :: 0 <= i < n && FieldAt(lines[i], field, table, lower) == value != ""
                && NoValue(lines, i, field, table, lower)
  }

  ghost predicate NoValue(lines: seq<string>, n: nat, field: string,
                          table: map<string, string>, lower: string -> string)
    requires n <= |lines|
  {
    forall i | 0 <= i < n :: FieldAt(lines[i], field, table, lower) == ""
  }

  /** A field is present exactly when some line gives it a value, and then holds the first one. */
  ghost predicate FieldsMatch(fields: map<string, string>, lines: seq<string>, n: nat,
                              table: map<string, string>, lower: string -> string)
    requires n <= |lines|
  {
    && (forall f | f in fields :: FirstValue(lines, n, f, fields[f], table, lower))
    && (forall f | f !in fields :: NoValue(lines, n, f, table, lower))
  }

  // ---------------------------------------------------------------- first occurrences

  lemma {:induction false} FirstOccurrencesMembers(xs: seq<string>)
    ensures forall x :: x in FirstOccurrences(xs) <==> x in xs
    ensures Distinct(FirstOccurrences(xs))
  {
    if xs == [] {
    } else {
      FirstOccurrencesMembers(xs[..|xs| - 1]);
    }
  }

  /** Removing duplicates a second time, as the final set does, changes nothing. */
  lemma {:induction false} FirstOccurrencesOfDistinct(xs: seq<string>)
    requires Distinct(xs)
    ensures FirstOccurrences(xs) == xs
  {
    if xs == [] {
    } else {
      FirstOccurrencesOfDistinct(xs[..|xs| - 1]);
      assert xs == xs[..|xs| - 1] + [xs[|xs| - 1]];
    }
  }

  /** What occurred first stays first: more elements only add at the end. */
  lemma {:induction false} FirstOccurrencesGrow(xs: seq<string>, ys: seq<string>)
    ensures FirstOccurrences(xs) <= FirstOccurrences(xs + ys)
  {
    if ys == [] {
      assert xs + ys == xs;
    } else {
      var n := |ys| - 1;
      FirstOccurrencesGrow(xs, ys[..n]);
      assert (xs + ys)[..|xs + ys| - 1] == xs + ys[..n];
    }
  }

  /** The pattern of a bare host line: an alphanumeric character, host characters, a dot, and at least one more. */
  lemma HostNameIsThePattern(s: string)
    ensures HostName(s) <==>
      && (exists k :: 1 <= k < |s| - 1 && s[k] == '.')
      && ('a' <= s[0] <= 'z' || 'A' <= s[0] <= 'Z' || '0' <= s[0] <= '9')
      && (forall i | 0 <= i < |s| ::
            'a' <= s[i] <= 'z' || 'A' <= s[i] <= 'Z' || '0' <= s[i] <= '9' || s[i] == '.' || s[i] == '-')
  {
    if HostName(s) {
      var j :| 0 <= j < |s[1..|s| - 1]| && s[1..|s| - 1][j] == '.';
      assert s[j + 1] == '.';
    }
    if k :| 1 <= k < |s| - 1 && s[k] == '.' {
      assert s[1..|s| - 1][k - 1] == '.';
    }
  }

  method PushNew(xs: seq<string>, ghost all: seq<string>, x: string) returns (ys: seq<string>)
    requires xs == FirstOccurrences(all)
    ensures ys == FirstOccurrences(all + Kept(x))
  {
    FirstOccurrencesMembers(all);
    assert all + [] == all && (all + [x])[..|all|] == all;
    ys := if x != "" && x !in xs then xs + [x] else xs;
  }

  lemma FirstValueKept(lines: seq<string>, n: nat, field: string, value: string,
                       table: map<string, string>, lower: string -> string)
    requires n < |lines| && FirstValue(lines, n, field, value, table, lower)
    ensures FirstValue(lines, n + 1, field, value, table, lower)
  {
    var i :| 0 <= i < n && FieldAt(lines[i], field, table, lower) == value != ""
             && NoValue(lines, i, field, table, lower);
    assert FieldAt(lines[i], field, table, lower) == value;
  }

  lemma NoValueSnoc(lines: seq<string>, n: nat, field: string, table: map<string, string>, lower: string -> string)
    requires n < |lines| && NoValue(lines, n, field, table, lower) && FieldAt(lines[n], field, table, lower) == ""
    ensures NoValue(lines, n + 1, field, table, lower)
  {
  }

  lemma FieldsUnchanged(fields: map<string, string>, lines: seq<string>, n: nat,
                        table: map<string, string>, lower: string -> string)
    requires n < |lines| && FieldsMatch(fields, lines, n, table, lower)
    requires forall f | f !in fields :: FieldAt(lines[n], f, table, lower) == ""
    ensures FieldsMatch(fields, lines, n + 1, table, lower)
  {
    forall f | f in fields ensures FirstValue(lines, n + 1, f, fields[f], table, lower) {
      FirstValueKept(lines, n, f, fields[f], table, lower);
    }
    forall f | f !in fields ensures NoValue(lines, n + 1, f, table, lower) {
      NoValueSnoc(lines, n, f, table, lower);
    }
  }

  /** A line's value for a field it is the first to give. Only that field gets a value from it. */
  lemma FieldStarts(lines: seq<string>, n: nat, field: string, table: map<string, string>, lower: string -> string)
    requires n < |lines| && NoValue(lines, n, field, table, lower) && FieldAt(lines[n], field, table, lower) != ""
    ensures FirstValue(lines, n + 1, field, FieldAt(lines[n], field, table, lower), table, lower)
    ensures forall f | f != field :: FieldAt(lines[n], f, table, lower) == ""
  {
    var i := n;
    assert NoValue(lines, i, field, table, lower);
  }

  lemma FieldAdded(fields: map<string, string>, lines: seq<string>, n: nat, field: string,
                   table: map<string, string>, lower: string -> string)
    requires n < |lines| && FieldsMatch(fields, lines, n, table, lower) && field !in fields
    requires FieldAt(lines[n], field, table, lower) != ""
    ensures FieldsMatch(fields[field := FieldAt(lines[n], field, table, lower)], lines, n + 1, table, lower)
  {
    var grown := fields[field := FieldAt(lines[n], field, table, lower)];
    FieldStarts(lines, n, field, table, lower);
    forall f | f in grown ensures FirstValue(lines, n + 1, f, grown[f], table, lower) {
      if f != field {
        FirstValueKept(lines, n, f, fields[f], table, lower);
      }
    }
    forall f | f !in grown ensures NoValue(lines, n + 1, f, table, lower) {
      NoValueSnoc(lines, n, f, table, lower);
    }
  }

  /** A colon line with an ordinary key. */
  method TakeField(lines: seq<string>, n: nat, table: map<string, string>, lower: string -> string,
                   fields: map<string, string>)
      returns (grown: map<string, string>)
    requires n < |lines| && HasColon(lines[n]) && Ordinary(KeyOf(lines[n], lower))
    requires FieldsMatch(fields, lines, n, table, lower)
    ensures FieldsMatch(grown, lines, n + 1, table, lower)
  {
    grown := fields;
    var key, value := KeyOf(lines[n], lower), ValueOf(lines[n]);
    if value != "" && key in table && table[key] !in fields {
      grown := fields[table[key] := value];
      FieldAdded(fields, lines, n, table[key], table, lower);
    } else {
      FieldsUnchanged(fields, lines, n, table, lower);
    }
  }

  /** One line of the loop: what it adds and how it leaves the section flag. */
  method TakeLine(lines: seq<string>, n: nat, table: map<string, string>, lower: string -> string,
                  inSection: bool, fields: map<string, string>)
      returns (server: string, status: string, stillIn: bool, grown: map<string, string>)
    requires n < |lines| && inSection == InSection(lines, n, lower)
    requires FieldsMatch(fields, lines, n, table, lower)
    ensures server == ServerAt(lines, n, lower) && status == StatusAt(lines[n], lower)
    ensures stillIn == InSection(lines, n + 1, lower)
    ensures FieldsMatch(grown, lines, n + 1, table, lower)
  {
    var line := lines[n];
    server, status, stillIn := "", "", inSection;
    if HasColon(line) {
      var key, value := KeyOf(line, lower), ValueOf(line);
      stillIn := key == SECTION;
      if Ordinary(key) {
        grown := TakeField(lines, n, table, lower, fields);
        return;
      }
      if key == NAME_SERVER && value != "" {
        server := FirstWord(lower(value));
      }
      if key == DOMAIN_STATUS {
        status := FirstWord(value);
      }
    } else if inSection && Trim(line) != "" {
      var host := lower(Trim(line));
      if HostName(host) {
        server := host;
      }
    }
    grown := fields;
    FieldsUnchanged(fields, lines, n, table, lower);
  }

  method ParseLines(lines: seq<string>, table: map<string, string>, lower: string -> string) returns (parsed: Parsed)
    ensures FieldsMatch(parsed.fields, lines, |lines|, table, lower)
    ensures parsed.nameServers == FirstOccurrences(Servers(lines, |lines|, lower))
    ensures parsed.domainStatus == FirstOccurrences(Statuses(lines, |lines|, lower))
  {
    var fields: map<string, string> := map[];
    var nameServers, domainStatuses := [], [];
    var inNameServersSection := false;
    for n := 0 to |lines|
      invariant inNameServersSection == InSection(lines, n, lower)
      invariant FieldsMatch(fields, lines, n, table, lower)
      invariant nameServers == FirstOccurrences(Servers(lines, n, lower))
      invariant domainStatuses == FirstOccurrences(Statuses(lines, n, lower))
    {
      var server, status;
      server, status, inNameServersSection, fields := TakeLine(lines, n, table, lower, inNameServersSection, fields);
      nameServers := PushNew(nameServers, Servers(lines, n, lower), server);
      domainStatuses := PushNew(domainStatuses, Statuses(lines, n, lower), status);
    }
    FirstOccurrencesMembers(Servers(lines, |lines|, lower));
    FirstOccurrencesOfDistinct(nameServers);
    parsed := Parsed(fields, FirstOccurrences(nameServers), domainStatuses);
  }

  /**
   The parsed reply, declaratively: every ordinary field has its first non-empty value; the name
   servers and statuses are the first occurrences, in order, of what the lines contribute.
   */
  method ParseWhoisResponse(text: string, lower: string -> string) returns (parsed: Parsed)
    ensures var lines := Split(text, '\n');
      && CutsInto(text, '\n', lines)
      && FieldsMatch(parsed.fields, lines, |lines|, FIELD_MAP, lower)
      && parsed.nameServers == FirstOccurrences(Servers(lines, |lines|, lower))
      && parsed.domainStatus == FirstOccurrences(Statuses(lines, |lines|, lower))
  {
    SplitExact(text, '\n');
    parsed := ParseLines(Split(text, '\n'), FIELD_MAP, lower);
  }
}
