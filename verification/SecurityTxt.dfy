/**
 `parseResult` in backend/scan/security-txt.js: the fields of a security.txt file (format: section 4
 of RFC 9116), with repeated names renamed by number. Lines are separated by bare line feeds.
 */
module SecurityTxt {
  import opened Basics
  import opened Text

  /** A line the parser takes, as name and value. */
  datatype Field = Field(name: string, value: string)

  /** A repeat counter: a number, or text grown from a function that every object inherits. */
  datatype Counter = Number(n: nat) | Grown(text: string)

  const COMMENT := "#"
  const ARMOR := "-----"
  const PROTO := "__proto__"

  /** The names every object literal answers to besides __proto__, all of them functions. */
  const INHERITED: set<string> := {
    "constructor", "hasOwnProperty", "isPrototypeOf", "propertyIsEnumerable", "toLocaleString", "toString", "valueOf",
    "__defineGetter__", "__defineSetter__", "__lookupGetter__", "__lookupSetter__"
  }

  /** How an inherited function prints. */
  function InheritedText(name: string): string {
    "function " + (if name == "constructor" then "Object" else name) + "() { [native code] }"
  }

  predicate LineTerminator(c: char) { c == '\n' || c == '\r' || c == '\U{2028}' || c == '\U{2029}' }

  /** What follows the colon can be split into white space and one or more characters that end no line. */
  predicate ValuePart(rest: string) {
    rest != "" && ((forall c | c in rest :: !LineTerminator(c)) || (IsSpace(rest[0]) && ValuePart(rest[1..])))
  }

  predicate OneLine(s: string) { s != "" && forall c | c in s :: !LineTerminator(c) }

  /** What the pattern after the colon means: white space, and then a non-empty single line. */
  lemma ValuePartMeaning(rest: string)
    ensures ValuePart(rest) <==> exists k | 0 <= k <= |rest| :: AllSpace(rest[..k]) && OneLine(rest[k..])
  {
    if ValuePart(rest) {
      var k := ValueCut(rest);
    }
    if k :| 0 <= k <= |rest| && AllSpace(rest[..k]) && OneLine(rest[k..]) {
      CutGivesValue(rest, k);
    }
  }

  lemma {:induction false} ValueCut(rest: string) returns (k: nat)
    requires ValuePart(rest)
    ensures k <= |rest| && AllSpace(rest[..k]) && OneLine(rest[k..])
  {
    if OneLine(rest) {
      k := 0;
    } else {
      var tail := rest[1..];
      k := ValueCut(tail);
      assert rest[..k + 1] == [rest[0]] + tail[..k] && rest[k + 1..] == tail[k..];
      k := k + 1;
    }
  }

  lemma {:induction false} CutGivesValue(rest: string, k: nat)
    requires k <= |rest| && AllSpace(rest[..k]) && OneLine(rest[k..])
    ensures ValuePart(rest)
  {
    if k == 0 {
      assert rest[0..] == rest;
    } else {
      var tail := rest[1..];
      assert rest[..k] == [rest[0]] + tail[..k - 1] && rest[k..] == tail[k - 1..];
      assert rest[0] in rest[..k];
      assert AllSpace(tail[..k - 1]);
      CutGivesValue(tail, k - 1);
    }
  }

  /** So a line that ends in a line terminator of the pattern is never taken. */
  lemma TerminatedLineIsDropped(line: string, end: char)
    requires end == '\r' || end == '\U{2028}' || end == '\U{2029}'
    ensures Accepted(line + [end]) == None
  {
    var whole := line + [end];
    var k := Find(whole, ':');
    if k < |whole| {
      var rest := whole[k + 1..];
      ValuePartMeaning(rest);
      if rest != "" {
        assert rest[|rest| - 1] == end;
        forall j | 0 <= j < |rest| ensures !OneLine(rest[j..]) {
          assert rest[j..][|rest| - 1 - j] == end && end in rest[j..] && LineTerminator(end);
        }
      }
    }
  }

  /** In particular one that still carries the carriage return of a CRLF ending. */
  lemma CarriageReturnLineIsDropped(line: string)
    ensures Accepted(line + "\r") == None
  {
    TerminatedLineIsDropped(line, '\r');
  }

  /** The field pattern with its capture groups trimmed. */
  function FieldOf(line: string): Option<Field> {
    var k := Find(line, ':');
    if 0 < k < |line| && ValuePart(line[k + 1..]) then Some(Field(Trim(line[..k]), Trim(line[k + 1..]))) else None
  }

  function Accepted(line: string): Option<Field> {
    if COMMENT <= line || ARMOR <= line || Trim(line) == "" then None else FieldOf(line)
  }

  function AcceptedFields(lines: seq<string>): seq<Field> {
    Collect(lines, Accepted)
  }

  function Names(fields: seq<Field>): seq<string> {
    seq(|fields|, i requires 0 <= i < |fields| => fields[i].name)
  }

  // ---------------------------------------------------------------- what the code does

  /** `keys` logs the key every accepted line was stored under. */
  datatype Store = Store(fields: map<string, string>, counts: map<string, Counter>, keys: seq<string>)

  const EMPTY := Store(map[], map[], [])

  /** counts[key] ? counts[key] + 1 : 1, where an absent counter may still be inherited. */
  function Bumped(counts: map<string, Counter>, name: string): Counter {
    if name in counts then
      match counts[name]
      case Number(n) => Number(n + 1)
      case Grown(text) => Grown(text + "1")
    else if name in INHERITED then Grown(InheritedText(name) + "1")
    else Number(1)
  }

  function CounterText(c: Counter): string {
    match c
    case Number(n) => Decimal(n)
    case Grown(text) => text
  }

  /** Assigning to __proto__ on an object literal stores nothing. */
  function Assigned(fields: map<string, string>, key: string, value: string): map<string, string> {
    if key == PROTO then fields else fields[key := value]
  }

  function Add(s: Store, f: Field): Store {
    if f.name in s.fields then
      var bumped := Bumped(s.counts, f.name);
      var key := f.name + CounterText(bumped);
      Store(Assigned(s.fields, key, f.value), s.counts[f.name := bumped], s.keys + [key])
    else
      Store(Assigned(s.fields, f.name, f.value), s.counts, s.keys + [f.name])
  }

  function AddAll(fields: seq<Field>): Store {
    if fields == [] then EMPTY else Add(AddAll(fields[..|fields| - 1]), fields[|fields| - 1])
  }

  lemma LineAdded(lines: seq<string>, i: nat)
    requires i < |lines|
    ensures var before := AddAll(AcceptedFields(lines[..i]));
      AddAll(AcceptedFields(lines[..i + 1])) ==
        if Accepted(lines[i]).Some? then Add(before, Accepted(lines[i]).value) else before
  {
    var fields, last := AcceptedFields(lines[..i]), Accepted(lines[i]);
    CollectNext(lines, i, Accepted);
    if last.Some? {
      assert (fields + [last.value])[..|fields|] == fields;
    } else {
      assert fields + [] == fields;
    }
  }

  method ParseResult(text: string) returns (fields: map<string, string>)
    ensures var lines := Split(text, '\n');
            var accepted := AcceptedFields(lines);
      && CutsInto(text, '\n', lines)
      && fields == AddAll(accepted).fields
      && (Unambiguous(Names(accepted)) ==> AllKept(fields, accepted))
  {
    var lines := Split(text, '\n');
    SplitExact(text, '\n');
    fields := map[];
    var counts: map<string, Counter> := map[];
    ghost var keys: seq<string> := [];
    for i := 0 to |lines|
      invariant Store(fields, counts, keys) == AddAll(AcceptedFields(lines[..i]))
    {
      var line := lines[i];
      LineAdded(lines, i);
      if COMMENT <= line || ARMOR <= line || Trim(line) == "" {
        continue;
      }
      var field := FieldOf(line);
      if field.None? {
        continue;
      }
      var key := field.value.name;
      if key in fields {
        counts := counts[key := Bumped(counts, key)];
        key := key + CounterText(counts[key]);
      }
      keys := keys + [key];
      fields := Assigned(fields, key, field.value.value);
    }
    assert lines[..|lines|] == lines;
    if Unambiguous(Names(AcceptedFields(lines))) {
      UnambiguousKeepsAll(AcceptedFields(lines));
    }
  }

  // ---------------------------------------------------------------- what it is for

  /** How often a name occurs before position i. */
  function Earlier(names: seq<string>, i: nat): nat
    requires i < |names|
  {
    multiset(names[..i])[names[i]]
  }

  /** The promised key: the name itself, or the name and the number of the repeat. */
  function PromisedKey(names: seq<string>, i: nat): string
    requires i < |names|
  {
    if Earlier(names, i) == 0 then names[i] else names[i] + Decimal(Earlier(names, i))
  }

  /** Every accepted line has its value under its promised key, and there is nothing else. */
  ghost predicate AllKept(stored: map<string, string>, fields: seq<Field>) {
    && |stored| == |fields|
    && forall i | 0 <= i < |fields| ::
         PromisedKey(Names(fields), i) in stored && stored[PromisedKey(Names(fields), i)] == fields[i].value
  }

  /** Every accepted line sits, alone, under its promised key. */
  ghost predicate AllAsPromised(s: Store, fields: seq<Field>) {
    && |s.keys| == |fields| == |s.fields|
    && Distinct(s.keys)
    && (forall i | 0 <= i < |fields| :: s.keys[i] == PromisedKey(Names(fields), i))
    && (forall i | 0 <= i < |fields| :: s.keys[i] in s.fields && s.fields[s.keys[i]] == fields[i].value)
  }

  /** No name is another name followed by the number of one of its repeats. */
  ghost predicate NoNumberClash(names: seq<string>) {
    forall n, k: nat | n in names && 1 <= k < multiset(names)[n] :: n + Decimal(k) !in names
  }

  /** What a caller can check: no number clash, no __proto__, and no inherited name twice. */
  ghost predicate Unambiguous(names: seq<string>) {
    && NoNumberClash(names)
    && PROTO !in names
    && forall n | n in names && n in INHERITED :: multiset(names)[n] == 1
  }

  // ---------------------------------------------------------------- decimal numerals

  lemma {:induction false} DecimalShape(n: nat)
    ensures Decimal(n) != ""
    ensures |Decimal(n)| == 1 <==> n < 10
  {
    if n >= 10 {
      DecimalShape(n / 10);
    }
  }

  lemma DigitInjective(a: nat, b: nat)
    requires a < 10 && b < 10 && Digit(a) == Digit(b)
    ensures a == b
  {
  }

  lemma {:induction false} DecimalInjective(a: nat, b: nat)
    requires Decimal(a) == Decimal(b)
    ensures a == b
  {
    DecimalShape(a);
    DecimalShape(b);
    if a < 10 {
      DigitInjective(a, b);
    } else {
      assert Decimal(a)[..|Decimal(a)| - 1] == Decimal(a / 10);
      assert Decimal(b)[..|Decimal(b)| - 1] == Decimal(b / 10);
      DecimalInjective(a / 10, b / 10);
      DigitInjective(a % 10, b % 10);
    }
  }

  /** A non-empty prefix of a positive numeral is the numeral of a smaller positive number. */
  lemma {:induction false} DecimalPrefix(n: nat, p: string, q: string) returns (k: nat)
    requires n >= 1 && Decimal(n) == p + q && p != ""
    ensures 1 <= k <= n && p == Decimal(k)
    decreases |q|
  {
    DecimalShape(n);
    if q == "" {
      k := n;
    } else {
      var init := q[..|q| - 1];
      assert Decimal(n)[..|Decimal(n)| - 1] == p + init;
      k := DecimalPrefix(n / 10, p, init);
    }
  }

  lemma SamePrefix(m: string, a: string, n: string, b: string) returns (p: string)
    requires |m| <= |n| && m + a == n + b
    ensures n == m + p && a == p + b
  {
    p := n[|m|..];
    assert m == (m + a)[..|m|] && n == (n + b)[..|n|];
    assert a == (m + a)[|m|..];
  }

  /** Two renamed keys only coincide when one name is the other with a repeat number, or they are the same repeat. */
  lemma RenamedKeysCollide(m: string, j: nat, n: string, k: nat)
    requires j >= 1 && k >= 1 && |m| <= |n| && m + Decimal(j) == n + Decimal(k)
    ensures (m == n && j == k) || exists i: nat :: 1 <= i <= j && n == m + Decimal(i)
  {
    var p := SamePrefix(m, Decimal(j), n, Decimal(k));
    if p == "" {
      DecimalInjective(j, k);
    } else {
      var i := DecimalPrefix(j, p, Decimal(k));
    }
  }

  // ---------------------------------------------------------------- unambiguous names keep the promise

  ghost predicate KeysAsPromised(s: Store, names: seq<string>) {
    && |s.keys| == |names|
    && (forall i | 0 <= i < |names| :: s.keys[i] == PromisedKey(names, i))
    && (forall k :: k in s.fields <==> k in s.keys)
  }

  ghost predicate CountersFit(s: Store, names: seq<string>) {
    forall n | n in names :: if multiset(names)[n] == 1 then n !in s.counts
                             else n in s.counts && s.counts[n] == Number(multiset(names)[n] - 1)
  }

  lemma NamesSnoc(fields: seq<Field>)
    requires fields != []
    ensures Names(fields) == Names(fields[..|fields| - 1]) + [fields[|fields| - 1].name]
  {
  }

  lemma MultisetSnoc(names: seq<string>, x: string, n: string)
    ensures multiset(names + [x])[n] == multiset(names)[n] + (if x == n then 1 else 0)
  {
  }

  lemma PromisedSnoc(names: seq<string>, x: string, i: nat)
    requires i <= |names|
    ensures i < |names| ==> PromisedKey(names + [x], i) == PromisedKey(names, i)
    ensures i == |names| ==>
      PromisedKey(names + [x], i) == if multiset(names)[x] == 0 then x else x + Decimal(multiset(names)[x])
  {
    assert (names + [x])[..i] == names[..i];
    assert names[..|names|] == names;
  }

  lemma UnambiguousPrefix(names: seq<string>, x: string)
    requires Unambiguous(names + [x])
    ensures Unambiguous(names)
  {
    forall n ensures multiset(names)[n] <= multiset(names + [x])[n] {
      MultisetSnoc(names, x, n);
    }
    forall n | n in names ensures n in names + [x] && multiset(names)[n] >= 1 {
    }
  }

  /** The key of an earlier line is a name, or a name and a smaller repeat number than it has repeats. */
  lemma {:induction false} PromisedForm(names: seq<string>, i: nat)
    requires i < |names|
    ensures names[i] in names
    ensures Earlier(names, i) < multiset(names)[names[i]]
  {
    assert names == names[..i] + [names[i]] + names[i + 1..];
  }

  /** A name not seen yet is not a key yet. */
  lemma NewNameIsFree(names: seq<string>, x: string, i: nat)
    requires NoNumberClash(names + [x]) && x !in names && i < |names|
    ensures PromisedKey(names, i) != x
  {
    PromisedForm(names, i);
    MultisetSnoc(names, x, names[i]);
    assert names[i] in names + [x] && x in names + [x];
  }

  /** Nor is the renamed key of the next repeat. */
  lemma NextRepeatIsFree(names: seq<string>, x: string, i: nat)
    requires NoNumberClash(names + [x]) && x in names && i < |names|
    ensures PromisedKey(names, i) != x + Decimal(multiset(names)[x])
  {
    var all, k := names + [x], multiset(names)[x];
    var m, j := names[i], Earlier(names, i);
    PromisedForm(names, i);
    MultisetSnoc(names, x, m);
    MultisetSnoc(names, x, x);
    assert m in all && x in all;
    if j >= 1 && m + Decimal(j) == x + Decimal(k) {
      if |m| <= |x| {
        RenamedKeysCollide(m, j, x, k);
      } else {
        RenamedKeysCollide(x, k, m, j);
      }
    }
  }

  /** What one more line does, in terms of the promise. */
  ghost predicate AddsFresh(s: Store, t: Store, names: seq<string>, f: Field) {
    var key := PromisedKey(names + [f.name], |names|);
    && t.keys == s.keys + [key] && key !in s.keys && key !in s.fields
    && t.fields == s.fields[key := f.value]
    && t.counts == if f.name in names then s.counts[f.name := Number(multiset(names)[f.name])] else s.counts
  }

  lemma RepeatIsCounted(s: Store, names: seq<string>, x: string)
    requires Unambiguous(names + [x]) && x in names && CountersFit(s, names)
    ensures Bumped(s.counts, x) == Number(multiset(names)[x])
  {
    MultisetSnoc(names, x, x);
    assert x in names + [x];
  }

  lemma AddRepeat(s: Store, names: seq<string>, f: Field)
    requires Unambiguous(names + [f.name]) && f.name in names
    requires KeysAsPromised(s, names) && CountersFit(s, names)
    ensures AddsFresh(s, Add(s, f), names, f)
  {
    var x := f.name;
    var key := x + Decimal(multiset(names)[x]);
    assert f.name in s.fields by {
      FirstKeyIsName(names, x);
    }
    assert Bumped(s.counts, x) == Number(multiset(names)[x]) by {
      RepeatIsCounted(s, names, x);
    }
    assert PromisedKey(names + [x], |names|) == key by {
      PromisedSnoc(names, x, |names|);
    }
    assert key !in s.keys by {
      forall i | 0 <= i < |names| ensures s.keys[i] != key {
        NextRepeatIsFree(names, x, i);
      }
    }
    assert key != PROTO by {
      RenamedIsNotProto(x, multiset(names)[x]);
    }
  }

  lemma AddFirst(s: Store, names: seq<string>, f: Field)
    requires Unambiguous(names + [f.name]) && f.name !in names
    requires KeysAsPromised(s, names)
    ensures AddsFresh(s, Add(s, f), names, f)
  {
    PromisedSnoc(names, f.name, |names|);
    assert f.name in names + [f.name];
    forall i | 0 <= i < |names| ensures s.keys[i] != f.name {
      NewNameIsFree(names, f.name, i);
    }
  }

  lemma CountersFitSnoc(s: Store, t: Store, names: seq<string>, f: Field)
    requires CountersFit(s, names) && AddsFresh(s, t, names, f)
    requires f.name !in names ==> f.name !in s.counts
    ensures CountersFit(t, names + [f.name])
  {
    forall n ensures multiset(names + [f.name])[n] == multiset(names)[n] + (if f.name == n then 1 else 0) {
      MultisetSnoc(names, f.name, n);
    }
  }

  lemma {:induction false} DecimalEndsInDigit(n: nat)
    ensures Decimal(n) != "" && '0' <= Decimal(n)[|Decimal(n)| - 1] <= '9'
  {
    if n >= 10 {
      assert Decimal(n)[|Decimal(n)| - 1] == Digit(n % 10);
    }
  }

  lemma RenamedIsNotProto(x: string, k: nat)
    ensures x + Decimal(k) != PROTO
  {
    DecimalEndsInDigit(k);
    assert (x + Decimal(k))[|x + Decimal(k)| - 1] == Decimal(k)[|Decimal(k)| - 1];
    assert PROTO[|PROTO| - 1] == '_';
  }

  lemma FirstKeyIsName(names: seq<string>, x: string)
    requires x in names
    ensures exists i :: 0 <= i < |names| && names[i] == x && PromisedKey(names, i) == x
  {
    var i := FirstIndex(names, x);
    assert PromisedKey(names, i) == x;
  }

  lemma {:induction false} FirstIndex(names: seq<string>, x: string) returns (i: nat)
    requires x in names
    ensures i < |names| && names[i] == x && Earlier(names, i) == 0
  {
    var n := |names| - 1;
    if x in names[..n] {
      i := FirstIndex(names[..n], x);
      assert names[..n][..i] == names[..i];
    } else {
      i := n;
      assert x !in multiset(names[..n]);
    }
  }

  /** Only names of accepted lines are ever counted. */
  lemma {:induction false} NeverCounted(fields: seq<Field>, x: string)
    requires x !in Names(fields)
    ensures x !in AddAll(fields).counts
    decreases |fields|
  {
    if fields == [] {
    } else {
      NamesSnoc(fields);
      NeverCounted(fields[..|fields| - 1], x);
    }
  }

  lemma KeysStayPromised(s: Store, t: Store, names: seq<string>, f: Field)
    requires KeysAsPromised(s, names) && AddsFresh(s, t, names, f)
    ensures KeysAsPromised(t, names + [f.name])
  {
    var all := names + [f.name];
    forall i | 0 <= i < |all| ensures t.keys[i] == PromisedKey(all, i) {
      PromisedSnoc(names, f.name, i);
    }
  }

  lemma ValuesStay(s: Store, t: Store, names: seq<string>, init: seq<Field>, f: Field)
    requires |s.keys| == |init| == |names| && Distinct(s.keys) && AddsFresh(s, t, names, f)
    requires forall i | 0 <= i < |init| :: s.keys[i] in s.fields && s.fields[s.keys[i]] == init[i].value
    ensures Distinct(t.keys) && |t.fields| == |s.fields| + 1
    ensures forall i | 0 <= i <= |init| :: t.keys[i] in t.fields && t.fields[t.keys[i]] == (init + [f])[i].value
  {
  }

  /** Adding a line under a fresh key disturbs nothing stored before. */
  lemma KeptAfterAdd(s: Store, t: Store, init: seq<Field>, f: Field)
    requires AllAsPromised(s, init) && KeysAsPromised(s, Names(init)) && AddsFresh(s, t, Names(init), f)
    ensures AllAsPromised(t, init + [f]) && KeysAsPromised(t, Names(init + [f]))
  {
    NamesSnoc(init + [f]);
    assert (init + [f])[..|init|] == init;
    KeysStayPromised(s, t, Names(init), f);
    ValuesStay(s, t, Names(init), init, f);
  }

  lemma {:induction false} UnambiguousKeepsAll(fields: seq<Field>)
    requires Unambiguous(Names(fields))
    ensures AllAsPromised(AddAll(fields), fields)
    ensures KeysAsPromised(AddAll(fields), Names(fields)) && CountersFit(AddAll(fields), Names(fields))
    decreases |fields|
  {
    if fields == [] {
    } else {
      var init, f := fields[..|fields| - 1], fields[|fields| - 1];
      var s, names := AddAll(init), Names(init);
      assert fields == init + [f];
      NamesSnoc(fields);
      UnambiguousPrefix(names, f.name);
      UnambiguousKeepsAll(init);
      if f.name in names {
        AddRepeat(s, names, f);
      } else {
        AddFirst(s, names, f);
        NeverCounted(init, f.name);
      }
      CountersFitSnoc(s, Add(s, f), names, f);
      KeptAfterAdd(s, Add(s, f), init, f);
    }
  }

  // ---------------------------------------------------------------- ambiguous names break it

  lemma {:induction false} ProtoNeverStored(fields: seq<Field>)
    ensures PROTO !in AddAll(fields).fields
    decreases |fields|
  {
    if fields == [] {
    } else {
      ProtoNeverStored(fields[..|fields| - 1]);
    }
  }

  /** The counter of an inherited name is never a number. */
  lemma {:induction false} InheritedGrows(fields: seq<Field>)
    ensures var s := AddAll(fields);
      forall n | n in s.counts && n in INHERITED :: s.counts[n].Grown? && |s.counts[n].text| > 1
    decreases |fields|
  {
    if fields == [] {
    } else {
      InheritedGrows(fields[..|fields| - 1]);
    }
  }

  lemma {:induction false} KeysOfPrefix(fields: seq<Field>, i: nat)
    requires i <= |fields|
    ensures |AddAll(fields).keys| == |fields|
    ensures AddAll(fields[..i]).keys == AddAll(fields).keys[..i]
    decreases |fields|
  {
    if fields == [] {
      assert fields[..i] == fields;
    } else {
      var init := fields[..|fields| - 1];
      KeysOfPrefix(init, if i < |fields| then i else |init|);
      if i < |fields| {
        assert init[..i] == fields[..i];
      } else {
        assert fields[..i] == fields;
      }
    }
  }

  lemma KeyOfLine(fields: seq<Field>, i: nat)
    requires i < |fields|
    ensures |AddAll(fields).keys| == |fields|
    ensures AddAll(fields).keys[i] ==
      var s, f := AddAll(fields[..i]), fields[i];
      if f.name in s.fields then f.name + CounterText(Bumped(s.counts, f.name)) else f.name
  {
    var upTo := fields[..i + 1];
    assert upTo[..i] == fields[..i] && |upTo| - 1 == i;
    KeysOfPrefix(fields, i + 1);
    KeysOfPrefix(fields[..i], i);
    assert AddAll(upTo) == Add(AddAll(fields[..i]), fields[i]);
    assert AddAll(fields).keys[i] == AddAll(upTo).keys[i];
  }

  lemma InheritedCounterIsLong(fields: seq<Field>, x: string)
    requires x in INHERITED
    ensures |CounterText(Bumped(AddAll(fields).counts, x))| > 1
  {
    InheritedGrows(fields);
  }

  /** The second line with an inherited name is not stored under its promised key. */
  lemma InheritedRepeatBreaks(fields: seq<Field>, i: nat)
    requires i < |fields| && fields[i].name in INHERITED && Earlier(Names(fields), i) == 1
    ensures |AddAll(fields).keys| == |fields|
    ensures AddAll(fields).keys[i] != PromisedKey(Names(fields), i)
  {
    KeyOfLine(fields, i);
    InheritedCounterIsLong(fields[..i], fields[i].name);
    assert |Decimal(1)| == 1;
    assert |PromisedKey(Names(fields), i)| == |fields[i].name| + 1;
  }

  /** The position at which a name has occurred k times before. */
  lemma {:induction false} NthIndex(names: seq<string>, x: string, k: nat) returns (i: nat)
    requires k < multiset(names)[x]
    ensures i < |names| && names[i] == x && Earlier(names, i) == k
    decreases |names|
  {
    var n := |names| - 1;
    var init := names[..n];
    assert names == init + [names[n]];
    MultisetSnoc(init, names[n], x);
    if k < multiset(init)[x] {
      i := NthIndex(init, x, k);
      assert init[..i] == names[..i];
    } else {
      i := n;
    }
  }

  lemma ClashingPositions(names: seq<string>, n: string, k: nat) returns (a: nat, b: nat)
    requires n in names && 1 <= k < multiset(names)[n] && n + Decimal(k) in names
    ensures a < |names| && b < |names| && a != b && PromisedKey(names, a) == PromisedKey(names, b)
  {
    a := FirstIndex(names, n + Decimal(k));
    b := NthIndex(names, n, k);
    DecimalShape(k);
    assert |names[a]| == |n| + |Decimal(k)|;
  }

  lemma NumberClashBreaks(s: Store, fields: seq<Field>, n: string, k: nat)
    requires n in Names(fields) && 1 <= k < multiset(Names(fields))[n] && n + Decimal(k) in Names(fields)
    ensures !AllAsPromised(s, fields)
  {
    var a, b := ClashingPositions(Names(fields), n, k);
  }

  lemma ProtoBreaks(fields: seq<Field>)
    requires PROTO in Names(fields)
    ensures !AllAsPromised(AddAll(fields), fields)
  {
    var i := FirstIndex(Names(fields), PROTO);
    ProtoNeverStored(fields);
    assert PromisedKey(Names(fields), i) == PROTO;
  }

  lemma AsPromisedOnlyIfUnambiguous(fields: seq<Field>)
    requires AllAsPromised(AddAll(fields), fields)
    ensures Unambiguous(Names(fields))
  {
    var names := Names(fields);
    if PROTO in names {
      ProtoBreaks(fields);
    }
    forall n | n in names && n in INHERITED ensures multiset(names)[n] == 1 {
      if multiset(names)[n] > 1 {
        var i := NthIndex(names, n, 1);
        InheritedRepeatBreaks(fields, i);
      }
    }
    forall n, k: nat | n in names && 1 <= k < multiset(names)[n] ensures n + Decimal(k) !in names {
      if n + Decimal(k) in names {
        NumberClashBreaks(AddAll(fields), fields, n, k);
      }
    }
  }

  /** Every line is alone under its promised key exactly when the names are unambiguous. */
  lemma AllAsPromisedIffUnambiguous(fields: seq<Field>)
    ensures AllAsPromised(AddAll(fields), fields) <==> Unambiguous(Names(fields))
  {
    if Unambiguous(Names(fields)) {
      UnambiguousKeepsAll(fields);
    }
    if AllAsPromised(AddAll(fields), fields) {
      AsPromisedOnlyIfUnambiguous(fields);
    }
  }
}
