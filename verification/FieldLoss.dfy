/**
 Which security.txt files lose a value to the renaming of repeated names: for every list of lines,
 the key each line is stored under, and exactly when all of these keys are new.
 */
module FieldLoss {
  import opened Basics
  import opened Text
  import opened SecurityTxt

  /** What the k-th renaming appends: its number, or, for an inherited name, the function's text and k ones. */
  function RepeatText(name: string, k: nat): string {
    if name in INHERITED then InheritedText(name) + Ones(k) else Decimal(k)
  }

  function Ones(k: nat): string {
    if k == 0 then "" else Ones(k - 1) + "1"
  }

  /** Some earlier line got the name as its key before the first line of that name. */
  predicate Displaced(before: seq<string>, name: string)
    decreases |before|, 0
  {
    if before == [] then false
    else
      var init, last := before[..|before| - 1], before[|before| - 1];
      Displaced(init, name) || (name !in before && KeyOf(init, last) == name)
  }

  /** The number a line of this name needs: the earlier lines of the name, and one more if it is displaced. */
  function Renamings(before: seq<string>, name: string): nat
    decreases |before|, 1
  {
    multiset(before)[name] + (if Displaced(before, name) then 1 else 0)
  }

  /** The key of a line with this name after lines with the given names. */
  function KeyOf(before: seq<string>, name: string): string
    decreases |before|, 2
  {
    if name == PROTO || Renamings(before, name) == 0 then name else name + RepeatText(name, Renamings(before, name))
  }

  /** The keys in use after lines with the given names: the names themselves, and what displaces a later name. */
  predicate Used(before: seq<string>, key: string) {
    key != PROTO && (key in before || Displaced(before, key))
  }

  /** The line finds its key free. Only a renamed line, or one called __proto__, does not. */
  predicate KeyIsFree(before: seq<string>, name: string) {
    name != PROTO && !Used(before, KeyOf(before, name))
  }

  ghost predicate NoKeyTaken(names: seq<string>) {
    forall i | 0 <= i < |names| :: KeyIsFree(names[..i], names[i])
  }

  /** Every accepted line still has its own entry, with its value. */
  ghost predicate NothingLost(s: Store, fields: seq<Field>) {
    && |s.keys| == |fields| == |s.fields|
    && Distinct(s.keys)
    && forall i | 0 <= i < |fields| :: s.keys[i] in s.fields && s.fields[s.keys[i]] == fields[i].value
  }

  // ---------------------------------------------------------------- the store follows the names

  function CounterOf(name: string, k: nat): Counter {
    if name in INHERITED then Grown(InheritedText(name) + Ones(k)) else Number(k)
  }

  /** How often a name has been renamed so far. */
  function Times(names: seq<string>, name: string): nat {
    if name !in names then 0 else Renamings(names, name) - 1
  }

  predicate CounterFits(counts: map<string, Counter>, names: seq<string>, name: string) {
    if Times(names, name) == 0 then name !in counts
    else name in counts && counts[name] == CounterOf(name, Times(names, name))
  }

  ghost predicate Follows(s: Store, names: seq<string>) {
    && |s.keys| == |names|
    && (forall i | 0 <= i < |names| :: s.keys[i] == KeyOf(names[..i], names[i]))
    && (forall key :: key in s.fields <==> Used(names, key))
    && (forall name | name != PROTO :: CounterFits(s.counts, names, name))
  }

  lemma NextCounter(counts: map<string, Counter>, names: seq<string>, name: string)
    requires name != PROTO && CounterFits(counts, names, name)
    ensures Bumped(counts, name) == CounterOf(name, Times(names, name) + 1)
    ensures CounterText(Bumped(counts, name)) == RepeatText(name, Times(names, name) + 1)
  {
    assert Ones(1) == Ones(0) + "1" == "1";
  }

  lemma RepeatTextEnd(name: string, k: nat)
    requires k > 0
    ensures RepeatText(name, k) != "" && RepeatText(name, k)[|RepeatText(name, k)| - 1] != '_'
  {
    if name in INHERITED {
      assert Ones(k)[|Ones(k)| - 1] == '1';
    } else {
      DecimalEndsInDigit(k);
    }
  }

  /** A renamed line gets neither its name nor __proto__ as key. */
  lemma RenamedIsAnother(before: seq<string>, name: string)
    ensures name != PROTO ==> KeyOf(before, name) != PROTO
    ensures KeyOf(before, name) == name <==> name == PROTO || Renamings(before, name) == 0
  {
    if name != PROTO && Renamings(before, name) > 0 {
      var key, tail := KeyOf(before, name), RepeatText(name, Renamings(before, name));
      RepeatTextEnd(name, Renamings(before, name));
      assert key[|key| - 1] == tail[|tail| - 1];
      assert PROTO[|PROTO| - 1] == '_';
    }
  }

  lemma DisplacedSnoc(names: seq<string>, name: string, key: string)
    ensures Displaced(names + [name], key) <==>
      Displaced(names, key) || (key !in names && key != name && KeyOf(names, name) == key)
  {
    assert (names + [name])[..|names|] == names;
  }

  lemma UsedSnoc(names: seq<string>, name: string, key: string)
    ensures Used(names + [name], key) <==> Used(names, key) || (name != PROTO && key == KeyOf(names, name))
  {
    DisplacedSnoc(names, name, key);
    RenamedIsAnother(names, name);
  }

  lemma TimesSnoc(names: seq<string>, name: string, other: string)
    ensures Times(names + [name], other) == if other == name then Renamings(names, name) else Times(names, other)
  {
    DisplacedSnoc(names, name, other);
    MultisetSnoc(names, name, other);
  }

  lemma AddRenamed(s: Store, names: seq<string>, f: Field)
    requires f.name in s.fields && Used(names, f.name) && CounterFits(s.counts, names, f.name)
    ensures var t, key, k := Add(s, f), KeyOf(names, f.name), Renamings(names, f.name);
      && k > 0 && t.keys == s.keys + [key] && t.fields == s.fields[key := f.value]
      && t.counts == s.counts[f.name := CounterOf(f.name, k)]
  {
    RenamedIsAnother(names, f.name);
    NextCounter(s.counts, names, f.name);
    assert Times(names, f.name) + 1 == Renamings(names, f.name);
  }

  /** One line more, in terms of the names. */
  lemma AddFollows(s: Store, names: seq<string>, f: Field)
    requires Follows(s, names)
    ensures var t, key := Add(s, f), KeyOf(names, f.name);
      && t.keys == s.keys + [key]
      && t.fields == (if f.name == PROTO then s.fields else s.fields[key := f.value])
      && t.counts == (if f.name != PROTO && Renamings(names, f.name) > 0
                      then s.counts[f.name := CounterOf(f.name, Renamings(names, f.name))] else s.counts)
  {
    if Used(names, f.name) {
      assert f.name in s.fields && CounterFits(s.counts, names, f.name);
      AddRenamed(s, names, f);
    } else {
      assert f.name !in s.fields;
    }
  }

  lemma FollowsSnoc(s: Store, names: seq<string>, f: Field)
    requires Follows(s, names)
    ensures Follows(Add(s, f), names + [f.name])
  {
    var t, all := Add(s, f), names + [f.name];
    AddFollows(s, names, f);
    forall i | 0 <= i < |all| ensures t.keys[i] == KeyOf(all[..i], all[i]) {
      assert i < |names| ==> all[..i] == names[..i];
      assert all[..|names|] == names;
    }
    forall key ensures key in t.fields <==> Used(all, key) {
      UsedSnoc(names, f.name, key);
    }
    forall name | name != PROTO ensures CounterFits(t.counts, all, name) {
      TimesSnoc(names, f.name, name);
      assert CounterFits(s.counts, names, name);
    }
  }

  /** For every list of lines the keys, the entries and the counters are what the names alone determine. */
  lemma {:induction false} StoreFollowsNames(fields: seq<Field>)
    ensures Follows(AddAll(fields), Names(fields))
    decreases |fields|
  {
    if fields == [] {
      assert Names(fields) == [];
    } else {
      var init, f := fields[..|fields| - 1], fields[|fields| - 1];
      NamesSnoc(fields);
      StoreFollowsNames(init);
      FollowsSnoc(AddAll(init), Names(init), f);
    }
  }

  // ---------------------------------------------------------------- when nothing is lost

  lemma NoKeyTakenSnoc(names: seq<string>, name: string)
    ensures NoKeyTaken(names + [name]) <==> NoKeyTaken(names) && KeyIsFree(names, name)
  {
    var all := names + [name];
    assert all[..|names|] == names && all[|names|] == name;
    forall i | 0 <= i < |names| ensures KeyIsFree(all[..i], all[i]) <==> KeyIsFree(names[..i], names[i]) {
      assert all[..i] == names[..i];
    }
  }

  /** The number of entries is the number of accepted lines exactly if every line finds its key free. */
  lemma {:induction false} EntryPerLineIffNoKeyTaken(fields: seq<Field>)
    ensures |AddAll(fields).fields| <= |fields|
    ensures |AddAll(fields).fields| == |fields| <==> NoKeyTaken(Names(fields))
    decreases |fields|
  {
    if fields == [] {
      assert Names(fields) == [];
    } else {
      var init, f := fields[..|fields| - 1], fields[|fields| - 1];
      var s, names := AddAll(init), Names(init);
      EntryPerLineIffNoKeyTaken(init);
      StoreFollowsNames(init);
      AddFollows(s, names, f);
      NamesSnoc(fields);
      NoKeyTakenSnoc(names, f.name);
      assert KeyOf(names, f.name) in s.fields <==> Used(names, KeyOf(names, f.name));
    }
  }

  lemma OneLineMore(init: seq<Field>, f: Field)
    ensures AddAll(init + [f]) == Add(AddAll(init), f)
    ensures Names(init + [f]) == Names(init) + [f.name]
    ensures NoKeyTaken(Names(init + [f])) <==> NoKeyTaken(Names(init)) && KeyIsFree(Names(init), f.name)
  {
    assert (init + [f])[..|init|] == init;
    NamesSnoc(init + [f]);
    NoKeyTakenSnoc(Names(init), f.name);
  }

  lemma {:induction false} FreeKeysLoseNothing(fields: seq<Field>)
    requires NoKeyTaken(Names(fields))
    ensures NothingLost(AddAll(fields), fields)
    decreases |fields|
  {
    if fields == [] {
    } else {
      var init, f := fields[..|fields| - 1], fields[|fields| - 1];
      assert fields == init + [f];
      OneLineMore(init, f);
      FreeKeysLoseNothing(init);
      StoreFollowsNames(init);
      FreeKeyKeepsAll(AddAll(init), Names(init), init, f);
    }
  }

  lemma FreeKeyKeepsAll(s: Store, names: seq<string>, init: seq<Field>, f: Field)
    requires Follows(s, names) && NothingLost(s, init) && KeyIsFree(names, f.name)
    ensures NothingLost(Add(s, f), init + [f])
  {
    AddFollows(s, names, f);
    FreshEntryKeepsAll(s, Add(s, f), init, f, KeyOf(names, f.name));
  }

  lemma FreshEntryKeepsAll(s: Store, t: Store, init: seq<Field>, f: Field, key: string)
    requires NothingLost(s, init) && key !in s.fields
    requires t.keys == s.keys + [key] && t.fields == s.fields[key := f.value]
    ensures NothingLost(t, init + [f])
  {
  }

  /** No value is lost exactly if no line is called __proto__ and no renamed line gets a key that is in use. */
  lemma NothingLostIffNoKeyTaken(fields: seq<Field>)
    ensures NothingLost(AddAll(fields), fields) <==> NoKeyTaken(Names(fields))
  {
    EntryPerLineIffNoKeyTaken(fields);
    if NoKeyTaken(Names(fields)) {
      FreeKeysLoseNothing(fields);
    }
  }

  // ---------------------------------------------------------------- the first loss

  ghost predicate Taken(names: seq<string>, key: string) {
    exists i :: 0 <= i < |names| && PromisedKey(names, i) == key
  }

  /** The next key in terms of the promise: a repeat, or a first line whose name an earlier repeat has used. */
  ghost function NextKey(names: seq<string>, name: string): string {
    if !Taken(names, name) then name
    else name + Decimal(if name in names then multiset(names)[name] else 1)
  }

  /**
   As long as all lines sit under their promised keys, the next line overwrites one exactly if its
   key is the promised key of an earlier line.
   */
  lemma FirstOverwrite(init: seq<Field>, f: Field)
    requires Unambiguous(Names(init)) && f.name != PROTO && f.name !in INHERITED
    ensures |Add(AddAll(init), f).fields| == |init| <==> Taken(Names(init), NextKey(Names(init), f.name))
    ensures |Add(AddAll(init), f).fields| != |init| ==> |Add(AddAll(init), f).fields| == |init| + 1
  {
    var s, names := AddAll(init), Names(init);
    UnambiguousKeepsAll(init);
    StoreFollowsNames(init);
    AddFollows(s, names, f);
    EntriesAreTaken(s, names);
    NextKeyIsKeyOf(s, names, f.name);
  }

  lemma EntriesAreTaken(s: Store, names: seq<string>)
    requires KeysAsPromised(s, names)
    ensures forall key :: key in s.fields <==> Taken(names, key)
  {
    forall key ensures key in s.keys <==> Taken(names, key) {
      if key in s.keys {
        var i :| 0 <= i < |s.keys| && s.keys[i] == key;
        assert PromisedKey(names, i) == key;
      }
    }
  }

  lemma NextKeyIsKeyOf(s: Store, names: seq<string>, name: string)
    requires Follows(s, names) && KeysAsPromised(s, names) && name != PROTO && name !in INHERITED
    requires forall key :: key in s.fields <==> Taken(names, key)
    requires CountersFit(s, names)
    ensures NextKey(names, name) == KeyOf(names, name)
  {
    assert name in s.fields <==> Used(names, name);
    assert CounterFits(s.counts, names, name);
    if name in names {
      assert name in s.fields;
    }
  }
}
