/**
 The LRU + TTL cache of backend/scan/whois.js: an insertion-ordered map in which a hit is deleted
 and inserted again, so that its order is the order of last use.
 */
module WhoisCache {
  import opened Basics

  datatype Entry<+D> = Entry(key: string, data: D, expiresAt: int)

  /** An operation on an already lower-cased key, at a clock reading. */
  datatype Op<+D> =
    | Get(key: string, now: int)
    | Set(key: string, data: D, now: int)

  /** A view of the ordered map: its entries, first inserted first. */
  type Entries<D> = seq<Entry<D>>

  ghost predicate DistinctKeys<D>(es: Entries<D>) {
    forall i, j | 0 <= i < j < |es| :: es[i].key != es[j].key
  }

  function Lookup<D>(es: Entries<D>, key: string): Option<Entry<D>> {
    if es == [] then None else if es[0].key == key then Some(es[0]) else Lookup(es[1..], key)
  }

  function Delete<D>(es: Entries<D>, key: string): Entries<D> {
    if es == [] then [] else if es[0].key == key then es[1..] else [es[0]] + Delete(es[1..], key)
  }

  function Hit<D>(es: Entries<D>, key: string, now: int): Option<D> {
    var e := Lookup(es, key);
    if e.Some? && now <= e.value.expiresAt then Some(e.value.data) else None
  }

  function AfterGet<D>(es: Entries<D>, key: string, now: int): Entries<D> {
    var e := Lookup(es, key);
    if e.None? then es
    else if now > e.value.expiresAt then Delete(es, key)
    else Delete(es, key) + [e.value]
  }

  /** Deletes the first key of a full map, unless that key is the empty string. */
  function MakeRoom<D>(es: Entries<D>, max: int): Entries<D> {
    if |es| >= max && es != [] && es[0].key != "" then es[1..] else es
  }

  function AfterSet<D>(es: Entries<D>, key: string, data: D, now: int, max: int, ttl: int): Entries<D> {
    var rest := if Lookup(es, key).Some? then Delete(es, key) else MakeRoom(es, max);
    rest + [Entry(key, data, now + ttl)]
  }

  function After<D>(es: Entries<D>, op: Op<D>, max: int, ttl: int): Entries<D> {
    match op
    case Get(key, now) => AfterGet(es, key, now)
    case Set(key, data, now) => AfterSet(es, key, data, now, max, ttl)
  }

  /** The state reached by a trace, the last operation last. */
  function Run<D>(ops: seq<Op<D>>, max: int, ttl: int): Entries<D> {
    if ops == [] then [] else After(Run(ops[..|ops| - 1], max, ttl), ops[|ops| - 1], max, ttl)
  }

  // ---------------------------------------------------------------- the cache as the code keeps it

  class Cache<D> {
    const max: int
    const ttl: int
    const lower: string -> string
    var entries: Entries<D>

    constructor (max: int, ttl: int, lower: string -> string)
      ensures entries == [] && this.max == max && this.ttl == ttl && this.lower == lower
    {
      this.max, this.ttl, this.lower := max, ttl, lower;
      entries := [];
    }

    method GetCached(domain: string, now: int) returns (data: Option<D>)
      modifies this
      ensures entries == AfterGet(old(entries), lower(domain), now)
      ensures data == Hit(old(entries), lower(domain), now)
    {
      var key := lower(domain);
      var entry := Lookup(entries, key);
      if entry.None? {
        return None;
      }
      if now > entry.value.expiresAt {
        entries := Delete(entries, key);
        return None;
      }
      entries := Delete(entries, key);
      entries := entries + [entry.value];
      return Some(entry.value.data);
    }

    method SetCache(domain: string, data: D, now: int)
      modifies this
      ensures entries == AfterSet(old(entries), lower(domain), data, now, max, ttl)
    {
      var key := lower(domain);
      if Lookup(entries, key).Some? {
        entries := Delete(entries, key);
      } else if |entries| >= max {
        if entries != [] {
          var lruKey := entries[0].key;
          if lruKey != "" {
            entries := Delete(entries, lruKey);
          }
        }
      }
      entries := entries + [Entry(key, data, now + ttl)];
    }
  }

  function Lowered<D>(ops: seq<Op<D>>, lower: string -> string): seq<Op<D>> {
    seq(|ops|, i requires 0 <= i < |ops| => ops[i].(key := lower(ops[i].key)))
  }

  /** What an operation answers: a read its hit, a write nothing. */
  function AnswerTo<D>(es: Entries<D>, op: Op<D>): Option<D> {
    if op.Get? then Hit(es, op.key, op.now) else None
  }

  method ServeOne<D(!new)>(cache: Cache<D>, op: Op<D>) returns (answer: Option<D>)
    modifies cache
    ensures var low := op.(key := cache.lower(op.key));
      && cache.entries == After(old(cache.entries), low, cache.max, cache.ttl)
      && answer == AnswerTo(old(cache.entries), low)
  {
    answer := None;
    match op {
      case Get(domain, now) => answer := cache.GetCached(domain, now);
      case Set(domain, data, now) => cache.SetCache(domain, data, now);
    }
  }

  /** Answer i is what the state before operation i says; if it is a hit, it is the latest write while fresh. */
  ghost predicate AnsweredRight<D(!new)>(ops: seq<Op<D>>, i: nat, answer: Option<D>, max: int, ttl: int)
    requires i < |ops|
  {
    && answer == AnswerTo(Run(ops[..i], max, ttl), ops[i])
    && (answer.Some? ==> answer == LogHit(ops[..i], ttl, ops[i].key, ops[i].now))
  }

  lemma AnswerIsRight<D(!new)>(ops: seq<Op<D>>, i: nat, es: Entries<D>, max: int, ttl: int)
    requires i < |ops| && es == Run(ops[..i], max, ttl)
    ensures AnsweredRight(ops, i, AnswerTo(es, ops[i]), max, ttl)
  {
    if AnswerTo(es, ops[i]).Some? {
      HitIsLatestFreshWrite(ops[..i], max, ttl, ops[i].key, ops[i].now);
    }
  }

  /** The answers to the first n operations. */
  function AnswersTo<D>(ops: seq<Op<D>>, n: nat, max: int, ttl: int): seq<Option<D>>
    requires n <= |ops|
  {
    if n == 0 then [] else AnswersTo(ops, n - 1, max, ttl) + [AnswerTo(Run(ops[..n - 1], max, ttl), ops[n - 1])]
  }

  lemma {:induction false} AnswersAreRight<D(!new)>(ops: seq<Op<D>>, n: nat, max: int, ttl: int)
    requires n <= |ops|
    ensures |AnswersTo(ops, n, max, ttl)| == n
    ensures forall i | 0 <= i < n :: AnsweredRight(ops, i, AnswersTo(ops, n, max, ttl)[i], max, ttl)
  {
    if n == 0 {
    } else {
      AnswersAreRight(ops, n - 1, max, ttl);
      AnswerIsRight(ops, n - 1, Run(ops[..n - 1], max, ttl), max, ttl);
    }
  }

  lemma AnswersNext<D>(ops: seq<Op<D>>, n: nat, answers: seq<Option<D>>, es: Entries<D>, max: int, ttl: int)
    requires n < |ops| && answers == AnswersTo(ops, n, max, ttl) && es == Run(ops[..n], max, ttl)
    ensures answers + [AnswerTo(es, ops[n])] == AnswersTo(ops, n + 1, max, ttl)
  {
  }

  /** A cache through any operations: every read that hits gives the latest write of its key, and only a fresh one. */
  method Serve<D(!new)>(ops: seq<Op<D>>, max: int, ttl: int, lower: string -> string) returns (answers: seq<Option<D>>)
    ensures |answers| == |ops|
    ensures forall i | 0 <= i < |ops| :: AnsweredRight(Lowered(ops, lower), i, answers[i], max, ttl)
  {
    var cache := new Cache<D>(max, ttl, lower);
    ghost var low := Lowered(ops, lower);
    answers := [];
    for i := 0 to |ops|
      invariant fresh(cache) && cache.max == max && cache.ttl == ttl && cache.lower == lower
      invariant cache.entries == Run(low[..i], max, ttl)
      invariant answers == AnswersTo(low, i, max, ttl)
    {
      AnswersNext(low, i, answers, cache.entries, max, ttl);
      RunNext(low, i, max, ttl);
      var answer := ServeOne(cache, ops[i]);
      answers := answers + [answer];
    }
    AnswersAreRight(low, |ops|, max, ttl);
  }

  lemma RunNext<D>(ops: seq<Op<D>>, i: nat, max: int, ttl: int)
    requires i < |ops|
    ensures Run(ops[..i + 1], max, ttl) == After(Run(ops[..i], max, ttl), ops[i], max, ttl)
  {
    assert ops[..i + 1] == ops[..i] + [ops[i]];
    RunSnoc(ops[..i], ops[i], max, ttl);
  }

  // ---------------------------------------------------------------- lookups and deletions

  lemma {:induction false} LookupFacts<D>(es: Entries<D>, key: string)
    ensures Lookup(es, key).Some? <==> exists i :: 0 <= i < |es| && es[i].key == key
    ensures Lookup(es, key).Some? ==> Lookup(es, key).value in es && Lookup(es, key).value.key == key
  {
    if es == [] {
    } else if es[0].key != key {
      LookupFacts(es[1..], key);
      if Lookup(es[1..], key).Some? {
        var i :| 0 <= i < |es[1..]| && es[1..][i].key == key;
        assert es[i + 1].key == key;
      }
    }
  }

  /** With distinct keys, Delete removes the one entry with that key and moves nothing else. */
  lemma DeleteFacts<D(!new)>(es: Entries<D>, key: string)
    requires DistinctKeys(es)
    ensures DistinctKeys(Delete(es, key))
    ensures |Delete(es, key)| == |es| - (if Lookup(es, key).Some? then 1 else 0)
    ensures forall e :: e in Delete(es, key) <==> e in es && e.key != key
  {
    var m := DeleteShape(es, key);
    LookupFacts(es, key);
    if m < |es| {
      CutMembers(es, m);
    }
  }

  lemma CutMembers<D(!new)>(es: Entries<D>, m: nat)
    requires DistinctKeys(es) && m < |es|
    ensures forall e :: e in es[..m] + es[m + 1..] <==> e in es && e.key != es[m].key
  {
    var cut := es[..m] + es[m + 1..];
    forall e | e in es && e.key != es[m].key ensures e in cut {
      var i :| 0 <= i < |es| && es[i] == e;
      assert cut[if i < m then i else i - 1] == e;
    }
    forall e | e in cut ensures e in es && e.key != es[m].key {
      var j :| 0 <= j < |cut| && cut[j] == e;
      assert e == es[if j < m then j else j + 1];
    }
  }

  lemma {:induction false} LookupMember<D>(es: Entries<D>, e: Entry<D>)
    requires DistinctKeys(es) && e in es
    ensures Lookup(es, e.key) == Some(e)
  {
    if es[0].key != e.key {
      LookupMember(es[1..], e);
    } else {
      assert es[0] == e;
    }
  }

  /** Delete cuts out one position, or nothing. */
  lemma {:induction false} DeleteShape<D>(es: Entries<D>, key: string) returns (m: nat)
    ensures Lookup(es, key).None? ==> m == |es| && Delete(es, key) == es
    ensures Lookup(es, key).Some? ==>
      m < |es| && es[m].key == key && Lookup(es, key) == Some(es[m]) && Delete(es, key) == es[..m] + es[m + 1..]
  {
    if es == [] {
      m := 0;
    } else if es[0].key == key {
      m := 0;
    } else {
      var n := DeleteShape(es[1..], key);
      m := n + 1;
    }
  }

  lemma RunSnoc<D>(ops: seq<Op<D>>, op: Op<D>, max: int, ttl: int)
    ensures Run(ops + [op], max, ttl) == After(Run(ops, max, ttl), op, max, ttl)
  {
    assert (ops + [op])[..|ops|] == ops;
  }

  // ---------------------------------------------------------------- size

  function Limit(max: int): nat { if max < 1 then 1 else max }

  ghost predicate NonEmptyKeys<D>(ops: seq<Op<D>>) {
    forall i | 0 <= i < |ops| :: ops[i].key != ""
  }

  ghost predicate Bounded<D>(es: Entries<D>, max: int) {
    DistinctKeys(es) && |es| <= Limit(max)
  }

  /** Where the entries go in one operation: who can be in the map afterwards, and who can have left it. */
  lemma AfterMembers<D(!new)>(es: Entries<D>, op: Op<D>, max: int, ttl: int)
    requires DistinctKeys(es)
    ensures var fs := After(es, op, max, ttl);
      && DistinctKeys(fs)
      && (forall e | e in fs :: e in es || (op.Set? && e == Entry(op.key, op.data, op.now + ttl)))
      && (forall e | e in es && e !in fs ::
            || (op.Set? && op.key == e.key)
            || (op.Get? && op.key == e.key && op.now > e.expiresAt)
            || (op.Set? && Lookup(es, op.key).None? && |es| >= max && e == es[0]))
      && (op.Set? ==> fs[|fs| - 1] == Entry(op.key, op.data, op.now + ttl))
  {
    match op
    case Get(key, now) => GetMembers(es, key, now);
    case Set(key, data, now) => SetMembers(es, key, data, now, max, ttl);
  }

  lemma SetMembers<D(!new)>(es: Entries<D>, key: string, data: D, now: int, max: int, ttl: int)
    requires DistinctKeys(es)
    ensures var fs := AfterSet(es, key, data, now, max, ttl);
      && DistinctKeys(fs)
      && (forall e | e in fs :: e in es || e == Entry(key, data, now + ttl))
      && (forall e | e in es && e !in fs :: key == e.key || (Lookup(es, key).None? && |es| >= max && e == es[0]))
      && fs[|fs| - 1] == Entry(key, data, now + ttl)
  {
    LookupFacts(es, key);
    if Lookup(es, key).Some? {
      DeleteFacts(es, key);
      AppendDistinct(Delete(es, key), Entry(key, data, now + ttl));
    } else {
      forall e | e in es ensures e.key != key {
        LookupMember(es, e);
      }
      AppendDistinct(MakeRoom(es, max), Entry(key, data, now + ttl));
      forall e | e in es && e !in MakeRoom(es, max) ensures |es| >= max && e == es[0] {
        assert es == [es[0]] + es[1..];
      }
    }
  }

  lemma GetMembers<D(!new)>(es: Entries<D>, key: string, now: int)
    requires DistinctKeys(es)
    ensures var fs := AfterGet(es, key, now);
      && DistinctKeys(fs) && |fs| <= |es|
      && (forall e | e in fs :: e in es)
      && (forall e | e in es && e !in fs :: e.key == key && now > e.expiresAt)
  {
    DeleteFacts(es, key);
    LookupFacts(es, key);
    var e := Lookup(es, key);
    if e.Some? {
      LookupMember(es, e.value);
      forall x | x in es && x.key == key ensures x == e.value {
        LookupMember(es, x);
      }
      if now <= e.value.expiresAt {
        AppendDistinct(Delete(es, key), e.value);
      }
    }
  }

  /** One operation keeps the size within the limit except for one kind of write. */
  lemma StepBounded<D(!new)>(es: Entries<D>, op: Op<D>, max: int, ttl: int)
    requires Bounded(es, max)
    ensures |After(es, op, max, ttl)| > Limit(max) <==>
      op.Set? && Lookup(es, op.key).None? && |es| >= max && es != [] && es[0].key == ""
  {
    DeleteFacts(es, op.key);
    if op.Get? {
      GetMembers(es, op.key, op.now);
    }
  }

  lemma AppendDistinct<D>(es: Entries<D>, e: Entry<D>)
    requires DistinctKeys(es) && forall x | x in es :: x.key != e.key
    ensures DistinctKeys(es + [e])
  {
  }

  /** After any trace over non-empty keys: keys are distinct and number at most WHOIS_CACHE_MAX. */
  lemma {:induction false} CacheNeverOverflows<D(!new)>(ops: seq<Op<D>>, max: int, ttl: int)
    requires NonEmptyKeys(ops)
    ensures Bounded(Run(ops, max, ttl), max)
    ensures forall e | e in Run(ops, max, ttl) :: e.key != ""
    decreases |ops|
  {
    if ops == [] {
    } else {
      var init, op := ops[..|ops| - 1], ops[|ops| - 1];
      CacheNeverOverflows(init, max, ttl);
      AfterMembers(Run(init, max, ttl), op, max, ttl);
      StepBounded(Run(init, max, ttl), op, max, ttl);
    }
  }

  /** The guard is needed: an empty key at the head is never evicted, so a cache for one entry comes to hold two. */
  lemma EmptyKeyOverflows<D>(data: D, key: string, ttl: int)
    requires key != ""
    ensures |Run([Set("", data, 0), Set(key, data, 0)], 1, ttl)| == 2
  {
    var first, second := Set("", data, 0), Set(key, data, 0);
    var one: Entries<D> := [Entry("", data, 0 + ttl)];
    assert AfterSet([], "", data, 0, 1, ttl) == [] + one == one;
    OneUndeletable(one, key);
    RunSnoc([], first, 1, ttl);
    assert [] + [first] == [first];
    RunSnoc([first], second, 1, ttl);
    assert [first] + [second] == [first, second];
  }

  lemma OneUndeletable<D>(one: Entries<D>, key: string)
    requires |one| == 1 && one[0].key == "" && key != ""
    ensures Lookup(one, key).None? && MakeRoom(one, 1) == one
  {
    assert one[1..] == [];
  }

  // ---------------------------------------------------------------- agreement with the log of writes

  datatype Written<+D> = Written(data: D, time: int)

  /** The latest write of a key in the trace. */
  function LatestWrite<D>(ops: seq<Op<D>>, key: string): Option<Written<D>> {
    if ops == [] then None
    else
      var op := ops[|ops| - 1];
      if op.Set? && op.key == key then Some(Written(op.data, op.now)) else LatestWrite(ops[..|ops| - 1], key)
  }

  ghost predicate FromLog<D>(ops: seq<Op<D>>, e: Entry<D>, ttl: int) {
    var w := LatestWrite(ops, e.key);
    w.Some? && w.value.data == e.data && e.expiresAt == w.value.time + ttl
  }

  lemma {:induction false} EntriesFollowLog<D(!new)>(ops: seq<Op<D>>, max: int, ttl: int)
    ensures forall e | e in Run(ops, max, ttl) :: FromLog(ops, e, ttl)
    decreases |ops|
  {
    if ops == [] {
    } else {
      var init, op := ops[..|ops| - 1], ops[|ops| - 1];
      EntriesFollowLog(init, max, ttl);
      var es := Run(init, max, ttl);
      RunDistinct(init, max, ttl);
      AfterMembers(es, op, max, ttl);
      forall e | e in Run(ops, max, ttl) ensures FromLog(ops, e, ttl) {
        if op.Set? && op.key == e.key {
          SetReplaces(es, op, max, ttl, e);
        } else {
          assert FromLog(init, e, ttl);
        }
      }
    }
  }

  lemma SetReplaces<D(!new)>(es: Entries<D>, op: Op<D>, max: int, ttl: int, e: Entry<D>)
    requires DistinctKeys(es) && op.Set? && e in After(es, op, max, ttl) && e.key == op.key
    ensures e == Entry(op.key, op.data, op.now + ttl)
  {
    AfterMembers(es, op, max, ttl);
    var fs := After(es, op, max, ttl);
    var i :| 0 <= i < |fs| && fs[i] == e;
    assert fs[|fs| - 1].key == op.key;
  }

  lemma {:induction false} RunDistinct<D(!new)>(ops: seq<Op<D>>, max: int, ttl: int)
    ensures DistinctKeys(Run(ops, max, ttl))
    decreases |ops|
  {
    if ops == [] {
    } else {
      var init, op := ops[..|ops| - 1], ops[|ops| - 1];
      RunDistinct(init, max, ttl);
      AfterMembers(Run(init, max, ttl), op, max, ttl);
    }
  }

  /** A hit is the data of the latest write of that key, and that write is at most TTL old: reads extend nothing. */
  lemma HitIsLatestFreshWrite<D(!new)>(ops: seq<Op<D>>, max: int, ttl: int, key: string, now: int)
    requires Hit(Run(ops, max, ttl), key, now).Some?
    ensures var w := LatestWrite(ops, key);
      w.Some? && Hit(Run(ops, max, ttl), key, now).value == w.value.data && now <= w.value.time + ttl
  {
    EntriesFollowLog(ops, max, ttl);
    LookupFacts(Run(ops, max, ttl), key);
  }

  ghost predicate ClockMonotone<D>(ops: seq<Op<D>>) {
    forall i, j | 0 <= i <= j < |ops| :: ops[i].now <= ops[j].now
  }

  function WrittenKeys<D>(ops: seq<Op<D>>): set<string> {
    set i | 0 <= i < |ops| && ops[i].Set? :: ops[i].key
  }

  /** The reference: an unbounded log, read by its latest write. */
  function LogHit<D>(ops: seq<Op<D>>, ttl: int, key: string, now: int): Option<D> {
    var w := LatestWrite(ops, key);
    if w.Some? && now <= w.value.time + ttl then Some(w.value.data) else None
  }

  function KeySet<D>(es: Entries<D>): set<string> {
    set i | 0 <= i < |es| :: es[i].key
  }

  lemma {:induction false} KeySetSize<D(!new)>(es: Entries<D>)
    requires DistinctKeys(es)
    ensures |KeySet(es)| == |es|
  {
    if es == [] {
    } else {
      var rest := es[..|es| - 1];
      KeySetSize(rest);
      assert KeySet(es) == KeySet(rest) + {es[|es| - 1].key};
    }
  }

  lemma SubsetSize(a: set<string>, b: set<string>)
    requires a <= b
    ensures |a| <= |b|
  {
    assert b == a + (b - a);
  }

  /** A key that left a cache big enough for every written key left because its write had expired by then. */
  lemma {:induction false} BigCacheForgetsOnlyExpired<D(!new)>(ops: seq<Op<D>>, max: int, ttl: int, key: string)
    requires ClockMonotone(ops) && |WrittenKeys(ops)| <= max
    requires LatestWrite(ops, key).Some?
    ensures Lookup(Run(ops, max, ttl), key).Some?
         || ops[|ops| - 1].now > LatestWrite(ops, key).value.time + ttl
    decreases |ops|
  {
    var init, op := ops[..|ops| - 1], ops[|ops| - 1];
    if op.Set? && op.key == key {
      RunDistinct(init, max, ttl);
      JustWritten(Run(init, max, ttl), op, max, ttl);
    } else {
      ShorterTrace(ops, max);
      BigCacheForgetsOnlyExpired(init, max, ttl, key);
      if Lookup(Run(init, max, ttl), key).Some? {
        BigCacheStep(init, op, max, ttl, key);
      }
    }
  }

  lemma JustWritten<D(!new)>(es: Entries<D>, op: Op<D>, max: int, ttl: int)
    requires DistinctKeys(es) && op.Set?
    ensures Lookup(After(es, op, max, ttl), op.key) == Some(Entry(op.key, op.data, op.now + ttl))
  {
    SetMembers(es, op.key, op.data, op.now, max, ttl);
    LookupMember(After(es, op, max, ttl), Entry(op.key, op.data, op.now + ttl));
  }

  lemma ShorterTrace<D(!new)>(ops: seq<Op<D>>, max: int)
    requires ops != [] && ClockMonotone(ops) && |WrittenKeys(ops)| <= max
    ensures var init, op := ops[..|ops| - 1], ops[|ops| - 1];
      && ClockMonotone(init) && |WrittenKeys(init)| <= max
      && |WrittenKeys(init) + (if op.Set? then {op.key} else {})| <= max
      && (init != [] ==> init[|init| - 1].now <= op.now)
  {
    var init, op := ops[..|ops| - 1], ops[|ops| - 1];
    assert ops == init + [op];
    WrittenSnoc(init, op);
    SubsetSize(WrittenKeys(init), WrittenKeys(ops));
  }

  lemma WrittenSnoc<D(!new)>(init: seq<Op<D>>, op: Op<D>)
    ensures WrittenKeys(init + [op]) == WrittenKeys(init) + (if op.Set? then {op.key} else {})
  {
    var ops := init + [op];
    forall k | k in WrittenKeys(init) ensures k in WrittenKeys(ops) {
      var i :| 0 <= i < |init| && init[i].Set? && init[i].key == k;
      assert ops[i].Set? && ops[i].key == k;
    }
    if op.Set? {
      assert ops[|init|].Set? && ops[|init|].key == op.key;
    }
  }

  lemma BigCacheStep<D(!new)>(init: seq<Op<D>>, op: Op<D>, max: int, ttl: int, key: string)
    requires |WrittenKeys(init) + (if op.Set? then {op.key} else {})| <= max
    requires Lookup(Run(init, max, ttl), key).Some? && !(op.Set? && op.key == key)
    ensures LatestWrite(init, key).Some?
    ensures Lookup(After(Run(init, max, ttl), op, max, ttl), key).Some?
         || op.now > LatestWrite(init, key).value.time + ttl
  {
    var es := Run(init, max, ttl);
    LookupFacts(es, key);
    var e := Lookup(es, key).value;
    RunDistinct(init, max, ttl);
    EntriesFollowLog(init, max, ttl);
    assert FromLog(init, e, ttl);
    AfterMembers(es, op, max, ttl);
    BigCacheKeys(init, max, ttl);
    if op.Set? && Lookup(es, op.key).None? {
      RoomToSpare(es, WrittenKeys(init), op.key, max);
    }
    if e in After(es, op, max, ttl) {
      LookupMember(After(es, op, max, ttl), e);
    }
  }

  lemma RoomToSpare<D(!new)>(es: Entries<D>, written: set<string>, key: string, max: int)
    requires DistinctKeys(es) && KeySet(es) <= written
    requires |written + {key}| <= max && Lookup(es, key).None?
    ensures |es| < max
  {
    KeySetSize(es);
    LookupFacts(es, key);
    assert key !in KeySet(es);
    SubsetSize(KeySet(es) + {key}, written + {key});
  }

  lemma {:induction false} BigCacheKeys<D(!new)>(ops: seq<Op<D>>, max: int, ttl: int)
    ensures KeySet(Run(ops, max, ttl)) <= WrittenKeys(ops)
    decreases |ops|
  {
    if ops == [] {
    } else {
      var init, op := ops[..|ops| - 1], ops[|ops| - 1];
      BigCacheKeys(init, max, ttl);
      assert WrittenKeys(init) <= WrittenKeys(ops);
      var es := Run(init, max, ttl);
      RunDistinct(init, max, ttl);
      AfterMembers(es, op, max, ttl);
      forall k | k in KeySet(Run(ops, max, ttl)) ensures k in WrittenKeys(ops) {
        var i :| 0 <= i < |Run(ops, max, ttl)| && Run(ops, max, ttl)[i].key == k;
        var e := Run(ops, max, ttl)[i];
        if e in es {
          assert k in KeySet(es);
        } else {
          assert op.Set? && op.key == k && ops[|ops| - 1] == op;
        }
      }
    }
  }

  /** With room for every written key and a clock that does not run back, the cache is the log. */
  lemma BigCacheIsTheLog<D(!new)>(ops: seq<Op<D>>, max: int, ttl: int, key: string, now: int)
    requires ClockMonotone(ops) && |WrittenKeys(ops)| <= max
    requires forall i | 0 <= i < |ops| :: ops[i].now <= now
    ensures Hit(Run(ops, max, ttl), key, now) == LogHit(ops, ttl, key, now)
  {
    if Hit(Run(ops, max, ttl), key, now).Some? {
      HitIsLatestFreshWrite(ops, max, ttl, key, now);
    } else if LatestWrite(ops, key).Some? {
      BigCacheForgetsOnlyExpired(ops, max, ttl, key);
      EntriesFollowLog(ops, max, ttl);
      LookupFacts(Run(ops, max, ttl), key);
    }
  }
}
