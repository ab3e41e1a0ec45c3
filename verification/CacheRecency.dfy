/** What LRU promises over whole runs: map order is the order of last use, and nothing recent is evicted. */
module CacheRecency {
  import opened WhoisCache

  /** The keys used, in order: a write uses its key, and so does a read that hits. */
  function Uses<D>(ops: seq<Op<D>>, max: int, ttl: int): seq<string> {
    if ops == [] then []
    else
      var init, op := ops[..|ops| - 1], ops[|ops| - 1];
      Uses(init, max, ttl) + UseOf(Run(init, max, ttl), op)
  }

  function UseOf<D>(es: Entries<D>, op: Op<D>): seq<string> {
    if op.Set? || Hit(es, op.key, op.now).Some? then [op.key] else []
  }

  /** The distinct keys used after the last use of a key. */
  function UsedSince(uses: seq<string>, key: string): set<string> {
    if uses == [] || uses[|uses| - 1] == key then {}
    else UsedSince(uses[..|uses| - 1], key) + {uses[|uses| - 1]}
  }

  /** Keys a read found expired, and removed, after their last write. */
  function Dropped<D>(ops: seq<Op<D>>, max: int, ttl: int): set<string> {
    if ops == [] then {}
    else
      var init, op := ops[..|ops| - 1], ops[|ops| - 1];
      var before := Dropped(init, max, ttl);
      if op.Set? then before - {op.key}
      else if Lookup(Run(init, max, ttl), op.key).Some? && Hit(Run(init, max, ttl), op.key, op.now).None?
      then before + {op.key}
      else before
  }

  ghost predicate InOrderOfUse<D>(es: Entries<D>, uses: seq<string>) {
    && (forall i | 0 <= i < |es| :: es[i].key in uses)
    && (forall i, j | 0 <= i < j < |es| ::
          es[j].key in UsedSince(uses, es[i].key) && es[i].key !in UsedSince(uses, es[j].key))
  }

  lemma UsedSinceSnoc(uses: seq<string>, key: string, k: string)
    ensures UsedSince(uses + [k], key) == if k == key then {} else UsedSince(uses, key) + {k}
  {
    assert (uses + [k])[..|uses|] == uses;
  }

  lemma {:induction false} NotUsedSinceItself(uses: seq<string>, key: string)
    ensures key !in UsedSince(uses, key)
  {
    if uses == [] {
    } else {
      NotUsedSinceItself(uses[..|uses| - 1], key);
    }
  }

  lemma OrderWithout<D>(es: Entries<D>, key: string, uses: seq<string>)
    requires InOrderOfUse(es, uses)
    ensures InOrderOfUse(Delete(es, key), uses)
  {
    var m := DeleteShape(es, key);
  }

  lemma OrderAppend<D>(es: Entries<D>, e: Entry<D>, uses: seq<string>)
    requires InOrderOfUse(es, uses) && forall x | x in es :: x.key != e.key
    ensures InOrderOfUse(es + [e], uses + [e.key])
  {
    var fs, after := es + [e], uses + [e.key];
    forall i, j | 0 <= i < j < |fs|
      ensures fs[j].key in UsedSince(after, fs[i].key) && fs[i].key !in UsedSince(after, fs[j].key)
    {
      UsedSinceSnoc(uses, fs[i].key, e.key);
      UsedSinceSnoc(uses, fs[j].key, e.key);
      assert fs[i] in es;
    }
  }

  lemma OrderSet<D(!new)>(es: Entries<D>, uses: seq<string>, e: Entry<D>, max: int)
    requires DistinctKeys(es) && InOrderOfUse(es, uses)
    ensures var rest := if Lookup(es, e.key).Some? then Delete(es, e.key) else MakeRoom(es, max);
      InOrderOfUse(rest + [e], uses + [e.key])
  {
    LookupFacts(es, e.key);
    if Lookup(es, e.key).Some? {
      DeleteFacts(es, e.key);
      OrderWithout(es, e.key, uses);
      OrderAppend(Delete(es, e.key), e, uses);
    } else {
      forall x | x in MakeRoom(es, max) ensures x.key != e.key {
        LookupMember(es, x);
      }
      OrderAppend(MakeRoom(es, max), e, uses);
    }
  }

  lemma OrderGet<D(!new)>(es: Entries<D>, uses: seq<string>, key: string, now: int)
    requires DistinctKeys(es) && InOrderOfUse(es, uses)
    ensures InOrderOfUse(AfterGet(es, key, now), uses + (if Hit(es, key, now).Some? then [key] else []))
  {
    assert uses + [] == uses;
    OrderWithout(es, key, uses);
    if Hit(es, key, now).Some? {
      DeleteFacts(es, key);
      LookupFacts(es, key);
      OrderAppend(Delete(es, key), Lookup(es, key).value, uses);
    }
  }

  lemma OrderStep<D(!new)>(es: Entries<D>, uses: seq<string>, op: Op<D>, max: int, ttl: int)
    requires DistinctKeys(es) && InOrderOfUse(es, uses)
    ensures InOrderOfUse(After(es, op, max, ttl), uses + UseOf(es, op))
  {
    match op
    case Get(key, now) =>
      assert After(es, op, max, ttl) == AfterGet(es, key, now);
      assert UseOf(es, op) == if Hit(es, key, now).Some? then [key] else [];
      OrderGet(es, uses, key, now);
    case Set(key, data, now) =>
      var rest := if Lookup(es, key).Some? then Delete(es, key) else MakeRoom(es, max);
      assert After(es, op, max, ttl) == rest + [Entry(key, data, now + ttl)];
      assert UseOf(es, op) == [key];
      OrderSet(es, uses, Entry(key, data, now + ttl), max);
  }

  /** At every point of every trace, the map's order is the order of last use. */
  lemma {:induction false} MapOrderIsUseOrder<D(!new)>(ops: seq<Op<D>>, max: int, ttl: int)
    ensures InOrderOfUse(Run(ops, max, ttl), Uses(ops, max, ttl))
    decreases |ops|
  {
    if ops == [] {
      assert Run(ops, max, ttl) == [];
    } else {
      var init, op := ops[..|ops| - 1], ops[|ops| - 1];
      MapOrderIsUseOrder(init, max, ttl);
      RunDistinct(init, max, ttl);
      OrderStep(Run(init, max, ttl), Uses(init, max, ttl), op, max, ttl);
    }
  }

  /** A write that evicts a key finds at least max distinct other keys used since, counting the one it writes. */
  lemma EvictedMeansStale<D(!new)>(ops: seq<Op<D>>, op: Op<D>, max: int, ttl: int, victim: string)
    requires op.Set? && op.key != victim
    requires Lookup(Run(ops, max, ttl), victim).Some? && Lookup(Run(ops + [op], max, ttl), victim).None?
    ensures victim in Uses(ops, max, ttl)
    ensures victim !in UsedSince(Uses(ops + [op], max, ttl), victim)
    ensures |UsedSince(Uses(ops + [op], max, ttl), victim)| >= max
  {
    var es, uses := Run(ops, max, ttl), Uses(ops, max, ttl);
    RunSnoc(ops, op, max, ttl);
    assert (ops + [op])[..|ops|] == ops;
    RunDistinct(ops, max, ttl);
    MapOrderIsUseOrder(ops, max, ttl);
    LookupFacts(es, victim);
    LookupFacts(es, op.key);
    var e := Lookup(es, victim).value;
    AfterMembers(es, op, max, ttl);
    if e in Run(ops + [op], max, ttl) {
      RunDistinct(ops + [op], max, ttl);
      LookupMember(Run(ops + [op], max, ttl), e);
    }
    assert e == es[0] && |es| >= max && Lookup(es, op.key).None?;
    UsedSinceSnoc(uses, victim, op.key);
    NotUsedSinceItself(uses + [op.key], victim);
    var others := KeySet(es[1..]) + {op.key};
    assert DistinctKeys(es[1..]);
    KeySetSize(es[1..]);
    assert op.key !in KeySet(es[1..]);
    SubsetSize(others, UsedSince(uses + [op.key], victim));
  }

  lemma OwnUseKeeps<D(!new)>(init: seq<Op<D>>, op: Op<D>, max: int, ttl: int)
    requires op.Set? || Lookup(Run(init, max, ttl), op.key).Some?
    requires op.key !in Dropped(init + [op], max, ttl)
    ensures Lookup(Run(init + [op], max, ttl), op.key).Some?
  {
    assert (init + [op])[..|init|] == init;
    RunSnoc(init, op, max, ttl);
    RunDistinct(init, max, ttl);
    if op.Set? {
      JustWritten(Run(init, max, ttl), op, max, ttl);
    } else {
      StillThere(Run(init, max, ttl), op, max, ttl, op.key);
    }
  }

  lemma OtherUseKeeps<D(!new)>(init: seq<Op<D>>, op: Op<D>, max: int, ttl: int, key: string)
    requires op.key != key && Lookup(Run(init, max, ttl), key).Some?
    requires |UsedSince(Uses(init + [op], max, ttl), key)| < max
    ensures Lookup(Run(init + [op], max, ttl), key).Some?
  {
    RunSnoc(init, op, max, ttl);
    RunDistinct(init, max, ttl);
    if op.Get? {
      StillThere(Run(init, max, ttl), op, max, ttl, key);
    } else if Lookup(Run(init + [op], max, ttl), key).None? {
      EvictedMeansStale(init, op, max, ttl, key);
    }
  }

  /** If the last operation does not use a key, the key was recently used, and not dropped, before it. */
  lemma RecentBefore<D(!new)>(init: seq<Op<D>>, op: Op<D>, max: int, ttl: int, key: string)
    requires !(op.key == key && UseOf(Run(init, max, ttl), op) == [key])
    requires key in Uses(init + [op], max, ttl) && key !in Dropped(init + [op], max, ttl)
    ensures key in Uses(init, max, ttl) && key !in Dropped(init, max, ttl)
    ensures |UsedSince(Uses(init, max, ttl), key)| <= |UsedSince(Uses(init + [op], max, ttl), key)|
  {
    assert (init + [op])[..|init|] == init;
    var uses := Uses(init, max, ttl);
    assert uses + [] == uses;
    UsedSinceSnoc(uses, key, op.key);
    SubsetSize(UsedSince(uses, key), UsedSince(Uses(init + [op], max, ttl), key));
  }

  /**
   The guarantee a client can rely on: a key that has been used, that no read has found expired
   since it was written, and since whose last use fewer than max distinct other keys were used, is
   in the cache.
   */
  lemma {:induction false} RecentKeysAreCached<D(!new)>(ops: seq<Op<D>>, max: int, ttl: int, key: string)
    requires key in Uses(ops, max, ttl) && key !in Dropped(ops, max, ttl)
    requires |UsedSince(Uses(ops, max, ttl), key)| < max
    ensures Lookup(Run(ops, max, ttl), key).Some?
    decreases |ops|
  {
    var init, op := ops[..|ops| - 1], ops[|ops| - 1];
    assert ops == init + [op];
    if op.key == key && UseOf(Run(init, max, ttl), op) == [key] {
      OwnUseKeeps(init, op, max, ttl);
    } else {
      RecentBefore(init, op, max, ttl, key);
      RecentKeysAreCached(init, max, ttl, key);
      if op.key == key {
        OwnUseKeeps(init, op, max, ttl);
      } else {
        OtherUseKeeps(init, op, max, ttl, key);
      }
    }
  }

  lemma StillThere<D(!new)>(es: Entries<D>, op: Op<D>, max: int, ttl: int, key: string)
    requires DistinctKeys(es) && Lookup(es, key).Some? && op.Get?
    requires op.key == key ==> op.now <= Lookup(es, key).value.expiresAt
    ensures Lookup(After(es, op, max, ttl), key).Some?
  {
    LookupFacts(es, key);
    AfterMembers(es, op, max, ttl);
    LookupMember(After(es, op, max, ttl), Lookup(es, key).value);
  }
}
