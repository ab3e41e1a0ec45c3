/** Exactly which keys the cache holds after any trace, and what a read of an expired entry does to it. */
module CacheMembership {
  import opened Basics
  import opened WhoisCache
  import opened CacheRecency

  /** A read that finds its entry expired takes out that entry and leaves the others, in their order. */
  lemma ExpiredReadRemoves<D(!new)>(es: Entries<D>, key: string, now: int) returns (m: nat)
    requires DistinctKeys(es) && Lookup(es, key).Some? && now > Lookup(es, key).value.expiresAt
    ensures m < |es| && es[m].key == key && AfterGet(es, key, now) == es[..m] + es[m + 1..]
    ensures Lookup(AfterGet(es, key, now), key).None?
  {
    m := DeleteShape(es, key);
    DeleteFacts(es, key);
    LookupFacts(Delete(es, key), key);
  }

  lemma StaysAbsent<D(!new)>(es: Entries<D>, op: Op<D>, max: int, ttl: int, key: string)
    requires DistinctKeys(es) && Lookup(es, key).None? && !(op.Set? && op.key == key)
    ensures Lookup(After(es, op, max, ttl), key).None?
  {
    AfterMembers(es, op, max, ttl);
    LookupFacts(es, key);
    LookupFacts(After(es, op, max, ttl), key);
  }

  /** A key that a read found expired is gone until it is written again. */
  lemma {:induction false} DroppedIsGone<D(!new)>(ops: seq<Op<D>>, max: int, ttl: int, key: string)
    requires key in Dropped(ops, max, ttl)
    ensures Lookup(Run(ops, max, ttl), key).None?
    decreases |ops|
  {
    var init, op := ops[..|ops| - 1], ops[|ops| - 1];
    var es := Run(init, max, ttl);
    RunDistinct(init, max, ttl);
    if key in Dropped(init, max, ttl) {
      DroppedIsGone(init, max, ttl, key);
      StaysAbsent(es, op, max, ttl, key);
    } else {
      var m := ExpiredReadRemoves(es, key, op.now);
    }
  }

  // ---------------------------------------------------------------- what is newer than a key

  /** The distinct keys used since the last use of a key and not dropped since: those that stand behind it. */
  function Newer<D>(ops: seq<Op<D>>, max: int, ttl: int, key: string): set<string> {
    UsedSince(Uses(ops, max, ttl), key) - Dropped(ops, max, ttl)
  }

  /** Since the last use of the key there were always fewer newer keys than the cache has room for. */
  ghost predicate NeverCrowded<D>(ops: seq<Op<D>>, max: int, ttl: int, key: string)
    decreases |ops|
  {
    ops == [] ||
    var init, op := ops[..|ops| - 1], ops[|ops| - 1];
    (op.key == key && UseOf(Run(init, max, ttl), op) == [key])
    || (NeverCrowded(init, max, ttl, key) && |Newer(ops, max, ttl, key)| < Limit(max))
  }

  /** A key used since the last use of a held key, and not dropped, is held as well. */
  ghost predicate NewerHeld<D>(es: Entries<D>, uses: seq<string>, dropped: set<string>) {
    forall e, k | e in es && k in UsedSince(uses, e.key) && k !in dropped :: k in KeySet(es)
  }

  lemma KeyHeld<D>(es: Entries<D>, key: string)
    ensures key in KeySet(es) <==> Lookup(es, key).Some?
  {
    LookupFacts(es, key);
  }

  lemma HeldMember<D(!new)>(es: Entries<D>, key: string) returns (e: Entry<D>)
    requires key in KeySet(es)
    ensures e in es && e.key == key
  {
    var i :| 0 <= i < |es| && es[i].key == key;
    e := es[i];
  }

  lemma UsesSnoc<D>(init: seq<Op<D>>, op: Op<D>, max: int, ttl: int)
    ensures Uses(init + [op], max, ttl) == Uses(init, max, ttl) + UseOf(Run(init, max, ttl), op)
  {
    assert (init + [op])[..|init|] == init;
  }

  function DroppedNow<D>(es: Entries<D>, op: Op<D>, before: set<string>): set<string> {
    if op.Set? then before - {op.key}
    else if Lookup(es, op.key).Some? && Hit(es, op.key, op.now).None? then before + {op.key}
    else before
  }

  lemma DroppedSnoc<D>(init: seq<Op<D>>, op: Op<D>, max: int, ttl: int)
    ensures Dropped(init + [op], max, ttl) == DroppedNow(Run(init, max, ttl), op, Dropped(init, max, ttl))
  {
    assert (init + [op])[..|init|] == init;
  }

  /** The use of an operation joins what is newer than every other key. */
  lemma UsedSinceUse<D>(es: Entries<D>, op: Op<D>, uses: seq<string>, key: string)
    requires op.key != key || UseOf(es, op) == []
    ensures UsedSince(uses + UseOf(es, op), key) ==
      UsedSince(uses, key) + (if UseOf(es, op) == [] then {} else {op.key})
  {
    assert uses + [] == uses;
    UsedSinceSnoc(uses, key, op.key);
  }

  /** An entry keeps its place, or is the one just used. */
  lemma EntryBefore<D(!new)>(es: Entries<D>, op: Op<D>, max: int, ttl: int, e: Entry<D>)
    requires DistinctKeys(es) && e in After(es, op, max, ttl)
    requires op.key != e.key || UseOf(es, op) == []
    ensures e in es
  {
    AfterMembers(es, op, max, ttl);
  }

  /** What one operation takes out of the cache: the expired entry it read, or the oldest when it writes. */
  lemma KeyStays<D(!new)>(es: Entries<D>, op: Op<D>, max: int, ttl: int, uses: seq<string>, dropped: set<string>,
                          e: Entry<D>, k: string)
    requires DistinctKeys(es) && InOrderOfUse(es, uses)
    requires e in es && e in After(es, op, max, ttl) && op.key != k && k in KeySet(es) && k in UsedSince(uses, e.key)
    ensures k in KeySet(After(es, op, max, ttl))
  {
    var f := HeldMember(es, k);
    var j :| 0 <= j < |es| && es[j] == e;
    assert k != es[0].key by {
      NotUsedSinceItself(uses, k);
      assert j > 0 ==> es[0].key !in UsedSince(uses, es[j].key);
    }
    AfterMembers(es, op, max, ttl);
    var i :| 0 <= i < |After(es, op, max, ttl)| && After(es, op, max, ttl)[i] == f;
    assert After(es, op, max, ttl)[i].key == k;
  }

  lemma UsedIsHeld<D(!new)>(es: Entries<D>, op: Op<D>, max: int, ttl: int)
    requires DistinctKeys(es) && UseOf(es, op) != []
    ensures op.key in KeySet(After(es, op, max, ttl))
  {
    if op.Set? {
      JustWritten(es, op, max, ttl);
    } else {
      StillThere(es, op, max, ttl, op.key);
    }
    KeyHeld(After(es, op, max, ttl), op.key);
  }

  lemma NewerHeldStep<D(!new)>(es: Entries<D>, op: Op<D>, max: int, ttl: int, uses: seq<string>, dropped: set<string>)
    requires DistinctKeys(es) && InOrderOfUse(es, uses) && NewerHeld(es, uses, dropped)
    ensures NewerHeld(After(es, op, max, ttl), uses + UseOf(es, op), DroppedNow(es, op, dropped))
  {
    var fs, used := After(es, op, max, ttl), uses + UseOf(es, op);
    forall e, k | e in fs && k in UsedSince(used, e.key) && k !in DroppedNow(es, op, dropped)
      ensures k in KeySet(fs)
    {
      NewerHeldFor(es, op, max, ttl, uses, dropped, e, k);
    }
  }

  lemma NewerHeldFor<D(!new)>(es: Entries<D>, op: Op<D>, max: int, ttl: int, uses: seq<string>, dropped: set<string>,
                              e: Entry<D>, k: string)
    requires DistinctKeys(es) && InOrderOfUse(es, uses) && NewerHeld(es, uses, dropped)
    requires e in After(es, op, max, ttl)
    requires k in UsedSince(uses + UseOf(es, op), e.key) && k !in DroppedNow(es, op, dropped)
    ensures k in KeySet(After(es, op, max, ttl))
  {
    if op.key == e.key && UseOf(es, op) != [] {
      UsedSinceSnoc(uses, e.key, op.key);
    } else {
      EntryBefore(es, op, max, ttl, e);
      UsedSinceUse(es, op, uses, e.key);
      if k == op.key && UseOf(es, op) != [] {
        UsedIsHeld(es, op, max, ttl);
      } else if k == op.key {
        MissedIsNotHeld(es, op, dropped);
      } else {
        KeyStays(es, op, max, ttl, uses, dropped, e, k);
      }
    }
  }

  /** A read that uses nothing finds nothing, or drops what it finds. */
  lemma MissedIsNotHeld<D(!new)>(es: Entries<D>, op: Op<D>, dropped: set<string>)
    requires op.Get? && UseOf(es, op) == [] && op.key !in DroppedNow(es, op, dropped)
    ensures op.key !in KeySet(es) && op.key !in dropped
  {
    KeyHeld(es, op.key);
  }

  lemma {:induction false} NewerHeldRun<D(!new)>(ops: seq<Op<D>>, max: int, ttl: int)
    ensures NewerHeld(Run(ops, max, ttl), Uses(ops, max, ttl), Dropped(ops, max, ttl))
    decreases |ops|
  {
    if ops == [] {
      assert Run(ops, max, ttl) == [];
    } else {
      var init, op := ops[..|ops| - 1], ops[|ops| - 1];
      assert ops == init + [op];
      NewerHeldRun(init, max, ttl);
      RunDistinct(init, max, ttl);
      MapOrderIsUseOrder(init, max, ttl);
      RunSnoc(init, op, max, ttl);
      UsesSnoc(init, op, max, ttl);
      DroppedSnoc(init, op, max, ttl);
      NewerHeldStep(Run(init, max, ttl), op, max, ttl, Uses(init, max, ttl), Dropped(init, max, ttl));
    }
  }

  // ---------------------------------------------------------------- membership

  /** A held key leaves room for itself. */
  lemma HeldHasRoom<D(!new)>(ops: seq<Op<D>>, max: int, ttl: int, key: string)
    requires NonEmptyKeys(ops) && Lookup(Run(ops, max, ttl), key).Some?
    ensures key in Uses(ops, max, ttl) && key !in Dropped(ops, max, ttl)
    ensures |Newer(ops, max, ttl, key)| < Limit(max)
  {
    var es := Run(ops, max, ttl);
    CacheNeverOverflows(ops, max, ttl);
    NewerHeldRun(ops, max, ttl);
    MapOrderIsUseOrder(ops, max, ttl);
    LookupFacts(es, key);
    var e := Lookup(es, key).value;
    if key in Dropped(ops, max, ttl) {
      DroppedIsGone(ops, max, ttl, key);
    }
    NotUsedSinceItself(Uses(ops, max, ttl), key);
    KeyHeld(es, key);
    KeySetSize(es);
    assert Newer(ops, max, ttl, key) <= KeySet(es) - {key};
    SubsetSize(Newer(ops, max, ttl, key), KeySet(es) - {key});
  }

  lemma {:induction false} HeldIsUncrowded<D(!new)>(ops: seq<Op<D>>, max: int, ttl: int, key: string)
    requires NonEmptyKeys(ops) && Lookup(Run(ops, max, ttl), key).Some?
    ensures NeverCrowded(ops, max, ttl, key)
    decreases |ops|
  {
    if ops == [] {
    } else {
      var init, op := ops[..|ops| - 1], ops[|ops| - 1];
      HeldHasRoom(ops, max, ttl, key);
      RunDistinct(init, max, ttl);
      if op.key != key || UseOf(Run(init, max, ttl), op) == [] {
        if Lookup(Run(init, max, ttl), key).None? {
          StaysAbsent(Run(init, max, ttl), op, max, ttl, key);
        }
        HeldIsUncrowded(init, max, ttl, key);
      }
    }
  }

  lemma NewerAfterSet<D(!new)>(init: seq<Op<D>>, op: Op<D>, max: int, ttl: int, key: string)
    requires op.Set? && op.key != key
    ensures Newer(init + [op], max, ttl, key) == Newer(init, max, ttl, key) + {op.key}
  {
    UsesSnoc(init, op, max, ttl);
    DroppedSnoc(init, op, max, ttl);
    UsedSinceSnoc(Uses(init, max, ttl), key, op.key);
  }

  lemma CrowdSize<D(!new)>(es: Entries<D>, key: string, newer: set<string>, max: int)
    requires es != [] && |es| >= max && DistinctKeys(es[1..]) && key !in KeySet(es)
    requires KeySet(es[1..]) <= newer
    ensures |newer + {key}| >= Limit(max)
  {
    KeySetSize(es[1..]);
    assert KeySet(es[1..]) <= KeySet(es) by {
      assert forall i | 0 <= i < |es[1..]| :: es[1..][i].key == es[i + 1].key;
    }
    SubsetSize(KeySet(es[1..]) + {key}, newer + {key});
  }

  /** An eviction crowds its victim out: all the others, and the key just written, are newer. */
  lemma EvictionCrowds<D(!new)>(init: seq<Op<D>>, op: Op<D>, max: int, ttl: int, key: string)
    requires op.Set? && op.key != key
    requires Lookup(Run(init, max, ttl), key).Some? && Lookup(Run(init + [op], max, ttl), key).None?
    ensures |Newer(init + [op], max, ttl, key)| >= Limit(max)
  {
    var es := Run(init, max, ttl);
    RunSnoc(init, op, max, ttl);
    RunDistinct(init, max, ttl);
    VictimIsOldest(es, op, max, ttl, key);
    forall k | k in KeySet(es[1..]) ensures k in Newer(init, max, ttl, key) {
      YoungerIsNewer(init, max, ttl, key, k);
    }
    KeyHeld(es, op.key);
    CrowdSize(es, op.key, Newer(init, max, ttl, key), max);
    NewerAfterSet(init, op, max, ttl, key);
  }

  lemma YoungerIsNewer<D(!new)>(ops: seq<Op<D>>, max: int, ttl: int, key: string, k: string)
    requires var es := Run(ops, max, ttl);
      es != [] && es[0].key == key && k in KeySet(es[1..])
    ensures k in Newer(ops, max, ttl, key)
  {
    var es := Run(ops, max, ttl);
    MapOrderIsUseOrder(ops, max, ttl);
    var i :| 0 <= i < |es[1..]| && es[1..][i].key == k;
    assert es[i + 1].key in UsedSince(Uses(ops, max, ttl), es[0].key);
    if k in Dropped(ops, max, ttl) {
      DroppedIsGone(ops, max, ttl, k);
      LookupFacts(es, k);
    }
  }

  lemma VictimIsOldest<D(!new)>(es: Entries<D>, op: Op<D>, max: int, ttl: int, key: string)
    requires DistinctKeys(es) && op.Set? && op.key != key
    requires Lookup(es, key).Some? && Lookup(After(es, op, max, ttl), key).None?
    ensures es != [] && es[0].key == key && |es| >= max && Lookup(es, op.key).None?
    ensures DistinctKeys(es[1..])
  {
    LookupFacts(es, key);
    var e := Lookup(es, key).value;
    AfterMembers(es, op, max, ttl);
    LookupFacts(After(es, op, max, ttl), key);
  }

  lemma UncrowdedBefore<D(!new)>(init: seq<Op<D>>, op: Op<D>, max: int, ttl: int, key: string)
    requires NeverCrowded(init + [op], max, ttl, key)
    requires !(op.key == key && UseOf(Run(init, max, ttl), op) == [key])
    ensures NeverCrowded(init, max, ttl, key) && |Newer(init + [op], max, ttl, key)| < Limit(max)
  {
    assert (init + [op])[..|init|] == init;
  }

  lemma {:induction false} UncrowdedIsHeld<D(!new)>(ops: seq<Op<D>>, max: int, ttl: int, key: string)
    requires key in Uses(ops, max, ttl) && key !in Dropped(ops, max, ttl) && NeverCrowded(ops, max, ttl, key)
    ensures Lookup(Run(ops, max, ttl), key).Some?
    decreases |ops|
  {
    var init, op := ops[..|ops| - 1], ops[|ops| - 1];
    assert ops == init + [op];
    if op.key == key && UseOf(Run(init, max, ttl), op) == [key] {
      OwnUseKeeps(init, op, max, ttl);
    } else {
      RecentBefore(init, op, max, ttl, key);
      UncrowdedBefore(init, op, max, ttl, key);
      UncrowdedIsHeld(init, max, ttl, key);
      if op.key == key {
        OwnUseKeeps(init, op, max, ttl);
      } else {
        UnevictedStays(init, op, max, ttl, key);
      }
    }
  }

  /**
   Exactly what the cache holds: the keys that have been used, that no read has found expired since
   they were written, and behind which, since their last use, there were never as many live newer
   keys as the cache has room for.
   */
  lemma CachedIffNeverCrowded<D(!new)>(ops: seq<Op<D>>, max: int, ttl: int, key: string)
    requires NonEmptyKeys(ops)
    ensures Lookup(Run(ops, max, ttl), key).Some? <==>
      key in Uses(ops, max, ttl) && key !in Dropped(ops, max, ttl) && NeverCrowded(ops, max, ttl, key)
  {
    if Lookup(Run(ops, max, ttl), key).Some? {
      HeldHasRoom(ops, max, ttl, key);
      HeldIsUncrowded(ops, max, ttl, key);
    } else if key in Uses(ops, max, ttl) && key !in Dropped(ops, max, ttl) && NeverCrowded(ops, max, ttl, key) {
      UncrowdedIsHeld(ops, max, ttl, key);
    }
  }

  lemma UnevictedStays<D(!new)>(init: seq<Op<D>>, op: Op<D>, max: int, ttl: int, key: string)
    requires op.key != key && Lookup(Run(init, max, ttl), key).Some?
    requires |Newer(init + [op], max, ttl, key)| < Limit(max)
    ensures Lookup(Run(init + [op], max, ttl), key).Some?
  {
    RunSnoc(init, op, max, ttl);
    RunDistinct(init, max, ttl);
    if op.Get? {
      StillThere(Run(init, max, ttl), op, max, ttl, key);
    } else if Lookup(Run(init + [op], max, ttl), key).None? {
      EvictionCrowds(init, op, max, ttl, key);
    }
  }
}
