/** What a larger capacity can and cannot change: the inclusion property of LRU, with expiry. */
module CacheInclusion {
  import opened Basics
  import opened WhoisCache

  /** The entries whose keys are in a set, in their order. */
  function Keep<D>(es: Entries<D>, keys: set<string>): Entries<D> {
    if es == [] then []
    else if es[0].key in keys then [es[0]] + Keep(es[1..], keys)
    else Keep(es[1..], keys)
  }

  lemma {:induction false} KeepAppend<D>(es: Entries<D>, fs: Entries<D>, keys: set<string>)
    ensures Keep(es + fs, keys) == Keep(es, keys) + Keep(fs, keys)
  {
    if es == [] {
      assert es + fs == fs;
    } else {
      assert (es + fs)[1..] == es[1..] + fs;
      KeepAppend(es[1..], fs, keys);
    }
  }

  lemma {:induction false} KeepDelete<D>(es: Entries<D>, key: string, keys: set<string>)
    ensures Keep(Delete(es, key), keys) == if key in keys then Delete(Keep(es, keys), key) else Keep(es, keys)
  {
    if es == [] {
    } else if es[0].key != key {
      KeepDelete(es[1..], key, keys);
    }
  }

  lemma {:induction false} KeepLookup<D>(es: Entries<D>, key: string, keys: set<string>)
    ensures Lookup(Keep(es, keys), key) == if key in keys then Lookup(es, key) else None
  {
    if es == [] {
    } else {
      KeepLookup(es[1..], key, keys);
    }
  }

  lemma {:induction false} KeepWithout<D>(es: Entries<D>, key: string, keys: set<string>)
    requires Lookup(Keep(es, keys), key).None?
    ensures Keep(es, keys - {key}) == Keep(es, keys)
  {
    if es == [] {
    } else {
      KeepWithout(es[1..], key, keys);
    }
  }

  lemma {:induction false} KeepWith<D>(es: Entries<D>, key: string, keys: set<string>)
    requires Lookup(es, key).None?
    ensures Keep(es, keys + {key}) == Keep(es, keys)
  {
    if es == [] {
    } else {
      KeepWith(es[1..], key, keys);
    }
  }

  /** Dropping the first kept entry is keeping one key less. */
  lemma {:induction false} KeepDropFirst<D>(es: Entries<D>, keys: set<string>)
    requires DistinctKeys(es) && Keep(es, keys) != []
    ensures Keep(es, keys)[1..] == Keep(es, keys - {Keep(es, keys)[0].key})
  {
    if es[0].key in keys {
      var key := es[0].key;
      LookupFacts(es[1..], key);
      KeepLookup(es[1..], key, keys);
      KeepWithout(es[1..], key, keys);
    } else {
      KeepDropFirst(es[1..], keys);
    }
  }

  lemma DeleteLeavesNone<D(!new)>(es: Entries<D>, key: string)
    requires DistinctKeys(es)
    ensures Lookup(Delete(es, key), key).None?
  {
    DeleteFacts(es, key);
    LookupFacts(Delete(es, key), key);
  }

  /** The smaller cache is an in-order part of the larger, and no further behind than the capacities are apart. */
  ghost predicate Included<D>(small: Entries<D>, large: Entries<D>, c1: int, c2: int) {
    && Bounded(small, c1) && Bounded(large, c2)
    && (forall e | e in large :: e.key != "")
    && (exists keys :: small == Keep(large, keys))
    && |large| - |small| <= Limit(c2) - Limit(c1)
  }

  lemma MakeRoomWhenFull<D>(es: Entries<D>, max: int)
    requires |es| <= Limit(max) && forall e | e in es :: e.key != ""
    ensures MakeRoom(es, max) == if |es| == Limit(max) then es[1..] else es
  {
    if es != [] {
      assert es[0] in es;
    }
  }

  lemma {:induction false} KeepMembers<D>(es: Entries<D>, keys: set<string>)
    ensures forall e | e in Keep(es, keys) :: e in es && e.key in keys
  {
    if es == [] {
    } else {
      KeepMembers(es[1..], keys);
    }
  }

  lemma IncludedGet<D(!new)>(small: Entries<D>, large: Entries<D>, keys: set<string>, key: string, now: int)
      returns (kept: set<string>)
    requires DistinctKeys(small) && DistinctKeys(large) && small == Keep(large, keys)
    ensures AfterGet(small, key, now) == Keep(AfterGet(large, key, now), kept)
    ensures |AfterGet(large, key, now)| - |AfterGet(small, key, now)| <= |large| - |small|
  {
    KeepLookup(large, key, keys);
    DeleteFacts(small, key);
    DeleteFacts(large, key);
    var inSmall, inLarge := Lookup(small, key), Lookup(large, key);
    if inSmall.Some? {
      kept := keys;
      KeepDelete(large, key, keys);
      LookupFacts(large, key);
      KeepAppend(Delete(large, key), [inLarge.value], keys);
    } else {
      kept := keys - {key};
      KeepWithout(large, key, keys);
      KeepDelete(large, key, kept);
      if inLarge.Some? {
        LookupFacts(large, key);
        KeepAppend(Delete(large, key), [inLarge.value], kept);
      }
    }
  }

  /** What is left of both caches before a write appends its entry. */
  lemma IncludedRest<D(!new)>(small: Entries<D>, large: Entries<D>, keys: set<string>, key: string, c1: int, c2: int)
      returns (kept: set<string>)
    requires Included(small, large, c1, c2) && c1 <= c2 && small == Keep(large, keys)
    ensures var a := if Lookup(small, key).Some? then Delete(small, key) else MakeRoom(small, c1);
            var b := if Lookup(large, key).Some? then Delete(large, key) else MakeRoom(large, c2);
      a == Keep(b, kept) && |b| - |a| <= Limit(c2) - Limit(c1) && Lookup(b, key).None?
  {
    KeepLookup(large, key, keys);
    KeepMembers(large, keys);
    DeleteFacts(small, key);
    DeleteFacts(large, key);
    MakeRoomWhenFull(small, c1);
    MakeRoomWhenFull(large, c2);
    if Lookup(small, key).Some? {
      kept := keys;
      KeepDelete(large, key, keys);
      DeleteLeavesNone(large, key);
    } else if Lookup(large, key).Some? {
      kept := IncludedRestLargeOnly(small, large, keys, key, c1);
    } else {
      LookupFacts(large, key);
      LookupFacts(MakeRoom(large, c2), key);
      kept := IncludedRestNeither(small, large, keys, c1, c2);
    }
  }

  lemma IncludedRestLargeOnly<D(!new)>(small: Entries<D>, large: Entries<D>, keys: set<string>, key: string, c1: int)
      returns (kept: set<string>)
    requires DistinctKeys(large) && small == Keep(large, keys)
    requires |small| <= Limit(c1) && forall e | e in small :: e.key != ""
    requires Lookup(small, key).None? && Lookup(large, key).Some?
    ensures MakeRoom(small, c1) == Keep(Delete(large, key), kept)
    ensures Lookup(Delete(large, key), key).None?
  {
    var ks := keys - {key};
    KeepWithout(large, key, keys);
    KeepDelete(large, key, ks);
    DeleteFacts(large, key);
    DeleteLeavesNone(large, key);
    MakeRoomWhenFull(small, c1);
    if |small| == Limit(c1) {
      KeepDropFirst(Delete(large, key), ks);
      kept := ks - {small[0].key};
    } else {
      kept := ks;
    }
  }

  lemma IncludedRestNeither<D(!new)>(small: Entries<D>, large: Entries<D>, keys: set<string>, c1: int, c2: int)
      returns (kept: set<string>)
    requires Included(small, large, c1, c2) && c1 <= c2 && small == Keep(large, keys)
    ensures MakeRoom(small, c1) == Keep(MakeRoom(large, c2), kept)
    ensures |MakeRoom(large, c2)| - |MakeRoom(small, c1)| <= Limit(c2) - Limit(c1)
  {
    KeepMembers(large, keys);
    MakeRoomWhenFull(small, c1);
    MakeRoomWhenFull(large, c2);
    kept := keys;
    if |large| == Limit(c2) {
      assert |small| == Limit(c1);
      if large[0].key !in keys {
        KeepDropFirst(large[1..], keys);
        kept := keys - {small[0].key};
      }
    } else if |small| == Limit(c1) {
      KeepDropFirst(large, keys);
      kept := keys - {small[0].key};
    }
  }

  lemma IncludedSet<D(!new)>(small: Entries<D>, large: Entries<D>, op: Op<D>, c1: int, c2: int, ttl: int)
    requires op.Set? && Included(small, large, c1, c2) && c1 <= c2
    ensures exists kept :: After(small, op, c1, ttl) == Keep(After(large, op, c2, ttl), kept)
    ensures |After(large, op, c2, ttl)| - |After(small, op, c1, ttl)| <= Limit(c2) - Limit(c1)
  {
    var keys :| small == Keep(large, keys);
    var kept := IncludedRest(small, large, keys, op.key, c1, c2);
    var x := Entry(op.key, op.data, op.now + ttl);
    var b := if Lookup(large, op.key).Some? then Delete(large, op.key) else MakeRoom(large, c2);
    KeepWith(b, op.key, kept);
    KeepAppend(b, [x], kept + {op.key});
    assert Keep([x], kept + {op.key}) == [x];
    assert After(small, op, c1, ttl) == Keep(After(large, op, c2, ttl), kept + {op.key});
  }

  lemma IncludedStep<D(!new)>(small: Entries<D>, large: Entries<D>, op: Op<D>, c1: int, c2: int, ttl: int)
    requires Included(small, large, c1, c2) && c1 <= c2 && op.key != ""
    ensures Included(After(small, op, c1, ttl), After(large, op, c2, ttl), c1, c2)
  {
    var keys :| small == Keep(large, keys);
    KeepMembers(large, keys);
    AfterMembers(small, op, c1, ttl);
    AfterMembers(large, op, c2, ttl);
    StepBounded(small, op, c1, ttl);
    StepBounded(large, op, c2, ttl);
    if op.Get? {
      var kept := IncludedGet(small, large, keys, op.key, op.now);
    } else {
      IncludedSet(small, large, op, c1, c2, ttl);
    }
  }

  lemma {:induction false} IncludedRun<D(!new)>(ops: seq<Op<D>>, c1: int, c2: int, ttl: int)
    requires c1 <= c2 && NonEmptyKeys(ops)
    ensures Included(Run(ops, c1, ttl), Run(ops, c2, ttl), c1, c2)
    decreases |ops|
  {
    if ops == [] {
      assert Run(ops, c1, ttl) == Keep(Run(ops, c2, ttl), {});
    } else {
      IncludedRun(ops[..|ops| - 1], c1, c2, ttl);
      IncludedStep(Run(ops[..|ops| - 1], c1, ttl), Run(ops[..|ops| - 1], c2, ttl), ops[|ops| - 1], c1, c2, ttl);
    }
  }

  /** Fed one trace, the smaller cache is always an in-order part of the larger; so more capacity never loses a hit. */
  lemma MoreCapacityNeverLosesAHit<D(!new)>(ops: seq<Op<D>>, c1: int, c2: int, ttl: int, key: string, now: int)
    requires c1 <= c2 && NonEmptyKeys(ops)
    ensures exists keys :: Run(ops, c1, ttl) == Keep(Run(ops, c2, ttl), keys)
    ensures Hit(Run(ops, c1, ttl), key, now).Some? ==>
      Hit(Run(ops, c2, ttl), key, now) == Hit(Run(ops, c1, ttl), key, now)
  {
    IncludedRun(ops, c1, c2, ttl);
    var keys :| Run(ops, c1, ttl) == Keep(Run(ops, c2, ttl), keys);
    KeepLookup(Run(ops, c2, ttl), key, keys);
  }
}
