/** The bounded time-to-live cache, against an unbounded map of latest values. */
module Cache {
  import opened Domain

  datatype Entry<T> = Entry(value: T, insertedAt: nat, ttl: nat)

  type Entries<T> = map<string, Entry<T>>

  predicate Expired<T>(e: Entry<T>, now: nat)
  {
    now - e.insertedAt > e.ttl
  }

  /** What a lookup returns. */
  function Lookup<T>(c: Entries<T>, key: string, now: nat): Option<T>
  {
    if key in c && !Expired(c[key], now) then Some(c[key].value) else None
  }

  ghost predicate IsOldest<T>(c: Entries<T>, k: string)
  {
    k in c && forall j :: j in c ==> c[k].insertedAt <= c[j].insertedAt
  }

  /** An insertion: at capacity an oldest entry goes first, even when the key is only overwritten. */
  ghost predicate Inserted<T(!new)>(max: nat, c: Entries<T>, c': Entries<T>, key: string, e: Entry<T>)
  {
    if |c| >= max && c != map[]
    then exists k :: IsOldest(c, k) && c' == (c - {k})[key := e]
    else c' == c[key := e]
  }

  function Unexpired<T>(c: Entries<T>, now: nat): Entries<T>
  {
    map k | k in c && !Expired(c[k], now) :: c[k]
  }

  class IntelligenceCache<T(!new)> {
    var entries: Entries<T>
    const maxEntries: nat
    const defaultTtl: nat

    constructor (maxEntries: nat, defaultTtl: nat)
      ensures entries == map[] && this.maxEntries == maxEntries && this.defaultTtl == defaultTtl
    {
      entries := map[];
      this.maxEntries := maxEntries;
      this.defaultTtl := defaultTtl;
    }

    method Get(key: string, now: nat) returns (v: Option<T>)
      ensures v == Lookup(entries, key, now)
      ensures v.Some? <==> key in entries && now <= entries[key].insertedAt + entries[key].ttl
      ensures v.Some? ==> v.value == entries[key].value
    {
      if key !in entries { return None; }
      v := if Expired(entries[key], now) then None else Some(entries[key].value);
    }

    method OldestKey() returns (k: string)
      requires entries != map[]
      ensures IsOldest(entries, k)
    {
      var rest := entries.Keys;
      k :| k in rest;
      rest := rest - {k};
      while rest != {}
        invariant rest <= entries.Keys && k in entries && k !in rest
        invariant forall j :: j in entries && j !in rest ==> entries[k].insertedAt <= entries[j].insertedAt
        decreases rest
      {
        var j :| j in rest;
        rest := rest - {j};
        if entries[j].insertedAt < entries[k].insertedAt { k := j; }
      }
    }

    method SetWithTtl(key: string, value: T, ttl: nat, now: nat)
      modifies this
      ensures Inserted(maxEntries, old(entries), entries, key, Entry(value, now, ttl))
      ensures |old(entries)| < maxEntries ==> entries == old(entries)[key := Entry(value, now, ttl)]
      ensures |old(entries)| >= maxEntries && old(entries) != map[] ==>
                exists k :: IsOldest(old(entries), k) && entries == (old(entries) - {k})[key := Entry(value, now, ttl)]
    {
      if |entries| >= maxEntries && entries != map[] {
        var k := OldestKey();
        entries := entries - {k};
      }
      entries := entries[key := Entry(value, now, ttl)];
    }

    method Set(key: string, value: T, now: nat)
      modifies this
      ensures Inserted(maxEntries, old(entries), entries, key, Entry(value, now, defaultTtl))
    {
      SetWithTtl(key, value, defaultTtl, now);
    }

    method Remove(key: string)
      modifies this
      ensures entries == old(entries) - {key}
    {
      entries := entries - {key};
    }

    method Clear()
      modifies this
      ensures entries == map[]
    {
      entries := map[];
    }

    method CleanupExpired(now: nat)
      modifies this
      ensures entries == Unexpired(old(entries), now)
      ensures forall k :: k in entries <==>
                k in old(entries) && now <= old(entries)[k].insertedAt + old(entries)[k].ttl
      ensures Kept(entries, old(entries))
    {
      entries := Unexpired(entries, now);
    }
  }

  // ----- a cache with cleanups beside one without -----

  /** The same calls on a plain cache, on one that is also cleaned, and on an unbounded map. */
  datatype Trio<T> = Trio(plain: Entries<T>, cleaned: Entries<T>, latest: Entries<T>, lastSet: nat, now: nat)

  datatype Call<T> = Put(key: string, value: T, ttl: nat) | Remove(key: string) | Clear | Cleanup

  /** What a call does to the three, at the time of `s'`. */
  ghost predicate Effect<T(!new)>(max: nat, s: Trio<T>, s': Trio<T>, call: Call<T>)
  {
    match call
    case Put(key, value, ttl) =>
      var e := Entry(value, s'.now, ttl);
      && s'.lastSet == s'.now
      && Inserted(max, s.plain, s'.plain, key, e)
      && Inserted(max, s.cleaned, s'.cleaned, key, e)
      && s'.latest == s.latest[key := e]
    case Remove(key) =>
      s' == Trio(s.plain - {key}, s.cleaned - {key}, s.latest - {key}, s.lastSet, s'.now)
    case Clear =>
      s' == Trio(map[], map[], map[], s.lastSet, s'.now)
    case Cleanup =>
      s' == Trio(s.plain, Unexpired(s.cleaned, s'.now), s.latest, s.lastSet, s'.now)
  }

  /** Time never runs backwards, and each insertion is later than the one before. */
  ghost predicate Step<T(!new)>(max: nat, s: Trio<T>, s': Trio<T>, call: Call<T>)
  {
    s'.now >= s.now && (call.Put? ==> s'.now > s.lastSet) && Effect(max, s, s', call)
  }

  function Capacity(max: nat): nat { if max == 0 then 1 else max }

  /** `c` holds the newest entries of `u`. */
  ghost predicate Newest<T>(c: Entries<T>, u: Entries<T>)
  {
    Kept(c, u) && forall j, k :: k in c && j in u && u[j].insertedAt >= u[k].insertedAt ==> j in c
  }

  ghost predicate DistinctTimes<T>(u: Entries<T>, last: nat)
  {
    && (forall k :: k in u ==> u[k].insertedAt <= last)
    && (forall j, k :: j in u && k in u && u[j].insertedAt == u[k].insertedAt ==> j == k)
  }

  /** Every live entry of the plain cache is in the cleaned one. */
  ghost predicate Covers<T>(cleaned: Entries<T>, plain: Entries<T>, now: nat)
  {
    forall k :: k in plain && !Expired(plain[k], now) ==> k in cleaned
  }

  ghost predicate Inv<T>(max: nat, s: Trio<T>)
  {
    && DistinctTimes(s.latest, s.lastSet) && s.lastSet <= s.now
    && Newest(s.plain, s.latest) && |s.plain| <= Capacity(max)
    && Kept(s.cleaned, s.latest) && |s.cleaned| <= Capacity(max)
    && Covers(s.cleaned, s.plain, s.now)
  }

  lemma {:induction false} RemovedSize<T>(c: Entries<T>, k: string)
    requires k in c
    ensures |c - {k}| == |c| - 1
  {
    assert (c - {k}).Keys == c.Keys - {k};
    assert |c.Keys - {k}| == |c.Keys| - 1;
  }

  lemma {:induction false} PutSize<T>(c: Entries<T>, key: string, e: Entry<T>)
    ensures |c[key := e]| <= |c| + 1
  {
    assert c[key := e].Keys == c.Keys + {key};
  }

  /** Insertion keeps the bound. */
  lemma {:induction false} InsertedSize<T(!new)>(max: nat, c: Entries<T>, c': Entries<T>, key: string, e: Entry<T>)
    requires Inserted(max, c, c', key, e) && |c| <= Capacity(max)
    ensures |c'| <= Capacity(max)
  {
    if |c| >= max && c != map[] {
      var k :| IsOldest(c, k) && c' == (c - {k})[key := e];
      RemovedSize(c, k);
      PutSize(c - {k}, key, e);
    } else {
      PutSize(c, key, e);
    }
  }

  lemma {:induction false} LaterIsDistinct<T>(u: Entries<T>, last: nat, key: string, e: Entry<T>)
    requires DistinctTimes(u, last) && e.insertedAt > last
    ensures DistinctTimes(u[key := e], e.insertedAt)
  {
  }

  lemma {:induction false} PutKeepsNewest<T>(c: Entries<T>, u: Entries<T>, last: nat, key: string, e: Entry<T>)
    requires Newest(c, u) && DistinctTimes(u, last) && e.insertedAt > last
    ensures Newest(c[key := e], u[key := e])
  {
  }

  lemma {:induction false} EvictionKeepsNewest<T>(c: Entries<T>, u: Entries<T>, last: nat, k: string)
    requires Newest(c, u) && DistinctTimes(u, last) && IsOldest(c, k)
    ensures Newest(c - {k}, u)
  {
  }

  lemma {:induction false} InsertedKeepsNewest<T(!new)>(
    max: nat, c: Entries<T>, c': Entries<T>, u: Entries<T>, last: nat, key: string, e: Entry<T>)
    requires Newest(c, u) && DistinctTimes(u, last) && e.insertedAt > last && Inserted(max, c, c', key, e)
    ensures Newest(c', u[key := e]) && DistinctTimes(u[key := e], e.insertedAt)
  {
    LaterIsDistinct(u, last, key, e);
    if |c| >= max && c != map[] {
      var k :| IsOldest(c, k) && c' == (c - {k})[key := e];
      EvictionKeepsNewest(c, u, last, k);
      PutKeepsNewest(c - {k}, u, last, key, e);
    } else {
      PutKeepsNewest(c, u, last, key, e);
    }
  }

  lemma {:induction false} InsertedKeepsKnown<T(
    !new)>(max: nat, c: Entries<T>, c': Entries<T>, u: Entries<T>, key: string, e: Entry<T>)
    requires Kept(c, u) && Inserted(max, c, c', key, e)
    ensures Kept(c', u[key := e])
  {
    if |c| >= max && c != map[] {
      var k :| IsOldest(c, k) && c' == (c - {k})[key := e];
    }
  }

  lemma {:induction false} SubmapFits<T>(c: Entries<T>, u: Entries<T>)
    requires c.Keys <= u.Keys
    ensures |c| <= |u|
  {
    SubsetSize(c.Keys, u.Keys);
    assert |c.Keys| == |c| && |u.Keys| == |u|;
  }

  lemma {:induction false} SubsetSize(a: set<string>, b: set<string>)
    requires a <= b
    ensures |a| <= |b|
  {
    if a != {} {
      var x :| x in a;
      SubsetSize(a - {x}, b - {x});
    }
  }

  /**
   * The heart of the matter: what the cleaned cache evicts is not a live entry the plain cache
   * keeps. If the cleaned cache is full and its oldest entry is in the plain cache, then all of it
   * is, so the plain cache is full too and the oldest entries coincide.
   */
  lemma {:induction false} EvictionsAgree<T>(
    max: nat, plain: Entries<T>, cleaned: Entries<T>, u: Entries<T>, last: nat, evicted: string)
    requires DistinctTimes(u, last) && Newest(plain, u) && Kept(cleaned, u)
    requires |plain| <= Capacity(max) && |cleaned| >= max && IsOldest(cleaned, evicted) && evicted in plain
    ensures |plain| >= max && IsOldest(plain, evicted)
  {
    assert forall j :: j in cleaned ==> j in plain;
    SubmapFits(cleaned, plain);
    forall j | j in plain ensures plain[evicted].insertedAt <= plain[j].insertedAt {
      if plain[j].insertedAt < plain[evicted].insertedAt {
        assert j !in cleaned;
        SubmapFits(cleaned, plain - {j});
        RemovedSize(plain, j);
        RemovedSize(plain - {j}, evicted);
      }
    }
  }

  /** What the full cleaned cache evicts leaves the plain cache in the same insertion. */
  lemma {:induction false} EvictedFromBoth<T(
    !new)>(max: nat, s: Trio<T>, plain': Entries<T>, key: string, e: Entry<T>, evicted: string)
    requires Inv(max, s) && Inserted(max, s.plain, plain', key, e)
    requires |s.cleaned| >= max && IsOldest(s.cleaned, evicted) && evicted in s.plain && evicted != key
    ensures evicted !in plain'
  {
    EvictionsAgree(max, s.plain, s.cleaned, s.latest, s.lastSet, evicted);
    var p :| IsOldest(s.plain, p) && plain' == (s.plain - {p})[key := e];
    assert p == evicted;
  }

  lemma {:induction false} InsertedKeepsCover<T(!new)>(max: nat, s: Trio<T>, s': Trio<T>, key: string, e: Entry<T>)
    requires Inv(max, s)
    requires Inserted(max, s.plain, s'.plain, key, e) && Inserted(max, s.cleaned, s'.cleaned, key, e)
    ensures Covers(s'.cleaned, s'.plain, s.now)
  {
    if |s.cleaned| >= max && s.cleaned != map[] {
      var o :| IsOldest(s.cleaned, o) && s'.cleaned == (s.cleaned - {o})[key := e];
      if o in s.plain && o != key {
        EvictedFromBoth(max, s, s'.plain, key, e, o);
      }
    }
  }

  lemma {:induction false} PutKeepsInvariant<T(
    !new)>(max: nat, s: Trio<T>, s': Trio<T>, key: string, value: T, ttl: nat)
    requires Inv(max, s) && Step(max, s, s', Put(key, value, ttl))
    ensures Inv(max, s')
  {
    var e := Entry(value, s'.now, ttl);
    InsertedSize(max, s.plain, s'.plain, key, e);
    InsertedSize(max, s.cleaned, s'.cleaned, key, e);
    InsertedKeepsNewest(max, s.plain, s'.plain, s.latest, s.lastSet, key, e);
    InsertedKeepsKnown(max, s.cleaned, s'.cleaned, s.latest, key, e);
    InsertedKeepsCover(max, s, s', key, e);
  }

  lemma {:induction false} RemoveKeepsInvariant<T>(max: nat, s: Trio<T>, key: string, now: nat)
    requires Inv(max, s) && now >= s.now
    ensures Inv(max, Trio(s.plain - {key}, s.cleaned - {key}, s.latest - {key}, s.lastSet, now))
  {
    SubmapFits(s.plain - {key}, s.plain);
    SubmapFits(s.cleaned - {key}, s.cleaned);
  }

  lemma {:induction false} CleanupKeepsInvariant<T>(max: nat, s: Trio<T>, now: nat)
    requires Inv(max, s) && now >= s.now
    ensures Inv(max, Trio(s.plain, Unexpired(s.cleaned, now), s.latest, s.lastSet, now))
  {
    SubmapFits(Unexpired(s.cleaned, now), s.cleaned);
  }

  lemma {:induction false} StepKeepsInvariant<T(!new)>(max: nat, s: Trio<T>, s': Trio<T>, call: Call<T>)
    requires Inv(max, s) && Step(max, s, s', call)
    ensures Inv(max, s')
  {
    match call
    case Put(key, value, ttl) => PutKeepsInvariant(max, s, s', key, value, ttl);
    case Remove(key) => RemoveKeepsInvariant(max, s, key, s'.now);
    case Clear =>
    case Cleanup => CleanupKeepsInvariant(max, s, s'.now);
  }

  ghost predicate StepAt<T(!new)>(max: nat, run: seq<Trio<T>>, calls: seq<Call<T>>, i: nat)
    requires |run| == |calls| + 1
  {
    i < |calls| ==> Step(max, run[i], run[i + 1], calls[i])
  }

  ghost predicate IsRun<T(!new)>(max: nat, run: seq<Trio<T>>, calls: seq<Call<T>>)
  {
    && |run| == |calls| + 1 && run[0] == Trio(map[], map[], map[], 0, 0)
    && forall i: nat :: StepAt(max, run, calls, i)
  }

  lemma {:induction false} RunKeepsInvariant<T(!new)>(max: nat, run: seq<Trio<T>>, calls: seq<Call<T>>, i: nat)
    requires IsRun(max, run, calls) && i < |run|
    ensures Inv(max, run[i])
  {
    if i > 0 {
      RunKeepsInvariant(max, run, calls, i - 1);
      assert StepAt(max, run, calls, i - 1);
      StepKeepsInvariant(max, run[i - 1], run[i], calls[i - 1]);
    }
  }

  /**
   * In every run: neither cache outgrows its bound; the plain cache is the newest part of the
   * latest-value map; a hit is always the latest, unexpired value; and cleaning never turns a hit
   * into a miss.
   */
  lemma {:induction false} CleanupNeverLosesAHit<T(
    !new)>(max: nat, run: seq<Trio<T>>, calls: seq<Call<T>>, i: nat, key: string, now: nat)
    requires IsRun(max, run, calls) && i < |run| && now >= run[i].now
    ensures var s := run[i];
      && |s.plain| <= Capacity(max) && |s.cleaned| <= Capacity(max) && Newest(s.plain, s.latest)
      && (Lookup(s.plain, key, now).Some? ==> Lookup(s.cleaned, key, now) == Lookup(s.plain, key, now))
      && (Lookup(s.cleaned, key, now).Some? ==> Lookup(s.cleaned, key, now) == Lookup(s.latest, key, now))
  {
    RunKeepsInvariant(max, run, calls, i);
  }

  // ----- how long an entry is served -----

  /** The call concerns the entry of `key`. */
  predicate Touches<T>(call: Call<T>, key: string)
  {
    call.Clear? || ((call.Put? || call.Remove?) && call.key == key)
  }

  /** Call `j` is the last before state `i` to concern `key`, and it puts it. */
  predicate LastPut<T>(calls: seq<Call<T>>, j: nat, i: nat, key: string)
  {
    && j < i <= |calls| && calls[j].Put? && calls[j].key == key
    && forall k :: j < k < i ==> !Touches(calls[k], key)
  }

  lemma {:induction false} LatestIsLastPut<T(!new)>(
    max: nat, run: seq<Trio<T>>, calls: seq<Call<T>>, j: nat, i: nat, key: string)
    requires IsRun(max, run, calls) && LastPut(calls, j, i, key)
    ensures key in run[i].latest && run[i].latest[key] == Entry(calls[j].value, run[j + 1].now, calls[j].ttl)
    decreases i
  {
    assert StepAt(max, run, calls, i - 1);
    if j < i - 1 {
      LatestIsLastPut(max, run, calls, j, i - 1, key);
      assert !Touches(calls[i - 1], key);
    }
  }

  /**
   * After the last put of a key at time t with time to live d: as long as the entry was not evicted, a
   * lookup at `now` returns the value if and only if now <= t + d; and a cleanup keeps the entry if and
   * only if it comes no later than that.
   */
  lemma {:induction false} ServedUntilExpiry<T(!new)>(
    max: nat, run: seq<Trio<T>>, calls: seq<Call<T>>, j: nat, i: nat, key: string, now: nat)
    requires IsRun(max, run, calls) && LastPut(calls, j, i, key) && now >= run[i].now
    ensures var s, v, end := run[i], calls[j].value, run[j + 1].now + calls[j].ttl;
      && Lookup(s.plain, key, now) == (if key in s.plain && now <= end then Some(v) else None)
      && Lookup(s.cleaned, key, now) == (if key in s.cleaned && now <= end then Some(v) else None)
      && (i < |calls| && calls[i].Cleanup? ==>
            (key in run[i + 1].cleaned <==> key in s.cleaned && run[i + 1].now <= end))
  {
    LatestIsLastPut(max, run, calls, j, i, key);
    RunKeepsInvariant(max, run, calls, i);
    assert StepAt(max, run, calls, i);
  }

  // ----- why insertion times must differ -----

  /** Time never runs backwards, but insertions may share a time. */
  ghost predicate TiedStep<T(!new)>(max: nat, s: Trio<T>, s': Trio<T>, call: Call<T>)
  {
    s'.now >= s.now && Effect(max, s, s', call)
  }

  lemma {:induction false} InsertBelowMax<T(!new)>(max: nat, c: Entries<T>, key: string, e: Entry<T>)
    requires |c| < max
    ensures Inserted(max, c, c[key := e], key, e)
  {
  }

  lemma {:induction false} InsertEvicting<T(!new)>(max: nat, c: Entries<T>, key: string, e: Entry<T>, oldest: string)
    requires |c| >= max && IsOldest(c, oldest)
    ensures Inserted(max, c, (c - {oldest})[key := e], key, e)
  {
  }

  lemma {:induction false} TwoEntries<T>(j: string, k: string, d: Entry<T>, e: Entry<T>)
    requires j != k
    ensures |map[j := d, k := e]| == 2
  {
    assert map[j := d, k := e].Keys == {j, k};
  }

  /** The states of a cache of two: `x` comes and is cleaned away, then three entries come at one time. */
  function TiedRun<T>(x: Entry<T>, e: Entry<T>): seq<Trio<T>>
  {
    [Trio(map[], map[], map[], 0, 0),
     Trio(map["x" := x], map["x" := x], map["x" := x], 1, 1),
     Trio(map["x" := x], map[], map["x" := x], 1, 2),
     Trio(map["x" := x, "a" := e], map["a" := e], map["x" := x]["a" := e], 2, 2),
     Trio(map["a" := e, "b" := e], map["a" := e, "b" := e], map["x" := x]["a" := e]["b" := e], 2, 2),
     Trio(map["a" := e, "c" := e], map["b" := e, "c" := e], map["x" := x]["a" := e]["b" := e]["c" := e], 2, 2)]
  }

  function TiedCalls<T>(x: Entry<T>, e: Entry<T>): seq<Call<T>>
  {
    [Put("x", x.value, x.ttl), Cleanup, Put("a", e.value, e.ttl), Put("b", e.value, e.ttl), Put("c", e.value, e.ttl)]
  }

  lemma {:induction false} TiedRunBegins<T(!new)>(x: Entry<T>, e: Entry<T>)
    requires x.insertedAt == 1 && x.ttl == 0 && e.insertedAt == 2
    ensures var run, calls := TiedRun(x, e), TiedCalls(x, e);
      && TiedStep(2, run[0], run[1], calls[0])
      && TiedStep(2, run[1], run[2], calls[1])
      && TiedStep(2, run[2], run[3], calls[2])
  {
    var run := TiedRun(x, e);
    InsertBelowMax(2, run[0].plain, "x", x);
    InsertBelowMax(2, run[2].plain, "a", e);
    InsertBelowMax(2, run[2].cleaned, "a", e);
    assert Unexpired(run[1].cleaned, 2) == map[];
  }

  lemma {:induction false} TiedRunEvictsOne<T(!new)>(x: Entry<T>, e: Entry<T>)
    requires x.insertedAt == 1 && x.ttl == 0 && e.insertedAt == 2
    ensures TiedStep(2, TiedRun(x, e)[3], TiedRun(x, e)[4], TiedCalls(x, e)[3])
  {
    var s, s' := TiedRun(x, e)[3], TiedRun(x, e)[4];
    TwoEntries("x", "a", x, e);
    InsertEvicting(2, s.plain, "b", e, "x");
    InsertBelowMax(2, s.cleaned, "b", e);
    assert (s.plain - {"x"})["b" := e] == s'.plain;
  }

  lemma {:induction false} TiedRunEvictsTwo<T(!new)>(x: Entry<T>, e: Entry<T>)
    requires x.insertedAt == 1 && x.ttl == 0 && e.insertedAt == 2
    ensures TiedStep(2, TiedRun(x, e)[4], TiedRun(x, e)[5], TiedCalls(x, e)[4])
  {
    var s, s' := TiedRun(x, e)[4], TiedRun(x, e)[5];
    TwoEntries("a", "b", e, e);
    InsertEvicting(2, s.plain, "c", e, "b");
    InsertEvicting(2, s.cleaned, "c", e, "a");
    assert (s.plain - {"b"})["c" := e] == s'.plain && (s.cleaned - {"a"})["c" := e] == s'.cleaned;
  }

  /**
   * With tied insertion times a cleanup can cost a hit: at the end of this run the plain cache has a
   * live entry that the cleaned one evicted.
   */
  lemma {:induction false} TiesMayLoseHits<T(!new)>(x: Entry<T>, e: Entry<T>)
    requires x.insertedAt == 1 && x.ttl == 0 && e.insertedAt == 2
    ensures var run, calls := TiedRun(x, e), TiedCalls(x, e);
      && (forall i, j :: 0 <= i < |calls| && j == i + 1 ==> TiedStep(2, run[i], run[j], calls[i]))
      && Lookup(run[5].plain, "a", 2) == Some(e.value) && Lookup(run[5].cleaned, "a", 2) == None
  {
    TiedRunBegins(x, e);
    TiedRunEvictsOne(x, e);
    TiedRunEvictsTwo(x, e);
  }
}
