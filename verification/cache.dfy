/** The TTL cache decorator and its store utilities (skeleton_core/cache.py).
    The `.bonesaw_cache` directory becomes a map from cache key to the stored
    result and its modification time; the clock becomes an explicit integer
    `now`; the SHA-256 of the key's JSON becomes the structured key itself,
    which is what an injective hash amounts to; how writing the pickle goes
    becomes a parameter. */
module Cache {
  import opened Wrappers
  import opened Values
  import opened Text
  import opened Engine

  // ---------------------------------------------------------------------------
  // The key
  // ---------------------------------------------------------------------------

  /** What `get_cache_key` digests: the decorated class's name, the text of
      the data, and the sorted (name, value) items of the instance's public
      attributes. */
  datatype CacheKey = CacheKey(className: string, dataText: string, attrs: seq<(string, Value)>)

  /** The instance attributes that take part in the key: those whose name
      does not start with an underscore. */
  function PublicAttrs(attrs: Dict): (r: Dict)
    ensures forall k :: k in r <==> k in attrs && !StartsWith(k, "_")
    ensures forall k :: k in r ==> r[k] == attrs[k]
  {
    map k | k in attrs && !StartsWith(k, "_") :: attrs[k]
  }

  /** `sorted(d.items())`: one item per entry, in increasing key order. */
  function Items(d: Dict): (r: seq<(string, Value)>)
    ensures |r| == |d|
    ensures forall i :: 0 <= i < |r| ==> r[i].0 in d && r[i].1 == d[r[i].0]
    ensures forall i, j :: 0 <= i < j < |r| ==> LexLess(r[i].0, r[j].0)
  {
    var ks := SortedStrings(d.Keys);
    seq(|ks|, i requires 0 <= i < |ks| => (ks[i], d[ks[i]]))
  }

  /** Every entry of the dictionary is among its items. */
  lemma ItemsComplete(d: Dict, k: string)
    requires k in d
    ensures exists i :: 0 <= i < |Items(d)| && Items(d)[i] == (k, d[k])
  {
    var ks := SortedStrings(d.Keys);
    assert k in ks;
    var i :| 0 <= i < |ks| && ks[i] == k;
    assert Items(d)[i] == (k, d[k]);
  }

  /** An entry of one dictionary is an entry of any dictionary with the same
      items. */
  lemma SameItemsEntry(a: Dict, b: Dict, k: string)
    requires Items(a) == Items(b) && k in a
    ensures k in b && b[k] == a[k]
  {
    ItemsComplete(a, k);
    var i :| 0 <= i < |Items(a)| && Items(a)[i] == (k, a[k]);
    assert Items(b)[i] == (k, a[k]);
  }

  /** Sorted items determine the dictionary: two attribute sets share their
      items exactly when they are equal. */
  lemma ItemsInjective(a: Dict, b: Dict)
    requires Items(a) == Items(b)
    ensures a == b
  {
    forall k | k in a ensures k in b && b[k] == a[k] {
      SameItemsEntry(a, b, k);
    }
    forall k | k in b ensures k in a {
      SameItemsEntry(b, a, k);
    }
  }

  /** The key of one call: `show` is how the data is turned into text
      (Python's `str`). */
  function KeyOf<D>(className: string, show: D -> string, data: D, attrs: Dict): CacheKey {
    CacheKey(className, show(data), Items(PublicAttrs(attrs)))
  }

  /** The key depends on nothing but the class name, the data's text and the
      public attributes, and it distinguishes any two calls that differ in one
      of them. */
  lemma KeyOfExactly<D>(c1: string, s1: D -> string, d1: D, a1: Dict, c2: string, s2: D -> string, d2: D, a2: Dict)
    ensures KeyOf(c1, s1, d1, a1) == KeyOf(c2, s2, d2, a2) <==>
              c1 == c2 && s1(d1) == s2(d2) && PublicAttrs(a1) == PublicAttrs(a2)
  {
    if KeyOf(c1, s1, d1, a1) == KeyOf(c2, s2, d2, a2) {
      ItemsInjective(PublicAttrs(a1), PublicAttrs(a2));
    }
  }

  // ---------------------------------------------------------------------------
  // The store and the decorated run
  // ---------------------------------------------------------------------------

  /** A cache file and its modification time: either a complete pickle of
      the result, or the file left behind by a `pickle.dump` that failed
      after `open(..., 'wb')` had created or emptied it, which can no longer
      be unpickled. */
  datatype Entry<D> = Pickled(value: D, mtime: int) | Truncated(mtime: int)

  /** The cache directory. */
  type Store<D> = map<CacheKey, Entry<D>>

  /** How saving a miss's result went: the pickle was written; `open` failed,
      so the file was neither created nor emptied; or `open` succeeded and
      `pickle.dump` failed. The decorator logs both failures and carries on. */
  datatype WriteResult = Written | OpenFailed | DumpFailed

  /** What `pickle.load` raises on a cache file that holds no complete pickle. */
  const UnreadableCause: string := "Ran out of input"

  /** A class decorated with `@cache_step(ttl)`: its name, its instance
      attributes and its undecorated `run`. */
  datatype CachedStep<!D> = CachedStep(className: string, attrs: Dict, ttl: int, inner: (D, Context) -> StepOutcome<D>)

  /** The seconds since the entry under `key` was written. */
  function Age<D>(store: Store<D>, key: CacheKey, now: int): int
    requires key in store
  {
    now - store[key].mtime
  }

  /** A stored file is used while it is younger than the TTL; an entry
      exactly `ttl` seconds old has expired. */
  predicate Fresh<D>(store: Store<D>, key: CacheKey, now: int, ttl: int) {
    key in store && Age(store, key, now) < ttl
  }

  /** The outcome of one decorated call, the store after it, and whether the
      undecorated `run` was called. */
  datatype CacheOutcome<D> = CacheOutcome(outcome: StepOutcome<D>, store: Store<D>, innerCalled: bool)

  /** The decorated `run`. The undecorated run is called exactly when there
      is no fresh file for the call's key. A hit leaves the store as it was,
      and it returns exactly when the file holds a complete pickle; loading
      a truncated one raises out of the call. */
  function CachedRun<D>(step: CachedStep<D>, show: D -> string, store: Store<D>, now: int, write: WriteResult,
                        data: D, ctx: Context): (r: CacheOutcome<D>)
    ensures var key := KeyOf(step.className, show, data, step.attrs);
            r.innerCalled <==> !Fresh(store, key, now, step.ttl)
    ensures var key := KeyOf(step.className, show, data, step.attrs);
            !r.innerCalled ==> r.store == store && (r.outcome.Returned? <==> store[key].Pickled?)
  {
    var key := KeyOf(step.className, show, data, step.attrs);
    if Fresh(store, key, now, step.ttl) then
      match store[key]
      case Truncated(_) => CacheOutcome(Raised(UnreadableCause, ctx), store, false)
      case Pickled(value, _) =>
        var age := Age(store, key, now);
        CacheOutcome(Returned(value, ctx["cache_hit" := Bool(true)]["cache_age" := Int(age)]), store, false)
    else
      match step.inner(data, ctx)
      case Raised(cause, c) => CacheOutcome(Raised(cause, c), store, true)
      case Returned(d, c) =>
        var store' := match write
          case Written => store[key := Pickled(d, now)]
          case OpenFailed => store
          case DumpFailed => store[key := Truncated(now)];
        CacheOutcome(Returned(d, c["cache_hit" := Bool(false)]), store', true)
  }

  /** A hit on a complete pickle returns the stored value and records
      `cache_hit = True` and the entry's age in the context. */
  lemma HitServesStored<D>(step: CachedStep<D>, show: D -> string, store: Store<D>, now: int, write: WriteResult,
                           data: D, ctx: Context)
    requires Fresh(store, KeyOf(step.className, show, data, step.attrs), now, step.ttl)
    requires store[KeyOf(step.className, show, data, step.attrs)].Pickled?
    ensures var key := KeyOf(step.className, show, data, step.attrs);
            CachedRun(step, show, store, now, write, data, ctx).outcome ==
              Returned(store[key].value, ctx["cache_hit" := Bool(true)]["cache_age" := Int(Age(store, key, now))])
  {
  }

  /** A hit on a truncated file raises the unpickling error before the
      context is touched. */
  lemma HitOnTruncatedRaises<D>(step: CachedStep<D>, show: D -> string, store: Store<D>, now: int, write: WriteResult,
                                data: D, ctx: Context)
    requires Fresh(store, KeyOf(step.className, show, data, step.attrs), now, step.ttl)
    requires store[KeyOf(step.className, show, data, step.attrs)].Truncated?
    ensures CachedRun(step, show, store, now, write, data, ctx).outcome == Raised(UnreadableCause, ctx)
  {
  }

  /** A miss whose run raises lets the exception escape with the context as
      the run left it and stores nothing. */
  lemma MissRaisedStoresNothing<D>(step: CachedStep<D>, show: D -> string, store: Store<D>, now: int, write: WriteResult,
                                   data: D, ctx: Context)
    requires !Fresh(store, KeyOf(step.className, show, data, step.attrs), now, step.ttl)
    requires step.inner(data, ctx).Raised?
    ensures var r := CachedRun(step, show, store, now, write, data, ctx);
            r.outcome == step.inner(data, ctx) && r.store == store
  {
  }

  /** A miss whose run returns gives back that result with `cache_hit =
      False`. Under the call's key, stamped `now`, it stores the pickle when
      the write succeeds, nothing new when `open` fails, and an unreadable
      file when `pickle.dump` fails; every other entry is unchanged. */
  lemma MissReturnedStores<D>(step: CachedStep<D>, show: D -> string, store: Store<D>, now: int, write: WriteResult,
                              data: D, ctx: Context)
    requires !Fresh(store, KeyOf(step.className, show, data, step.attrs), now, step.ttl)
    requires step.inner(data, ctx).Returned?
    ensures var key := KeyOf(step.className, show, data, step.attrs);
            var ran := step.inner(data, ctx);
            var r := CachedRun(step, show, store, now, write, data, ctx);
            r.outcome == Returned(ran.data, ran.ctx["cache_hit" := Bool(false)]) &&
            (write == Written ==> r.store == store[key := Pickled(ran.data, now)]) &&
            (write == OpenFailed ==> r.store == store) &&
            (write == DumpFailed ==> r.store == store[key := Truncated(now)])
  {
  }

  /** A failed write never changes what the failing call itself returns:
      its outcome is the same however the write went. */
  lemma WriteFailureInvisible<D>(step: CachedStep<D>, show: D -> string, store: Store<D>, now: int,
                                 w1: WriteResult, w2: WriteResult, data: D, ctx: Context)
    ensures CachedRun(step, show, store, now, w1, data, ctx).outcome ==
            CachedRun(step, show, store, now, w2, data, ctx).outcome
  {
  }

  /** A stored miss is served: once a miss has written its result, the same
      call within the TTL is a hit that returns that result without running
      the step again. */
  lemma MissThenHit<D>(step: CachedStep<D>, show: D -> string, store: Store<D>, now: int, later: int,
                       write2: WriteResult, data: D, ctx: Context, ctx2: Context)
    requires CachedRun(step, show, store, now, Written, data, ctx).innerCalled
    requires step.inner(data, ctx).Returned?
    requires now <= later < now + step.ttl
    ensures var after := CachedRun(step, show, store, now, Written, data, ctx).store;
            var again := CachedRun(step, show, after, later, write2, data, ctx2);
            !again.innerCalled && again.store == after &&
            again.outcome.Returned? && again.outcome.data == step.inner(data, ctx).data &&
            again.outcome.ctx["cache_hit"] == Bool(true)
  {
  }

  /** A failed `pickle.dump` surfaces on the next call: within the TTL the
      same call neither runs the step nor returns, it raises the unpickling
      error, and it keeps doing so until the file expires. */
  lemma DumpFailureSurfacesLater<D>(step: CachedStep<D>, show: D -> string, store: Store<D>, now: int, later: int,
                                    write2: WriteResult, data: D, ctx: Context, ctx2: Context)
    requires CachedRun(step, show, store, now, DumpFailed, data, ctx).innerCalled
    requires step.inner(data, ctx).Returned?
    requires now <= later < now + step.ttl
    ensures var after := CachedRun(step, show, store, now, DumpFailed, data, ctx).store;
            var again := CachedRun(step, show, after, later, write2, data, ctx2);
            !again.innerCalled && again.store == after && again.outcome == Raised(UnreadableCause, ctx2)
  {
  }

  /** A failed `open` leaves nothing behind: the next call runs the step
      again. */
  lemma OpenFailureRetries<D>(step: CachedStep<D>, show: D -> string, store: Store<D>, now: int, later: int,
                              write2: WriteResult, data: D, ctx: Context, ctx2: Context)
    requires CachedRun(step, show, store, now, OpenFailed, data, ctx).innerCalled
    requires now <= later
    ensures var after := CachedRun(step, show, store, now, OpenFailed, data, ctx).store;
            CachedRun(step, show, after, later, write2, data, ctx2).innerCalled
  {
  }

  // ---------------------------------------------------------------------------
  // Transparency, and where keying on `str(data)` loses it
  // ---------------------------------------------------------------------------

  /** The step's data result does not depend on the context it is given,
      the assumption under which caching a step is sound at all. */
  ghost predicate DataPure<D(!new)>(inner: (D, Context) -> StepOutcome<D>) {
    forall d, c1, c2 :: inner(d, c1).Returned? == inner(d, c2).Returned? &&
      (inner(d, c1).Returned? ==> inner(d, c1).data == inner(d, c2).data)
  }

  /** Every complete pickle stored under this step's key for some data holds
      what the step returns for that data. */
  ghost predicate Faithful<D(!new)>(step: CachedStep<D>, show: D -> string, store: Store<D>) {
    forall d, c :: KeyOf(step.className, show, d, step.attrs) in store &&
                   store[KeyOf(step.className, show, d, step.attrs)].Pickled? ==>
      step.inner(d, c).Returned? && step.inner(d, c).data == store[KeyOf(step.className, show, d, step.attrs)].value
  }

  ghost predicate Injective<D(!new)>(show: D -> string) {
    forall a, b :: show(a) == show(b) ==> a == b
  }

  /** With a data text that tells data apart, every decorated call keeps the
      store faithful, however its write goes. */
  lemma FaithfulPreserved<D(!new)>(step: CachedStep<D>, show: D -> string, store: Store<D>, now: int, write: WriteResult,
                             data: D, ctx: Context)
    requires Injective(show) && DataPure(step.inner) && Faithful(step, show, store)
    ensures Faithful(step, show, CachedRun(step, show, store, now, write, data, ctx).store)
  {
    var r := CachedRun(step, show, store, now, write, data, ctx);
    var key := KeyOf(step.className, show, data, step.attrs);
    forall d, c | KeyOf(step.className, show, d, step.attrs) in r.store &&
                  r.store[KeyOf(step.className, show, d, step.attrs)].Pickled?
      ensures step.inner(d, c).Returned? &&
              step.inner(d, c).data == r.store[KeyOf(step.className, show, d, step.attrs)].value
    {
      if KeyOf(step.className, show, d, step.attrs) == key && key !in store {
        assert d == data;
      } else if KeyOf(step.className, show, d, step.attrs) == key && r.innerCalled && write == Written && step.inner(data, ctx).Returned? {
        assert d == data;
      }
    }
  }

  /** On a faithful store, caching is invisible in the data except for a
      fresh truncated file: a decorated call returns exactly when the
      undecorated step returns and the call's fresh file, if any, is a
      complete pickle, and what it returns is what the step returns. */
  lemma FaithfulTransparent<D(!new)>(step: CachedStep<D>, show: D -> string, store: Store<D>, now: int, write: WriteResult,
                               data: D, ctx: Context)
    requires DataPure(step.inner) && Faithful(step, show, store)
    ensures var key := KeyOf(step.className, show, data, step.attrs);
            var r := CachedRun(step, show, store, now, write, data, ctx);
            (r.outcome.Returned? <==>
               step.inner(data, ctx).Returned? && !(Fresh(store, key, now, step.ttl) && store[key].Truncated?)) &&
            (r.outcome.Returned? ==> r.outcome.data == step.inner(data, ctx).data)
  {
  }

  /** Python's `str` tells `1` and `"1"` apart only by type, which it drops:
      the decorator keys on `str(data)`, so the result computed for the int 1 is
      served for the string "1". */
  lemma StrKeyCollision()
    ensures var step := CachedStep("IsIntStep", map[], 3600,
                                   (d: Value, c: Context) => Returned(Bool(d.Int?), c));
            var first := CachedRun(step, Show, map[], 0, Written, Int(1), map[]);
            var second := CachedRun(step, Show, first.store, 1, Written, Str("1"), map[]);
            first.outcome.data == Bool(true) &&
            !second.innerCalled && second.outcome.data == Bool(true) &&
            step.inner(Str("1"), map[]).data == Bool(false)
  {
    assert Show(Int(1)) == "1" by {
      assert NatToString(1) == [DigitChar(1)];
    }
  }

  /** A data text that keeps the type: a tag per kind of value, then `str`. */
  function TypedShow(v: Value): string {
    match v
    case Null => "N"
    case Bool(b) => "B" + Show(v)
    case Int(i) => "I" + Show(v)
    case Str(s) => "S" + s
  }

  /** The typed text tells values apart. */
  lemma TypedShowInjective()
    ensures Injective(TypedShow)
  {
    forall a: Value, b: Value | TypedShow(a) == TypedShow(b) ensures a == b {
      assert TypedShow(a)[0] == TypedShow(b)[0];
      assert TypedShow(a)[1..] == TypedShow(b)[1..];
      if a.Int? {
        IntToStringInjective(a.i, b.i);
      } else if a.Bool? {
        assert TypedShow(a)[1] == TypedShow(b)[1];
      }
    }
  }

  /** Keyed on the typed text, a sequence of decorated calls starting from an
      empty cache serves only what the step itself returns for that data. */
  lemma TypedKeyTransparent(step: CachedStep<Value>, store: Store<Value>, now: int, write: WriteResult,
                            data: Value, ctx: Context)
    requires DataPure(step.inner) && Faithful(step, TypedShow, store)
    ensures var key := KeyOf(step.className, TypedShow, data, step.attrs);
            var r := CachedRun(step, TypedShow, store, now, write, data, ctx);
            Faithful(step, TypedShow, r.store) &&
            (r.outcome.Returned? <==>
               step.inner(data, ctx).Returned? && !(Fresh(store, key, now, step.ttl) && store[key].Truncated?)) &&
            (r.outcome.Returned? ==> r.outcome.data == step.inner(data, ctx).data)
  {
    TypedShowInjective();
    FaithfulPreserved(step, TypedShow, store, now, write, data, ctx);
    FaithfulTransparent(step, TypedShow, store, now, write, data, ctx);
  }

  // ---------------------------------------------------------------------------
  // clear_cache and cache_stats
  // ---------------------------------------------------------------------------

  /** `clear_cache(older_than)`: everything when no age is given, otherwise
      exactly the entries strictly older than it; the rest stay as they
      were. */
  function ClearCache<D>(store: Store<D>, now: int, olderThan: Option<int>): (r: Store<D>)
    ensures olderThan.None? ==> r == map[]
    ensures olderThan.Some? ==>
              (forall k :: k in r <==> k in store && Age(store, k, now) <= olderThan.value) &&
              (forall k :: k in r ==> r[k] == store[k])
  {
    match olderThan
    case None => map[]
    case Some(t) => map k | k in store && now - store[k].mtime <= t :: store[k]
  }

  /** Clearing twice with the same bound at the same time removes nothing
      more. */
  lemma ClearIdempotent<D>(store: Store<D>, now: int, olderThan: Option<int>)
    ensures ClearCache(ClearCache(store, now, olderThan), now, olderThan) == ClearCache(store, now, olderThan)
  {
    var once := ClearCache(store, now, olderThan);
    assert ClearCache(once, now, olderThan).Keys == once.Keys;
  }

  /** What `cache_stats` reports, leaving out the size in megabytes. */
  datatype Stats = Stats(fileCount: nat, oldestAge: Option<int>, newestAge: Option<int>)

  /** `k` is an entry of `ks` at least as old as every other entry of `ks`. */
  predicate OldestAmong<D>(store: Store<D>, now: int, ks: set<CacheKey>, k: CacheKey)
    requires ks <= store.Keys
  {
    k in ks && forall j :: j in ks ==> Age(store, j, now) <= Age(store, k, now)
  }

  /** `k` is an entry of `ks` at least as new as every other entry of `ks`. */
  predicate NewestAmong<D>(store: Store<D>, now: int, ks: set<CacheKey>, k: CacheKey)
    requires ks <= store.Keys
  {
    k in ks && forall j :: j in ks ==> Age(store, k, now) <= Age(store, j, now)
  }

  /** Some entry of a non-empty cache is the oldest. */
  lemma {:induction false} OldestExists<D>(store: Store<D>, now: int, ks: set<CacheKey>)
    requires ks != {} && ks <= store.Keys
    ensures exists k :: OldestAmong(store, now, ks, k)
    decreases |ks|
  {
    var x :| x in ks;
    if ks != {x} {
      var rest := ks - {x};
      OldestExists(store, now, rest);
      var m :| OldestAmong(store, now, rest, m);
      var top := if Age(store, x, now) > Age(store, m, now) then x else m;
      forall j | j in ks ensures Age(store, j, now) <= Age(store, top, now) {
        if j != x {
          assert j in rest;
        }
      }
      assert OldestAmong(store, now, ks, top);
    } else {
      assert OldestAmong(store, now, ks, x);
    }
  }

  /** Some entry of a non-empty cache is the newest. */
  lemma {:induction false} NewestExists<D>(store: Store<D>, now: int, ks: set<CacheKey>)
    requires ks != {} && ks <= store.Keys
    ensures exists k :: NewestAmong(store, now, ks, k)
    decreases |ks|
  {
    var x :| x in ks;
    if ks != {x} {
      var rest := ks - {x};
      NewestExists(store, now, rest);
      var m :| NewestAmong(store, now, rest, m);
      var bottom := if Age(store, x, now) < Age(store, m, now) then x else m;
      forall j | j in ks ensures Age(store, bottom, now) <= Age(store, j, now) {
        if j != x {
          assert j in rest;
        }
      }
      assert NewestAmong(store, now, ks, bottom);
    } else {
      assert NewestAmong(store, now, ks, x);
    }
  }

  /** `cache_stats()`: the number of entries and, when there are any, the
      largest and the smallest age, each the age of some entry; ages are
      absent for an empty cache. */
  function CacheStats<D>(store: Store<D>, now: int): (r: Stats)
    ensures r.fileCount == |store|
    ensures r.oldestAge.None? <==> |store| == 0
    ensures r.newestAge.None? <==> |store| == 0
    ensures r.oldestAge.Some? && r.newestAge.Some? ==>
              r.newestAge.value <= r.oldestAge.value &&
              (forall k :: k in store ==> r.newestAge.value <= Age(store, k, now) <= r.oldestAge.value) &&
              (exists k :: k in store && Age(store, k, now) == r.oldestAge.value) &&
              (exists k :: k in store && Age(store, k, now) == r.newestAge.value)
  {
    if |store| == 0 then Stats(0, None, None)
    else
      assert store.Keys != {} by { assert |store.Keys| == |store|; }
      OldestExists(store, now, store.Keys);
      NewestExists(store, now, store.Keys);
      var o :| OldestAmong(store, now, store.Keys, o);
      var n :| NewestAmong(store, now, store.Keys, n);
      var oldest, newest := Age(store, o, now), Age(store, n, now);
      Stats(|store|, Some(oldest), Some(newest))
  }

  /** After `clear_cache(t)`, no remaining entry is older than t. */
  lemma ClearBoundsOldest<D>(store: Store<D>, now: int, t: int)
    ensures var s := CacheStats(ClearCache(store, now, Some(t)), now);
            s.oldestAge.Some? ==> s.oldestAge.value <= t
  {
    var cleared := ClearCache(store, now, Some(t));
    var s := CacheStats(cleared, now);
    if s.oldestAge.Some? {
      var k :| k in cleared && Age(cleared, k, now) == s.oldestAge.value;
    }
  }
}
