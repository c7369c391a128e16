/**
 * The RivaBrowser connection pool (riva/cache.py, ConnectionCache).
 *
 * The pool is an insertion-ordered map from the connection key
 * (host, port, scheme) to a handle and the time it was stored; the front of
 * the order is the least recently used key. A hit moves its key to the back,
 * `store` evicts the front key when the pool is full, a periodic sweep drops
 * entries older than the timeout, and every path updates the metric counters.
 *
 * The clock, the liveness probe and the outcome of closing a handle are
 * inputs: `now`, `alive` and `closeFails`. Each operation is first stated as a
 * function on a `PoolState` value; the class `ConnectionCache` holds the same
 * state in fields and its methods are proved to follow those functions.
 */
module Pool {
  import opened Common

  /** A connection key: (host, port, scheme). */
  datatype Key = Key(host: string, port: int, scheme: string)

  /** A pooled transport: a plain/TLS socket or an HTTP/2 session. */
  datatype Handle = Socket(fd: nat) | Session(id: nat)

  /** What the pool keeps per key: the handle and when it was stored. */
  datatype Entry = Entry(handle: Handle, timestamp: int)

  datatype CacheError = InvalidTimeout | InvalidPoolSize | InvalidHost | InvalidPort | InvalidScheme

  /**
   * CacheMetrics. `avgLifetime` is the running average of connection
   * lifetimes, kept as an exact rational instead of a float.
   */
  datatype Metrics = Metrics(hits: nat, misses: nat, evictions: nat, size: nat, maxSize: nat,
                             totalConnections: nat, failedConnections: nat, avgLifetime: real)

  /** The constructor arguments that matter to the pool's behaviour. */
  datatype Config = Config(timeout: int, maxPoolSize: int, metricsEnabled: bool)

  /**
   * The pool's mutable state: the key order (front = least recently used),
   * the entries, `_connection_times` (when each key was stored), every handle
   * the pool has tried to close, in order, and the metrics.
   */
  datatype PoolState = PoolState(order: seq<Key>, entries: map<Key, Entry>, startTimes: map<Key, int>,
                                 closeLog: seq<Handle>, metrics: Metrics)

  /** What `get_metrics` reports; `hitRatio` is hits / (hits + misses), or 0. */
  datatype MetricsReport = MetricsReport(hits: nat, misses: nat, evictions: nat, size: nat, maxSize: nat,
                                         hitRatio: real, totalConnections: nat, failedConnections: nat,
                                         avgLifetime: real)

  /** One metric increment, or none when metrics are disabled. */
  function Tick(enabled: bool): nat
  {
    if enabled then 1 else 0
  }

  // -----------------------------------------------------------------------
  // Validation
  // -----------------------------------------------------------------------

  /** The constructor's argument checks, in the order the constructor makes them. */
  function CheckConfig(timeout: int, maxPoolSize: int): (r: Option<CacheError>)
    ensures r.None? <==> timeout > 0 && maxPoolSize > 0
    ensures timeout <= 0 ==> r == Some(InvalidTimeout)
    ensures timeout > 0 && maxPoolSize <= 0 ==> r == Some(InvalidPoolSize)
  {
    if timeout <= 0 then Some(InvalidTimeout)
    else if maxPoolSize <= 0 then Some(InvalidPoolSize)
    else None
  }

  /** The key checks that `get` and `store` make before touching the map. */
  function CheckKey(host: string, port: int, scheme: string): (r: Option<CacheError>)
    ensures r.None? <==> host != [] && 1 <= port <= 65535 && (scheme == "http" || scheme == "https")
    ensures host == [] ==> r == Some(InvalidHost)
    ensures host != [] && !(1 <= port <= 65535) ==> r == Some(InvalidPort)
  {
    if host == [] then Some(InvalidHost)
    else if port <= 0 || port > 65535 then Some(InvalidPort)
    else if scheme != "http" && scheme != "https" then Some(InvalidScheme)
    else None
  }

  // -----------------------------------------------------------------------
  // The key order
  // -----------------------------------------------------------------------

  /** A list of keys without repeats: the head is not in the tail, and neither has the tail any. */
  ghost predicate Distinct(s: seq<Key>)
  {
    |s| <= 1 || (s[0] !in s[1..] && Distinct(s[1..]))
  }

  /** Appending a key the list does not hold keeps it free of repeats. */
  lemma {:induction false} AppendFresh(s: seq<Key>, k: Key)
    requires Distinct(s) && k !in s
    ensures Distinct(s + [k])
  {
    if s != [] {
      AppendFresh(s[1..], k);
      assert (s + [k])[1..] == s[1..] + [k];
    }
  }

  /** Dropping the last key of a list without repeats leaves one without repeats that lacks that key. */
  lemma {:induction false} DistinctInit(s: seq<Key>)
    requires s != [] && Distinct(s)
    ensures Distinct(s[..|s| - 1]) && s[|s| - 1] !in s[..|s| - 1]
  {
    if |s| > 1 {
      DistinctInit(s[1..]);
      assert s[1..][..|s| - 2] == s[..|s| - 1][1..];
      assert s[..|s| - 1] == [s[0]] + s[1..][..|s| - 2];
    }
  }

  /** The order with `k` taken out (OrderedDict.pop on the key list). */
  function Without(s: seq<Key>, k: Key): (r: seq<Key>)
    ensures forall x :: x in r <==> x in s && x != k
    ensures Distinct(s) ==> Distinct(r)
    ensures Distinct(s) && k in s ==> |r| == |s| - 1
    ensures k !in s ==> r == s
    ensures |r| <= |s|
  {
    if s == [] then []
    else
      if s[0] == k then Without(s[1..], k)
      else [s[0]] + Without(s[1..], k)
  }

  /** Taking out the head of a list without repeats leaves its tail. */
  lemma WithoutHead(s: seq<Key>)
    requires s != [] && Distinct(s)
    ensures Without(s, s[0]) == s[1..]
  {
  }

  /** The keys of `s` not in `drop`, in their order. */
  function FilterOut(s: seq<Key>, drop: set<Key>): (r: seq<Key>)
    ensures forall x :: x in r <==> x in s && x !in drop
    ensures Distinct(s) ==> Distinct(r)
  {
    if s == [] then []
    else
      if s[0] in drop then FilterOut(s[1..], drop)
      else [s[0]] + FilterOut(s[1..], drop)
  }

  /** The keys of `order`, in order, whose entry is older than `timeout` at `now`. */
  function ExpiredKeys(order: seq<Key>, entries: map<Key, Entry>, now: int, timeout: int): (r: seq<Key>)
    ensures forall k :: k in r <==> k in order && k in entries && now - entries[k].timestamp > timeout
    ensures Distinct(order) ==> Distinct(r)
    ensures |r| <= |order|
  {
    if order == [] then []
    else
      var rest := ExpiredKeys(order[1..], entries, now, timeout);
      var k := order[0];
      if k in entries && now - entries[k].timestamp > timeout then [k] + rest
      else rest
  }

  // -----------------------------------------------------------------------
  // The invariant
  // -----------------------------------------------------------------------

  /**
   * The pool's invariant: the configuration passed the constructor's checks,
   * the order lists each key once and exactly the keys of the map, and the
   * pool holds at most `max_pool_size` entries.
   */
  ghost predicate Inv(cfg: Config, st: PoolState)
  {
    KeysInv(cfg, st.order, st.entries)
  }

  /** The invariant depends only on the configuration, the order and the entries. */
  ghost predicate KeysInv(cfg: Config, order: seq<Key>, entries: map<Key, Entry>)
  {
    && cfg.timeout > 0 && cfg.maxPoolSize > 0
    && Distinct(order)
    && (forall k :: k in entries <==> k in order)
    && |order| <= cfg.maxPoolSize
  }

  function EmptyState(maxPoolSize: nat): PoolState
  {
    PoolState([], map[], map[], [], Metrics(0, 0, 0, 0, maxPoolSize, 0, 0, 0.0))
  }

  // -----------------------------------------------------------------------
  // The operations on the state
  // -----------------------------------------------------------------------

  /**
   * `_remove_connection`: pop the entry and close its handle. If closing
   * raises, the failure is counted; otherwise, with metrics on, the key's start
   * time is popped and folded into the lifetime average (the division by
   * `total_connections` raising on zero lands in the same failure branch).
   */
  function RemoveSpec(cfg: Config, st: PoolState, key: Key, now: int, closeFails: Handle -> bool): PoolState
  {
    if key !in st.entries then st
    else
      var h := st.entries[key].handle;
      var (times, m) := AfterClose(cfg, st.startTimes, st.metrics, key, now, closeFails(h));
      PoolState(Without(st.order, key), st.entries - {key}, times, st.closeLog + [h], m)
  }

  /**
   * The bookkeeping `_remove_connection` does once the handle's `close` has
   * returned or raised: the new `_connection_times` and metrics.
   */
  function AfterClose(cfg: Config, times: map<Key, int>, m: Metrics, key: Key, now: int, closeFailed: bool)
    : (map<Key, int>, Metrics)
  {
    if closeFailed then
      (times, m.(failedConnections := m.failedConnections + Tick(cfg.metricsEnabled)))
    else if cfg.metricsEnabled && key in times then
      var lifetime := (now - times[key]) as real;
      if m.totalConnections == 0 then
        (times - {key}, m.(failedConnections := m.failedConnections + 1))
      else
        var avg := (m.avgLifetime * (m.totalConnections - 1) as real + lifetime) / m.totalConnections as real;
        (times - {key}, m.(avgLifetime := avg))
    else (times, m)
  }

  /**
   * The failures `_remove_connection` counts for `key`: one for a close
   * that raises (when metrics are on), or one for the lifetime average's
   * division by a zero connection count.
   */
  function RemoveFailures(cfg: Config, st: PoolState, key: Key, closeFails: Handle -> bool): (r: nat)
    ensures r <= Tick(cfg.metricsEnabled)
    ensures key in st.entries && !closeFails(st.entries[key].handle) && st.metrics.totalConnections > 0 ==> r == 0
  {
    if key !in st.entries then 0
    else if closeFails(st.entries[key].handle) then Tick(cfg.metricsEnabled)
    else if cfg.metricsEnabled && key in st.startTimes && st.metrics.totalConnections == 0 then 1
    else 0
  }

  /** Remove a key and count it as an eviction (the body of the sweep's loop and of `_remove_oldest`). */
  function EvictSpec(cfg: Config, st: PoolState, key: Key, now: int, closeFails: Handle -> bool): PoolState
  {
    var st1 := RemoveSpec(cfg, st, key, now, closeFails);
    st1.(metrics := st1.metrics.(evictions := st1.metrics.evictions + Tick(cfg.metricsEnabled)))
  }

  /** `_remove_oldest`: evict the front (least recently used) key, if any. */
  function RemoveOldestSpec(cfg: Config, st: PoolState, now: int, closeFails: Handle -> bool): PoolState
  {
    if st.order == [] then st
    else EvictSpec(cfg, st, st.order[0], now, closeFails)
  }

  /**
   * The liveness probe `_is_connection_alive`: the external probe `alive`
   * must succeed and the pool must not have closed the handle already (a
   * closed socket fails `settimeout`/`send`, a closed HTTP/2 session has no
   * protocol state).
   */
  predicate Usable(st: PoolState, h: Handle, alive: Handle -> bool)
  {
    alive(h) && h !in st.closeLog
  }

  /**
   * `get` on a valid key: a fresh, live entry is a hit and moves to the back;
   * a stale or dead one is removed and counts as a miss and a failure; an
   * absent key is a plain miss.
   */
  function GetSpec(cfg: Config, st: PoolState, key: Key, now: int, alive: Handle -> bool,
                   closeFails: Handle -> bool): (PoolState, Option<Handle>)
  {
    if key in st.entries then
      var e := st.entries[key];
      if now - e.timestamp < cfg.timeout && Usable(st, e.handle, alive) then
        (HitSpec(cfg, st, key), Some(e.handle))
      else
        (StaleSpec(cfg, st, key, now, closeFails), None)
    else
      (MissSpec(cfg, st), None)
  }

  /** The hit path of `get`: `move_to_end` and one more hit. */
  function HitSpec(cfg: Config, st: PoolState, key: Key): PoolState
  {
    st.(order := Without(st.order, key) + [key],
        metrics := st.metrics.(hits := st.metrics.hits + Tick(cfg.metricsEnabled)))
  }

  /** The stale path of `get`: remove and close the entry, count a miss and a failure. */
  function StaleSpec(cfg: Config, st: PoolState, key: Key, now: int, closeFails: Handle -> bool): PoolState
  {
    var t := Tick(cfg.metricsEnabled);
    var st1 := RemoveSpec(cfg, st, key, now, closeFails);
    st1.(metrics := st1.metrics.(misses := st1.metrics.misses + t,
                                 failedConnections := st1.metrics.failedConnections + t))
  }

  /** The miss path of `get`: one more miss, nothing else. */
  function MissSpec(cfg: Config, st: PoolState): PoolState
  {
    st.(metrics := st.metrics.(misses := st.metrics.misses + Tick(cfg.metricsEnabled)))
  }

  /**
   * `store` on a valid key: drop any entry for the same key, evict the front
   * key when the pool is full, then probe the new handle; a dead handle is
   * refused (and counted), a live one goes to the back stamped with `now`.
   */
  function StoreSpec(cfg: Config, st: PoolState, key: Key, h: Handle, now: int, alive: Handle -> bool,
                     closeFails: Handle -> bool): (PoolState, bool)
  {
    AdmitSpec(cfg, MakeRoom(cfg, st, key, now, closeFails), key, h, now, alive)
  }

  /**
   * The second half of `store`: probe the handle; a dead one is counted as
   * a failure and refused, a live one goes to the back stamped with `now`.
   */
  function AdmitSpec(cfg: Config, st: PoolState, key: Key, h: Handle, now: int, alive: Handle -> bool)
    : (PoolState, bool)
  {
    var t := Tick(cfg.metricsEnabled);
    var m := st.metrics;
    if !Usable(st, h, alive) then
      (st.(metrics := m.(failedConnections := m.failedConnections + t)), false)
    else
      (st.(order := st.order + [key], entries := st.entries[key := Entry(h, now)],
           startTimes := st.startTimes[key := now],
           metrics := m.(size := if cfg.metricsEnabled then |st.order| + 1 else m.size,
                         totalConnections := m.totalConnections + t)),
       true)
  }

  /** The first half of `store`: drop the key's old entry, then evict the front key if the pool is full. */
  function MakeRoom(cfg: Config, st: PoolState, key: Key, now: int, closeFails: Handle -> bool): PoolState
  {
    var st1 := if key in st.entries then RemoveSpec(cfg, st, key, now, closeFails) else st;
    if |st1.order| >= cfg.maxPoolSize then RemoveOldestSpec(cfg, st1, now, closeFails) else st1
  }
  /**
   * Remove `keys` one after another, counting an eviction for each when
   * `countEvictions` holds (the sweep does, `close_all` does not).
   */
  function RemoveAllSpec(cfg: Config, st: PoolState, keys: seq<Key>, now: int, closeFails: Handle -> bool,
                         countEvictions: bool): PoolState
    decreases |keys|
  {
    if keys == [] then st
    else
      var before := RemoveAllSpec(cfg, st, keys[..|keys| - 1], now, closeFails, countEvictions);
      RemoveStep(cfg, before, keys[|keys| - 1], now, closeFails, countEvictions)
  }

  /** One removal of `RemoveAllSpec`, with its eviction count when asked for. */
  function RemoveStep(cfg: Config, st: PoolState, key: Key, now: int, closeFails: Handle -> bool,
                      countEvictions: bool): PoolState
  {
    if countEvictions then EvictSpec(cfg, st, key, now, closeFails)
    else RemoveSpec(cfg, st, key, now, closeFails)
  }

  /** One pass of the background sweep at time `now`. */
  function SweepSpec(cfg: Config, st: PoolState, now: int, closeFails: Handle -> bool): PoolState
  {
    RemoveAllSpec(cfg, st, ExpiredKeys(st.order, st.entries, now, cfg.timeout), now, closeFails, true)
  }

  /** `close_all` after the sweeper has stopped: remove every key in order. */
  function CloseAllSpec(cfg: Config, st: PoolState, now: int, closeFails: Handle -> bool): PoolState
  {
    RemoveAllSpec(cfg, st, st.order, now, closeFails, false)
  }

  // -----------------------------------------------------------------------
  // Properties of the operations
  // -----------------------------------------------------------------------

  /** Popping a key keeps the invariant, whatever happens to the other fields. */
  lemma PopKeepsInv(cfg: Config, st: PoolState, key: Key, times: map<Key, int>, log: seq<Handle>, m: Metrics)
    requires Inv(cfg, st)
    ensures Inv(cfg, PoolState(Without(st.order, key), st.entries - {key}, times, log, m))
  {
  }

  /**
   * Removing one key takes exactly that key out of the order and the map,
   * closes its handle, and touches no counter but the failure count and the
   * lifetime average.
   */
  lemma RemoveEffect(cfg: Config, st: PoolState, key: Key, now: int, closeFails: Handle -> bool)
    requires Inv(cfg, st)
    ensures var r := RemoveSpec(cfg, st, key, now, closeFails);
      && Inv(cfg, r)
      && r.order == Without(st.order, key)
      && r.entries == st.entries - {key}
      && r.closeLog == st.closeLog + (if key in st.entries then [st.entries[key].handle] else [])
      && r.metrics.hits == st.metrics.hits && r.metrics.misses == st.metrics.misses
      && r.metrics.evictions == st.metrics.evictions && r.metrics.size == st.metrics.size
      && r.metrics.totalConnections == st.metrics.totalConnections
      && r.metrics.maxSize == st.metrics.maxSize
      && r.metrics.failedConnections == st.metrics.failedConnections + RemoveFailures(cfg, st, key, closeFails)
  {
    if key !in st.entries {
      assert key !in st.order;
    }
  }

  /**
   * The first half of `store` keeps the invariant and leaves room for the
   * key: afterwards the key is absent and the pool is below its maximum. A
   * new key into a full pool costs the front key.
   */
  lemma MakeRoomEffect(cfg: Config, st: PoolState, key: Key, now: int, closeFails: Handle -> bool)
    requires Inv(cfg, st)
    ensures var r := MakeRoom(cfg, st, key, now, closeFails);
      && Inv(cfg, r) && key !in r.entries && |r.order| < cfg.maxPoolSize
      && (key !in st.entries && |st.order| < cfg.maxPoolSize ==> r == st)
      && (key !in st.entries && |st.order| >= cfg.maxPoolSize ==>
            && r.order == st.order[1..] && r.entries == st.entries - {st.order[0]}
            && r.closeLog == st.closeLog + [st.entries[st.order[0]].handle])
  {
    var st1 := if key in st.entries then RemoveSpec(cfg, st, key, now, closeFails) else st;
    RemoveEffect(cfg, st, key, now, closeFails);
    if |st1.order| >= cfg.maxPoolSize {
      WithoutHead(st1.order);
      RemoveEffect(cfg, st1, st1.order[0], now, closeFails);
    }
  }

  /** Every operation keeps the invariant; in particular `store` never leaves more than `max_pool_size` entries. */
  lemma StoreKeepsInv(cfg: Config, st: PoolState, key: Key, h: Handle, now: int, alive: Handle -> bool,
                      closeFails: Handle -> bool)
    requires Inv(cfg, st)
    ensures Inv(cfg, StoreSpec(cfg, st, key, h, now, alive, closeFails).0)
    ensures |StoreSpec(cfg, st, key, h, now, alive, closeFails).0.order| <= cfg.maxPoolSize
  {
    MakeRoomEffect(cfg, st, key, now, closeFails);
    AppendFresh(MakeRoom(cfg, st, key, now, closeFails).order, key);
  }


  /**
   * After a successful `store` the key is held exactly once, at the most
   * recently used end, with the new handle and `now`; after a refused one it
   * is not held at all. The result is true exactly when the probe succeeds.
   */
  lemma StoreOneEntryPerKey(cfg: Config, st: PoolState, key: Key, h: Handle, now: int, alive: Handle -> bool,
                            closeFails: Handle -> bool)
    requires Inv(cfg, st)
    ensures var (r, ok) := StoreSpec(cfg, st, key, h, now, alive, closeFails);
      && (ok <==> alive(h) && h !in r.closeLog)
      && (ok ==> r.entries[key] == Entry(h, now) && r.order[|r.order| - 1] == key
                 && (forall i :: 0 <= i < |r.order| - 1 ==> r.order[i] != key))
      && (!ok ==> key !in r.entries)
  {
    MakeRoomEffect(cfg, st, key, now, closeFails);
  }


  /**
   * What `store` does to the counters and to the closed handles: a replaced
   * entry is closed first, a full pool loses its front key (one eviction), a
   * dead handle adds one failure and nothing else, a live one adds one
   * connection, and every close that fails adds one failure. With metrics
   * off no counter moves.
   */
  lemma StoreCounters(cfg: Config, st: PoolState, key: Key, h: Handle, now: int, alive: Handle -> bool,
                      closeFails: Handle -> bool)
    requires Inv(cfg, st)
    ensures var (r, ok) := StoreSpec(cfg, st, key, h, now, alive, closeFails);
      var t := Tick(cfg.metricsEnabled);
      var evicted := key !in st.entries && |st.order| >= cfg.maxPoolSize;
      && r.metrics.hits == st.metrics.hits && r.metrics.misses == st.metrics.misses
      && r.metrics.evictions == st.metrics.evictions + (if evicted then t else 0)
      && r.metrics.totalConnections == st.metrics.totalConnections + (if ok then t else 0)
      && r.metrics.failedConnections == st.metrics.failedConnections
           + RemoveFailures(cfg, st, key, closeFails)
           + (if evicted then RemoveFailures(cfg, st, st.order[0], closeFails) else 0)
           + (if ok then 0 else t)
      && r.closeLog == st.closeLog
                       + (if key in st.entries then [st.entries[key].handle] else [])
                       + (if evicted then [st.entries[st.order[0]].handle] else [])
      && (evicted ==> st.order[0] !in r.entries)
  {
    var st1 := if key in st.entries then RemoveSpec(cfg, st, key, now, closeFails) else st;
    RemoveEffect(cfg, st, key, now, closeFails);
    if key in st.entries {
      assert |st1.order| == |st.order| - 1;
    } else if |st.order| >= cfg.maxPoolSize {
      assert st.order[0] in st.entries;
      RemoveEffect(cfg, st1, st1.order[0], now, closeFails);
    }
  }

  /** `get` on an absent key: None, one more miss, and nothing else changes. */
  lemma GetMiss(cfg: Config, st: PoolState, key: Key, now: int, alive: Handle -> bool, closeFails: Handle -> bool)
    requires Inv(cfg, st) && key !in st.entries
    ensures var (r, res) := GetSpec(cfg, st, key, now, alive, closeFails);
      && res == None
      && r == st.(metrics := st.metrics.(misses := st.metrics.misses + Tick(cfg.metricsEnabled)))
  {
  }

  /**
   * `get` on a fresh, live entry: its handle, the key moved to the most
   * recently used end with its timestamp unchanged, one more hit, nothing
   * closed.
   */
  lemma GetHit(cfg: Config, st: PoolState, key: Key, now: int, alive: Handle -> bool, closeFails: Handle -> bool)
    requires Inv(cfg, st) && key in st.entries
    requires now - st.entries[key].timestamp < cfg.timeout && Usable(st, st.entries[key].handle, alive)
    ensures var (r, res) := GetSpec(cfg, st, key, now, alive, closeFails);
      && Inv(cfg, r)
      && res == Some(st.entries[key].handle)
      && r.entries == st.entries
      && r.order == Without(st.order, key) + [key]
      && r.closeLog == st.closeLog
      && r.metrics == st.metrics.(hits := st.metrics.hits + Tick(cfg.metricsEnabled))
  {
    var r := GetSpec(cfg, st, key, now, alive, closeFails).0;
    AppendFresh(Without(st.order, key), key);
  }

  /**
   * `get` on an expired or dead entry: None, the entry removed and its
   * handle closed, one more miss and one more failure, besides the failure
   * a close that raises adds (metrics on); evictions are not counted on this
   * path. With metrics off no counter moves.
   */
  lemma GetStale(cfg: Config, st: PoolState, key: Key, now: int, alive: Handle -> bool, closeFails: Handle -> bool)
    requires Inv(cfg, st) && key in st.entries
    requires !(now - st.entries[key].timestamp < cfg.timeout && Usable(st, st.entries[key].handle, alive))
    ensures var (r, res) := GetSpec(cfg, st, key, now, alive, closeFails);
      && Inv(cfg, r)
      && res == None
      && key !in r.entries && r.entries == st.entries - {key}
      && r.closeLog == st.closeLog + [st.entries[key].handle]
    ensures var r := GetSpec(cfg, st, key, now, alive, closeFails).0;
      var t := Tick(cfg.metricsEnabled);
      && r.metrics.misses == st.metrics.misses + t
      && r.metrics.failedConnections == st.metrics.failedConnections + RemoveFailures(cfg, st, key, closeFails) + t
      && r.metrics.hits == st.metrics.hits && r.metrics.evictions == st.metrics.evictions
      && r.metrics.totalConnections == st.metrics.totalConnections
  {
    RemoveEffect(cfg, st, key, now, closeFails);
  }

  lemma GetKeepsInv(cfg: Config, st: PoolState, key: Key, now: int, alive: Handle -> bool, closeFails: Handle -> bool)
    requires Inv(cfg, st)
    ensures Inv(cfg, GetSpec(cfg, st, key, now, alive, closeFails).0)
  {
    if key in st.entries {
      var e := st.entries[key];
      if now - e.timestamp < cfg.timeout && Usable(st, e.handle, alive) {
        GetHit(cfg, st, key, now, alive, closeFails);
      } else {
        RemoveEffect(cfg, st, key, now, closeFails);
      }
    }
  }

  /** The keys of a list, as a set. */
  function KeySet(s: seq<Key>): set<Key>
  {
    set k | k in s
  }

  lemma KeySetSnoc(s: seq<Key>)
    requires s != []
    ensures KeySet(s) == KeySet(s[..|s| - 1]) + {s[|s| - 1]}
  {
    assert s == s[..|s| - 1] + [s[|s| - 1]];
  }

  /** The handles held under `keys`, in list order. */
  function HandlesOf(entries: map<Key, Entry>, keys: seq<Key>): seq<Handle>
    requires forall k :: k in keys ==> k in entries
    decreases |keys|
  {
    if keys == [] then []
    else
      var init := keys[..|keys| - 1];
      assert forall k :: k in init ==> k in keys;
      HandlesOf(entries, init) + [entries[keys[|keys| - 1]].handle]
  }

  /**
   * Removing a list of distinct, present keys takes exactly those keys out
   * of the map and keeps the invariant.
   */
  lemma {:induction false} RemoveAllEntries(cfg: Config, st: PoolState, keys: seq<Key>, now: int,
                                            closeFails: Handle -> bool, countEvictions: bool)
    requires Inv(cfg, st) && Distinct(keys)
    requires forall k :: k in keys ==> k in st.entries
    ensures var r := RemoveAllSpec(cfg, st, keys, now, closeFails, countEvictions);
      Inv(cfg, r) && r.entries == st.entries - KeySet(keys)
    decreases |keys|
  {
    if keys != [] {
      var init, last := keys[..|keys| - 1], keys[|keys| - 1];
      assert forall k :: k in init ==> k in keys;
      DistinctInit(keys);
      RemoveAllEntries(cfg, st, init, now, closeFails, countEvictions);
      var before := RemoveAllSpec(cfg, st, init, now, closeFails, countEvictions);
      RemoveStepEffect(cfg, before, last, now, closeFails, countEvictions);
      KeySetSnoc(keys);
      MapMinusStep(st.entries, KeySet(init), last);
    }
  }

  /** ... and keeps the remaining keys in their order. */
  lemma {:induction false} RemoveAllOrder(cfg: Config, st: PoolState, keys: seq<Key>, now: int,
                                          closeFails: Handle -> bool, countEvictions: bool)
    requires Inv(cfg, st) && Distinct(keys)
    requires forall k :: k in keys ==> k in st.entries
    ensures RemoveAllSpec(cfg, st, keys, now, closeFails, countEvictions).order == FilterOut(st.order, KeySet(keys))
    decreases |keys|
  {
    if keys != [] {
      var init, last := keys[..|keys| - 1], keys[|keys| - 1];
      assert forall k :: k in init ==> k in keys;
      DistinctInit(keys);
      RemoveAllEntries(cfg, st, init, now, closeFails, countEvictions);
      RemoveAllOrder(cfg, st, init, now, closeFails, countEvictions);
      var before := RemoveAllSpec(cfg, st, init, now, closeFails, countEvictions);
      RemoveStepEffect(cfg, before, last, now, closeFails, countEvictions);
      calc {
        RemoveAllSpec(cfg, st, keys, now, closeFails, countEvictions).order;
        Without(before.order, last);
        { FilterOutWithout(st.order, KeySet(init), last); }
        FilterOut(st.order, KeySet(init) + {last});
        { KeySetSnoc(keys); }
        FilterOut(st.order, KeySet(keys));
      }
    } else {
      FilterOutNothing(st.order, KeySet(keys));
    }
  }

  /** ... and closes their handles in list order. */
  lemma {:induction false} RemoveAllCloses(cfg: Config, st: PoolState, keys: seq<Key>, now: int,
                                           closeFails: Handle -> bool, countEvictions: bool)
    requires Inv(cfg, st) && Distinct(keys)
    requires forall k :: k in keys ==> k in st.entries
    ensures RemoveAllSpec(cfg, st, keys, now, closeFails, countEvictions).closeLog
            == st.closeLog + HandlesOf(st.entries, keys)
    decreases |keys|
  {
    if keys != [] {
      var init, last := keys[..|keys| - 1], keys[|keys| - 1];
      assert forall k :: k in init ==> k in keys;
      DistinctInit(keys);
      RemoveAllEntries(cfg, st, init, now, closeFails, countEvictions);
      RemoveAllCloses(cfg, st, init, now, closeFails, countEvictions);
      var before := RemoveAllSpec(cfg, st, init, now, closeFails, countEvictions);
      assert before.entries[last] == st.entries[last];
      calc {
        RemoveAllSpec(cfg, st, keys, now, closeFails, countEvictions).closeLog;
        RemoveStep(cfg, before, last, now, closeFails, countEvictions).closeLog;
        before.closeLog + [st.entries[last].handle];
        st.closeLog + (HandlesOf(st.entries, init) + [st.entries[last].handle]);
        st.closeLog + HandlesOf(st.entries, keys);
      }
    }
  }

  lemma MapMinusStep(m: map<Key, Entry>, drop: set<Key>, k: Key)
    ensures (m - drop) - {k} == m - (drop + {k})
  {
  }

  /** `RemoveStep` on a present key, stated without unfolding `RemoveSpec`. */
  lemma RemoveStepEffect(cfg: Config, st: PoolState, key: Key, now: int, closeFails: Handle -> bool,
                         countEvictions: bool)
    requires Inv(cfg, st)
    ensures var r := RemoveStep(cfg, st, key, now, closeFails, countEvictions);
      && Inv(cfg, r)
      && r.order == Without(st.order, key)
      && r.entries == st.entries - {key}
      && r.closeLog == st.closeLog + (if key in st.entries then [st.entries[key].handle] else [])
      && r.metrics.hits == st.metrics.hits && r.metrics.misses == st.metrics.misses
      && r.metrics.totalConnections == st.metrics.totalConnections
      && r.metrics.evictions == st.metrics.evictions + (if countEvictions then Tick(cfg.metricsEnabled) else 0)
  {
    RemoveEffect(cfg, st, key, now, closeFails);
  }

  /**
   * Removing a list of distinct, present keys leaves hits, misses and the
   * connection count alone and, when evictions are counted, adds one per key.
   */
  lemma {:induction false} RemoveAllCounters(cfg: Config, st: PoolState, keys: seq<Key>, now: int,
                                             closeFails: Handle -> bool, countEvictions: bool)
    requires Inv(cfg, st) && Distinct(keys)
    requires forall k :: k in keys ==> k in st.entries
    ensures var r := RemoveAllSpec(cfg, st, keys, now, closeFails, countEvictions);
      && r.metrics.evictions == st.metrics.evictions + (if countEvictions && cfg.metricsEnabled then |keys| else 0)
      && r.metrics.hits == st.metrics.hits && r.metrics.misses == st.metrics.misses
      && r.metrics.totalConnections == st.metrics.totalConnections
    decreases |keys|
  {
    if keys != [] {
      var init, last := keys[..|keys| - 1], keys[|keys| - 1];
      assert forall k :: k in init ==> k in keys;
      DistinctInit(keys);
      RemoveAllEntries(cfg, st, init, now, closeFails, countEvictions);
      RemoveAllCounters(cfg, st, init, now, closeFails, countEvictions);
      var before := RemoveAllSpec(cfg, st, init, now, closeFails, countEvictions);
      RemoveStepEffect(cfg, before, last, now, closeFails, countEvictions);
    }
  }

  lemma {:induction false} FilterOutWithout(s: seq<Key>, drop: set<Key>, k: Key)
    ensures Without(FilterOut(s, drop), k) == FilterOut(s, drop + {k})
  {
    if s != [] {
      FilterOutWithout(s[1..], drop, k);
    }
  }

  lemma {:induction false} FilterOutNothing(s: seq<Key>, drop: set<Key>)
    requires forall k :: k in s ==> k !in drop
    ensures FilterOut(s, drop) == s
  {
    if s != [] {
      FilterOutNothing(s[1..], drop);
    }
  }

  lemma {:induction false} FilterOutEverything(s: seq<Key>, drop: set<Key>)
    requires forall k :: k in s ==> k in drop
    ensures FilterOut(s, drop) == []
  {
    if s != [] {
      FilterOutEverything(s[1..], drop);
    }
  }

  /**
   * One sweep pass removes exactly the entries older than the timeout
   * (`now - ts > timeout`), keeps the rest unchanged and in their order, and
   * adds one eviction per removed entry.
   */
  lemma SweepRemovesExactlyExpired(cfg: Config, st: PoolState, now: int, closeFails: Handle -> bool)
    requires Inv(cfg, st)
    ensures var r := SweepSpec(cfg, st, now, closeFails);
      var expired := ExpiredKeys(st.order, st.entries, now, cfg.timeout);
      && Inv(cfg, r)
      && (forall k :: k in r.entries <==> k in st.entries && now - st.entries[k].timestamp <= cfg.timeout)
      && (forall k :: k in r.entries ==> r.entries[k] == st.entries[k])
      && r.metrics.evictions == st.metrics.evictions + (if cfg.metricsEnabled then |expired| else 0)
      && r.metrics.hits == st.metrics.hits && r.metrics.misses == st.metrics.misses
  {
    var expired := ExpiredKeys(st.order, st.entries, now, cfg.timeout);
    RemoveAllEntries(cfg, st, expired, now, closeFails, true);
    RemoveAllCounters(cfg, st, expired, now, closeFails, true);
  }

  /** `close_all` closes every pooled handle in order and empties the pool; a second call changes nothing. */
  lemma CloseAllEmpties(cfg: Config, st: PoolState, now: int, closeFails: Handle -> bool)
    requires Inv(cfg, st)
    ensures var r := CloseAllSpec(cfg, st, now, closeFails);
      && Inv(cfg, r)
      && r.order == [] && r.entries == map[]
      && r.closeLog == st.closeLog + HandlesOf(st.entries, st.order)
      && CloseAllSpec(cfg, r, now, closeFails) == r
  {
    RemoveAllEntries(cfg, st, st.order, now, closeFails, false);
    RemoveAllOrder(cfg, st, st.order, now, closeFails, false);
    RemoveAllCloses(cfg, st, st.order, now, closeFails, false);
    FilterOutEverything(st.order, KeySet(st.order));
  }

  /**
   * `store` of a key the pool does not hold, with a live handle: the key
   * goes to the back; if the pool was full, the front key is evicted first
   * and its handle closed.
   */
  lemma StoreNewKey(cfg: Config, st: PoolState, key: Key, h: Handle, now: int, alive: Handle -> bool,
                    closeFails: Handle -> bool)
    requires Inv(cfg, st) && key !in st.entries && alive(h) && h !in st.closeLog
    requires |st.order| >= cfg.maxPoolSize ==> h != st.entries[st.order[0]].handle
    ensures var r := StoreSpec(cfg, st, key, h, now, alive, closeFails).0;
      var full := |st.order| >= cfg.maxPoolSize;
      && r.order == (if full then st.order[1..] else st.order) + [key]
      && r.entries == (if full then st.entries - {st.order[0]} else st.entries)[key := Entry(h, now)]
      && r.closeLog == st.closeLog + (if full then [st.entries[st.order[0]].handle] else [])
      && Inv(cfg, r)
  {
    MakeRoomEffect(cfg, st, key, now, closeFails);
    AppendFresh(MakeRoom(cfg, st, key, now, closeFails).order, key);
  }


  /** Two stores of live handles under different keys into an empty pool of two. */
  lemma FillTwo(cfg: Config, k1: Key, k2: Key, h1: Handle, h2: Handle, t: int,
                alive: Handle -> bool, closeFails: Handle -> bool)
    requires cfg.timeout > 0 && cfg.maxPoolSize == 2
    requires k1 != k2 && alive(h1) && alive(h2)
    ensures var s1 := StoreSpec(cfg, EmptyState(2), k1, h1, t, alive, closeFails).0;
      var s2 := StoreSpec(cfg, s1, k2, h2, t, alive, closeFails).0;
      && Inv(cfg, s2) && s2.order == [k1, k2] && s2.closeLog == []
      && s2.entries == map[k1 := Entry(h1, t), k2 := Entry(h2, t)]
  {
    var s0 := EmptyState(2);
    StoreNewKey(cfg, s0, k1, h1, t, alive, closeFails);
    var s1 := StoreSpec(cfg, s0, k1, h1, t, alive, closeFails).0;
    assert s1.order == [k1] && s1.entries == map[k1 := Entry(h1, t)] && s1.closeLog == [];
    StoreNewKey(cfg, s1, k2, h2, t, alive, closeFails);
  }

  /** Two stores of live handles into an empty pool of two, then a hit on the first key. */
  lemma FillThenTouch(cfg: Config, k1: Key, k2: Key, h1: Handle, h2: Handle, t: int,
                      alive: Handle -> bool, closeFails: Handle -> bool)
    requires cfg.timeout > 0 && cfg.maxPoolSize == 2
    requires k1 != k2 && alive(h1) && alive(h2)
    ensures var s1 := StoreSpec(cfg, EmptyState(2), k1, h1, t, alive, closeFails).0;
      var s2 := StoreSpec(cfg, s1, k2, h2, t, alive, closeFails).0;
      var (s3, got) := GetSpec(cfg, s2, k1, t, alive, closeFails);
      && got == Some(h1)
      && Inv(cfg, s3) && s3.order == [k2, k1] && s3.closeLog == []
      && s3.entries == map[k1 := Entry(h1, t), k2 := Entry(h2, t)]
  {
    FillTwo(cfg, k1, k2, h1, h2, t, alive, closeFails);
    var s1 := StoreSpec(cfg, EmptyState(2), k1, h1, t, alive, closeFails).0;
    var s2 := StoreSpec(cfg, s1, k2, h2, t, alive, closeFails).0;
    GetHit(cfg, s2, k1, t, alive, closeFails);
    assert Without([k1, k2], k1) == [k2];
  }

  /**
   * Least-recently-used order: fill a pool of two with k1 then k2, touch k1
   * with a hit, store k3 — the entry evicted and closed is k2's, not the
   * just-touched k1's.
   */
  lemma LruEvictsLeastRecentlyUsed(cfg: Config, k1: Key, k2: Key, k3: Key, h1: Handle, h2: Handle, h3: Handle,
                                   t: int, alive: Handle -> bool, closeFails: Handle -> bool)
    requires cfg.timeout > 0 && cfg.maxPoolSize == 2
    requires k1 != k2 && k2 != k3 && k1 != k3
    requires alive(h1) && alive(h2) && alive(h3) && h3 != h2
    ensures var s1 := StoreSpec(cfg, EmptyState(2), k1, h1, t, alive, closeFails).0;
      var s2 := StoreSpec(cfg, s1, k2, h2, t, alive, closeFails).0;
      var (s3, got) := GetSpec(cfg, s2, k1, t, alive, closeFails);
      var s4 := StoreSpec(cfg, s3, k3, h3, t, alive, closeFails).0;
      && got == Some(h1)
      && s4.order == [k1, k3]
      && s4.entries == map[k1 := Entry(h1, t), k3 := Entry(h3, t)]
      && s4.closeLog == [h2]
  {
    FillThenTouch(cfg, k1, k2, h1, h2, t, alive, closeFails);
    var s1 := StoreSpec(cfg, EmptyState(2), k1, h1, t, alive, closeFails).0;
    var s2 := StoreSpec(cfg, s1, k2, h2, t, alive, closeFails).0;
    var s3 := GetSpec(cfg, s2, k1, t, alive, closeFails).0;
    assert s3.order[0] == k2 && s3.order[1..] == [k1] && s3.entries[k2].handle == h2;
    assert s3.entries - {k2} == map[k1 := Entry(h1, t)];
    StoreNewKey(cfg, s3, k3, h3, t, alive, closeFails);
  }

  // -----------------------------------------------------------------------
  // Putting a used connection back
  // -----------------------------------------------------------------------

  /**
   * As written, `get` leaves the entry in the pool, so the `store` that
   * `_request_http` makes after a keep-alive response finds the key, closes
   * the very handle it is asked to keep, then probes the closed handle and
   * refuses it: a pooled connection serves one more request at most.
   */
  lemma ReuseDropsConnection(cfg: Config, st: PoolState, key: Key, now: int, alive: Handle -> bool,
                             closeFails: Handle -> bool)
    requires Inv(cfg, st) && key in st.entries
    requires now - st.entries[key].timestamp < cfg.timeout && Usable(st, st.entries[key].handle, alive)
    ensures var h := st.entries[key].handle;
      var (s1, got) := GetSpec(cfg, st, key, now, alive, closeFails);
      var (s2, ok) := StoreSpec(cfg, s1, key, h, now, alive, closeFails);
      && got == Some(h)
      && !ok
      && key !in s2.entries
      && s2.closeLog == st.closeLog + [h]
  {
    var h := st.entries[key].handle;
    GetHit(cfg, st, key, now, alive, closeFails);
    var s1 := GetSpec(cfg, st, key, now, alive, closeFails).0;
    MakeRoomEffect(cfg, s1, key, now, closeFails);
    RemoveEffect(cfg, s1, key, now, closeFails);
    var room := MakeRoom(cfg, s1, key, now, closeFails);
    assert room == RemoveSpec(cfg, s1, key, now, closeFails);
    assert h in room.closeLog;
  }

  /**
   * `store` as intended: when the key already holds this very handle and it
   * is still usable, the handle is re-stamped with `now` and moved to the
   * most recently used end instead of being closed; otherwise as `StoreSpec`.
   * On that path `_connection_times` keeps the first stamp and no connection
   * is counted, since the connection is the one already pooled.
   */
  function StoreKeepSpec(cfg: Config, st: PoolState, key: Key, h: Handle, now: int, alive: Handle -> bool,
                         closeFails: Handle -> bool): (PoolState, bool)
  {
    if key in st.entries && st.entries[key].handle == h && Usable(st, h, alive) then
      (st.(order := Without(st.order, key) + [key], entries := st.entries[key := Entry(h, now)]), true)
    else StoreSpec(cfg, st, key, h, now, alive, closeFails)
  }

  /** The corrected `store` keeps the invariant and agrees with the original whenever the handle is new to the key. */
  lemma StoreKeepKeepsInv(cfg: Config, st: PoolState, key: Key, h: Handle, now: int, alive: Handle -> bool,
                          closeFails: Handle -> bool)
    requires Inv(cfg, st)
    ensures Inv(cfg, StoreKeepSpec(cfg, st, key, h, now, alive, closeFails).0)
    ensures !(key in st.entries && st.entries[key].handle == h) ==>
              StoreKeepSpec(cfg, st, key, h, now, alive, closeFails) == StoreSpec(cfg, st, key, h, now, alive, closeFails)
  {
    if key in st.entries && st.entries[key].handle == h && Usable(st, h, alive) {
      AppendFresh(Without(st.order, key), key);
    } else {
      StoreKeepsInv(cfg, st, key, h, now, alive, closeFails);
    }
  }

  /**
   * With the corrected `store`, a connection taken from the pool and put
   * back stays pooled, open and most recently used, with nothing closed.
   */
  lemma ReuseKeepsConnection(cfg: Config, st: PoolState, key: Key, now: int, alive: Handle -> bool,
                             closeFails: Handle -> bool)
    requires Inv(cfg, st) && key in st.entries
    requires now - st.entries[key].timestamp < cfg.timeout && Usable(st, st.entries[key].handle, alive)
    ensures var h := st.entries[key].handle;
      var (s1, got) := GetSpec(cfg, st, key, now, alive, closeFails);
      var (s2, ok) := StoreKeepSpec(cfg, s1, key, h, now, alive, closeFails);
      && got == Some(h)
      && ok
      && Inv(cfg, s2)
      && s2.entries == st.entries[key := Entry(h, now)]
      && s2.order[|s2.order| - 1] == key
      && s2.closeLog == st.closeLog
  {
    GetHit(cfg, st, key, now, alive, closeFails);
    var s1 := GetSpec(cfg, st, key, now, alive, closeFails).0;
    StoreKeepKeepsInv(cfg, s1, key, st.entries[key].handle, now, alive, closeFails);
  }

  // -----------------------------------------------------------------------
  // The pool object
  // -----------------------------------------------------------------------

  class ConnectionCache {
    const timeout: int
    const maxPoolSize: int
    const metricsEnabled: bool
    /** The OrderedDict's key order; the front is the least recently used key. */
    var order: seq<Key>
    /** The OrderedDict's entries. */
    var entries: map<Key, Entry>
    /** `_connection_times`. */
    var startTimes: map<Key, int>
    /** Every handle the pool has called `close` on, in order. */
    var closeLog: seq<Handle>
    var metrics: Metrics

    function Cfg(): Config
    {
      Config(timeout, maxPoolSize, metricsEnabled)
    }

    function State(): PoolState
      reads this
    {
      PoolState(order, entries, startTimes, closeLog, metrics)
    }

    ghost predicate Valid()
      reads this`order, this`entries
    {
      KeysInv(Cfg(), order, entries)
    }

    constructor (timeout: int, maxPoolSize: int, metricsEnabled: bool)
      requires CheckConfig(timeout, maxPoolSize).None?
      ensures Valid()
      ensures this.timeout == timeout && this.maxPoolSize == maxPoolSize && this.metricsEnabled == metricsEnabled
      ensures State() == EmptyState(maxPoolSize)
    {
      this.timeout := timeout;
      this.maxPoolSize := maxPoolSize;
      this.metricsEnabled := metricsEnabled;
      order := [];
      entries := map[];
      startTimes := map[];
      closeLog := [];
      metrics := Metrics(0, 0, 0, 0, maxPoolSize, 0, 0, 0.0);
    }

    /** `ConnectionCache(...)`: raises on a non-positive timeout or pool size. */
    static method Create(timeout: int, maxPoolSize: int, metricsEnabled: bool)
      returns (r: Result<ConnectionCache, CacheError>)
      ensures r.Err? <==> CheckConfig(timeout, maxPoolSize).Some?
      ensures r.Err? ==> r.error == CheckConfig(timeout, maxPoolSize).value
      ensures r.Ok? ==> fresh(r.value) && r.value.Valid() && r.value.State() == EmptyState(maxPoolSize)
      ensures r.Ok? ==> r.value.Cfg() == Config(timeout, maxPoolSize, metricsEnabled)
    {
      var err := CheckConfig(timeout, maxPoolSize);
      if err.Some? {
        return Err(err.value);
      }
      var c := new ConnectionCache(timeout, maxPoolSize, metricsEnabled);
      return Ok(c);
    }

    /** `_remove_connection`. */
    method RemoveConnection(key: Key, now: int, closeFails: Handle -> bool)
      requires Valid()
      modifies this
      ensures Valid()
      ensures State() == RemoveSpec(Cfg(), old(State()), key, now, closeFails)
      ensures order == Without(old(order), key) && entries == old(entries) - {key}
    {
      if key !in entries {
        return;
      }
      var h := entries[key].handle;
      var times, m := startTimes, metrics;
      if closeFails(h) {
        m := m.(failedConnections := m.failedConnections + Tick(metricsEnabled));
      } else if metricsEnabled && key in times {
        var lifetime := (now - times[key]) as real;
        times := times - {key};
        if m.totalConnections == 0 {
          m := m.(failedConnections := m.failedConnections + 1);
        } else {
          m := m.(avgLifetime := (m.avgLifetime * (m.totalConnections - 1) as real + lifetime)
                                 / m.totalConnections as real);
        }
      }
      PopKeepsInv(Cfg(), State(), key, times, closeLog + [h], m);
      order, entries, startTimes, closeLog, metrics := Without(order, key), entries - {key}, times, closeLog + [h], m;
    }

    /** Remove a key and count the eviction. */
    method Evict(key: Key, now: int, closeFails: Handle -> bool)
      requires Valid()
      modifies this
      ensures Valid()
      ensures State() == EvictSpec(Cfg(), old(State()), key, now, closeFails)
      ensures order == Without(old(order), key) && entries == old(entries) - {key}
    {
      RemoveConnection(key, now, closeFails);
      metrics := metrics.(evictions := metrics.evictions + Tick(metricsEnabled));
    }

    /** `_remove_oldest`. */
    method RemoveOldest(now: int, closeFails: Handle -> bool)
      requires Valid()
      modifies this
      ensures Valid()
      ensures State() == RemoveOldestSpec(Cfg(), old(State()), now, closeFails)
      ensures old(order) != [] ==> order == old(order)[1..] && entries == old(entries) - {old(order)[0]}
    {
      if order != [] {
        WithoutHead(order);
        Evict(order[0], now, closeFails);
      }
    }

    /** `get(host, port, scheme)` at time `now`. */
    method Get(host: string, port: int, scheme: string, now: int, alive: Handle -> bool,
               closeFails: Handle -> bool) returns (r: Result<Option<Handle>, CacheError>)
      requires Valid()
      modifies this
      ensures Valid()
      ensures CheckKey(host, port, scheme).Some? ==>
                r == Err(CheckKey(host, port, scheme).value) && State() == old(State())
      ensures CheckKey(host, port, scheme).None? ==>
                var (st, res) := GetSpec(Cfg(), old(State()), Key(host, port, scheme), now, alive, closeFails);
                r == Ok(res) && State() == st
    {
      var err := CheckKey(host, port, scheme);
      if err.Some? {
        return Err(err.value);
      }
      var res := Lookup(Key(host, port, scheme), now, alive, closeFails);
      return Ok(res);
    }

    /** The locked part of `get` (lines 182-206), on a key that passed the checks. */
    /** The hit path of `get`. */
    method Touch(key: Key)
      requires Valid() && key in entries
      modifies this
      ensures Valid()
      ensures State() == HitSpec(Cfg(), old(State()), key)
    {
      AppendFresh(Without(order, key), key);
      order := Without(order, key) + [key];
      metrics := metrics.(hits := metrics.hits + Tick(metricsEnabled));
    }

    /** The stale path of `get`. */
    method DropStale(key: Key, now: int, closeFails: Handle -> bool)
      requires Valid()
      modifies this
      ensures Valid()
      ensures State() == StaleSpec(Cfg(), old(State()), key, now, closeFails)
    {
      RemoveConnection(key, now, closeFails);
      metrics := metrics.(misses := metrics.misses + Tick(metricsEnabled),
                          failedConnections := metrics.failedConnections + Tick(metricsEnabled));
    }

    method Lookup(key: Key, now: int, alive: Handle -> bool, closeFails: Handle -> bool) returns (res: Option<Handle>)
      requires Valid()
      modifies this
      ensures Valid()
      ensures State() == GetSpec(Cfg(), old(State()), key, now, alive, closeFails).0
      ensures res == GetSpec(Cfg(), old(State()), key, now, alive, closeFails).1
    {
      if key in entries {
        var e := entries[key];
        if now - e.timestamp < timeout && alive(e.handle) && e.handle !in closeLog {
          Touch(key);
          return Some(e.handle);
        }
        DropStale(key, now, closeFails);
      } else {
        metrics := metrics.(misses := metrics.misses + Tick(metricsEnabled));
      }
      return None;
    }

    /**
     * `store(host, port, scheme, conn)` at time `now`, as written: a handle
     * the key already holds is closed before it is probed (see
     * `ReuseDropsConnection`; the correction is `StoreKeepSpec`).
     */
    method Store(host: string, port: int, scheme: string, h: Handle, now: int, alive: Handle -> bool,
                 closeFails: Handle -> bool) returns (r: Result<bool, CacheError>)
      requires Valid()
      modifies this
      ensures Valid()
      ensures |order| <= maxPoolSize
      ensures CheckKey(host, port, scheme).Some? ==>
                r == Err(CheckKey(host, port, scheme).value) && State() == old(State())
      ensures CheckKey(host, port, scheme).None? ==>
                var (st, ok) := StoreSpec(Cfg(), old(State()), Key(host, port, scheme), h, now, alive, closeFails);
                r == Ok(ok) && State() == st
    {
      var err := CheckKey(host, port, scheme);
      if err.Some? {
        return Err(err.value);
      }
      var key := Key(host, port, scheme);
      MakeRoomFor(key, now, closeFails);
      var ok := Admit(key, h, now, alive);
      return Ok(ok);
    }

    /** Lines 235-240 of `store`: drop the key's old entry, evict the front key if full. */
    method MakeRoomFor(key: Key, now: int, closeFails: Handle -> bool)
      requires Valid()
      modifies this
      ensures Valid() && key !in entries && |order| < maxPoolSize
      ensures State() == MakeRoom(Cfg(), old(State()), key, now, closeFails)
    {
      if key in entries {
        RemoveConnection(key, now, closeFails);
      }
      if |order| >= maxPoolSize {
        RemoveOldest(now, closeFails);
      }
    }

    /** Lines 242-254 of `store`: probe the handle and, if it is live, add the entry. */
    method Admit(key: Key, h: Handle, now: int, alive: Handle -> bool) returns (ok: bool)
      requires Valid() && key !in entries && |order| < maxPoolSize
      modifies this
      ensures Valid()
      ensures State() == AdmitSpec(Cfg(), old(State()), key, h, now, alive).0
      ensures ok == AdmitSpec(Cfg(), old(State()), key, h, now, alive).1
    {
      if !alive(h) || h in closeLog {
        metrics := metrics.(failedConnections := metrics.failedConnections + Tick(metricsEnabled));
        return false;
      }
      AppendFresh(order, key);
      order := order + [key];
      entries := entries[key := Entry(h, now)];
      startTimes := startTimes[key := now];
      if metricsEnabled {
        metrics := metrics.(size := |order|, totalConnections := metrics.totalConnections + 1);
      }
      return true;
    }

    /** One pass of `_cleanup_expired`'s loop body, at time `now`. */
    method Sweep(now: int, closeFails: Handle -> bool)
      requires Valid()
      modifies this
      ensures Valid()
      ensures State() == SweepSpec(Cfg(), old(State()), now, closeFails)
    {
      var expired := ExpiredKeys(order, entries, now, timeout);
      ghost var st0 := State();
      var i := 0;
      while i < |expired|
        invariant 0 <= i <= |expired|
        invariant Valid()
        invariant State() == RemoveAllSpec(Cfg(), st0, expired[..i], now, closeFails, true)
      {
        ghost var before := State();
        Evict(expired[i], now, closeFails);
        assert State() == RemoveStep(Cfg(), before, expired[i], now, closeFails, true);
        assert expired[..i + 1][..i] == expired[..i];
        i := i + 1;
      }
      assert expired[..i] == expired;
    }

    /** `close_all` (after the sweeper thread has been stopped and joined). */
    method CloseAll(now: int, closeFails: Handle -> bool)
      requires Valid()
      modifies this
      ensures Valid()
      ensures State() == CloseAllSpec(Cfg(), old(State()), now, closeFails)
      ensures order == [] && entries == map[]
    {
      var keys := order;
      ghost var st0 := State();
      CloseAllEmpties(Cfg(), st0, now, closeFails);
      var i := 0;
      while i < |keys|
        invariant 0 <= i <= |keys|
        invariant State() == RemoveAllSpec(Cfg(), st0, keys[..i], now, closeFails, false)
        invariant Valid()
      {
        ghost var before := State();
        RemoveConnection(keys[i], now, closeFails);
        assert State() == RemoveStep(Cfg(), before, keys[i], now, closeFails, false);
        assert keys[..i + 1][..i] == keys[..i];
        i := i + 1;
      }
      assert keys[..i] == keys;
    }

    /** `get_metrics`: a snapshot of the counters with the derived hit ratio. */
    function GetMetrics(): (r: MetricsReport)
      reads this
      ensures 0.0 <= r.hitRatio <= 1.0
      ensures r.hits + r.misses > 0 ==> r.hitRatio * (r.hits + r.misses) as real == r.hits as real
      ensures r.hits == metrics.hits && r.misses == metrics.misses && r.evictions == metrics.evictions
    ensures r.size == metrics.size && r.maxSize == metrics.maxSize
    ensures r.totalConnections == metrics.totalConnections && r.failedConnections == metrics.failedConnections
    ensures r.avgLifetime == metrics.avgLifetime
    {
      var m := metrics;
      var total := m.hits + m.misses;
      var ratio := if total > 0 then m.hits as real / total as real else 0.0;
      MetricsReport(m.hits, m.misses, m.evictions, m.size, m.maxSize, ratio, m.totalConnections,
                    m.failedConnections, m.avgLifetime)
    }
  }
}
