/**
 * The first-generation connection cache (`WebBrowser/riva/cache.py`): a
 * dictionary from `(host, port, scheme)` to an open socket, with no expiry,
 * no size bound and no check that a socket is still alive.
 *
 * The dictionary is a sequence of entries in insertion order, as Python
 * keeps it; `close_all` closes in that order.
 */
module LegacyCache {
  import opened Common
  import Pool

  type Entries = seq<(Pool.Key, Pool.Handle)>

  function Keys(e: Entries): (r: seq<Pool.Key>)
    ensures |r| == |e|
    ensures forall i :: 0 <= i < |e| ==> r[i] == e[i].0
    decreases |e|
  {
    if e == [] then [] else [e[0].0] + Keys(e[1..])
  }

  function Handles(e: Entries): (r: seq<Pool.Handle>)
    ensures |r| == |e|
    ensures forall i :: 0 <= i < |e| ==> r[i] == e[i].1
    decreases |e|
  {
    if e == [] then [] else [e[0].1] + Handles(e[1..])
  }

  /** A dictionary holds each key once. */
  predicate UniqueKeys(e: Entries)
    decreases |e|
  {
    e == [] || (e[0].0 !in Keys(e[1..]) && UniqueKeys(e[1..]))
  }

  /** `dict.get(key)`: the socket stored under `key`, or `None`. */
  function Lookup(e: Entries, k: Pool.Key): (r: Option<Pool.Handle>)
    ensures r.None? <==> k !in Keys(e)
    ensures r.Some? ==> (k, r.value) in e
    decreases |e|
  {
    if e == [] then None
    else if e[0].0 == k then Some(e[0].1)
    else Lookup(e[1..], k)
  }

  /**
   * `d[key] = value`: an existing key keeps its place and takes the new
   * value; a new key goes at the end.
   */
  function Put(e: Entries, k: Pool.Key, h: Pool.Handle): (r: Entries)
    ensures Keys(r) == if k in Keys(e) then Keys(e) else Keys(e) + [k]
    decreases |e|
  {
    if e == [] then [(k, h)]
    else if e[0].0 == k then [(k, h)] + e[1..]
    else [e[0]] + Put(e[1..], k, h)
  }

  class ConnectionCache {
    /** `self.cache`. */
    var entries: Entries
    /** Every socket `close` was called on, in order. */
    var closeLog: seq<Pool.Handle>

    predicate Valid()
      reads this
    {
      UniqueKeys(entries)
    }

    /** Lines 4-6. */
    constructor ()
      ensures Valid()
      ensures entries == [] && closeLog == []
    {
      entries := [];
      closeLog := [];
    }

    /** Lines 8-11: the socket stored for this key, if any. */
    method Get(host: string, port: int, scheme: string) returns (sock: Option<Pool.Handle>)
      ensures sock.None? <==> Pool.Key(host, port, scheme) !in Keys(entries)
      ensures sock == Lookup(entries, Pool.Key(host, port, scheme))
    {
      sock := Lookup(entries, Pool.Key(host, port, scheme));
    }

    /** Lines 13-15: the key now maps to `sock`, whatever it held before. */
    method Store(host: string, port: int, scheme: string, sock: Pool.Handle)
      requires Valid()
      modifies this`entries
      ensures Valid()
      ensures entries == Put(old(entries), Pool.Key(host, port, scheme), sock)
    {
      PutKeepsUnique(entries, Pool.Key(host, port, scheme), sock);
      entries := Put(entries, Pool.Key(host, port, scheme), sock);
    }

    /**
     * Lines 17-23: every stored socket is closed, in insertion order (a
     * failing `close` is swallowed and the loop goes on), then the
     * dictionary is emptied.
     */
    method CloseAll()
      modifies this
      ensures Valid()
      ensures closeLog == old(closeLog) + Handles(old(entries))
      ensures entries == []
    {
      var all := Handles(entries);
      for i := 0 to |all|
        invariant closeLog == old(closeLog) + all[..i]
      {
        closeLog := closeLog + [all[i]];
      }
      assert all[..|all|] == all;
      entries := [];
    }
  }

  /** Storing keeps one entry per key. */
  lemma {:induction false} PutKeepsUnique(e: Entries, k: Pool.Key, h: Pool.Handle)
    requires UniqueKeys(e)
    ensures UniqueKeys(Put(e, k, h))
    decreases |e|
  {
    if e != [] && e[0].0 != k {
      PutKeepsUnique(e[1..], k, h);
      var r := Put(e, k, h);
      assert r[1..] == Put(e[1..], k, h);
    } else if e != [] {
      assert Put(e, k, h)[1..] == e[1..];
    }
  }

  /** After a store, the key reads back the new socket; other keys are untouched. */
  lemma {:induction false} LookupPut(e: Entries, k: Pool.Key, h: Pool.Handle, k2: Pool.Key)
    ensures Lookup(Put(e, k, h), k2) == if k2 == k then Some(h) else Lookup(e, k2)
    decreases |e|
  {
    if e != [] && e[0].0 != k {
      var r := Put(e, k, h);
      assert r[0] == e[0] && r[1..] == Put(e[1..], k, h);
      LookupPut(e[1..], k, h, k2);
    }
  }

  /** Storing again under a key replaces one entry and adds none. */
  lemma {:induction false} PutExistingKeepsSize(e: Entries, k: Pool.Key, h: Pool.Handle)
    ensures |Put(e, k, h)| == if k in Keys(e) then |e| else |e| + 1
  {
    assert |Keys(Put(e, k, h))| == |Put(e, k, h)|;
  }

  /**
   * A socket replaced by a later store under the same key, and held under
   * no other key, is no longer in the dictionary: `close_all` never closes
   * it.
   */
  lemma {:induction false} ReplacedSocketLeaks(e: Entries, k: Pool.Key, h: Pool.Handle, prev: Pool.Handle)
    requires UniqueKeys(e)
    requires Lookup(e, k) == Some(prev) && prev != h
    requires forall i :: 0 <= i < |e| && e[i].0 != k ==> e[i].1 != prev
    ensures prev !in Handles(Put(e, k, h))
    decreases |e|
  {
    var r := Put(e, k, h);
    if e[0].0 == k {
      assert r == [(k, h)] + e[1..];
      forall i | 0 <= i < |r| ensures r[i].1 != prev {
        if i > 0 {
          assert Keys(e[1..])[i - 1] == e[i].0 == r[i].0;
        }
      }
    } else {
      assert r == [e[0]] + Put(e[1..], k, h);
      ReplacedSocketLeaks(e[1..], k, h, prev);
      forall i | 0 <= i < |r| ensures r[i].1 != prev {
        if i > 0 {
          assert r[i] == Put(e[1..], k, h)[i - 1];
          assert Handles(Put(e[1..], k, h))[i - 1] == r[i].1;
        }
      }
    }
  }
}
