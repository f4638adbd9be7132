/** The `__cache__` decorator of utils/functions.py: an LRU cache kept as a
    dictionary from call keys to results plus a recency list `keys_queue`
    whose front is the least recently used key. */
module LruCache {
  import opened Outcomes

  /** The entries of a recency queue, as a set. */
  function Members<K>(q: seq<K>): set<K>
  {
    set k | k in q
  }

  predicate NoDuplicates<K(==)>(q: seq<K>)
  {
    forall i, j :: 0 <= i < j < |q| ==> q[i] != q[j]
  }

  /** How many entries a cache with this `maxsize` holds at most after a call:
      a miss pops one key whenever the queue is longer than `maxsize`, so a
      negative `maxsize` behaves like 0. */
  function Capacity(maxsize: int): nat
  {
    if maxsize < 0 then 0 else maxsize
  }

  /** The invariant the decorator keeps between calls. */
  predicate Consistent<K(==), V>(cache: map<K, V>, queue: seq<K>, maxsize: int)
  {
    && cache.Keys == Members(queue)
    && NoDuplicates(queue)
    && |queue| <= Capacity(maxsize)
  }

  /** Python's `list.remove(k)`: drops the first occurrence of `k`. */
  function RemoveFirst<K(==)>(q: seq<K>, k: K): (r: seq<K>)
    requires k in q
    ensures |r| == |q| - 1
    ensures multiset(r) == multiset(q) - multiset{k}
  {
    if q[0] == k then
      assert q == [q[0]] + q[1..];
      q[1..]
    else
      assert q == [q[0]] + q[1..];
      [q[0]] + RemoveFirst(q[1..], k)
  }

  /** On a queue without duplicates, removing `k` leaves a queue without
      duplicates holding every other key. */
  lemma {:induction false} RemoveFirstKeepsOthers<K>(q: seq<K>, k: K)
    requires k in q && NoDuplicates(q)
    ensures NoDuplicates(RemoveFirst(q, k)) && Members(RemoveFirst(q, k)) == Members(q) - {k}
  {
    NoDuplicatesTail(q);
    assert Members(q) == {q[0]} + Members(q[1..]) by {
      assert q == [q[0]] + q[1..];
    }
    if q[0] != k {
      RemoveFirstKeepsOthers(q[1..], k);
      var rest := RemoveFirst(q[1..], k);
      assert q[0] !in Members(q[1..]);
      assert q[0] !in rest by {
        assert q[0] !in Members(rest);
      }
      NoDuplicatesCons(q[0], rest);
      assert Members([q[0]] + rest) == {q[0]} + Members(rest);
    }
  }

  lemma {:induction false} NoDuplicatesTail<K>(q: seq<K>)
    requires NoDuplicates(q) && q != []
    ensures NoDuplicates(q[1..]) && q[0] !in q[1..]
  {
    forall j | 0 <= j < |q[1..]| ensures q[1..][j] != q[0] {
      assert q[1..][j] == q[j + 1];
    }
  }

  lemma {:induction false} NoDuplicatesCons<K>(x: K, q: seq<K>)
    requires NoDuplicates(q) && x !in q
    ensures NoDuplicates([x] + q)
  {
    var r := [x] + q;
    forall i, j | 0 <= i < j < |r| ensures r[i] != r[j] {
      assert r[j] == q[j - 1];
      if i > 0 {
        assert r[i] == q[i - 1];
      }
    }
  }

  /** Removing the first occurrence of `k` at index `i` keeps everything
      before and after it, in order. */
  lemma {:induction false} RemoveFirstAt<K>(q: seq<K>, k: K, i: nat)
    requires i < |q| && q[i] == k && k !in q[..i]
    ensures RemoveFirst(q, k) == q[..i] + q[i + 1..]
  {
    if i > 0 {
      var t := q[1..];
      ConsSlices(q, i);
      assert q[0] != k by {
        assert q[0] == q[..i][0];
      }
      RemoveFirstAt(t, k, i - 1);
      calc {
        RemoveFirst(q, k);
        [q[0]] + RemoveFirst(t, k);
        [q[0]] + (t[..i - 1] + t[i..]);
        ([q[0]] + t[..i - 1]) + t[i..];
      }
    }
  }

  /** Slicing a queue after its first key. */
  lemma {:induction false} ConsSlices<K>(q: seq<K>, i: nat)
    requires 0 < i < |q|
    ensures q[..i] == [q[0]] + q[1..][..i - 1]
    ensures q[1..][i..] == q[i + 1..]
    ensures q[..i][1..] == q[1..][..i - 1]
  {
  }

  /** A hit moves the key to the back and keeps the invariant. */
  lemma {:induction false} HitKeepsConsistent<K, V>(cache: map<K, V>, queue: seq<K>, maxsize: int, key: K)
    requires Consistent(cache, queue, maxsize) && key in cache
    ensures var q := RemoveFirst(queue, key) + [key];
      Consistent(cache, q, maxsize) && |q| == |queue| && q[|q| - 1] == key
  {
    var r := RemoveFirst(queue, key);
    var q := r + [key];
    RemoveFirstKeepsOthers(queue, key);
    assert key !in r by {
      assert Members(r) == Members(queue) - {key};
    }
    assert Members(q) == Members(r) + {key};
    forall i, j | 0 <= i < j < |q| ensures q[i] != q[j] {
      if j == |q| - 1 {
        assert q[i] == r[i] && r[i] in Members(r);
      } else {
        assert q[i] == r[i] && q[j] == r[j];
      }
    }
  }

  /** A miss appends the key; when the queue then exceeds `maxsize` the
      front key is dropped from the queue and the dictionary, and the
      invariant holds again. */
  lemma {:induction false} MissKeepsConsistent<K, V>(cache: map<K, V>, queue: seq<K>, maxsize: int, key: K, value: V)
    requires Consistent(cache, queue, maxsize) && key !in cache
    ensures var q := queue + [key]; var c := cache[key := value];
      if |q| > maxsize then Consistent(c - {q[0]}, q[1..], maxsize)
      else Consistent(c, q, maxsize)
  {
    var q := queue + [key];
    var c := cache[key := value];
    assert Members(q) == Members(queue) + {key};
    assert NoDuplicates(q) by {
      forall i, j | 0 <= i < j < |q| ensures q[i] != q[j] {
        if j == |q| - 1 {
          assert q[i] == queue[i] && queue[i] in Members(queue);
        }
      }
    }
    if |q| > maxsize {
      var t := q[1..];
      assert q == [q[0]] + t;
      assert q[0] !in t by {
        forall j | 0 <= j < |t| ensures t[j] != q[0] {
          assert t[j] == q[j + 1];
        }
      }
      assert Members(q) == {q[0]} + Members(t);
      assert Members(t) == Members(q) - {q[0]};
    }
  }

  /** The state of one `__cache__(maxsize)` closure: the `cache` dict and the
      `keys_queue` list shared by every call of the wrapped function. */
  class Cache<K(==), V> {
    var cache: map<K, V>
    var keysQueue: seq<K>
    const maxsize: int

    ghost predicate Valid()
      reads this
    {
      Consistent(cache, keysQueue, maxsize)
    }

    constructor (maxsize: int)
      ensures Valid()
      ensures this.maxsize == maxsize && cache == map[] && keysQueue == []
    {
      this.maxsize := maxsize;
      cache := map[];
      keysQueue := [];
    }

    /** One call of the decorated function with the call key `key`;
        `func` gives the outcome of calling the wrapped function on it, and
        `calls` counts how many times the wrapped function was called. */
    method Call<E>(key: K, func: K -> Outcome<V, E>) returns (result: Outcome<V, E>, calls: nat)
      requires Valid()
      modifies this
      ensures Valid()
      // hit: nothing is called, the stored value comes back, the key moves to the back
      ensures old(key in cache) ==>
        && calls == 0
        && result == Returned(old(cache)[key])
        && cache == old(cache)
        && keysQueue == RemoveFirst(old(keysQueue), key) + [key]
      // miss: the wrapped function is called exactly once and its outcome is returned
      ensures old(key !in cache) ==> calls == 1 && result == func(key)
      // a raising miss leaves the cache alone
      ensures old(key !in cache) && result.Raised? ==>
        cache == old(cache) && keysQueue == old(keysQueue)
      // a miss that fits appends the key and stores the result
      ensures old(key !in cache) && result.Returned? && |old(keysQueue)| < maxsize ==>
        && cache == old(cache)[key := result.value]
        && keysQueue == old(keysQueue) + [key]
      // a miss that overflows evicts exactly the least recently used key
      ensures old(key !in cache) && result.Returned? && |old(keysQueue)| >= maxsize && old(keysQueue) != [] ==>
        && keysQueue == old(keysQueue)[1..] + [key]
        && cache == (old(cache) - {old(keysQueue)[0]})[key := result.value]
      // with nothing stored, an overflowing miss evicts the fresh key at once
      ensures old(key !in cache) && result.Returned? && |old(keysQueue)| >= maxsize && old(keysQueue) == [] ==>
        cache == map[] && keysQueue == []
    {
      if key in cache {
        HitKeepsConsistent(cache, keysQueue, maxsize, key);
        keysQueue := RemoveFirst(keysQueue, key);
        keysQueue := keysQueue + [key];
        result, calls := Returned(cache[key]), 0;
      } else {
        result, calls := func(key), 1;
        if result.Raised? {
          return;
        }
        MissKeepsConsistent(cache, keysQueue, maxsize, key, result.value);
        ghost var q0 := keysQueue;
        cache := cache[key := result.value];
        keysQueue := keysQueue + [key];
        if |keysQueue| > maxsize {
          var oldKey := keysQueue[0];
          keysQueue := keysQueue[1..];
          cache := cache - {oldKey};
          if q0 != [] {
            assert oldKey == q0[0] && oldKey != key;
            assert keysQueue == q0[1..] + [key];
          }
        }
      }
    }
  }
}
