/** The semantic cache of `app/cache/semantic_cache.py` run by one caller at a time, and its
    refinement of a plain LRU list. Redis is the two key stores and the sorted set. */
module SemanticCaches {
  import opened Collections
  import opened Wrappers
  import opened SortedSets

  type Embedding = seq<real>

  /** `encode` is the sentence model, `dot` the similarity of two normalised embeddings, and
      `hash` the truncated SHA-256 of a query. */
  datatype Encoder = Encoder(
    encode: string -> Embedding, dot: (Embedding, Embedding) -> real, hash: string -> Key)

  datatype CacheView = CacheView(emb: map<Key, Embedding>, resp: map<Key, string>, index: seq<Entry>)

  const EMPTY_CACHE := CacheView(map[], map[], [])

  // ---- The operations on values ---------------------------------------------------------

  function Remove(v: CacheView, key: Key): CacheView {
    CacheView(v.emb - {key}, v.resp - {key}, ZRem(v.index, key))
  }

  function RemoveAll(v: CacheView, keys: seq<Key>): CacheView
    decreases |keys|
  {
    if keys == [] then v else RemoveAll(Remove(v, keys[0]), keys[1..])
  }

  /** `_evict_if_needed` */
  function Evict(v: CacheView, max: int): CacheView {
    if |v.index| <= max then v
    else RemoveAll(v, Keys(v.index[..if max >= 0 then |v.index| - max else |v.index|]))
  }

  function Store(v: CacheView, key: Key, e: Embedding, response: string, now: real): CacheView {
    CacheView(v.emb[key := e], v.resp[key := response], ZAdd(v.index, key, now))
  }

  datatype Best = Best(score: real, key: Option<Key>)

  /** `best_score` and `best_key` after the first `n` members; members whose embedding is gone
      are skipped. */
  function Scan(enc: Encoder, v: CacheView, q: Embedding, n: nat): Best
    requires n <= |v.index|
  {
    if n == 0 then Best(-1.0, None)
    else
      var b := Scan(enc, v, q, n - 1);
      var key := v.index[n - 1].key;
      if key in v.emb && (enc.dot)(q, v.emb[key]) > b.score then Best((enc.dot)(q, v.emb[key]), Some(key)) else b
  }

  /** The key a lookup hits, if any. */
  function Hit(enc: Encoder, threshold: real, v: CacheView, query: string): Option<Key> {
    var b := Scan(enc, v, (enc.encode)(query), |v.index|);
    if b.key.Some? && b.score >= threshold && b.key.value in v.resp then b.key else None
  }

  function Lookup(enc: Encoder, threshold: real, v: CacheView, query: string, now: real): (CacheView, Option<string>) {
    match Hit(enc, threshold, v, query)
    case None => (v, None)
    case Some(key) =>
      (v.(index := ZAdd(v.index, key, now)), if key in v.resp then Some(v.resp[key]) else None)
  }

  // ---- What a lookup finds --------------------------------------------------------------

  predicate Live(v: CacheView, i: nat)
    requires i < |v.index|
  {
    v.index[i].key in v.emb
  }

  function Similarity(enc: Encoder, v: CacheView, q: Embedding, i: nat): real
    requires i < |v.index| && Live(v, i)
  {
    (enc.dot)(q, v.emb[v.index[i].key])
  }

  /** Member `i` is live, at least as similar as every live member before `n`, and more
      similar than every live member touched less recently. */
  ghost predicate FirstMost(enc: Encoder, v: CacheView, q: Embedding, n: nat, i: nat)
    requires n <= |v.index|
  {
    && i < n && Live(v, i)
    && (forall j :: 0 <= j < n && Live(v, j) ==> Similarity(enc, v, q, j) <= Similarity(enc, v, q, i))
    && (forall j :: 0 <= j < i && Live(v, j) ==> Similarity(enc, v, q, j) < Similarity(enc, v, q, i))
  }

  ghost predicate Found(enc: Encoder, v: CacheView, q: Embedding, n: nat, i: nat, b: Best)
    requires n <= |v.index|
  {
    FirstMost(enc, v, q, n, i) && b.key == Some(v.index[i].key) && Similarity(enc, v, q, i) == b.score
  }

  lemma {:induction false} ScanExact(enc: Encoder, v: CacheView, q: Embedding, n: nat)
    requires n <= |v.index|
    ensures var b := Scan(enc, v, q, n);
            && (b.key.None? ==>
                  && b.score == -1.0
                  && forall j :: 0 <= j < n && Live(v, j) ==> Similarity(enc, v, q, j) <= -1.0)
            && (b.key.Some? ==> b.score > -1.0 && exists i: nat :: Found(enc, v, q, n, i, b))
  {
    if n > 0 {
      ScanExact(enc, v, q, n - 1);
      var b0, b := Scan(enc, v, q, n - 1), Scan(enc, v, q, n);
      if b.key.Some? {
        if b == b0 {
          var i: nat :| Found(enc, v, q, n - 1, i, b);
          assert Found(enc, v, q, n, i, b);
        } else {
          assert Live(v, n - 1) && Similarity(enc, v, q, n - 1) == b.score;
          assert Found(enc, v, q, n, n - 1, b);
        }
      }
    }
  }

  /** The entry a lookup answers from. */
  ghost predicate Answers(enc: Encoder, threshold: real, v: CacheView, query: string, i: nat) {
    && i < |v.index|
    && FirstMost(enc, v, (enc.encode)(query), |v.index|, i)
    && Similarity(enc, v, (enc.encode)(query), i) > -1.0
    && Similarity(enc, v, (enc.encode)(query), i) >= threshold
    && v.index[i].key in v.resp
  }

  /** A lookup hits if and only if the most similar live entry, the least recently touched one
      on ties, exceeds similarity -1, reaches the threshold and still has its response. */
  lemma HitExact(enc: Encoder, threshold: real, v: CacheView, query: string)
    ensures Hit(enc, threshold, v, query).Some? <==> exists i: nat :: Answers(enc, threshold, v, query, i)
    ensures forall i: nat :: Answers(enc, threshold, v, query, i) ==>
        Hit(enc, threshold, v, query) == Some(v.index[i].key)
  {
    var q := (enc.encode)(query);
    var n := |v.index|;
    ScanExact(enc, v, q, n);
    var b := Scan(enc, v, q, n);
    if b.key.Some? {
      var f: nat :| Found(enc, v, q, n, f, b);
      forall i: nat | FirstMost(enc, v, q, n, i) ensures i == f {
      }
      if Hit(enc, threshold, v, query).Some? {
        assert Answers(enc, threshold, v, query, f);
      }
    }
  }

  /** The answer is that entry's response, and only a hit touches anything: it moves the entry
      to the most recent place. */
  lemma LookupExact(enc: Encoder, threshold: real, v: CacheView, query: string, now: real, i: nat)
    ensures Answers(enc, threshold, v, query, i) ==>
              var (v', answer) := Lookup(enc, threshold, v, query, now);
              answer == Some(v.resp[v.index[i].key]) && v' == v.(index := ZAdd(v.index, v.index[i].key, now))
    ensures (forall j: nat :: !Answers(enc, threshold, v, query, j)) ==>
        Lookup(enc, threshold, v, query, now) == (v, None)
  {
    HitExact(enc, threshold, v, query);
  }

  // ---- What is stored -------------------------------------------------------------------

  /** Whatever `v'` still holds, it holds as `v` does. */
  ghost predicate Within(v': CacheView, v: CacheView) {
    && (forall k :: k in v'.resp ==> k in v.resp && v'.resp[k] == v.resp[k])
    && (forall k :: k in v'.emb ==> k in v.emb && v'.emb[k] == v.emb[k])
  }

  lemma {:induction false} RemoveAllWithin(v: CacheView, keys: seq<Key>)
    ensures Within(RemoveAll(v, keys), v)
    ensures forall k :: k in keys ==> k !in RemoveAll(v, keys).resp && k !in RemoveAll(v, keys).emb
    decreases |keys|
  {
    if keys != [] {
      RemoveAllWithin(Remove(v, keys[0]), keys[1..]);
    }
  }

  /** After a `set` its key, if it is still there, holds what was set, and every other key what
      it held before. */
  lemma SetStores(v: CacheView, key: Key, e: Embedding, response: string, max: int, now: real)
    ensures var v' := Evict(Store(v, key, e, response, now), max);
            && (forall k :: k in v'.resp ==> if k == key then v'.resp[k] == response
                                             else k in v.resp && v'.resp[k] == v.resp[k])
            && (forall k :: k in v'.emb ==> if k == key then v'.emb[k] == e else k in v.emb && v'.emb[k] == v.emb[k])
  {
    var s := Store(v, key, e, response, now);
    hide ZAdd, RemoveAll;
    if |s.index| > max {
      RemoveAllWithin(s, Keys(s.index[..if max >= 0 then |s.index| - max else |s.index|]));
    }
  }

  // ---- The objects ----------------------------------------------------------------------

  class SemanticCache {
    const encoder: Encoder
    const threshold: real
    const maxEntries: int
    var emb: map<Key, Embedding>
    var resp: map<Key, string>
    var index: seq<Entry>

    function View(): CacheView
      reads this
    {
      CacheView(emb, resp, index)
    }

    constructor (encoder: Encoder, threshold: real, maxEntries: int := 1000)
      ensures View() == EMPTY_CACHE
      ensures this.encoder == encoder && this.threshold == threshold && this.maxEntries == maxEntries
    {
      this.encoder, this.threshold, this.maxEntries := encoder, threshold, maxEntries;
      emb, resp, index := map[], map[], [];
    }

    method Get(query: string, now: real) returns (answer: Option<string>)
      modifies this`index
      ensures (View(), answer) == Lookup(encoder, threshold, old(View()), query, now)
    {
      var q := (encoder.encode)(query);
      var bestScore, bestKey := -1.0, None;
      for i := 0 to |index|
        invariant Scan(encoder, View(), q, i) == Best(bestScore, bestKey)
      {
        var key := index[i].key;
        if key in emb {
          var score := (encoder.dot)(q, emb[key]);
          if score > bestScore {
            bestScore, bestKey := score, Some(key);
          }
        }
      }
      if bestKey.Some? && bestScore >= threshold && bestKey.value in resp {
        index := ZAdd(index, bestKey.value, now);
        return Some(resp[bestKey.value]);
      }
      return None;
    }

    method Set(query: string, response: string, now: real)
      modifies this
      ensures View() == Evict(Store(old(View()), (encoder.hash)(query), (encoder.encode)(query), response, now),
              maxEntries)
      ensures var key := (encoder.hash)(query);
              && (forall k :: k in resp ==> if k == key then resp[k] == response
                                            else k in old(resp) && resp[k] == old(resp)[k])
              && (forall k :: k in emb ==> if k == key then emb[k] == (encoder.encode)(query)
                                           else k in old(emb) && emb[k] == old(emb)[k])
    {
      SetStores(View(), (encoder.hash)(query), (encoder.encode)(query), response, maxEntries, now);
      var e := (encoder.encode)(query);
      var key := (encoder.hash)(query);
      emb := emb[key := e];
      resp := resp[key := response];
      index := ZAdd(index, key, now);
      EvictIfNeeded();
    }

    method EvictIfNeeded()
      modifies this
      ensures View() == Evict(old(View()), maxEntries)
    {
      var size := |index|;
      if size <= maxEntries {
        return;
      }
      var toEvict := size - maxEntries;
      var victims := Keys(index[..if toEvict <= |index| then toEvict else |index|]);
      RemoveKeys(victims);
    }

    method RemoveKeys(keys: seq<Key>)
      modifies this
      ensures View() == RemoveAll(old(View()), keys)
    {
      for i := 0 to |keys|
        invariant RemoveAll(View(), keys[i..]) == RemoveAll(old(View()), keys)
      {
        assert keys[i..][1..] == keys[i + 1..];
        RemoveKey(keys[i]);
      }
    }

    method RemoveKey(key: Key)
      modifies this
      ensures View() == Remove(old(View()), key)
    {
      emb, resp, index := emb - {key}, resp - {key}, ZRem(index, key);
    }

    method Invalidate(query: string)
      modifies this
      ensures View() == Remove(old(View()), (encoder.hash)(query))
    {
      RemoveKey((encoder.hash)(query));
    }

    method Clear() returns (count: nat)
      modifies this
      ensures View() == RemoveAll(old(View()), Keys(old(index))) && count == old(|index|)
    {
      count := |index|;
      RemoveKeys(Keys(index));
    }
  }

  // ---- The LRU list -----------------------------------------------------------------------

  /** The plain cache: keys from the least to the most recently used. */
  datatype LruOp = LruSet(key: Key) | LruHit(key: Key) | LruRemove(key: Key) | LruClear | LruMiss

  function Lru(l: seq<Key>, op: LruOp, max: nat): seq<Key> {
    match op
    case LruSet(k) => var t := Without(l, k) + [k]; if |t| <= max then t else t[|t| - max..]
    case LruHit(k) => Without(l, k) + [k]
    case LruRemove(k) => Without(l, k)
    case LruClear => []
    case LruMiss => l
  }

  datatype Op = Set(query: string, response: string) | Get(query: string) | Invalidate(query: string) | Clear

  function Exec(enc: Encoder, threshold: real, max: nat, v: CacheView, op: Op, now: real): CacheView {
    match op
    case Set(q, r) => Evict(Store(v, (enc.hash)(q), (enc.encode)(q), r, now), max)
    case Get(q) => Lookup(enc, threshold, v, q, now).0
    case Invalidate(q) => Remove(v, (enc.hash)(q))
    case Clear => RemoveAll(v, Keys(v.index))
  }

  /** What an operation is to the plain cache. */
  function AsLru(enc: Encoder, threshold: real, v: CacheView, op: Op): LruOp {
    match op
    case Set(q, _) => LruSet((enc.hash)(q))
    case Get(q) => (match Hit(enc, threshold, v, q) case Some(k) => LruHit(k) case None => LruMiss)
    case Invalidate(q) => LruRemove((enc.hash)(q))
    case Clear => LruClear
  }

  /** Nothing has expired, and every score is an earlier time. */
  ghost predicate Fresh(v: CacheView, now: real) {
    && IsZSet(v.index)
    && v.emb.Keys == KeySet(v.index) && v.resp.Keys == KeySet(v.index)
    && forall i :: 0 <= i < |v.index| ==> v.index[i].score <= now
  }

  lemma RemFirst(z: seq<Entry>)
    requires IsZSet(z) && z != []
    ensures ZRem(z, z[0].key) == z[1..]
  {
    RemAbsent(z[1..], z[0].key);
  }

  lemma {:induction false} RemAbsent(z: seq<Entry>, key: Key)
    requires forall i :: 0 <= i < |z| ==> z[i].key != key
    ensures ZRem(z, key) == z
  {
    if z != [] {
      RemAbsent(z[1..], key);
    }
  }

  lemma RemoveKeepsFresh(v: CacheView, key: Key, now: real)
    requires Fresh(v, now)
    ensures Fresh(Remove(v, key), now)
  {
    RemExact(v.index, key);
    RemKeySet(v.index, key);
    var z := ZRem(v.index, key);
    forall i | 0 <= i < |z| ensures z[i].score <= now {
      assert z[i] in z;
    }
  }

  /** Removing the `n` least recent keys drops that prefix of the index. */
  lemma {:induction false} RemovePrefix(v: CacheView, n: nat, now: real)
    requires Fresh(v, now) && n <= |v.index|
    ensures Fresh(RemoveAll(v, Keys(v.index[..n])), now)
    ensures RemoveAll(v, Keys(v.index[..n])).index == v.index[n..]
    decreases n
  {
    hide IsZSet, KeySet, ZRem;
    if n > 0 {
      var ks := Keys(v.index[..n]);
      var v1 := Remove(v, ks[0]);
      RemFirst(v.index);
      RemoveKeepsFresh(v, ks[0], now);
      assert ks[1..] == Keys(v1.index[..n - 1]);
      RemovePrefix(v1, n - 1, now);
    }
  }

  lemma KeysOfSuffix(z: seq<Entry>, n: nat)
    requires n <= |z|
    ensures Keys(z[n..]) == Keys(z)[n..]
  {
  }

  lemma TouchKeepsFresh(v: CacheView, key: Key, last: real, now: real)
    requires Fresh(v, last) && last < now
    ensures IsZSet(ZAdd(v.index, key, now)) && KeySet(ZAdd(v.index, key, now)) == KeySet(v.index) + {key}
    ensures forall i :: 0 <= i < |ZAdd(v.index, key, now)| ==> ZAdd(v.index, key, now)[i].score <= now
    ensures Keys(ZAdd(v.index, key, now)) == Without(Keys(v.index), key) + [key]
  {
    AddExact(v.index, key, now);
    AddKeySet(v.index, key, now);
    AddKeys(v.index, key, now);
    var z := ZAdd(v.index, key, now);
    forall i | 0 <= i < |z| ensures z[i].score <= now {
      assert z[i] in z;
    }
  }

  lemma StoreRefines(v: CacheView, key: Key, e: Embedding, response: string, last: real, now: real)
    requires Fresh(v, last) && last < now
    ensures Fresh(Store(v, key, e, response, now), now)
    ensures Keys(Store(v, key, e, response, now).index) == Without(Keys(v.index), key) + [key]
  {
    hide Without;
    TouchKeepsFresh(v, key, last, now);
  }

  lemma EvictRefines(v: CacheView, max: nat, now: real)
    requires Fresh(v, now)
    ensures var v' := Evict(v, max);
            && Fresh(v', now) && |v'.index| <= max
            && Keys(v'.index) == if |v.index| <= max then Keys(v.index) else Keys(v.index)[|v.index| - max..]
  {
    hide Fresh, RemoveAll;
    if |v.index| > max {
      RemovePrefix(v, |v.index| - max, now);
      KeysOfSuffix(v.index, |v.index| - max);
    }
  }

  lemma SetRefines(v: CacheView, key: Key, e: Embedding, response: string, max: nat, last: real, now: real)
    requires Fresh(v, last) && last < now
    ensures var v' := Evict(Store(v, key, e, response, now), max);
            Fresh(v', now) && Keys(v'.index) == Lru(Keys(v.index), LruSet(key), max) && |v'.index| <= max
  {
    hide Fresh, Store, Evict, Without;
    StoreRefines(v, key, e, response, last, now);
    EvictRefines(Store(v, key, e, response, now), max, now);
  }

  lemma NoLarger(a: seq<Entry>, b: seq<Entry>)
    requires KeysDistinct(a) && KeysDistinct(b) && KeySet(a) <= KeySet(b)
    ensures |a| <= |b|
  {
    KeySetSize(a);
    KeySetSize(b);
    SubsetSize(KeySet(a), KeySet(b));
  }

  lemma RemoveRefines(v: CacheView, key: Key, now: real)
    requires Fresh(v, now)
    ensures Fresh(Remove(v, key), now) && Keys(Remove(v, key).index) == Without(Keys(v.index), key)
    ensures |Remove(v, key).index| <= |v.index|
  {
    RemoveKeepsFresh(v, key, now);
    RemKeys(v.index, key);
    NoLarger(ZRem(v.index, key), v.index);
  }

  lemma TouchRefines(enc: Encoder, threshold: real, v: CacheView, q: string, last: real, now: real)
    requires Fresh(v, last) && last < now
    ensures var v' := Lookup(enc, threshold, v, q, now).0;
            Fresh(v', now) && |v'.index| <= |v.index|
            && Keys(v'.index) == match Hit(enc, threshold, v, q)
                                 case Some(k) => Without(Keys(v.index), k) + [k]
                                 case None => Keys(v.index)
  {
    var hit := Hit(enc, threshold, v, q);
    if hit.Some? {
      assert hit.value in v.resp.Keys;
      TouchKeepsFresh(v, hit.value, last, now);
      NoLarger(ZAdd(v.index, hit.value, now), v.index);
    }
  }

  lemma ClearRefines(v: CacheView, now: real)
    requires Fresh(v, now)
    ensures Fresh(RemoveAll(v, Keys(v.index)), now) && RemoveAll(v, Keys(v.index)).index == []
  {
    RemovePrefix(v, |v.index|, now);
    assert v.index[..|v.index|] == v.index;
  }

  lemma FreshLater(v: CacheView, last: real, now: real)
    requires Fresh(v, last) && last <= now
    ensures Fresh(v, now)
  {
  }

  lemma StepRefines(enc: Encoder, threshold: real, max: nat, v: CacheView, op: Op, last: real, now: real)
    requires Fresh(v, last) && last < now
    ensures var v' := Exec(enc, threshold, max, v, op, now);
            Fresh(v', now) && Keys(v'.index) == Lru(Keys(v.index), AsLru(enc, threshold, v, op), max)
    ensures |v.index| <= max ==> |Exec(enc, threshold, max, v, op, now).index| <= max
  {
    hide Fresh, Evict, Store, Lookup, Remove, RemoveAll, Without, Hit;
    FreshLater(v, last, now);
    match op
    case Set(q, r) => SetRefines(v, (enc.hash)(q), (enc.encode)(q), r, max, last, now);
    case Get(q) => TouchRefines(enc, threshold, v, q, last, now);
    case Invalidate(q) => RemoveRefines(v, (enc.hash)(q), now);
    case Clear => ClearRefines(v, now);
  }

  /** The cache and the plain LRU list after the first `n` operations. */
  function Run(enc: Encoder, threshold: real, max: nat, ops: seq<Op>, times: seq<real>, n: nat): CacheView
    requires n <= |ops| == |times|
  {
    if n == 0 then EMPTY_CACHE
    else Exec(enc, threshold, max, Run(enc, threshold, max, ops, times, n - 1), ops[n - 1], times[n - 1])
  }

  function LruRun(enc: Encoder, threshold: real, max: nat, ops: seq<Op>, times: seq<real>, n: nat): seq<Key>
    requires n <= |ops| == |times|
  {
    if n == 0 then []
    else Lru(LruRun(enc, threshold, max, ops, times, n - 1),
             AsLru(enc, threshold, Run(enc, threshold, max, ops, times, n - 1), ops[n - 1]), max)
  }

  /** With one caller, a strictly increasing clock and nothing expired, the index is at every
      moment the plain LRU list of at most `max` keys, and the key just set is in it. */
  lemma {:induction false} CacheIsLru(enc: Encoder, threshold: real, max: nat, ops: seq<Op>, times: seq<real>, n: nat)
    requires n <= |ops| == |times| && forall i, j :: 0 <= i < j < |times| ==> times[i] < times[j]
    requires max >= 1
    ensures var v := Run(enc, threshold, max, ops, times, n);
            && (n > 0 ==> Fresh(v, times[n - 1]))
            && Keys(v.index) == LruRun(enc, threshold, max, ops, times, n)
            && |v.index| <= max
            && (n > 0 && ops[n - 1].Set? ==> (enc.hash)(ops[n - 1].query) in v.emb)
  {
    hide Exec, Lru, Keys, Fresh, KeySet;
    EmptyIsFresh(times);
    if n > 0 {
      CacheIsLru(enc, threshold, max, ops, times, n - 1);
      var v := Run(enc, threshold, max, ops, times, n - 1);
      var last := if n == 1 then times[0] - 1.0 else times[n - 2];
      StepRefines(enc, threshold, max, v, ops[n - 1], last, times[n - 1]);
      if ops[n - 1].Set? {
        JustSet(Run(enc, threshold, max, ops, times, n), Keys(v.index), (enc.hash)(ops[n - 1].query), max,
                times[n - 1]);
      }
    }
  }

  lemma EmptyIsFresh(times: seq<real>)
    ensures Keys(EMPTY_CACHE.index) == [] && (times != [] ==> Fresh(EMPTY_CACHE, times[0] - 1.0))
  {
  }

  lemma JustSet(v: CacheView, before: seq<Key>, k: Key, max: nat, now: real)
    requires Fresh(v, now) && max >= 1 && Keys(v.index) == Lru(before, LruSet(k), max)
    ensures k in v.emb
  {
    hide Without, IsZSet;
    var ks := Keys(v.index);
    assert ks[|ks| - 1] == k;
    assert v.index[|v.index| - 1].key == k && v.index[|v.index| - 1] in v.index;
    assert k in KeySet(v.index);
  }

  // ---- What a hit returns -------------------------------------------------------------------

  /** Operation `i` is the last `set` of key `k` among the first `n`. */
  ghost predicate LastSet(enc: Encoder, ops: seq<Op>, n: nat, k: Key, i: nat) {
    && i < n <= |ops| && ops[i].Set? && (enc.hash)(ops[i].query) == k
    && forall j :: i < j < n && ops[j].Set? ==> (enc.hash)(ops[j].query) != k
  }

  /** What the cache holds under each key is what the last `set` of that key put there. */
  ghost predicate HoldsLastSets(enc: Encoder, ops: seq<Op>, n: nat, v: CacheView) {
    && (forall k :: k in v.resp ==> exists i: nat :: LastSet(enc, ops, n, k, i) && v.resp[k] == ops[i].response)
    && (forall k :: k in v.emb ==>
          exists i: nat :: LastSet(enc, ops, n, k, i) && v.emb[k] == (enc.encode)(ops[i].query))
  }

  /** No operation but a `set` writes an embedding or a response, and none writes those of
      another key. */
  lemma ExecWrites(enc: Encoder, threshold: real, max: nat, v: CacheView, op: Op, now: real)
    ensures var v' := Exec(enc, threshold, max, v, op, now);
            && (!op.Set? ==> Within(v', v))
            && (op.Set? ==>
                  && (forall k :: k in v'.resp ==> if k == (enc.hash)(op.query) then v'.resp[k] == op.response
                                                   else k in v.resp && v'.resp[k] == v.resp[k])
                  && (forall k :: k in v'.emb ==> if k == (enc.hash)(op.query) then v'.emb[k] == (enc.encode)(op.query)
                                                  else k in v.emb && v'.emb[k] == v.emb[k]))
  {
    hide Evict, Store, RemoveAll, ZAdd, ZRem, Hit;
    match op
    case Set(q, r) => SetStores(v, (enc.hash)(q), (enc.encode)(q), r, max, now);
    case Get(q) =>
    case Invalidate(q) =>
    case Clear => RemoveAllWithin(v, Keys(v.index));
  }

  /** Over every sequential run, on any clock: each stored response and embedding is that of
      the last `set` of its key. */
  lemma {:induction false} StoredExact(enc: Encoder, threshold: real, max: nat, ops: seq<Op>, times: seq<real>, n: nat)
    requires n <= |ops| == |times|
    ensures HoldsLastSets(enc, ops, n, Run(enc, threshold, max, ops, times, n))
  {
    if n > 0 {
      StoredExact(enc, threshold, max, ops, times, n - 1);
      var v, v' := Run(enc, threshold, max, ops, times, n - 1), Run(enc, threshold, max, ops, times, n);
      ExecWrites(enc, threshold, max, v, ops[n - 1], times[n - 1]);
      hide Exec, Run;
      StoredStep(enc, ops, n, v, v');
    }
  }

  lemma StoredStep(enc: Encoder, ops: seq<Op>, n: nat, v: CacheView, v': CacheView)
    requires 0 < n <= |ops| && HoldsLastSets(enc, ops, n - 1, v)
    requires var op := ops[n - 1];
             && (!op.Set? ==> Within(v', v))
             && (op.Set? ==>
                   && (forall k :: k in v'.resp ==> if k == (enc.hash)(op.query) then v'.resp[k] == op.response
                                                    else k in v.resp && v'.resp[k] == v.resp[k])
                   && (forall k :: k in v'.emb ==> if k == (enc.hash)(op.query) then v'.emb[k] == (enc.encode)(op.query)
                                                   else k in v.emb && v'.emb[k] == v.emb[k]))
    ensures HoldsLastSets(enc, ops, n, v')
  {
    var op := ops[n - 1];
    forall k | k in v'.resp ensures exists i: nat :: LastSet(enc, ops, n, k, i) && v'.resp[k] == ops[i].response {
      if op.Set? && (enc.hash)(op.query) == k {
        assert LastSet(enc, ops, n, k, n - 1);
      } else {
        var i: nat :| LastSet(enc, ops, n - 1, k, i) && v.resp[k] == ops[i].response;
        assert LastSet(enc, ops, n, k, i);
      }
    }
    forall k | k in v'.emb
      ensures exists i: nat :: LastSet(enc, ops, n, k, i) && v'.emb[k] == (enc.encode)(ops[i].query)
    {
      if op.Set? && (enc.hash)(op.query) == k {
        assert LastSet(enc, ops, n, k, n - 1);
      } else {
        var i: nat :| LastSet(enc, ops, n - 1, k, i) && v.emb[k] == (enc.encode)(ops[i].query);
        assert LastSet(enc, ops, n, k, i);
      }
    }
  }

  lemma LastSetUnique(enc: Encoder, ops: seq<Op>, n: nat, k: Key, i: nat, j: nat)
    requires LastSet(enc, ops, n, k, i) && LastSet(enc, ops, n, k, j)
    ensures i == j
  {
  }

  /** Over every sequential run: a hit returns exactly the response of an earlier `set`, the
      last one of its key, whose query is at least as similar as the threshold. */
  lemma HitReturnsLastSet(enc: Encoder, threshold: real, max: nat, ops: seq<Op>, times: seq<real>, n: nat,
                          query: string, now: real)
    requires n <= |ops| == |times|
    ensures var (_, answer) := Lookup(enc, threshold, Run(enc, threshold, max, ops, times, n), query, now);
            answer.Some? ==>
              exists k, i: nat ::
                && LastSet(enc, ops, n, k, i) && answer == Some(ops[i].response)
                && (enc.dot)((enc.encode)(query), (enc.encode)(ops[i].query)) >= threshold
  {
    var v := Run(enc, threshold, max, ops, times, n);
    StoredExact(enc, threshold, max, ops, times, n);
    HitExact(enc, threshold, v, query);
    LookupAnswers(enc, threshold, v, query, now);
    var (_, answer) := Lookup(enc, threshold, v, query, now);
    hide Lookup, Hit, Run, FirstMost;
    if answer.Some? {
      var m: nat :| Answers(enc, threshold, v, query, m);
      LookupExact(enc, threshold, v, query, now, m);
      var k := v.index[m].key;
      assert Live(v, m) by {
        AnswerIsLive(enc, threshold, v, query, m);
      }
      var i: nat :| LastSet(enc, ops, n, k, i) && v.resp[k] == ops[i].response;
      var j: nat :| LastSet(enc, ops, n, k, j) && v.emb[k] == (enc.encode)(ops[j].query);
      LastSetUnique(enc, ops, n, k, i, j);
    }
  }

  lemma LookupAnswers(enc: Encoder, threshold: real, v: CacheView, query: string, now: real)
    ensures Lookup(enc, threshold, v, query, now).1.Some? ==> exists m: nat :: Answers(enc, threshold, v, query, m)
  {
    HitExact(enc, threshold, v, query);
  }

  lemma AnswerIsLive(enc: Encoder, threshold: real, v: CacheView, query: string, m: nat)
    requires Answers(enc, threshold, v, query, m)
    ensures Live(v, m)
  {
  }
}
