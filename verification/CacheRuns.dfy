/** Several callers on one semantic cache: `set`, `get`, `invalidate` and `clear` of
    `app/cache/semantic_cache.py` split at their awaits, in any interleaving. */
module CacheRuns {
  import opened Collections
  import opened Wrappers
  import opened SortedSets

  type Pid = nat

  /** Where an operation in flight stands. */
  datatype Task =
    | Inserted                      // set: entry written, size not read yet
    | Counted(excess: nat)          // set: size read, `excess` above the limit
    | Evicting(victims: seq<Key>)   // set: victims read, these still to be removed
    | Clearing(members: seq<Key>)   // clear: members read, these still to be removed
    | Touching(key: Key)            // get: response read, timestamp not touched yet

  predicate IsSet(t: Task) {
    t.Inserted? || t.Counted? || t.Evicting?
  }

  /** `emb` are the keys with a stored embedding; `latest` is the set whose entry was written
      last. */
  datatype Shared = Shared(index: seq<Entry>, emb: set<Key>, tasks: map<Pid, Task>, latest: Option<Pid>)

  datatype Event =
    | Insert(pid: Pid, key: Key, score: real)
    | ReadSize(pid: Pid)
    | ReadVictims(pid: Pid)
    | EvictNext(pid: Pid)
    | Invalidate(key: Key)
    | ReadMembers(pid: Pid)
    | ClearNext(pid: Pid)
    | ReadResponse(pid: Pid, key: Key)
    | Touch(pid: Pid, score: real)
    | Expire(key: Key)

  predicate Enabled(s: Shared, e: Event) {
    match e
    case Insert(p, _, _) => p !in s.tasks
    case ReadSize(p) => p in s.tasks && s.tasks[p].Inserted?
    case ReadVictims(p) => p in s.tasks && s.tasks[p].Counted?
    case EvictNext(p) => p in s.tasks && s.tasks[p].Evicting?
    case Invalidate(_) => true
    case ReadMembers(p) => p !in s.tasks
    case ClearNext(p) => p in s.tasks && s.tasks[p].Clearing?
    case ReadResponse(p, k) => p !in s.tasks && k in s.emb
    case Touch(p, _) => p in s.tasks && s.tasks[p].Touching?
    case Expire(_) => true
  }

  /** The transaction of `_remove_key`. */
  function Removed(s: Shared, key: Key): Shared {
    s.(index := ZRem(s.index, key), emb := s.emb - {key})
  }

  function Next(s: Shared, e: Event, max: nat): Shared
    requires Enabled(s, e)
  {
    match e
    case Insert(p, k, score) =>
      Shared(ZAdd(s.index, k, score), s.emb + {k}, s.tasks[p := Inserted], Some(p))
    case ReadSize(p) =>
      if |s.index| <= max then s.(tasks := s.tasks - {p}) else s.(tasks := s.tasks[p := Counted(|s.index| - max)])
    case ReadVictims(p) =>
      var x := s.tasks[p].excess;
      s.(tasks := s.tasks[p := Evicting(Keys(s.index[..if x <= |s.index| then x else |s.index|]))])
    case EvictNext(p) =>
      var v := s.tasks[p].victims;
      if v == [] then s.(tasks := s.tasks - {p})
      else Removed(s, v[0]).(tasks := s.tasks[p := Evicting(v[1..])])
    case Invalidate(k) => Removed(s, k)
    case ReadMembers(p) => s.(tasks := s.tasks[p := Clearing(Keys(s.index))])
    case ClearNext(p) =>
      var m := s.tasks[p].members;
      if m == [] then s.(tasks := s.tasks - {p})
      else Removed(s, m[0]).(tasks := s.tasks[p := Clearing(m[1..])])
    case ReadResponse(p, k) => s.(tasks := s.tasks[p := Touching(k)])
    case Touch(p, score) =>
      s.(index := ZAdd(s.index, s.tasks[p].key, score), tasks := s.tasks - {p})
    case Expire(k) => s.(emb := s.emb - {k})
  }

  ghost predicate IsRun(run: seq<Shared>, events: seq<Event>, max: nat) {
    && |run| == |events| + 1
    && forall i :: 0 <= i < |events| ==> Enabled(run[i], events[i]) && run[i + 1] == Next(run[i], events[i], max)
  }

  // ---- The size bound ---------------------------------------------------------------------

  /** What the most recent writer still guarantees about the size of the index. */
  ghost predicate SizeBound(s: Shared, max: nat) {
    if s.latest.None? || s.latest.value !in s.tasks then |s.index| <= max
    else match s.tasks[s.latest.value]
      case Inserted => true
      case Counted(x) => |s.index| <= max + x
      case Evicting(v) => |KeySet(s.index) - KeysOf(v)| <= max
      case _ => |s.index| <= max
  }

  function KeysOf(v: seq<Key>): set<Key> {
    set k | k in v
  }

  ghost predicate Inv(s: Shared, max: nat) {
    && IsZSet(s.index)
    && s.emb <= KeySet(s.index)
    && SizeBound(s, max)
  }

  ghost predicate NoSetInFlight(s: Shared) {
    forall p :: p in s.tasks ==> !IsSet(s.tasks[p])
  }

  /** The invariant gives the bound whenever no `set` is in flight. */
  lemma QuietBound(s: Shared, max: nat)
    requires Inv(s, max) && NoSetInFlight(s)
    ensures |s.index| <= max
  {
  }

  /** A touch of a key that is no longer in the index. */
  predicate Resurrects(s: Shared, e: Event) {
    e.Touch? && e.pid in s.tasks && s.tasks[e.pid].Touching? && s.tasks[e.pid].key !in KeySet(s.index)
  }

  /** Shrinking the index keeps every guarantee. */
  lemma ShrinkKeepsBound(s: Shared, index: seq<Entry>, max: nat)
    requires SizeBound(s, max) && KeysDistinct(s.index) && KeysDistinct(index) && KeySet(index) <= KeySet(s.index)
    ensures SizeBound(s.(index := index), max)
  {
    KeySetSize(s.index);
    KeySetSize(index);
    SubsetSize(KeySet(index), KeySet(s.index));
    if s.latest.Some? && s.latest.value in s.tasks && s.tasks[s.latest.value].Evicting? {
      var v := KeysOf(s.tasks[s.latest.value].victims);
      SubsetSize(KeySet(index) - v, KeySet(s.index) - v);
    }
  }

  lemma RemovedKeepsInv(s: Shared, key: Key, max: nat)
    requires Inv(s, max)
    ensures Inv(Removed(s, key), max)
  {
    RemExact(s.index, key);
    RemKeySet(s.index, key);
    ShrinkKeepsBound(s, ZRem(s.index, key), max);
  }

  lemma TouchKeepsInv(s: Shared, pid: Pid, score: real, max: nat)
    requires Inv(s, max) && Enabled(s, Touch(pid, score)) && !Resurrects(s, Touch(pid, score))
    ensures Inv(Next(s, Touch(pid, score), max), max)
  {
    var k := s.tasks[pid].key;
    AddExact(s.index, k, score);
    AddKeySet(s.index, k, score);
    var index := ZAdd(s.index, k, score);
    assert KeySet(index) == KeySet(s.index);
    ShrinkKeepsBound(s, index, max);
  }

  lemma {:induction false} KeySetSplit(z: seq<Entry>, n: nat)
    requires KeysDistinct(z) && n <= |z|
    ensures KeySet(z) == KeysOf(Keys(z[..n])) + KeySet(z[n..])
    ensures KeysOf(Keys(z[..n])) !! KeySet(z[n..])
  {
    if n == 0 {
      assert z[0..] == z;
    } else {
      KeySetSplit(z, n - 1);
      var e := z[n - 1];
      assert z[n - 1..] == [e] + z[n..];
      assert Keys(z[..n]) == Keys(z[..n - 1]) + [e.key];
      assert KeysOf(Keys(z[..n])) == KeysOf(Keys(z[..n - 1])) + {e.key};
      assert KeySet(z[n - 1..]) == {e.key} + KeySet(z[n..]);
      assert e.key !in KeySet(z[n..]);
    }
  }

  /** The victims are the oldest `excess` keys, so what is left fits. */
  lemma VictimsSuffice(z: seq<Entry>, n: nat)
    requires KeysDistinct(z) && n <= |z|
    ensures |KeySet(z) - KeysOf(Keys(z[..n]))| == |z| - n
  {
    KeySetSplit(z, n);
    KeySetSize(z[n..]);
    assert KeySet(z) - KeysOf(Keys(z[..n])) == KeySet(z[n..]);
  }

  lemma ReadVictimsKeepsInv(s: Shared, pid: Pid, max: nat)
    requires Inv(s, max) && Enabled(s, ReadVictims(pid))
    ensures Inv(Next(s, ReadVictims(pid), max), max)
  {
    var x := s.tasks[pid].excess;
    VictimsSuffice(s.index, if x <= |s.index| then x else |s.index|);
  }

  lemma EvictNextKeepsInv(s: Shared, pid: Pid, max: nat)
    requires Inv(s, max) && Enabled(s, EvictNext(pid))
    ensures Inv(Next(s, EvictNext(pid), max), max)
  {
    var v := s.tasks[pid].victims;
    if v == [] {
      KeySetSize(s.index);
      assert KeySet(s.index) - KeysOf(v) == KeySet(s.index);
    } else {
      RemovedKeepsInv(s, v[0], max);
      EvictedRest(s.index, v);
      hide IsZSet, KeySet, KeysOf, ZRem;
      EvictedBound(s, Removed(s, v[0]), pid, max);
    }
  }

  lemma EvictedBound(s: Shared, t: Shared, pid: Pid, max: nat)
    requires Enabled(s, EvictNext(pid)) && s.tasks[pid].victims != [] && SizeBound(s, max)
    requires t.tasks == s.tasks && t.latest == s.latest && SizeBound(t, max)
    requires KeySet(t.index) - KeysOf(s.tasks[pid].victims[1..]) == KeySet(s.index) - KeysOf(s.tasks[pid].victims)
    ensures SizeBound(t.(tasks := t.tasks[pid := Evicting(s.tasks[pid].victims[1..])]), max)
  {
    hide KeySet, KeysOf;
  }

  lemma EvictedRest(z: seq<Entry>, v: seq<Key>)
    requires IsZSet(z) && v != []
    ensures KeySet(ZRem(z, v[0])) - KeysOf(v[1..]) == KeySet(z) - KeysOf(v)
  {
    RemKeySet(z, v[0]);
    hide IsZSet, KeySet, ZRem;
    assert KeysOf(v) == {v[0]} + KeysOf(v[1..]);
  }

  /** A new entry makes its writer the one that answers for the size, whatever went before. */
  lemma InsertKeepsInv(s: Shared, pid: Pid, key: Key, score: real, max: nat)
    requires IsZSet(s.index) && s.emb <= KeySet(s.index) && Enabled(s, Insert(pid, key, score))
    ensures Inv(Next(s, Insert(pid, key, score), max), max)
  {
    AddExact(s.index, key, score);
    AddKeySet(s.index, key, score);
  }

  /** Every step except a touch that resurrects a key keeps the invariant. */
  lemma NextKeepsInv(s: Shared, e: Event, max: nat)
    requires Inv(s, max) && Enabled(s, e) && !Resurrects(s, e)
    ensures Inv(Next(s, e, max), max)
  {
    match e
    case Insert(p, k, score) => InsertKeepsInv(s, p, k, score, max);
    case ReadSize(p) =>
    case ReadVictims(p) => ReadVictimsKeepsInv(s, p, max);
    case EvictNext(p) => EvictNextKeepsInv(s, p, max);
    case Invalidate(k) => RemovedKeepsInv(s, k, max);
    case ReadMembers(p) =>
    case ClearNext(p) =>
      if s.tasks[p].members != [] {
        RemovedKeepsInv(s, s.tasks[p].members[0], max);
      }
    case ReadResponse(p, k) =>
    case Touch(p, score) => TouchKeepsInv(s, p, score, max);
    case Expire(k) =>
  }

  /** Under every interleaving in which no touch resurrects a key, the index holds at most
      `max` keys whenever no `set` is in flight, and every stored embedding is indexed. */
  lemma {:induction false} BoundHolds(run: seq<Shared>, events: seq<Event>, max: nat, j: nat)
    requires IsRun(run, events, max) && run[0] == Shared([], {}, map[], None) && j < |run|
    requires forall i :: 0 <= i < j ==> !Resurrects(run[i], events[i])
    ensures Inv(run[j], max)
    ensures NoSetInFlight(run[j]) ==> |run[j].index| <= max
    ensures run[j].emb <= KeySet(run[j].index)
  {
    if j > 0 {
      BoundHolds(run, events, max, j - 1);
      assert Enabled(run[j - 1], events[j - 1]) && run[j - 1 + 1] == Next(run[j - 1], events[j - 1], max);
      NextKeepsInv(run[j - 1], events[j - 1], max);
    }
    if NoSetInFlight(run[j]) {
      QuietBound(run[j], max);
    }
  }

  /** Whether the guarantee has room for one more key `k`: the set that was written last, if it
      is still under way, decides how many keys are yet to go. */
  ghost predicate Room(s: Shared, k: Key, max: nat) {
    if s.latest.None? || s.latest.value !in s.tasks then |s.index| < max
    else match s.tasks[s.latest.value]
      case Inserted => true
      case Counted(x) => |s.index| < max + x
      case Evicting(v) => k in v || |KeySet(s.index) - KeysOf(v)| < max
      case _ => |s.index| < max
  }

  /** A touch that resurrects its key adds just that key. */
  lemma Resurrected(s: Shared, pid: Pid, score: real, max: nat)
    requires IsZSet(s.index) && Enabled(s, Touch(pid, score)) && Resurrects(s, Touch(pid, score))
    ensures var s' := Next(s, Touch(pid, score), max);
            && IsZSet(s'.index) && KeySet(s'.index) == KeySet(s.index) + {s.tasks[pid].key}
            && |s'.index| == |s.index| + 1 && s'.emb == s.emb
  {
    var k := s.tasks[pid].key;
    AddExact(s.index, k, score);
    AddKeySet(s.index, k, score);
    KeySetSize(s.index);
    KeySetSize(ZAdd(s.index, k, score));
  }

  /** The exact effect of a touch, whatever else is under way: the guarantee survives it if and
      only if its key is still indexed or there is room for it. */
  lemma TouchExact(s: Shared, pid: Pid, score: real, max: nat)
    requires Inv(s, max) && Enabled(s, Touch(pid, score))
    ensures Inv(Next(s, Touch(pid, score), max), max) <==>
              !Resurrects(s, Touch(pid, score)) || Room(s, s.tasks[pid].key, max)
  {
    if !Resurrects(s, Touch(pid, score)) {
      TouchKeepsInv(s, pid, score, max);
    } else {
      Resurrected(s, pid, score, max);
      var s' := Next(s, Touch(pid, score), max);
      hide IsZSet, KeySet, ZAdd, Next;
      NextTasks(s, pid, score, max);
      BoundAfterTouch(s, s', pid, s.tasks[pid].key, max);
    }
  }

  lemma NextTasks(s: Shared, pid: Pid, score: real, max: nat)
    requires Enabled(s, Touch(pid, score))
    ensures var s' := Next(s, Touch(pid, score), max); s'.tasks == s.tasks - {pid} && s'.latest == s.latest
  {
  }

  lemma BoundAfterTouch(s: Shared, s': Shared, pid: Pid, k: Key, max: nat)
    requires SizeBound(s, max) && pid in s.tasks && s.tasks[pid].Touching? && k !in KeySet(s.index)
    requires s'.tasks == s.tasks - {pid} && s'.latest == s.latest
    requires KeySet(s'.index) == KeySet(s.index) + {k} && |s'.index| == |s.index| + 1
    ensures SizeBound(s', max) <==> Room(s, k, max)
  {
    hide KeySet;
    if s.latest.Some? && s.latest.value in s.tasks && s.tasks[s.latest.value].Evicting? {
      var v := s.tasks[s.latest.value].victims;
      if k in v {
        assert KeySet(s'.index) - KeysOf(v) == KeySet(s.index) - KeysOf(v);
      } else {
        assert KeySet(s'.index) - KeysOf(v) == (KeySet(s.index) - KeysOf(v)) + {k};
      }
    }
  }

  lemma Extend(run: seq<Shared>, events: seq<Event>, e: Event, max: nat)
      returns (run': seq<Shared>, events': seq<Event>)
    requires IsRun(run, events, max) && Enabled(run[|run| - 1], e)
    ensures IsRun(run', events', max) && run'[0] == run[0] && |run'| == |run| + 1
    ensures run'[|run'| - 1] == Next(run[|run| - 1], e, max) && events' == events + [e]
    ensures |run'| == |events'| + 1
  {
    run', events' := run + [Next(run[|run| - 1], e, max)], events + [e];
  }

  /** The race exists: a lookup that read its response before the entry was removed puts the
      key back, without an embedding and above the limit. */
  lemma TouchCanExceed() returns (run: seq<Shared>, events: seq<Event>)
    ensures IsRun(run, events, 1) && run[0] == Shared([], {}, map[], None)
    ensures var s := run[|run| - 1]; NoSetInFlight(s) && |s.index| > 1 && !(KeySet(s.index) <= s.emb)
  {
    run, events := [Shared([], {}, map[], None)], [];
    run, events := Extend(run, events, Insert(1, 10, 1.0), 1);
    run, events := Extend(run, events, ReadSize(1), 1);
    run, events := Extend(run, events, ReadResponse(2, 10), 1);
    run, events := Extend(run, events, Invalidate(10), 1);
    assert run[|run| - 1] == Shared([], {}, map[2 := Touching(10)], Some(1));
    run, events := Extend(run, events, Insert(3, 20, 2.0), 1);
    run, events := Extend(run, events, ReadSize(3), 1);
    assert run[|run| - 1] == Shared([Entry(20, 2.0)], {20}, map[2 := Touching(10)], Some(3));
    run, events := Extend(run, events, Touch(2, 3.0), 1);
    assert run[|run| - 1].index == [Entry(20, 2.0), Entry(10, 3.0)];
    assert Entry(10, 3.0) in run[|run| - 1].index;
  }

  // ---- Whether a key survives ---------------------------------------------------------------

  /** What the task is still going to remove. */
  function Doomed(t: Task): seq<Key> {
    match t
    case Evicting(victims) => victims
    case Clearing(members) => members
    case _ => []
  }

  ghost predicate Named(s: Shared, k: Key) {
    exists p :: p in s.tasks && k in Doomed(s.tasks[p])
  }

  /** The key is indexed, and no operation under way is going to remove it. */
  ghost predicate Safe(s: Shared, k: Key) {
    k in KeySet(s.index) && !Named(s, k)
  }

  /** The step removes the key or lists it for removal: it is invalidated, the cache is being
      cleared, or it is among the oldest keys when as many as were once too many are listed. */
  predicate Dooms(s: Shared, e: Event, k: Key) {
    match e
    case Invalidate(j) => j == k
    case ReadMembers(_) => true
    case ReadVictims(p) =>
      p in s.tasks && s.tasks[p].Counted?
      && var x := s.tasks[p].excess; k in Keys(s.index[..if x <= |s.index| then x else |s.index|])
    case _ => false
  }

  /** A new entry is safe unless an older operation still has its key on a list. */
  lemma InsertedIsSafe(s: Shared, pid: Pid, key: Key, score: real, max: nat)
    requires IsZSet(s.index) && Enabled(s, Insert(pid, key, score))
    ensures Safe(Next(s, Insert(pid, key, score), max), key) <==> !Named(s, key)
  {
    AddKeySet(s.index, key, score);
    var s' := Next(s, Insert(pid, key, score), max);
    assert forall p :: p in s.tasks ==> s'.tasks[p] == s.tasks[p];
    assert forall p :: p in s'.tasks && p != pid ==> p in s.tasks;
  }

  /** Exactly the dooming steps end the safety of a key. */
  lemma SafeStepIff(s: Shared, e: Event, k: Key, max: nat)
    requires IsZSet(s.index) && Enabled(s, e) && Safe(s, k)
    ensures Safe(Next(s, e, max), k) <==> !Dooms(s, e, k)
    ensures IsZSet(Next(s, e, max).index)
  {
    IndexAfter(s, e, k, max);
    hide IsZSet, ZAdd, ZRem, KeySet;
    var s' := Next(s, e, max);
    match e
    case ReadVictims(p) =>
      assert Dooms(s, e, k) <==> k in Doomed(s'.tasks[p]);
    case ReadMembers(p) =>
      MembersListed(s.index, k);
      assert k in Doomed(s'.tasks[p]);
    case _ =>
      forall p | p in s'.tasks ensures k !in Doomed(s'.tasks[p]) {
        assert p in s.tasks ==> k !in Doomed(s.tasks[p]);
      }
  }

  lemma MembersListed(z: seq<Entry>, k: Key)
    requires k in KeySet(z)
    ensures k in Keys(z)
  {
    var e :| e in z && e.key == k;
    var i :| 0 <= i < |z| && z[i] == e;
    assert Keys(z)[i] == k;
  }

  /** The step takes key `k` out: by hand, or as the next one on a list. */
  predicate TakesOut(s: Shared, e: Event, k: Key) {
    match e
    case Invalidate(j) => j == k
    case EvictNext(p) => p in s.tasks && s.tasks[p].Evicting? && s.tasks[p].victims != [] && s.tasks[p].victims[0] == k
    case ClearNext(p) => p in s.tasks && s.tasks[p].Clearing? && s.tasks[p].members != [] && s.tasks[p].members[0] == k
    case _ => false
  }

  /** Which keys are there after a step: those that were and were not taken out, and the one
      that is set or touched; which embeddings: those that were, were not taken out and did not
      expire, and the one that is set. */
  lemma KeysAfter(s: Shared, e: Event, k: Key, max: nat)
    requires IsZSet(s.index) && Enabled(s, e)
    ensures IsZSet(Next(s, e, max).index)
    ensures k in KeySet(Next(s, e, max).index) <==>
              || (k in KeySet(s.index) && !TakesOut(s, e, k))
              || (e.Insert? && e.key == k) || (e.Touch? && s.tasks[e.pid].key == k)
    ensures k in Next(s, e, max).emb <==>
              (k in s.emb && !TakesOut(s, e, k) && e != Expire(k)) || (e.Insert? && e.key == k)
  {
    match e
    case Insert(_, j, score) => AddExact(s.index, j, score); AddKeySet(s.index, j, score);
    case Touch(p, score) =>
      AddExact(s.index, s.tasks[p].key, score);
      AddKeySet(s.index, s.tasks[p].key, score);
    case Invalidate(j) => RemExact(s.index, j); RemKeySet(s.index, j);
    case EvictNext(p) => HeadTakenOut(s.index, s.tasks[p].victims);
    case ClearNext(p) => HeadTakenOut(s.index, s.tasks[p].members);
    case _ =>
  }

  lemma HeadTakenOut(z: seq<Entry>, d: seq<Key>)
    requires IsZSet(z)
    ensures d != [] ==> IsZSet(ZRem(z, d[0])) && KeySet(ZRem(z, d[0])) == KeySet(z) - {d[0]}
  {
    if d != [] {
      RemExact(z, d[0]);
      RemKeySet(z, d[0]);
    }
  }

  /** Every removal makes the list of its operation shorter by one key, an operation ends when
      its list is empty, and no step touches the list of another operation. */
  lemma ListsAfter(s: Shared, e: Event, q: Pid, max: nat)
    requires Enabled(s, e) && q in s.tasks
    ensures var s' := Next(s, e, max);
            if (e.EvictNext? || e.ClearNext?) && e.pid == q then
              if Doomed(s.tasks[q]) == [] then q !in s'.tasks
              else q in s'.tasks && Doomed(s'.tasks[q]) == Doomed(s.tasks[q])[1..]
            else Doomed(s.tasks[q]) != [] ==> q in s'.tasks && s'.tasks[q] == s.tasks[q]
  {
    hide ZAdd, ZRem;
  }

  /** A key leaves the list of an operation only by being removed. */
  lemma ListedStep(s: Shared, e: Event, p: Pid, k: Key, max: nat)
    requires IsZSet(s.index) && Enabled(s, e) && p in s.tasks && k in Doomed(s.tasks[p])
    ensures var s' := Next(s, e, max);
            || (p in s'.tasks && k in Doomed(s'.tasks[p]))
            || (k !in KeySet(s'.index) && k !in s'.emb)
  {
    KeysAfter(s, e, k, max);
    hide IsZSet, ZAdd, ZRem, KeySet;
  }

  /** In every run: whatever an eviction or a clearing has listed has been out of the cache at
      some moment by the time the operation ends. */
  lemma {:induction false} ListedIsRemoved(run: seq<Shared>, events: seq<Event>, max: nat, i: nat, j: nat,
          p: Pid, k: Key)
    requires IsRun(run, events, max) && i <= j < |run| && IsZSet(run[i].index)
    requires p in run[i].tasks && k in Doomed(run[i].tasks[p])
    requires !(p in run[j].tasks && k in Doomed(run[j].tasks[p]))
    ensures exists m :: i < m <= j && k !in KeySet(run[m].index) && k !in run[m].emb
    decreases j - i
  {
    hide Next, Enabled, Doomed, KeySet;
    assert Enabled(run[i], events[i]) && run[i + 1] == Next(run[i], events[i], max);
    ListedStep(run[i], events[i], p, k, max);
    KeysAfter(run[i], events[i], k, max);
    if p in run[i + 1].tasks && k in Doomed(run[i + 1].tasks[p]) {
      ListedIsRemoved(run, events, max, i + 1, j, p, k);
    }
  }

  /** What a step does to the index, seen from one key that no task names. */
  lemma IndexAfter(s: Shared, e: Event, k: Key, max: nat)
    requires IsZSet(s.index) && Enabled(s, e) && Safe(s, k)
    ensures IsZSet(Next(s, e, max).index)
    ensures k in KeySet(Next(s, e, max).index) <==> e != Invalidate(k)
  {
    KeysAfter(s, e, k, max);
    hide IsZSet, KeySet, Next;
    if e.EvictNext? || e.ClearNext? {
      assert k !in Doomed(s.tasks[e.pid]);
    }
  }

  /** Over every stretch of every run: a key stays safe throughout if and only if no step in
      it dooms the key. */
  lemma {:induction false} SafeThroughoutIff(run: seq<Shared>, events: seq<Event>, max: nat, i: nat, j: nat, k: Key)
    requires IsRun(run, events, max) && i <= j < |run| && IsZSet(run[i].index) && Safe(run[i], k)
    ensures (forall m :: i <= m <= j ==> Safe(run[m], k)) <==> (forall m :: i <= m < j ==> !Dooms(run[m], events[m], k))
    ensures (forall m :: i <= m <= j ==> Safe(run[m], k)) ==> IsZSet(run[j].index)
    decreases j
  {
    hide Safe, Dooms, IsZSet, Next, Enabled;
    if i < j {
      SafeThroughoutIff(run, events, max, i, j - 1, k);
      assert Enabled(run[j - 1], events[j - 1]) && run[j - 1 + 1] == Next(run[j - 1], events[j - 1], max);
      if forall m :: i <= m <= j - 1 ==> Safe(run[m], k) {
        SafeStepIff(run[j - 1], events[j - 1], k, max);
      }
    }
  }

  /** The `i`-th oldest key is listed if and only if more than `i` keys were once too many. If
      that number is still the surplus, exactly the `max` most recent keys are spared. */
  lemma ListedIff(s: Shared, pid: Pid, i: nat, max: nat)
    requires IsZSet(s.index) && Enabled(s, ReadVictims(pid)) && i < |s.index|
    ensures Dooms(s, ReadVictims(pid), s.index[i].key) <==> i < s.tasks[pid].excess
    ensures s.tasks[pid].excess == |s.index| - max ==>
              (Dooms(s, ReadVictims(pid), s.index[i].key) <==> i < |s.index| - max)
  {
    var x := s.tasks[pid].excess;
    var ks := Keys(s.index[..if x <= |s.index| then x else |s.index|]);
    if i < x {
      assert ks[i] == s.index[i].key;
    }
  }

  const E10 := Entry(10, 1.0)
  const E20 := Entry(20, 2.0)

  lemma TwoEntries()
    ensures ZAdd([], 10, 1.0) == [E10] && ZAdd([E10], 20, 2.0) == [E10, E20]
    ensures Keys([E10, E20][..1]) == [10] && ZRem([E10, E20], 10) == [E20]
    ensures Keys([E20][..1]) == [20] && ZRem([E20], 20) == [] && [10][1..] == [] && [20][1..] == []
  {
    assert [E10, E20][1..] == [E20];
    assert [E10][1..] == [] && [E20][1..] == [];
  }

  /** Both sets have written their entry and found one key too many. */
  lemma BothCounted() returns (run: seq<Shared>, events: seq<Event>)
    ensures IsRun(run, events, 1) && run[0] == Shared([], {}, map[], None)
    ensures |events| == 4 && events[0] == Insert(1, 10, 1.0) && events[1] == Insert(2, 20, 2.0)
    ensures run[|run| - 1] == Shared([E10, E20], {10, 20}, map[1 := Counted(1), 2 := Counted(1)], Some(2))
  {
    TwoEntries();
    hide ZAdd, ZRem, Keys;
    run, events := [Shared([], {}, map[], None)], [];
    run, events := Extend(run, events, Insert(1, 10, 1.0), 1);
    run, events := Extend(run, events, Insert(2, 20, 2.0), 1);
    run, events := Extend(run, events, ReadSize(1), 1);
    run, events := Extend(run, events, ReadSize(2), 1);
  }

  /** It need not be: two sets that both find one key too many remove one each, and nothing is
      left in a cache for one entry, not even the key set last. */
  lemma LatestCanBeLost() returns (run: seq<Shared>, events: seq<Event>)
    ensures IsRun(run, events, 1) && run[0] == Shared([], {}, map[], None)
    ensures |events| == 10 && events[0] == Insert(1, 10, 1.0) && events[1] == Insert(2, 20, 2.0)
    ensures run[|run| - 1] == Shared([], {}, map[], Some(2))
  {
    TwoEntries();
    hide ZAdd, ZRem, Keys, IsRun;
    run, events := BothCounted();
    run, events := Extend(run, events, ReadVictims(1), 1);
    assert run[|run| - 1] == Shared([E10, E20], {10, 20}, map[1 := Evicting([10]), 2 := Counted(1)], Some(2));
    run, events := Extend(run, events, EvictNext(1), 1);
    assert run[|run| - 1] == Shared([E20], {20}, map[1 := Evicting([]), 2 := Counted(1)], Some(2));
    run, events := Extend(run, events, EvictNext(1), 1);
    assert run[|run| - 1].tasks == map[2 := Counted(1)];
    run, events := Extend(run, events, ReadVictims(2), 1);
    assert run[|run| - 1] == Shared([E20], {20}, map[2 := Evicting([20])], Some(2));
    run, events := Extend(run, events, EvictNext(2), 1);
    assert run[|run| - 1] == Shared([], {}, map[2 := Evicting([])], Some(2));
    run, events := Extend(run, events, EvictNext(2), 1);
  }

  // ---- An operation by itself -----------------------------------------------------------------

  function RemAll(z: seq<Entry>, keys: seq<Key>): seq<Entry>
    decreases |keys|
  {
    if keys == [] then z else RemAll(ZRem(z, keys[0]), keys[1..])
  }

  lemma {:induction false} RemAbsent(z: seq<Entry>, key: Key)
    requires forall i :: 0 <= i < |z| ==> z[i].key != key
    ensures ZRem(z, key) == z
  {
    if z != [] {
      RemAbsent(z[1..], key);
    }
  }

  lemma RemFirst(z: seq<Entry>)
    requires IsZSet(z) && z != []
    ensures ZRem(z, z[0].key) == z[1..] && IsZSet(z[1..])
  {
    RemAbsent(z[1..], z[0].key);
  }

  /** Removing the oldest keys leaves the others as they were. */
  lemma {:induction false} RemOldest(z: seq<Entry>, n: nat)
    requires IsZSet(z) && n <= |z|
    ensures RemAll(z, Keys(z[..n])) == z[n..]
    decreases n
  {
    hide IsZSet, ZRem;
    var ks := Keys(z[..n]);
    if n > 0 {
      RemFirst(z);
      RemOldest(z[1..], n - 1);
      assert ks[1..] == Keys(z[1..][..n - 1]);
    }
  }

  /** The removals of one operation, with nothing in between. */
  lemma {:induction false} SoloRemovals(run0: seq<Shared>, events0: seq<Event>, p: Pid, evicting: bool, keys: seq<Key>,
                                        max: nat)
      returns (run: seq<Shared>, events: seq<Event>)
    requires IsRun(run0, events0, max) && |run0| == |events0| + 1
    requires var s := run0[|run0| - 1];
             p in s.tasks && s.tasks[p] == if evicting then Evicting(keys) else Clearing(keys)
    ensures IsRun(run, events, max) && |run| == |events| + 1 && run[0] == run0[0]
    ensures var s := run0[|run0| - 1];
            run[|run| - 1] == Shared(RemAll(s.index, keys), s.emb - KeysOf(keys), s.tasks - {p}, s.latest)
    decreases |keys|
  {
    var e := if evicting then EvictNext(p) else ClearNext(p);
    run, events := Extend(run0, events0, e, max);
    hide IsRun, ZRem;
    var s, t := run0[|run0| - 1], run[|run| - 1];
    if keys != [] {
      run, events := SoloRemovals(run, events, p, evicting, keys[1..], max);
      assert KeysOf(keys) == {keys[0]} + KeysOf(keys[1..]);
      assert t.tasks - {p} == s.tasks - {p};
    } else {
      assert s.emb - KeysOf(keys) == s.emb;
    }
  }

  /** A `clear` that is not interrupted can always run, and leaves no key and no embedding of
      a key behind. */
  lemma SoloClear(s: Shared, p: Pid, max: nat) returns (run: seq<Shared>, events: seq<Event>)
    requires IsZSet(s.index) && p !in s.tasks && s.emb <= KeySet(s.index)
    ensures IsRun(run, events, max) && |run| == |events| + 1 && run[0] == s
    ensures run[|run| - 1] == Shared([], {}, s.tasks, s.latest)
  {
    run, events := [s], [];
    run, events := Extend(run, events, ReadMembers(p), max);
    RemOldest(s.index, |s.index|);
    assert s.index[..|s.index|] == s.index;
    assert (s.tasks[p := Clearing(Keys(s.index))]) - {p} == s.tasks;
    forall k | k in KeySet(s.index) ensures k in Keys(s.index) {
      MembersListed(s.index, k);
    }
    hide RemAll, IsRun;
    run, events := SoloRemovals(run, events, p, false, Keys(s.index), max);
  }

  /** Its steps before the first removal. */
  lemma SoloInsert(s: Shared, p: Pid, key: Key, score: real, max: nat) returns (run: seq<Shared>, events: seq<Event>)
    requires p !in s.tasks
    ensures IsRun(run, events, max) && |run| == |events| + 1 && run[0] == s
    ensures var z := ZAdd(s.index, key, score);
            run[|run| - 1] ==
              Shared(z, s.emb + {key},
                     if |z| <= max then s.tasks else s.tasks[p := Evicting(Keys(z[..|z| - max]))], Some(p))
  {
    hide ZAdd, ZRem, Keys;
    var z := ZAdd(s.index, key, score);
    run, events := [s], [];
    run, events := Extend(run, events, Insert(p, key, score), max);
    run, events := Extend(run, events, ReadSize(p), max);
    hide IsRun;
    if |z| <= max {
      assert (s.tasks[p := Inserted]) - {p} == s.tasks;
    } else {
      assert run[|run| - 1] == Shared(z, s.emb + {key}, s.tasks[p := Counted(|z| - max)], Some(p));
      run, events := Extend(run, events, ReadVictims(p), max);
    }
  }

  /** A `set` that is not interrupted can always run, and leaves exactly the `max` most recent
      keys, the one it set among the keys it started from. */
  lemma SoloSet(s: Shared, p: Pid, key: Key, score: real, max: nat) returns (run: seq<Shared>, events: seq<Event>)
    requires IsZSet(s.index) && p !in s.tasks
    ensures IsRun(run, events, max) && |run| == |events| + 1 && run[0] == s
    ensures var t, z := run[|run| - 1], ZAdd(s.index, key, score);
            && t.index == (if |z| <= max then z else z[|z| - max..])
            && t.tasks == s.tasks && t.latest == Some(p)
            && t.emb == s.emb + {key} - KeysOf(Keys(z[..if |z| <= max then 0 else |z| - max]))
  {
    var z := ZAdd(s.index, key, score);
    AddExact(s.index, key, score);
    hide *;
    run, events := SoloInsert(s, p, key, score, max);
    if |z| <= max {
      NothingListed(z);
    } else {
      var n := |z| - max;
      RemOldest(z, n);
      run, events := SoloRemovals(run, events, p, true, Keys(z[..n]), max);
      assert (s.tasks[p := Evicting(Keys(z[..n]))]) - {p} == s.tasks;
    }
  }

  lemma NothingListed(z: seq<Entry>)
    ensures KeysOf(Keys(z[..0])) == {}
  {
  }
}
