/** A Redis sorted set as the list ZRANGE returns: ordered by score, then by member. */
module SortedSets {

  type Key = nat

  datatype Entry = Entry(key: Key, score: real)

  predicate Before(a: Entry, b: Entry) {
    a.score < b.score || (a.score == b.score && a.key < b.key)
  }

  predicate Sorted(z: seq<Entry>) {
    forall i, j :: 0 <= i < j < |z| ==> Before(z[i], z[j])
  }

  ghost predicate KeysDistinct(z: seq<Entry>) {
    forall i, j :: 0 <= i < j < |z| ==> z[i].key != z[j].key
  }

  ghost predicate IsZSet(z: seq<Entry>) {
    Sorted(z) && KeysDistinct(z)
  }

  function Keys(z: seq<Entry>): (ks: seq<Key>)
    ensures |ks| == |z| && forall i :: 0 <= i < |z| ==> ks[i] == z[i].key
  {
    seq(|z|, i requires 0 <= i < |z| => z[i].key)
  }

  function ZRem(z: seq<Entry>, key: Key): seq<Entry> {
    if z == [] then []
    else (if z[0].key == key then [] else [z[0]]) + ZRem(z[1..], key)
  }

  function ZInsert(z: seq<Entry>, e: Entry): seq<Entry> {
    if z == [] || Before(e, z[0]) then [e] + z else [z[0]] + ZInsert(z[1..], e)
  }

  function ZAdd(z: seq<Entry>, key: Key, score: real): seq<Entry> {
    ZInsert(ZRem(z, key), Entry(key, score))
  }

  lemma {:induction false} RemExact(z: seq<Entry>, key: Key)
    requires IsZSet(z)
    ensures IsZSet(ZRem(z, key)) && forall e :: e in ZRem(z, key) <==> e in z && e.key != key
  {
    if z != [] {
      var rest := z[1..];
      RemExact(rest, key);
      var r := ZRem(rest, key);
      forall i | 0 <= i < |r| ensures r[i] in rest && Before(z[0], r[i]) && r[i].key != z[0].key {
        assert r[i] in r;
        var j :| 0 <= j < |rest| && rest[j] == r[i];
        assert z[j + 1] == r[i];
      }
    }
  }

  lemma {:induction false} InsertExact(z: seq<Entry>, e: Entry)
    requires IsZSet(z) && forall x :: x in z ==> x.key != e.key
    ensures IsZSet(ZInsert(z, e)) && forall x :: x in ZInsert(z, e) <==> x in z || x == e
  {
    if z != [] && !Before(e, z[0]) {
      var rest := z[1..];
      InsertExact(rest, e);
      var r := ZInsert(rest, e);
      forall i | 0 <= i < |r| ensures Before(z[0], r[i]) && r[i].key != z[0].key {
        assert r[i] in r;
        if r[i] != e {
          var j :| 0 <= j < |rest| && rest[j] == r[i];
          assert z[j + 1] == r[i];
        } else {
          assert z[0] in z;
        }
      }
    } else {
      forall i | 0 <= i < |z| ensures Before(e, z[i]) && z[i].key != e.key {
        assert z[i] in z;
      }
    }
  }

  /** The member moves to its new score; the others keep theirs. */
  lemma AddExact(z: seq<Entry>, key: Key, score: real)
    requires IsZSet(z)
    ensures IsZSet(ZAdd(z, key, score))
    ensures var z' := ZAdd(z, key, score);
            forall i, j :: 0 <= i < j < |z'| ==>
              z'[i].score < z'[j].score || (z'[i].score == z'[j].score && z'[i].key < z'[j].key)
    ensures forall e :: e in ZAdd(z, key, score) <==> (e in z && e.key != key) || e == Entry(key, score)
  {
    RemExact(z, key);
    InsertExact(ZRem(z, key), Entry(key, score));
  }

  // ---- The keys as a set ------------------------------------------------------------------

  function KeySet(z: seq<Entry>): set<Key> {
    set e | e in z :: e.key
  }

  lemma {:induction false} KeySetSize(z: seq<Entry>)
    requires KeysDistinct(z)
    ensures |KeySet(z)| == |z|
  {
    if z != [] {
      var front := z[..|z| - 1];
      var last := z[|z| - 1];
      KeySetSize(front);
      assert z == front + [last];
      assert last.key !in KeySet(front);
      assert KeySet(z) == KeySet(front) + {last.key};
    }
  }

  lemma AddKeySet(z: seq<Entry>, key: Key, score: real)
    requires IsZSet(z)
    ensures KeySet(ZAdd(z, key, score)) == KeySet(z) + {key}
  {
    AddExact(z, key, score);
    var z' := ZAdd(z, key, score);
    forall k ensures k in KeySet(z') <==> k in KeySet(z) + {key} {
      if k in KeySet(z) && k != key {
        var e :| e in z && e.key == k;
        assert e in z';
      }
      if k == key {
        assert Entry(key, score) in z';
      }
    }
  }

  lemma RemKeySet(z: seq<Entry>, key: Key)
    requires IsZSet(z)
    ensures KeySet(ZRem(z, key)) == KeySet(z) - {key}
  {
    RemExact(z, key);
  }

  // ---- The keys as a recency list ---------------------------------------------------------

  function Without(l: seq<Key>, k: Key): seq<Key> {
    if l == [] then [] else (if l[0] == k then [] else [l[0]]) + Without(l[1..], k)
  }

  lemma {:induction false} RemKeys(z: seq<Entry>, key: Key)
    ensures Keys(ZRem(z, key)) == Without(Keys(z), key)
  {
    if z != [] {
      RemKeys(z[1..], key);
      assert Keys(z)[1..] == Keys(z[1..]);
    }
  }

  /** A score above every other puts the member last. */
  lemma {:induction false} InsertLast(z: seq<Entry>, e: Entry)
    requires forall i :: 0 <= i < |z| ==> z[i].score < e.score
    ensures ZInsert(z, e) == z + [e]
  {
    if z != [] {
      InsertLast(z[1..], e);
    }
  }

  lemma AddKeys(z: seq<Entry>, key: Key, score: real)
    requires IsZSet(z) && forall i :: 0 <= i < |z| ==> z[i].score < score
    ensures ZAdd(z, key, score) == ZRem(z, key) + [Entry(key, score)]
    ensures Keys(ZAdd(z, key, score)) == Without(Keys(z), key) + [key]
  {
    RemExact(z, key);
    var r := ZRem(z, key);
    forall i | 0 <= i < |r| ensures r[i].score < score {
      assert r[i] in r;
    }
    InsertLast(r, Entry(key, score));
    RemKeys(z, key);
  }
}
