/** The FAISS store of `app/vector_memory/faiss_store.py`: vectors and records in step. */
module VectorStores {
  import opened Collections
  import opened Wrappers

  datatype Record = Record(id: string, text: string, metadata: map<string, string>)

  type Item = (Record, Vector)

  /** The items whose id is not listed. */
  function WithoutIds(items: seq<Item>, ids: set<string>): seq<Item> {
    if items == [] then []
    else
      var last := items[|items| - 1];
      WithoutIds(items[..|items| - 1], ids) + if last.0.id in ids then [] else [last]
  }

  lemma {:induction false} WithoutIdsExact(items: seq<Item>, ids: set<string>)
    ensures |WithoutIds(items, ids)| <= |items|
    ensures forall x :: x in WithoutIds(items, ids) <==> x in items && x.0.id !in ids
    ensures |WithoutIds(items, ids)| == |items| ==> WithoutIds(items, ids) == items
  {
    if items != [] {
      var front := items[..|items| - 1];
      WithoutIdsExact(front, ids);
      assert items == front + [items[|items| - 1]];
    }
  }

  lemma {:induction false} WithoutIdsAppend(a: seq<Item>, b: seq<Item>, ids: set<string>)
    ensures WithoutIds(a + b, ids) == WithoutIds(a, ids) + WithoutIds(b, ids)
  {
    if b == [] {
      assert a + b == a;
    } else {
      var front := b[..|b| - 1];
      WithoutIdsAppend(a, front, ids);
      assert (a + b)[..|a + b| - 1] == a + front;
    }
  }

  /** Deleting what was just inserted, under ids that were not in use, restores the store. */
  lemma InsertThenDelete(items: seq<Item>, added: seq<Item>, ids: set<string>)
    requires forall x :: x in added ==> x.0.id in ids
    requires forall x :: x in items ==> x.0.id !in ids
    ensures WithoutIds(items + added, ids) == items
  {
    WithoutIdsAppend(items, added, ids);
    AllDropped(added, ids);
    NoneDropped(items, ids);
  }

  lemma {:induction false} AllDropped(items: seq<Item>, ids: set<string>)
    requires forall x :: x in items ==> x.0.id in ids
    ensures WithoutIds(items, ids) == []
  {
    if items != [] {
      AllDropped(items[..|items| - 1], ids);
    }
  }

  lemma {:induction false} NoneDropped(items: seq<Item>, ids: set<string>)
    requires forall x :: x in items ==> x.0.id !in ids
    ensures WithoutIds(items, ids) == items
  {
    if items != [] {
      NoneDropped(items[..|items| - 1], ids);
    }
  }

  function Zip(records: seq<Record>, vectors: seq<Vector>): (items: seq<Item>)
    requires |records| == |vectors|
    ensures |items| == |records| && forall i :: 0 <= i < |items| ==> items[i] == (records[i], vectors[i])
  {
    seq(|records|, i requires 0 <= i < |records| => (records[i], vectors[i]))
  }

  class FAISSVectorStore {
    var index: Option<seq<Vector>>
    var records: seq<Record>

    /** One vector per record, at the same position. */
    ghost predicate Valid()
      reads this
    {
      if index.None? then records == [] else |index.value| == |records|
    }

    ghost function Contents(): seq<Item>
      requires Valid()
      reads this
    {
      if index.None? then [] else Zip(records, index.value)
    }

    constructor ()
      ensures Valid() && Contents() == []
    {
      index, records := None, [];
    }

    method AddEmbedding(record: Record, embedding: Vector)
      requires Valid()
      modifies this
      ensures Valid() && Contents() == old(Contents()) + [(record, embedding)]
    {
      if index == None {
        index := Some([]);
      }
      ghost var before := Contents();
      index := Some(index.value + [embedding]);
      records := records + [record];
      assert Contents() == before + [(record, embedding)];
    }

    /** All vectors are added first, then the records one by one. */
    method BatchInsert(items: seq<Item>) returns (count: nat)
      requires Valid()
      modifies this
      ensures Valid() && Contents() == old(Contents()) + items && count == |items|
    {
      if items == [] {
        return 0;
      }
      if index == None {
        index := Some([]);
      }
      ghost var before := Contents();
      ghost var vectors := index.value + seq(|items|, i requires 0 <= i < |items| => items[i].1);
      index := Some(index.value + seq(|items|, i requires 0 <= i < |items| => items[i].1));
      for i := 0 to |items|
        invariant index == Some(vectors) && |records| == |before| + i && |vectors| == |before| + |items|
        invariant Zip(records, vectors[..|records|]) == before + items[..i]
      {
        records := records + [items[i].0];
      }
      assert vectors[..|records|] == vectors && items[..|items|] == items;
      return |items|;
    }

    /** The index is rebuilt from the kept positions. */
    method Delete(ids: set<string>) returns (removed: nat)
      requires Valid()
      modifies this
      ensures Valid() && Contents() == WithoutIds(old(Contents()), ids)
      ensures removed == |old(Contents())| - |Contents()|
    {
      if index == None || records == [] {
        return 0;
      }
      ghost var items := Contents();
      var vectors, kept := [], [];
      for i := 0 to |records|
        invariant |vectors| == |kept| == |WithoutIds(items[..i], ids)|
        invariant forall k :: 0 <= k < |kept| ==> WithoutIds(items[..i], ids)[k] == (kept[k], vectors[k])
      {
        assert items[..i + 1][..i] == items[..i] && items[i] == (records[i], index.value[i]);
        if records[i].id !in ids {
          vectors, kept := vectors + [index.value[i]], kept + [records[i]];
        }
      }
      assert items[..|records|] == items;
      WithoutIdsExact(items, ids);
      removed := |records| - |kept|;
      if removed > 0 {
        index, records := Some(vectors), kept;
      }
    }
  }
}
