/** src/bencode_dict.cpp and src/bencode_list.cpp: the two containers that a
    parser fills step by step. */
module BencodeDict {
  import opened Bytes
  import opened BencodeText
  import opened BencodeOrder

  // In an ordered multimap, the first greater key is where insertion goes.
  lemma FirstGreater(es: seq<Entry>, key: seq<byte>, k: nat)
    requires Ordered(es) && k <= |es|
    requires forall i | 0 <= i < k :: !Less(key, es[i].key)
    requires k < |es| ==> Less(key, es[k].key)
    ensures k == UpperBound(es, key)
  {
    var bound := UpperBound(es, key);
    assert bound < |es| ==> Less(key, es[bound].key);
    if k < bound - 1 {
      AtMostTransitive(es[k].key, es[bound - 1].key, key);
    }
  }

  /** A std::multimap from keys to values. */
  class BencodeDict {
    // In iteration order.
    var entries: seq<Entry>

    ghost predicate Valid()
      reads this
    {
      Ordered(entries)
    }

    constructor ()
      ensures Valid() && entries == []
    {
      entries := [];
    }

    method InsertToDict(key: seq<byte>, value: Value)
      requires Valid()
      modifies this
      ensures Valid() && entries == Insert(old(entries), Entry(key, value))
    {
      var k := 0;
      while k < |entries| && !Less(key, entries[k].key)
        invariant k <= |entries| && entries == old(entries)
        invariant forall i | 0 <= i < k :: !Less(key, entries[i].key)
      {
        k := k + 1;
      }
      InsertOrdered(entries, Entry(key, value));
      FirstGreater(entries, key, k);
      entries := entries[..k] + [Entry(key, value)] + entries[k..];
    }
  }

  class BencodeList {
    var items: seq<Value>

    constructor ()
      ensures items == []
    {
      items := [];
    }

    method InsertToList(value: Value)
      modifies this
      ensures items == old(items) + [value]
    {
      items := items + [value];
    }
  }
}
