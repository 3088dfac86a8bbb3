/** The ordered multimap behind src/bencode_dict.cpp, and the normal form it
    gives to every value that is parsed. */
module BencodeOrder {
  import opened Bytes
  import opened BencodeText

  // The order of std::string: by unsigned bytes, a proper prefix first.
  predicate Less(a: seq<byte>, b: seq<byte>) {
    |b| > 0 && (|a| == 0 || a[0] < b[0] || (a[0] == b[0] && Less(a[1..], b[1..])))
  }

  lemma {:induction false} LessIsTotal(a: seq<byte>, b: seq<byte>)
    ensures !(Less(a, b) && Less(b, a))
    ensures Less(a, b) || Less(b, a) || a == b
  {
    if |a| > 0 && |b| > 0 && a[0] == b[0] {
      LessIsTotal(a[1..], b[1..]);
      assert a == [a[0]] + a[1..] && b == [b[0]] + b[1..];
    }
  }

  lemma {:induction false} AtMostTransitive(a: seq<byte>, b: seq<byte>, c: seq<byte>)
    requires !Less(b, a) && !Less(c, b)
    ensures !Less(c, a)
  {
    if |a| > 0 && |b| > 0 && |c| > 0 && a[0] == b[0] == c[0] {
      AtMostTransitive(a[1..], b[1..], c[1..]);
    }
  }

  ghost predicate Ordered(es: seq<Entry>) {
    forall i, j | 0 <= i < j < |es| :: !Less(es[j].key, es[i].key)
  }

  // Where std::multimap::insert puts a key: after every key that is not
  // greater.
  function UpperBound(es: seq<Entry>, key: seq<byte>): (k: nat)
    ensures k <= |es|
    ensures forall i | k <= i < |es| :: Less(key, es[i].key)
    ensures k > 0 ==> !Less(key, es[k - 1].key)
  {
    if |es| > 0 && Less(key, es[|es| - 1].key) then UpperBound(es[..|es| - 1], key) else |es|
  }

  function Insert(es: seq<Entry>, e: Entry): (r: seq<Entry>)
    ensures |r| == |es| + 1
  {
    var k := UpperBound(es, e.key);
    es[..k] + [e] + es[k..]
  }

  lemma InsertOrdered(es: seq<Entry>, e: Entry)
    requires Ordered(es)
    ensures Ordered(Insert(es, e))
  {
    var k := UpperBound(es, e.key);
    forall i | 0 <= i < k
      ensures !Less(e.key, es[i].key)
    {
      if i < k - 1 {
        AtMostTransitive(es[i].key, es[k - 1].key, e.key);
      }
    }
    forall i | k <= i < |es|
      ensures !Less(es[i].key, e.key)
    {
      LessIsTotal(e.key, es[i].key);
    }
  }

  // The values filed under a key, in order.
  function Select(es: seq<Entry>, key: seq<byte>): seq<Value> {
    if |es| == 0 then []
    else Select(es[..|es| - 1], key) + if es[|es| - 1].key == key then [es[|es| - 1].value] else []
  }

  lemma {:induction false} SelectConcat(a: seq<Entry>, b: seq<Entry>, key: seq<byte>)
    ensures Select(a + b, key) == Select(a, key) + Select(b, key)
  {
    if |b| == 0 {
      assert a + b == a;
    } else {
      assert (a + b)[..|a + b| - 1] == a + b[..|b| - 1];
      SelectConcat(a, b[..|b| - 1], key);
    }
  }

  lemma {:induction false} SelectNone(es: seq<Entry>, key: seq<byte>)
    requires forall i | 0 <= i < |es| :: es[i].key != key
    ensures Select(es, key) == []
  {
    if |es| > 0 {
      SelectNone(es[..|es| - 1], key);
    }
  }

  lemma SelectAround(x: seq<Entry>, e: Entry, y: seq<Entry>, key: seq<byte>)
    ensures Select(x + [e] + y, key)
         == Select(x, key) + (if e.key == key then [e.value] else []) + Select(y, key)
  {
    SelectConcat(x + [e], y, key);
    SelectConcat(x, [e], key);
    assert [e][..0] == [];
  }

  lemma SelectAbove(es: seq<Entry>, key: seq<byte>)
    requires forall i | 0 <= i < |es| :: Less(key, es[i].key)
    ensures Select(es, key) == []
  {
    LessIsTotal(key, key);
    SelectNone(es, key);
  }

  // An insertion is last among the entries of its own key and leaves the
  // others as they were.
  lemma SelectInsert(es: seq<Entry>, e: Entry, key: seq<byte>)
    ensures Select(Insert(es, e), key) == Select(es, key) + if e.key == key then [e.value] else []
  {
    var k := UpperBound(es, e.key);
    var x, y := es[..k], es[k..];
    SelectAbove(y, e.key);
    assert es == x + y;
    assert Insert(es, e) == x + [e] + y;
    SelectSplit(es, x, e, y, key);
  }

  lemma SelectSplit(es: seq<Entry>, x: seq<Entry>, e: Entry, y: seq<Entry>, key: seq<byte>)
    requires es == x + y && Select(y, e.key) == []
    ensures Select(x + [e] + y, key) == Select(es, key) + if e.key == key then [e.value] else []
  {
    SelectAround(x, e, y, key);
    SelectConcat(x, y, key);
  }

  // What inserting entry after entry into an empty multimap leaves.
  function SortEntries(es: seq<Entry>): (r: seq<Entry>)
    ensures |r| == |es|
  {
    if |es| == 0 then [] else Insert(SortEntries(es[..|es| - 1]), es[|es| - 1])
  }

  lemma {:induction false} SortIsStable(es: seq<Entry>)
    ensures Ordered(SortEntries(es))
    ensures forall key :: Select(SortEntries(es), key) == Select(es, key)
  {
    if |es| > 0 {
      var init, last := SortEntries(es[..|es| - 1]), es[|es| - 1];
      SortIsStable(es[..|es| - 1]);
      InsertOrdered(init, last);
      forall key
        ensures Select(SortEntries(es), key) == Select(es, key)
      {
        SelectInsert(init, last, key);
      }
    }
  }

  lemma {:induction false} SelectSome(es: seq<Entry>, key: seq<byte>) returns (i: nat)
    requires Select(es, key) != []
    ensures i < |es| && es[i].key == key
  {
    if es[|es| - 1].key == key {
      i := |es| - 1;
    } else {
      i := SelectSome(es[..|es| - 1], key);
    }
  }

  lemma LastKeys(a: seq<Entry>, b: seq<Entry>)
    requires |a| > 0 && Ordered(b)
    requires forall key :: Select(a, key) == Select(b, key)
    ensures |b| > 0 && !Less(b[|b| - 1].key, a[|a| - 1].key)
  {
    var last := a[|a| - 1].key;
    assert Select(a, last) != [];
    var i := SelectSome(b, last);
    LessIsTotal(last, last);
  }

  /** There is only one stable sort. */
  lemma {:induction false} StableSortUnique(a: seq<Entry>, b: seq<Entry>)
    requires Ordered(a) && Ordered(b)
    requires forall key :: Select(a, key) == Select(b, key)
    ensures a == b
  {
    if |a| == 0 {
      if |b| > 0 {
        LastKeys(b, a);
      }
    } else {
      LastKeys(a, b);
      LastKeys(b, a);
      var la, lb, ia, ib := a[|a| - 1], b[|b| - 1], a[..|a| - 1], b[..|b| - 1];
      LessIsTotal(la.key, lb.key);
      assert Select(a, la.key) == Select(b, la.key);
      assert la.value == Select(a, la.key)[|Select(a, la.key)| - 1];
      forall key
        ensures Select(ia, key) == Select(ib, key)
      {
        assert Select(a, key) == Select(b, key);
        if key == la.key {
          assert Select(ia, key) == Select(a, key)[..|Select(a, key)| - 1];
          assert Select(ib, key) == Select(b, key)[..|Select(b, key)| - 1];
        } else {
          assert Select(ia, key) == Select(a, key);
          assert Select(ib, key) == Select(b, key);
        }
      }
      StableSortUnique(ia, ib);
      assert a == ia + [la] && b == ib + [lb];
    }
  }

  lemma SortFixesOrdered(es: seq<Entry>)
    ensures SortEntries(es) == es <==> Ordered(es)
  {
    SortIsStable(es);
    if Ordered(es) {
      StableSortUnique(SortEntries(es), es);
    }
  }

  /** The value that parsing the text of v builds: every dictionary sorted. */
  function Norm(v: Value): Value {
    match v
    case Str(_) => v
    case Int(_) => v
    case List(items) => List(NormItems(items))
    case Dict(entries) => Dict(SortEntries(NormEntries(entries)))
  }

  function NormItems(items: seq<Value>): (r: seq<Value>)
    ensures |r| == |items| && forall i | 0 <= i < |items| :: r[i] == Norm(items[i])
  {
    seq(|items|, i requires 0 <= i < |items| => Norm(items[i]))
  }

  function NormEntries(es: seq<Entry>): (r: seq<Entry>)
    ensures |r| == |es| && forall i | 0 <= i < |es| :: r[i] == Entry(es[i].key, Norm(es[i].value))
  {
    seq(|es|, i requires 0 <= i < |es| => Entry(es[i].key, Norm(es[i].value)))
  }

  // The first k items, or entries, of a container as a parser builds it.
  function ItemsBuilt(items: seq<Value>, k: nat): seq<Value>
    requires k <= |items|
  {
    NormItems(items)[..k]
  }

  function EntriesBuilt(entries: seq<Entry>, k: nat): seq<Entry>
    requires k <= |entries|
  {
    SortEntries(NormEntries(entries)[..k])
  }

  lemma ItemsBuiltNext(items: seq<Value>, k: nat)
    requires k < |items|
    ensures ItemsBuilt(items, k + 1) == ItemsBuilt(items, k) + [Norm(items[k])]
  {}

  lemma EntriesBuiltNext(entries: seq<Entry>, k: nat)
    requires k < |entries|
    ensures EntriesBuilt(entries, k + 1)
         == Insert(EntriesBuilt(entries, k), Entry(entries[k].key, Norm(entries[k].value)))
  {
    assert NormEntries(entries)[..k + 1][..k] == NormEntries(entries)[..k];
  }

  lemma AllBuilt(v: Value)
    ensures v.List? ==> List(ItemsBuilt(v.items, |v.items|)) == Norm(v)
    ensures v.Dict? ==> Dict(EntriesBuilt(v.entries, |v.entries|)) == Norm(v)
  {
    if v.List? {
      assert NormItems(v.items)[..|v.items|] == NormItems(v.items);
    } else if v.Dict? {
      assert NormEntries(v.entries)[..|v.entries|] == NormEntries(v.entries);
    }
  }

  // Every dictionary in v is in key order.
  ghost predicate IsSorted(v: Value) {
    match v
    case Str(_) => true
    case Int(_) => true
    case List(items) => forall i | 0 <= i < |items| :: IsSorted(items[i])
    case Dict(entries) => Ordered(entries) && forall i | 0 <= i < |entries| :: IsSorted(entries[i].value)
  }

  ghost predicate ValuesSorted(es: seq<Entry>) {
    forall i | 0 <= i < |es| :: IsSorted(es[i].value)
  }

  lemma {:induction false} SortKeepsValuesSorted(es: seq<Entry>)
    requires ValuesSorted(es)
    ensures ValuesSorted(SortEntries(es))
  {
    if |es| > 0 {
      SortKeepsValuesSorted(es[..|es| - 1]);
    }
  }

  lemma {:induction false} NormSorts(v: Value)
    ensures IsSorted(Norm(v))
    decreases v
  {
    match v
    case Str(_) =>
    case Int(_) =>
    case List(items) =>
      forall i | 0 <= i < |items|
        ensures IsSorted(Norm(items[i]))
      {
        NormSorts(items[i]);
      }
    case Dict(entries) =>
      forall i | 0 <= i < |entries|
        ensures IsSorted(Norm(entries[i].value))
      {
        NormSorts(entries[i].value);
      }
      SortKeepsValuesSorted(NormEntries(entries));
      SortIsStable(NormEntries(entries));
  }

  lemma {:induction false} SortedIsFixed(v: Value)
    requires IsSorted(v)
    ensures Norm(v) == v
    decreases v
  {
    match v
    case Str(_) =>
    case Int(_) =>
    case List(items) =>
      forall i | 0 <= i < |items|
        ensures Norm(items[i]) == items[i]
      {
        SortedIsFixed(items[i]);
      }
      assert NormItems(items) == items;
    case Dict(entries) =>
      forall i | 0 <= i < |entries|
        ensures Norm(entries[i].value) == entries[i].value
      {
        SortedIsFixed(entries[i].value);
      }
      assert NormEntries(entries) == entries;
      SortFixesOrdered(entries);
  }

  /** Sorting again changes nothing. */
  lemma NormIdempotent(v: Value)
    ensures Norm(Norm(v)) == Norm(v)
  {
    NormSorts(v);
    SortedIsFixed(Norm(v));
  }

  /** Parsing and printing reproduces a text exactly when its dictionaries are
      in key order. */
  lemma TextOfNormIff(v: Value)
    ensures Text(Norm(v)) == Text(v) <==> IsSorted(v)
  {
    if Text(Norm(v)) == Text(v) {
      PrefixFree(Norm(v), [], v, []);
      NormSorts(v);
    }
    if IsSorted(v) {
      SortedIsFixed(v);
    }
  }

  lemma {:induction false} EntriesTextConcat(a: seq<Entry>, b: seq<Entry>)
    ensures EntriesText(a + b) == EntriesText(a) + EntriesText(b)
  {
    if |a| == 0 {
      assert a + b == b;
    } else {
      assert (a + b)[1..] == a[1..] + b;
      EntriesTextConcat(a[1..], b);
      ConcatAssoc(StrText(a[0].key) + Text(a[0].value), EntriesText(a[1..]), EntriesText(b));
    }
  }

  lemma LengthAround(x: seq<Entry>, e: Entry, y: seq<Entry>)
    ensures |EntriesText(x + [e] + y)| == |EntriesText(x + y)| + |EntriesText([e])|
  {
    EntriesTextConcat(x + [e], y);
    EntriesTextConcat(x, [e]);
    EntriesTextConcat(x, y);
  }

  lemma InsertLength(es: seq<Entry>, e: Entry)
    ensures |EntriesText(Insert(es, e))| == |EntriesText(es)| + |EntriesText([e])|
  {
    var k := UpperBound(es, e.key);
    LengthAround(es[..k], e, es[k..]);
    assert es[..k] + es[k..] == es;
  }

  lemma {:induction false} SortKeepsLength(es: seq<Entry>)
    ensures |EntriesText(SortEntries(es))| == |EntriesText(es)|
  {
    if |es| > 0 {
      var init, last := es[..|es| - 1], es[|es| - 1];
      SortKeepsLength(init);
      InsertLength(SortEntries(init), last);
      LastLength(es);
    }
  }

  lemma LastLength(es: seq<Entry>)
    requires |es| > 0
    ensures |EntriesText(es)| == |EntriesText(es[..|es| - 1])| + |EntriesText([es[|es| - 1]])|
  {
    EntriesTextConcat(es[..|es| - 1], [es[|es| - 1]]);
    assert es == es[..|es| - 1] + [es[|es| - 1]];
  }

  // Sorting moves text about but neither adds nor drops any.
  lemma {:induction false} NormKeepsLength(v: Value)
    ensures |Text(Norm(v))| == |Text(v)|
    decreases v
  {
    match v
    case Str(_) =>
    case Int(_) =>
    case List(items) =>
      NormItemsLength(items);
    case Dict(entries) =>
      NormEntriesLength(entries);
      SortKeepsLength(NormEntries(entries));
  }

  lemma {:induction false} NormItemsLength(items: seq<Value>)
    ensures |ItemsText(NormItems(items))| == |ItemsText(items)|
    decreases items
  {
    if |items| > 0 {
      NormKeepsLength(items[0]);
      NormItemsLength(items[1..]);
      assert NormItems(items)[1..] == NormItems(items[1..]);
    }
  }

  lemma {:induction false} NormEntriesLength(es: seq<Entry>)
    ensures |EntriesText(NormEntries(es))| == |EntriesText(es)|
    decreases es
  {
    if |es| > 0 {
      NormKeepsLength(es[0].value);
      NormEntriesLength(es[1..]);
      assert NormEntries(es)[1..] == NormEntries(es[1..]);
    }
  }
}
