/** src/bencode_encoder.cpp: printing a value. */
module BencodeEncoder {
  import opened Bytes
  import opened BencodeText
  import opened BencodeOrder
  import BencodeRead

  // What appending key.c_str() appends: the bytes before the first NUL.
  function CStr(s: seq<byte>): (r: seq<byte>)
    ensures |r| <= |s| && (|r| == |s| <==> 0 !in s)
    ensures 0 !in s ==> r == s
  {
    if |s| == 0 || s[0] == 0 then [] else [s[0]] + CStr(s[1..])
  }

  function KeyEncoding(key: seq<byte>): seq<byte> {
    Dec(|key|) + [COLON] + CStr(key)
  }

  // What the encoder prints for a value.
  function Encoding(v: Value): seq<byte> {
    match v
    case Str(s) => StrText(s)
    case Int(n) => [I] + DecInt(n) + [E]
    case List(items) => [L] + ItemsEncoding(items) + [E]
    case Dict(entries) => [D] + EntriesEncoding(entries) + [E]
  }

  function ItemsEncoding(items: seq<Value>): seq<byte> {
    if |items| == 0 then [] else Encoding(items[0]) + ItemsEncoding(items[1..])
  }

  function EntriesEncoding(entries: seq<Entry>): seq<byte> {
    if |entries| == 0 then []
    else KeyEncoding(entries[0].key) + Encoding(entries[0].value) + EntriesEncoding(entries[1..])
  }

  /** bencode_encoder and the four crawl functions. */
  class Encoder {
    // encoded_str_
    var encoded: seq<byte>

    constructor ()
      ensures encoded == []
    {
      encoded := [];
    }

    method Crawl(v: Value)
      modifies this
      ensures encoded == old(encoded) + Encoding(v)
      decreases v
    {
      match v
      case Str(s) =>
        encoded := encoded + Dec(|s|);
        encoded := encoded + [COLON];
        encoded := encoded + s;
      case Int(n) =>
        encoded := encoded + [I];
        encoded := encoded + DecInt(n);
        encoded := encoded + [E];
      case List(items) =>
        CrawlList(items);
      case Dict(entries) =>
        CrawlDict(entries);
    }

    method CrawlList(items: seq<Value>)
      modifies this
      ensures encoded == old(encoded) + ([L] + ItemsEncoding(items) + [E])
      decreases items
    {
      ghost var start, rest := encoded, ItemsEncoding(items);
      encoded := encoded + [L];
      assert items[0..] == items;
      for k := 0 to |items|
        invariant encoded + ItemsEncoding(items[k..]) == start + [L] + rest
      {
        ItemsPrinted(encoded, items, k);
        Crawl(items[k]);
      }
      encoded := encoded + [E];
      Closed(start, L, rest);
    }

    // The body of the loop over a dictionary.
    method CrawlEntry(e: Entry)
      modifies this
      ensures encoded == old(encoded) + KeyEncoding(e.key) + Encoding(e.value)
      decreases e
    {
      ghost var start := encoded;
      encoded := encoded + Dec(|e.key|);
      encoded := encoded + [COLON];
      encoded := encoded + CStr(e.key);
      assert encoded == start + KeyEncoding(e.key);
      Crawl(e.value);
    }

    method CrawlDict(entries: seq<Entry>)
      modifies this
      ensures encoded == old(encoded) + ([D] + EntriesEncoding(entries) + [E])
      decreases entries
    {
      ghost var start, rest := encoded, EntriesEncoding(entries);
      encoded := encoded + [D];
      assert entries[0..] == entries;
      for k := 0 to |entries|
        invariant encoded + EntriesEncoding(entries[k..]) == start + [D] + rest
      {
        EntriesPrinted(encoded, entries, k);
        CrawlEntry(entries[k]);
      }
      encoded := encoded + [E];
      Closed(start, D, rest);
    }
  }

  lemma Closed(start: seq<byte>, open: byte, inner: seq<byte>)
    ensures start + [open] + inner + [E] == start + ([open] + inner + [E])
  {}

  lemma ItemsPrinted(before: seq<byte>, items: seq<Value>, k: nat)
    requires k < |items|
    ensures before + ItemsEncoding(items[k..]) == before + Encoding(items[k]) + ItemsEncoding(items[k + 1..])
  {
    assert items[k..][1..] == items[k + 1..];
    ConcatAssoc(before, Encoding(items[k]), ItemsEncoding(items[k + 1..]));
  }

  lemma EntriesPrinted(before: seq<byte>, entries: seq<Entry>, k: nat)
    requires k < |entries|
    ensures before + EntriesEncoding(entries[k..])
         == before + KeyEncoding(entries[k].key) + Encoding(entries[k].value) + EntriesEncoding(entries[k + 1..])
  {
    var key, value, rest := KeyEncoding(entries[k].key), Encoding(entries[k].value), EntriesEncoding(entries[k + 1..]);
    assert entries[k..][1..] == entries[k + 1..];
    ConcatAssoc(before, key + value, rest);
    ConcatAssoc(before, key, value);
  }

  // No dictionary key contains a NUL byte.
  ghost predicate NulFree(v: Value) {
    match v
    case Str(_) => true
    case Int(_) => true
    case List(items) => forall i | 0 <= i < |items| :: NulFree(items[i])
    case Dict(entries) => forall i | 0 <= i < |entries| :: 0 !in entries[i].key && NulFree(entries[i].value)
  }

  // The encoding is the text, cut short wherever a key has a NUL byte.
  lemma {:induction false} EncodingIffNulFree(v: Value)
    ensures |Encoding(v)| <= |Text(v)|
    ensures |Encoding(v)| == |Text(v)| <==> NulFree(v)
    ensures Encoding(v) == Text(v) <==> NulFree(v)
    decreases v
  {
    match v
    case Str(_) =>
    case Int(_) =>
    case List(items) =>
      ItemsEncodingIff(items);
    case Dict(entries) =>
      EntriesEncodingIff(entries);
  }

  lemma {:induction false} ItemsEncodingIff(items: seq<Value>)
    ensures |ItemsEncoding(items)| <= |ItemsText(items)|
    ensures |ItemsEncoding(items)| == |ItemsText(items)| <==> forall i | 0 <= i < |items| :: NulFree(items[i])
    ensures (forall i | 0 <= i < |items| :: NulFree(items[i])) ==> ItemsEncoding(items) == ItemsText(items)
    decreases items
  {
    if |items| > 0 {
      EncodingIffNulFree(items[0]);
      ItemsEncodingIff(items[1..]);
      assert items == [items[0]] + items[1..];
    }
  }

  ghost predicate EntryNulFree(e: Entry) {
    0 !in e.key && NulFree(e.value)
  }

  lemma {:induction false} EntriesEncodingIff(es: seq<Entry>)
    ensures |EntriesEncoding(es)| <= |EntriesText(es)|
    ensures |EntriesEncoding(es)| == |EntriesText(es)| <==> forall i | 0 <= i < |es| :: EntryNulFree(es[i])
    ensures (forall i | 0 <= i < |es| :: EntryNulFree(es[i])) ==> EntriesEncoding(es) == EntriesText(es)
    decreases es
  {
    if |es| > 0 {
      EncodingIffNulFree(es[0].value);
      EntriesEncodingIff(es[1..]);
      assert es == [es[0]] + es[1..];
    }
  }

  /** Printing what was parsed gives back the text exactly when every
      dictionary is in key order and no key contains a NUL byte. */
  lemma EncodeParsedIff(v: Value)
    ensures Encoding(Norm(v)) == Text(v) <==> IsSorted(v) && NulFree(v)
  {
    EncodingIffNulFree(Norm(v));
    NormKeepsLength(v);
    if IsSorted(v) {
      SortedIsFixed(v);
    }
    TextOfNormIff(v);
  }

  ghost predicate AllNulFree(es: seq<Entry>) {
    forall i | 0 <= i < |es| :: EntryNulFree(es[i])
  }

  lemma InsertNulFree(es: seq<Entry>, e: Entry)
    ensures AllNulFree(Insert(es, e)) <==> AllNulFree(es) && EntryNulFree(e)
  {
    var k, r := UpperBound(es, e.key), Insert(es, e);
    assert r[k] == e;
    if AllNulFree(r) {
      forall i | 0 <= i < |es|
        ensures EntryNulFree(es[i])
      {
        assert es[i] == if i < k then r[i] else r[i + 1];
      }
    }
  }

  lemma {:induction false} SortNulFree(es: seq<Entry>)
    ensures AllNulFree(SortEntries(es)) <==> AllNulFree(es)
  {
    if |es| > 0 {
      SortNulFree(es[..|es| - 1]);
      InsertNulFree(SortEntries(es[..|es| - 1]), es[|es| - 1]);
      LastNulFree(es);
    }
  }

  lemma LastNulFree(es: seq<Entry>)
    requires |es| > 0
    ensures AllNulFree(es) <==> AllNulFree(es[..|es| - 1]) && EntryNulFree(es[|es| - 1])
  {}

  lemma {:induction false} NormNulFree(v: Value)
    ensures NulFree(Norm(v)) <==> NulFree(v)
    decreases v
  {
    match v
    case Str(_) =>
    case Int(_) =>
    case List(items) =>
      forall i | 0 <= i < |items|
        ensures NulFree(Norm(items[i])) <==> NulFree(items[i])
      {
        NormNulFree(items[i]);
      }
    case Dict(entries) =>
      forall i | 0 <= i < |entries|
        ensures NulFree(Norm(entries[i].value)) <==> NulFree(entries[i].value)
      {
        NormNulFree(entries[i].value);
      }
      SortNulFree(NormEntries(entries));
      NormEntriesNulFree(entries);
  }

  lemma NormEntriesNulFree(es: seq<Entry>)
    requires forall i | 0 <= i < |es| :: NulFree(Norm(es[i].value)) <==> NulFree(es[i].value)
    ensures AllNulFree(NormEntries(es)) <==> AllNulFree(es)
  {
    forall i | 0 <= i < |es|
      ensures EntryNulFree(NormEntries(es)[i]) <==> EntryNulFree(es[i])
    {}
    if AllNulFree(NormEntries(es)) {
      forall i | 0 <= i < |es|
        ensures EntryNulFree(es[i])
      {
        assert EntryNulFree(NormEntries(es)[i]);
      }
    }
  }

  /** Encode after parse is a normal form: it is the text of the sorted value,
      and parsing and printing it again changes nothing. */
  lemma EncodeIsNormalForm(v: Value)
    requires NulFree(v)
    ensures Encoding(Norm(v)) == Text(Norm(v))
    ensures Encoding(Norm(Norm(v))) == Encoding(Norm(v))
  {
    NormNulFree(v);
    EncodingIffNulFree(Norm(v));
    NormIdempotent(v);
  }

  /** Parsing and printing keeps the length of a text exactly when no key
      contains a NUL byte. */
  lemma EncodedLengthIff(v: Value)
    ensures |Encoding(Norm(v))| == |Text(v)| <==> NulFree(v)
  {
    NormNulFree(v);
    NormKeepsLength(v);
    EncodingIffNulFree(Norm(v));
  }

  /** What the encoder prints is a text of the value, whatever stands before and
      behind it; and parsing that text gives the same value back exactly when
      its dictionaries are in key order, as those of a parsed value are. */
  lemma EncodingReadsBack(before: seq<byte>, v: Value, rest: seq<byte>)
    requires NulFree(v)
    ensures BencodeRead.Reads(before + Encoding(v) + rest, |before|, Text(v))
    ensures Norm(v) == v <==> IsSorted(v)
  {
    EncodingIffNulFree(v);
    var text := before + Encoding(v) + rest;
    assert text[|before|..|before| + |Text(v)|] == Text(v);
    NormSorts(v);
    if IsSorted(v) {
      SortedIsFixed(v);
    }
  }

  /** Two values are printed alike only when they are equal, and no output is
      the beginning of another. */
  lemma EncodingPrefixFree(v: Value, x: seq<byte>, w: Value, y: seq<byte>)
    requires NulFree(v) && NulFree(w) && Encoding(v) + x == Encoding(w) + y
    ensures v == w && x == y
  {
    EncodingIffNulFree(v);
    EncodingIffNulFree(w);
    PrefixFree(v, x, w, y);
  }

  /** With a NUL byte in a key this fails: two different dictionaries that
      are printed alike. */
  lemma NulKeysCollide() returns (v: Value, w: Value)
    ensures v != w && Encoding(v) == Encoding(w)
  {
    v, w := Dict([Entry([0, 1], Int(0))]), Dict([Entry([0, 2], Int(0))]);
    assert v.entries[0].key[1] != w.entries[0].key[1];
    assert v.entries[1..] == w.entries[1..];
    assert KeyEncoding([0, 1]) == KeyEncoding([0, 2]);
  }
}
