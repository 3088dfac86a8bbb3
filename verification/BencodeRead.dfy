/** Where the parts of a value stand in a text that holds it. */
module BencodeRead {
  import opened Bytes
  import opened BencodeText

  ghost predicate Reads(text: seq<byte>, p: nat, s: seq<byte>) {
    p + |s| <= |text| && text[p..p + |s|] == s
  }

  lemma ReadsConcat(text: seq<byte>, p: nat, a: seq<byte>, b: seq<byte>)
    requires Reads(text, p, a + b)
    ensures Reads(text, p, a) && Reads(text, p + |a|, b)
  {
    var s := a + b;
    SliceOfSlice(text, p, p + |s|, 0, |a|);
    SliceOfSlice(text, p, p + |s|, |a|, |s|);
    assert s[0..|a|] == a && s[|a|..|s|] == b;
  }

  lemma ReadsByte(text: seq<byte>, p: nat, b: byte)
    requires Reads(text, p, [b])
    ensures p < |text| && text[p] == b
  {
    assert text[p] == text[p..p + 1][0];
  }

  lemma ReadsFirst(text: seq<byte>, p: nat, s: seq<byte>)
    requires Reads(text, p, s) && |s| > 0
    ensures p < |text| && text[p] == s[0]
  {
    assert text[p] == text[p..p + |s|][0];
  }

  lemma ReadsTail(text: seq<byte>, p: nat, b: byte, s: seq<byte>)
    requires Reads(text, p, [b] + s)
    ensures p < |text| && text[p] == b && Reads(text, p + 1, s)
  {
    ReadsConcat(text, p, [b], s);
    ReadsByte(text, p, b);
  }

  // What 64-bit integers can represent: the numbers and the string lengths.
  ghost predicate InRange(v: Value) {
    match v
    case Str(s) => |s| < TWO63
    case Int(n) => -(TWO63 as int) <= n < TWO63
    case List(items) => forall i | 0 <= i < |items| :: InRange(items[i])
    case Dict(entries) =>
      forall i | 0 <= i < |entries| :: |entries[i].key| < TWO63 && InRange(entries[i].value)
  }

  // The longest run of digits from s goes as far as end.
  ghost predicate DigitsEndAt(text: seq<byte>, s: nat, end: nat) {
    && s <= end <= |text|
    && (forall i | s <= i < end :: IsDigit(text[i]))
    && (end < |text| ==> !IsDigit(text[end]))
  }

  // Where the digits of a number at p begin.
  function SignEnd(text: seq<byte>, p: nat): (s: nat)
    ensures s == p || s == p + 1
  {
    if p < |text| && text[p] == MINUS then p + 1 else p
  }

  // The number at p, with its sign, if any, has this value and goes to end.
  ghost predicate NumberAt(text: seq<byte>, p: nat, value: int, end: nat) {
    var s := SignEnd(text, p);
    DigitsEndAt(text, s, end) && (if s == p then value else -value) == DigitsVal(text, s, end)
  }

  // Digits at s that end at q, where no digit stands, are all the digits.
  lemma DigitsAre(text: seq<byte>, s: nat, digits: seq<byte>, q: nat, end: nat)
    requires Reads(text, s, digits) && AllDigits(digits) && DigitsEndAt(text, s, end)
    requires q == s + |digits| && q < |text| && !IsDigit(text[q])
    ensures end == q && DigitsVal(text, s, end) == DigitsVal(digits, 0, |digits|)
  {
    forall i | 0 <= i < |digits|
      ensures text[s + i] == digits[i]
    {
      assert text[s..s + |digits|][i] == digits[i];
    }
    forall i | s <= i < q
      ensures IsDigit(text[i])
    {
      assert text[i] == digits[i - s];
    }
    assert end == q;
    DigitsMoved(text, s, digits, |digits|);
  }

  lemma SignSplits(text: seq<byte>, p: nat, n: int)
    requires Reads(text, p, DecInt(n))
    ensures var s, digits := SignEnd(text, p), Dec(if n < 0 then -n else n);
            (s == p <==> n >= 0) && Reads(text, s, digits) && s + |digits| == p + |DecInt(n)|
  {
    SignByte(n);
    ReadsFirst(text, p, DecInt(n));
    if n < 0 {
      ReadsTail(text, p, MINUS, Dec(-n));
    }
  }

  // A number that is followed by something else, at q, reads back as itself.
  lemma NumberIs(text: seq<byte>, p: nat, n: int, q: nat, value: int, end: nat)
    requires Reads(text, p, DecInt(n)) && NumberAt(text, p, value, end)
    requires q == p + |DecInt(n)| && q < |text| && !IsDigit(text[q])
    ensures value == n && end == q
  {
    var s, magnitude := SignEnd(text, p), if n < 0 then -n else n;
    var digits := Dec(magnitude);
    SignSplits(text, p, n);
    DecRoundTrip(magnitude);
    DigitsAre(text, s, digits, q, end);
  }

  lemma StrParts(text: seq<byte>, p: nat, s: seq<byte>) returns (q: nat)
    requires Reads(text, p, StrText(s))
    ensures && q == p + |DecInt(|s|)|
            && Reads(text, p, DecInt(|s|)) && p < |text| && IsDigit(text[p])
            && q < |text| && text[q] == COLON
            && q + 1 + |s| == p + |StrText(s)| && Reads(text, q + 1, s)
  {
    q := p + |Dec(|s|)|;
    ReadsConcat(text, p, Dec(|s|) + [COLON], s);
    ReadsConcat(text, p, Dec(|s|), [COLON]);
    ReadsByte(text, q, COLON);
    ReadsFirst(text, p, Dec(|s|));
  }

  lemma IntParts(text: seq<byte>, p: nat, n: int) returns (q: nat)
    requires Reads(text, p, Text(Int(n)))
    ensures && q == p + 1 + |DecInt(n)|
            && p < |text| && text[p] == I && Reads(text, p + 1, DecInt(n))
            && q < |text| && text[q] == E && q + 1 == p + |Text(Int(n))|
  {
    q := p + 1 + |DecInt(n)|;
    ReadsConcat(text, p, [I] + DecInt(n), [E]);
    ReadsTail(text, p, I, DecInt(n));
    ReadsByte(text, q, E);
  }

  // What is still to be read of a container, its closing byte included.
  ghost function ItemsFrom(items: seq<Value>, k: nat): (text: seq<byte>)
    requires k <= |items|
    ensures |text| > 0
  {
    ItemsText(items[k..]) + [E]
  }

  ghost function EntriesFrom(entries: seq<Entry>, k: nat): (text: seq<byte>)
    requires k <= |entries|
    ensures |text| > 0
  {
    EntriesText(entries[k..]) + [E]
  }

  /** The read position q stands before item k of a list that ends at end. */
  ghost predicate ItemsAt(text: seq<byte>, q: nat, items: seq<Value>, k: nat, end: nat) {
    && k <= |items| && q < |text| && (text[q] == E <==> k == |items|)
    && Reads(text, q, ItemsFrom(items, k)) && q + |ItemsFrom(items, k)| == end
  }

  ghost predicate EntriesAt(text: seq<byte>, q: nat, entries: seq<Entry>, k: nat, end: nat) {
    && k <= |entries| && q < |text| && (text[q] == E <==> k == |entries|)
    && Reads(text, q, EntriesFrom(entries, k)) && q + |EntriesFrom(entries, k)| == end
  }

  lemma ItemsHere(text: seq<byte>, q: nat, items: seq<Value>, k: nat)
    requires k <= |items| && Reads(text, q, ItemsFrom(items, k))
    ensures ItemsAt(text, q, items, k, q + |ItemsFrom(items, k)|)
  {
    ReadsFirst(text, q, ItemsFrom(items, k));
    if k < |items| {
      FirstByte(items[k]);
    }
  }

  lemma EntriesHere(text: seq<byte>, q: nat, entries: seq<Entry>, k: nat)
    requires k <= |entries| && Reads(text, q, EntriesFrom(entries, k))
    ensures EntriesAt(text, q, entries, k, q + |EntriesFrom(entries, k)|)
  {
    ReadsFirst(text, q, EntriesFrom(entries, k));
    if k < |entries| {
      FirstByte(Str(entries[k].key));
    }
  }

  lemma ListStart(text: seq<byte>, p: nat, items: seq<Value>)
    requires Reads(text, p, Text(List(items)))
    ensures p < |text| && text[p] == L
    ensures ItemsAt(text, p + 1, items, 0, p + |Text(List(items))|)
  {
    assert items[0..] == items;
    assert Text(List(items)) == [L] + ItemsFrom(items, 0);
    ReadsConcat(text, p, [L], ItemsFrom(items, 0));
    ReadsByte(text, p, L);
    ItemsHere(text, p + 1, items, 0);
  }

  lemma DictStart(text: seq<byte>, p: nat, entries: seq<Entry>)
    requires Reads(text, p, Text(Dict(entries)))
    ensures p < |text| && text[p] == D
    ensures EntriesAt(text, p + 1, entries, 0, p + |Text(Dict(entries))|)
  {
    assert entries[0..] == entries;
    assert Text(Dict(entries)) == [D] + EntriesFrom(entries, 0);
    ReadsConcat(text, p, [D], EntriesFrom(entries, 0));
    ReadsByte(text, p, D);
    EntriesHere(text, p + 1, entries, 0);
  }

  lemma ItemsNext(text: seq<byte>, q: nat, items: seq<Value>, k: nat, end: nat)
    requires ItemsAt(text, q, items, k, end) && k < |items|
    ensures Reads(text, q, Text(items[k]))
    ensures ItemsAt(text, q + |Text(items[k])|, items, k + 1, end)
  {
    assert items[k..][1..] == items[k + 1..];
    ConcatAssoc(Text(items[k]), ItemsText(items[k + 1..]), [E]);
    ReadsConcat(text, q, Text(items[k]), ItemsFrom(items, k + 1));
    ItemsHere(text, q + |Text(items[k])|, items, k + 1);
  }

  lemma EntriesFromNext(entries: seq<Entry>, k: nat)
    requires k < |entries|
    ensures EntriesFrom(entries, k)
         == StrText(entries[k].key) + (Text(entries[k].value) + EntriesFrom(entries, k + 1))
  {
    var key, value, rest := StrText(entries[k].key), Text(entries[k].value), EntriesText(entries[k + 1..]);
    assert entries[k..][1..] == entries[k + 1..];
    ConcatAssoc(key + value, rest, [E]);
    ConcatAssoc(key, value, rest + [E]);
  }

  // The key and the value of the next entry, and where the one after it begins.
  lemma EntriesNext(text: seq<byte>, q: nat, entries: seq<Entry>, k: nat, end: nat) returns (mid: nat, next: nat)
    requires EntriesAt(text, q, entries, k, end) && k < |entries|
    ensures mid == q + |Text(Str(entries[k].key))| && next == mid + |Text(entries[k].value)|
    ensures Reads(text, q, Text(Str(entries[k].key))) && Reads(text, mid, Text(entries[k].value))
    ensures EntriesAt(text, next, entries, k + 1, end)
  {
    var key, value, rest := Text(Str(entries[k].key)), Text(entries[k].value), EntriesFrom(entries, k + 1);
    mid, next := q + |key|, q + |key| + |value|;
    EntriesFromNext(entries, k);
    ReadsConcat(text, q, key, value + rest);
    ReadsConcat(text, mid, value, rest);
    EntriesHere(text, next, entries, k + 1);
  }

  lemma ItemsEnd(text: seq<byte>, q: nat, items: seq<Value>, end: nat)
    requires ItemsAt(text, q, items, |items|, end)
    ensures q + 1 == end
  {}

  lemma EntriesEnd(text: seq<byte>, q: nat, entries: seq<Entry>, end: nat)
    requires EntriesAt(text, q, entries, |entries|, end)
    ensures q + 1 == end
  {}
}
