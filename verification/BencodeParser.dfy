/** src/bencode_parser.cpp: the two parsers, over memory and over a stream. */
module BencodeParser {
  import opened Bytes
  import opened BencodeText
  import opened BencodeOrder
  import opened BencodeRead
  import opened BencodeDict

  // A number outside the type it is read into becomes the nearest bound.
  function Clamp(low: int, high: int, n: int): (r: int)
    requires low <= high
    ensures low <= r <= high
    ensures low <= n <= high ==> r == n
  {
    if n < low then low else if n > high then high else n
  }

  const LONG_MIN: int := -0x8000_0000_0000_0000
  const LONG_MAX: int := 0x7FFF_FFFF_FFFF_FFFF

  // The conversions between long, size_t and long long.
  function ToSize(n: int): (r: nat)
    ensures 0 <= n < TWO64 ==> r == n
  {
    n % TWO64
  }

  function ToLongLong(n: nat): int { if n % TWO64 < TWO63 then n % TWO64 else n % TWO64 - TWO64 }

  lemma LongThroughSize(n: int)
    requires LONG_MIN <= n <= LONG_MAX
    ensures ToLongLong(ToSize(n)) == n
  {}

  const PLUS: byte := 0x2B

  // isspace
  predicate IsSpace(b: byte) { b == 0x20 || 0x09 <= b <= 0x0D }

  // Where the white space at p ends.
  function AfterSpace(text: seq<byte>, p: nat): (q: nat)
    requires p <= |text|
    ensures p <= q <= |text|
    decreases |text| - p
  {
    if p < |text| && IsSpace(text[p]) then AfterSpace(text, p + 1) else p
  }

  // A plus sign counts only when a digit follows.
  function AfterPlus(text: seq<byte>, p: nat): (q: nat)
    requires p <= |text|
    ensures p <= q <= |text|
  {
    if p + 1 < |text| && text[p] == PLUS && IsDigit(text[p + 1]) then p + 1 else p
  }

  /** strtol in base 10: the number behind white space and a sign; where there is
      none the end is the start. */
  method StrToL(text: seq<byte>, p: nat) returns (value: int, end: nat)
    requires p <= |text|
    ensures var s := AfterPlus(text, AfterSpace(text, p));
            if NumberBegins(text, s)
            then exists n :: NumberAt(text, s, n, end) && value == Clamp(LONG_MIN, LONG_MAX, n)
            else value == 0 && end == p
  {
    var s := p;
    while s < |text| && IsSpace(text[s])
      invariant p <= s <= |text| && AfterSpace(text, s) == AfterSpace(text, p)
    {
      s := s + 1;
    }
    if s + 1 < |text| && text[s] == PLUS && IsDigit(text[s + 1]) {
      s := s + 1;
    }
    value, end := SignedNumber(text, s);
    if end == s {
      end := p;
    }
  }

  // The number at p, with a minus sign perhaps.
  method SignedNumber(text: seq<byte>, p: nat) returns (value: int, end: nat)
    requires p <= |text|
    ensures if NumberBegins(text, p)
            then end > p && exists n :: NumberAt(text, p, n, end) && value == Clamp(LONG_MIN, LONG_MAX, n)
            else value == 0 && end == p
  {
    var negative := p < |text| && text[p] == MINUS;
    end := if negative then p + 1 else p;
    ghost var s := end;
    var n := 0;
    while end < |text| && IsDigit(text[end])
      invariant s <= end <= |text| && n == DigitsVal(text, s, end)
      invariant forall i | s <= i < end :: IsDigit(text[i])
      invariant end == s || IsDigit(text[s])
    {
      n := 10 * n + DigitVal(text[end]);
      end := end + 1;
    }
    var signed: int := if negative then -n else n;
    assert NumberAt(text, p, signed, end);
    value := Clamp(LONG_MIN, LONG_MAX, signed);
    if end == (if negative then p + 1 else p) {
      end := p;
    }
  }

  // A digit stands at p, or behind a minus sign at p.
  predicate NumberBegins(text: seq<byte>, p: nat) {
    && p < |text|
    && (IsDigit(text[p]) || (text[p] == MINUS && p + 1 < |text| && IsDigit(text[p + 1])))
  }

  /** The parser over memory: text is what the pointer points into. */
  class PointerParser {
    const text: seq<byte>
    // *end_p, as an index.
    var endP: nat

    constructor (text: seq<byte>)
      ensures this.text == text
    {
      this.text := text;
      endP := 0;
    }

    method ParseString(p: nat, ghost s: seq<byte>) returns (value: Value)
      requires Reads(text, p, StrText(s)) && |s| < TWO63
      modifies this
      ensures value == Str(s) && endP == p + |StrText(s)|
    {
      ghost var q := StrParts(text, p, s);
      var long, end := StrToL(text, p);
      ghost var n :| NumberAt(text, p, n, end) && long == Clamp(LONG_MIN, LONG_MAX, n);
      NumberIs(text, p, |s|, q, n, end);
      var length := ToSize(long);
      endP := end + 1;
      value := Str(text[endP..endP + length]);
      endP := endP + length;
    }

    method ParseInt(p: nat, ghost n: int) returns (value: Value)
      requires Reads(text, p, Text(Int(n))) && InRange(Int(n))
      modifies this
      ensures value == Int(n) && endP == p + |Text(Int(n))|
    {
      ghost var q := IntParts(text, p, n);
      var long, end := StrToL(text, p + 1);
      ghost var m :| NumberAt(text, p + 1, m, end) && long == Clamp(LONG_MIN, LONG_MAX, m);
      NumberIs(text, p + 1, n, q, m, end);
      var number := ToSize(long);
      LongThroughSize(n);
      endP := end + 1;
      value := Int(ToLongLong(number));
    }

    // The parse call in the loop of the list case.
    method ParseItem(ghost items: seq<Value>, ghost k: nat, ghost end: nat) returns (value: Value)
      requires ItemsAt(text, endP, items, k, end) && k < |items|
      requires InRange(items[k])
      modifies this
      ensures endP > old(endP)
      ensures value == Norm(items[k]) && ItemsAt(text, endP, items, k + 1, end)
      decreases |text| - endP, 2
    {
      ItemsNext(text, endP, items, k, end);
      value := Parse(endP, items[k]);
    }

    method ParseList(p: nat, ghost items: seq<Value>) returns (value: Value)
      requires Reads(text, p, Text(List(items))) && InRange(List(items))
      modifies this
      ensures value == Norm(List(items)) && endP == p + |Text(List(items))|
      decreases |text| - p, 0
    {
      endP := p + 1;
      var bl := new BencodeList();
      ghost var k, end := 0, p + |Text(List(items))|;
      ListStart(text, p, items);
      while text[endP] != E
        invariant p < endP && ItemsAt(text, endP, items, k, end) && bl.items == ItemsBuilt(items, k)
        decreases |text| - endP
      {
        ItemsBuiltNext(items, k);
        var item := ParseItem(items, k, end);
        bl.InsertToList(item);
        k := k + 1;
      }
      ItemsEnd(text, endP, items, end);
      AllBuilt(List(items));
      endP := endP + 1;
      value := List(bl.items);
    }

    // The two parse calls in the loop of the dictionary case.
    method ParseEntry(ghost entries: seq<Entry>, ghost k: nat, ghost end: nat)
      returns (key: seq<byte>, value: Value)
      requires EntriesAt(text, endP, entries, k, end) && k < |entries|
      requires InRange(Str(entries[k].key)) && InRange(entries[k].value)
      modifies this
      ensures endP > old(endP)
      ensures key == entries[k].key && value == Norm(entries[k].value)
      ensures EntriesAt(text, endP, entries, k + 1, end)
      decreases |text| - endP, 2
    {
      ghost var mid, next := EntriesNext(text, endP, entries, k, end);
      var str := Parse(endP, Str(entries[k].key));
      key := str.bytes;
      value := Parse(endP, entries[k].value);
      assert endP == next;
    }

    method ParseDict(p: nat, ghost entries: seq<Entry>) returns (value: Value)
      requires Reads(text, p, Text(Dict(entries))) && InRange(Dict(entries))
      modifies this
      ensures value == Norm(Dict(entries)) && endP == p + |Text(Dict(entries))|
      decreases |text| - p, 0
    {
      endP := p + 1;
      var bd := new BencodeDict();
      ghost var k, end := 0, p + |Text(Dict(entries))|;
      DictStart(text, p, entries);
      while text[endP] != E
        invariant p < endP && EntriesAt(text, endP, entries, k, end)
        invariant bd.Valid() && bd.entries == EntriesBuilt(entries, k)
        decreases |text| - endP
      {
        EntriesBuiltNext(entries, k);
        var key, item := ParseEntry(entries, k, end);
        bd.InsertToDict(key, item);
        k := k + 1;
      }
      EntriesEnd(text, endP, entries, end);
      AllBuilt(Dict(entries));
      endP := endP + 1;
      value := Dict(bd.entries);
    }

    /** parse(p, end_p): reads the value whose text stands at p, keeps its
        dictionaries in key order, and leaves *end_p just behind the text. */
    method Parse(p: nat, ghost v: Value) returns (value: Value)
      requires Reads(text, p, Text(v)) && InRange(v)
      modifies this
      ensures value == Norm(v) && endP == p + |Text(v)|
      decreases |text| - p, 1
    {
      ReadsFirst(text, p, Text(v));
      FirstByte(v);
      var ch := text[p];
      if IsDigit(ch) {
        value := ParseString(p, v.bytes);
      } else if ch == I {
        value := ParseInt(p, v.n);
      } else if ch == L {
        value := ParseList(p, v.items);
      } else {
        value := ParseDict(p, v.entries);
      }
    }
  }

  /** The input file stream, without its error flags. */
  class Stream {
    const data: seq<byte>
    var pos: nat

    ghost predicate Valid()
      reads this
    {
      pos <= |data|
    }

    constructor (data: seq<byte>)
      ensures Valid() && this.data == data && pos == 0
    {
      this.data := data;
      pos := 0;
    }

    // At the end of the file the result is EOF, which is 0xFF as a char.
    method Get() returns (ch: byte)
      requires Valid()
      modifies this
      ensures Valid() && old(pos) < |data| ==> ch == data[old(pos)] && pos == old(pos) + 1
      ensures Valid() && old(pos) == |data| ==> ch == 0xFF && pos == old(pos)
      ensures Valid()
    {
      if pos < |data| {
        ch := data[pos];
        pos := pos + 1;
      } else {
        ch := 0xFF;
      }
    }

    method Peek() returns (ch: Option<byte>)
      requires Valid()
      ensures ch == if pos < |data| then Some(data[pos]) else None
    {
      ch := if pos < |data| then Some(data[pos]) else None;
    }

    method Putback(ch: byte)
      requires Valid() && pos > 0 && data[pos - 1] == ch
      modifies this
      ensures Valid() && pos == old(pos) - 1
    {
      pos := pos - 1;
    }

    /** operator>> into an integer of the given range, without white space or a
        plus sign. */
    method Extract(low: int, high: int) returns (value: int)
      requires Valid() && low <= high
      modifies this
      ensures Valid()
      ensures exists n :: NumberAt(data, old(pos), n, pos) && value == Clamp(low, high, n)
    {
      var negative := false;
      var ch := Peek();
      if ch == Some(MINUS) {
        negative := true;
        var _ := Get();
      }
      ghost var s := pos;
      var n := 0;
      ch := Peek();
      while ch.Some? && IsDigit(ch.value)
        invariant s <= pos <= |data| && n == DigitsVal(data, s, pos)
        invariant forall i | s <= i < pos :: IsDigit(data[i])
        invariant ch == if pos < |data| then Some(data[pos]) else None
        decreases |data| - pos
      {
        n := 10 * n + DigitVal(ch.value);
        var _ := Get();
        ch := Peek();
      }
      var signed: int := if negative then -n else n;
      assert NumberAt(data, old(pos), signed, pos);
      value := Clamp(low, high, signed);
    }

    // ifs.read into a vector of zeros.
    method Read(length: nat) returns (s: seq<byte>)
      requires Valid()
      modifies this
      ensures Valid() && |s| == length
      ensures old(pos) + length <= |data| ==> pos == old(pos) + length && s == data[old(pos)..pos]
      ensures old(pos) + length > |data| ==> pos == |data| && data[old(pos)..] <= s
    {
      var count := if pos + length <= |data| then length else |data| - pos;
      s := data[pos..pos + count] + seq(length - count, _ => 0);
      pos := pos + count;
    }
  }

  /** The parser over a file. */
  class StreamParser {
    const ifs: Stream

    constructor (ifs: Stream)
      ensures this.ifs == ifs
    {
      this.ifs := ifs;
    }

    method ParseString(ghost s: seq<byte>) returns (value: Value)
      requires ifs.Valid() && Reads(ifs.data, ifs.pos, StrText(s)) && |s| < TWO63
      modifies ifs
      ensures ifs.Valid() && value == Str(s) && ifs.pos == old(ifs.pos) + |StrText(s)|
    {
      ghost var p := ifs.pos;
      ghost var q := StrParts(ifs.data, p, s);
      var length := ifs.Extract(0, TWO64 - 1);
      ghost var n :| NumberAt(ifs.data, p, n, ifs.pos) && length == Clamp(0, TWO64 - 1, n);
      NumberIs(ifs.data, p, |s|, q, n, ifs.pos);
      var _ := ifs.Get();
      var bytes := ifs.Read(length);
      value := Str(bytes);
    }

    // The 'i' has been read already.
    method ParseInt(ghost n: int) returns (value: Value)
      requires ifs.Valid() && ifs.pos > 0 && Reads(ifs.data, ifs.pos - 1, Text(Int(n))) && InRange(Int(n))
      modifies ifs
      ensures ifs.Valid() && value == Int(n) && ifs.pos == old(ifs.pos) - 1 + |Text(Int(n))|
    {
      ghost var p := ifs.pos;
      ghost var q := IntParts(ifs.data, p - 1, n);
      var number := ifs.Extract(LONG_MIN, LONG_MAX);
      ghost var m :| NumberAt(ifs.data, p, m, ifs.pos) && number == Clamp(LONG_MIN, LONG_MAX, m);
      NumberIs(ifs.data, p, n, q, m, ifs.pos);
      var _ := ifs.Get();
      value := Int(number);
    }

    // The parse call in the loop of the list case.
    method ParseItem(ghost items: seq<Value>, ghost k: nat, ghost end: nat) returns (value: Value)
      requires ifs.Valid() && ItemsAt(ifs.data, ifs.pos, items, k, end) && k < |items|
      requires InRange(items[k])
      modifies ifs
      ensures ifs.Valid() && ifs.pos > old(ifs.pos)
      ensures value == Norm(items[k]) && ItemsAt(ifs.data, ifs.pos, items, k + 1, end)
      decreases |ifs.data| - ifs.pos, 2
    {
      ItemsNext(ifs.data, ifs.pos, items, k, end);
      value := Parse(items[k]);
    }

    method ParseList(ghost items: seq<Value>) returns (value: Value)
      requires ifs.Valid() && ifs.pos > 0
      requires Reads(ifs.data, ifs.pos - 1, Text(List(items))) && InRange(List(items))
      modifies ifs
      ensures ifs.Valid() && value == Norm(List(items)) && ifs.pos == old(ifs.pos) - 1 + |Text(List(items))|
      decreases |ifs.data| - ifs.pos, 3
    {
      var bl := new BencodeList();
      ghost var k, end := 0, ifs.pos - 1 + |Text(List(items))|;
      ListStart(ifs.data, ifs.pos - 1, items);
      var next := ifs.Peek();
      while next != Some(E)
        invariant old(ifs.pos) <= ifs.pos && ItemsAt(ifs.data, ifs.pos, items, k, end)
        invariant next == Some(ifs.data[ifs.pos]) && bl.items == ItemsBuilt(items, k)
        decreases |ifs.data| - ifs.pos
      {
        ItemsBuiltNext(items, k);
        var item := ParseItem(items, k, end);
        bl.InsertToList(item);
        k := k + 1;
        next := ifs.Peek();
      }
      ItemsEnd(ifs.data, ifs.pos, items, end);
      AllBuilt(List(items));
      var _ := ifs.Get();
      value := List(bl.items);
    }

    // The two parse calls in the loop of the dictionary case.
    method ParseEntry(ghost entries: seq<Entry>, ghost k: nat, ghost end: nat)
      returns (key: seq<byte>, value: Value)
      requires ifs.Valid() && EntriesAt(ifs.data, ifs.pos, entries, k, end) && k < |entries|
      requires InRange(Str(entries[k].key)) && InRange(entries[k].value)
      modifies ifs
      ensures ifs.Valid() && ifs.pos > old(ifs.pos)
      ensures key == entries[k].key && value == Norm(entries[k].value)
      ensures EntriesAt(ifs.data, ifs.pos, entries, k + 1, end)
      decreases |ifs.data| - ifs.pos, 2
    {
      ghost var mid, next := EntriesNext(ifs.data, ifs.pos, entries, k, end);
      var text := Parse(Str(entries[k].key));
      key := text.bytes;
      value := Parse(entries[k].value);
      assert ifs.pos == next;
    }

    method ParseDict(ghost entries: seq<Entry>) returns (value: Value)
      requires ifs.Valid() && ifs.pos > 0
      requires Reads(ifs.data, ifs.pos - 1, Text(Dict(entries))) && InRange(Dict(entries))
      modifies ifs
      ensures ifs.Valid() && value == Norm(Dict(entries)) && ifs.pos == old(ifs.pos) - 1 + |Text(Dict(entries))|
      decreases |ifs.data| - ifs.pos, 3
    {
      var bd := new BencodeDict();
      ghost var k, end := 0, ifs.pos - 1 + |Text(Dict(entries))|;
      DictStart(ifs.data, ifs.pos - 1, entries);
      var next := ifs.Peek();
      while next != Some(E)
        invariant old(ifs.pos) <= ifs.pos && EntriesAt(ifs.data, ifs.pos, entries, k, end)
        invariant next == Some(ifs.data[ifs.pos])
        invariant bd.Valid() && bd.entries == EntriesBuilt(entries, k)
        decreases |ifs.data| - ifs.pos
      {
        EntriesBuiltNext(entries, k);
        var key, item := ParseEntry(entries, k, end);
        bd.InsertToDict(key, item);
        k := k + 1;
        next := ifs.Peek();
      }
      EntriesEnd(ifs.data, ifs.pos, entries, end);
      AllBuilt(Dict(entries));
      var _ := ifs.Get();
      value := Dict(bd.entries);
    }

    /** parse(ifs): the same value as the parser over memory, and the same
        number of bytes taken from the stream. */
    method Parse(ghost v: Value) returns (value: Value)
      requires ifs.Valid() && Reads(ifs.data, ifs.pos, Text(v)) && InRange(v)
      modifies ifs
      ensures ifs.Valid() && value == Norm(v) && ifs.pos == old(ifs.pos) + |Text(v)|
      decreases |ifs.data| - ifs.pos, 1
    {
      ReadsFirst(ifs.data, ifs.pos, Text(v));
      FirstByte(v);
      var ch := ifs.Get();
      if IsDigit(ch) {
        ifs.Putback(ch);
        value := ParseString(v.bytes);
      } else if ch == I {
        value := ParseInt(v.n);
      } else if ch == L {
        value := ParseList(v.items);
      } else {
        value := ParseDict(v.entries);
      }
    }
  }
  // The text is that of some value, with nothing behind it that matters.
  ghost predicate WellFormed(text: seq<byte>) {
    exists v :: InRange(v) && Reads(text, 0, Text(v))
  }

  lemma OneReading(text: seq<byte>, v: Value, w: Value)
    requires Reads(text, 0, Text(v)) && Reads(text, 0, Text(w))
    ensures v == w
  {
    ReadsRest(text, Text(v));
    ReadsRest(text, Text(w));
    PrefixFree(v, text[|Text(v)|..], w, text[|Text(w)|..]);
  }

  lemma ReadsRest(text: seq<byte>, a: seq<byte>)
    requires Reads(text, 0, a)
    ensures |a| <= |text| && text == a + text[|a|..]
  {}

  /** The two constructors of bencode_parser. */
  method ParseMemory(text: seq<byte>) returns (value: Value)
    requires WellFormed(text)
    ensures forall v | Reads(text, 0, Text(v)) :: value == Norm(v)
  {
    ghost var v :| InRange(v) && Reads(text, 0, Text(v));
    var parser := new PointerParser(text);
    value := parser.Parse(0, v);
    forall w | Reads(text, 0, Text(w))
      ensures w == v
    {
      OneReading(text, v, w);
    }
  }

  method ParseFile(data: seq<byte>) returns (value: Value)
    requires WellFormed(data)
    ensures forall v | Reads(data, 0, Text(v)) :: value == Norm(v)
  {
    ghost var v :| InRange(v) && Reads(data, 0, Text(v));
    var ifs := new Stream(data);
    var parser := new StreamParser(ifs);
    value := parser.Parse(v);
    forall w | Reads(data, 0, Text(w))
      ensures w == v
    {
      OneReading(data, v, w);
    }
  }
}
