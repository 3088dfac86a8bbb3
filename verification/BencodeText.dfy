/** Bencoded values and their text: the 'bencoding' section of BEP 3. */
module BencodeText {
  import opened Bytes

  // Entries are in the order in which they are written.
  datatype Value = Str(bytes: seq<byte>) | Int(n: int) | List(items: seq<Value>) | Dict(entries: seq<Entry>)

  datatype Entry = Entry(key: seq<byte>, value: Value)

  const COLON: byte := 0x3A
  const MINUS: byte := 0x2D
  const I: byte := 0x69
  const L: byte := 0x6C
  const D: byte := 0x64
  const E: byte := 0x65

  predicate IsDigit(b: byte) { 0x30 <= b <= 0x39 }

  function Digit(d: nat): (b: byte)
    requires d < 10
    ensures IsDigit(b)
  {
    match d
    case 0 => 0x30 case 1 => 0x31 case 2 => 0x32 case 3 => 0x33 case 4 => 0x34
    case 5 => 0x35 case 6 => 0x36 case 7 => 0x37 case 8 => 0x38 case _ => 0x39
  }

  function DigitVal(b: byte): (d: nat)
    ensures d < 10
  {
    if b == 0x30 then 0 else if b == 0x31 then 1 else if b == 0x32 then 2 else if b == 0x33 then 3
    else if b == 0x34 then 4 else if b == 0x35 then 5 else if b == 0x36 then 6 else if b == 0x37 then 7
    else if b == 0x38 then 8 else 9
  }

  lemma DigitValOf(d: nat)
    requires d < 10
    ensures DigitVal(Digit(d)) == d
  {}

  predicate AllDigits(s: seq<byte>) {
    forall i | 0 <= i < |s| :: IsDigit(s[i])
  }

  /** The canonical decimal numeral. */
  function Dec(n: nat): (s: seq<byte>)
    ensures |s| > 0 && AllDigits(s)
  {
    (if n < 10 then [] else Dec(n / 10)) + [Digit(n % 10)]
  }

  function DecInt(n: int): (s: seq<byte>)
    ensures |s| > 0
  {
    if n < 0 then [MINUS] + Dec(-n) else Dec(n)
  }

  // The number that the bytes from..to of s spell.
  function DigitsVal(s: seq<byte>, from: nat, to: nat): nat
    requires to <= |s|
  {
    if to <= from then 0 else DigitsVal(s, from, to - 1) * 10 + DigitVal(s[to - 1])
  }

  lemma {:induction false} DigitsMoved(s: seq<byte>, p: nat, digits: seq<byte>, k: nat)
    requires k <= |digits| && p + |digits| <= |s|
    requires forall i | 0 <= i < |digits| :: s[p + i] == digits[i]
    ensures DigitsVal(s, p, p + k) == DigitsVal(digits, 0, k)
  {
    if k > 0 {
      DigitsMoved(s, p, digits, k - 1);
      assert s[p + (k - 1)] == digits[k - 1];
    }
  }

  lemma {:induction false} DecRoundTrip(n: nat)
    ensures DigitsVal(Dec(n), 0, |Dec(n)|) == n
  {
    var s := Dec(n);
    DigitValOf(n % 10);
    if n >= 10 {
      DecRoundTrip(n / 10);
      DigitsMoved(s, 0, Dec(n / 10), |s| - 1);
    }
  }

  function StrText(s: seq<byte>): (text: seq<byte>)
    ensures |text| > |s|
  {
    Dec(|s|) + [COLON] + s
  }

  function Text(v: Value): (text: seq<byte>)
    ensures |text| > 0
  {
    match v
    case Str(s) => StrText(s)
    case Int(n) => [I] + DecInt(n) + [E]
    case List(items) => [L] + ItemsText(items) + [E]
    case Dict(entries) => [D] + EntriesText(entries) + [E]
  }

  function ItemsText(items: seq<Value>): seq<byte> {
    if |items| == 0 then [] else Text(items[0]) + ItemsText(items[1..])
  }

  function EntriesText(entries: seq<Entry>): seq<byte> {
    if |entries| == 0 then []
    else StrText(entries[0].key) + Text(entries[0].value) + EntriesText(entries[1..])
  }

  // The first byte tells the kinds of value apart.
  lemma FirstByte(v: Value)
    ensures Text(v)[0] != E
    ensures v.Str? <==> IsDigit(Text(v)[0])
    ensures v.Int? <==> Text(v)[0] == I
    ensures v.List? <==> Text(v)[0] == L
    ensures v.Dict? <==> Text(v)[0] == D
  {}

  // Two strings of digits, each ended by a byte that is not one, can only
  // begin the same text when they are equal.
  lemma DigitsEnd(a: seq<byte>, x: seq<byte>, b: seq<byte>, y: seq<byte>)
    requires AllDigits(a) && AllDigits(b)
    requires |x| > 0 && !IsDigit(x[0]) && |y| > 0 && !IsDigit(y[0])
    requires a + x == b + y
    ensures a == b && x == y
  {
    assert (a + x)[|a|] == x[0] && (b + y)[|b|] == y[0];
    assert |a| == |b|;
    SplitEqual(a, x, b, y);
  }

  lemma SplitEqual<T>(a: seq<T>, x: seq<T>, b: seq<T>, y: seq<T>)
    requires a + x == b + y && |a| == |b|
    ensures a == b && x == y
  {
    assert a == (a + x)[..|a|] && b == (b + y)[..|b|];
    assert x == (a + x)[|a|..] && y == (b + y)[|b|..];
  }

  lemma DecInjective(m: nat, n: nat)
    requires Dec(m) == Dec(n)
    ensures m == n
  {
    DecRoundTrip(m);
    DecRoundTrip(n);
  }

  lemma StrPrefixFree(s: seq<byte>, x: seq<byte>, t: seq<byte>, y: seq<byte>)
    requires StrText(s) + x == StrText(t) + y
    ensures s == t && x == y
  {
    StrTail(s, x);
    StrTail(t, y);
    var xs, ys := [COLON] + (s + x), [COLON] + (t + y);
    DigitsEnd(Dec(|s|), xs, Dec(|t|), ys);
    DecInjective(|s|, |t|);
    SplitEqual([COLON], s + x, [COLON], t + y);
    SplitEqual(s, x, t, y);
  }

  lemma StrTail(s: seq<byte>, x: seq<byte>)
    ensures StrText(s) + x == Dec(|s|) + ([COLON] + (s + x))
  {
    ConcatAssoc(Dec(|s|) + [COLON], s, x);
    ConcatAssoc(Dec(|s|), [COLON], s + x);
  }

  lemma SignByte(n: int)
    ensures DecInt(n)[0] == MINUS <==> n < 0
  {
    if n >= 0 {
      assert IsDigit(Dec(n)[0]);
    }
  }

  lemma IntPrefixFree(m: int, x: seq<byte>, n: int, y: seq<byte>)
    requires DecInt(m) + x == DecInt(n) + y
    requires |x| > 0 && !IsDigit(x[0]) && |y| > 0 && !IsDigit(y[0])
    ensures m == n && x == y
  {
    assert DecInt(m)[0] == (DecInt(m) + x)[0] == (DecInt(n) + y)[0] == DecInt(n)[0];
    SignByte(m);
    SignByte(n);
    if m < 0 {
      ConcatAssoc([MINUS], Dec(-m), x);
      ConcatAssoc([MINUS], Dec(-n), y);
      SplitEqual([MINUS], Dec(-m) + x, [MINUS], Dec(-n) + y);
      DigitsEnd(Dec(-m), x, Dec(-n), y);
      DecInjective(-m, -n);
    } else {
      DigitsEnd(Dec(m), x, Dec(n), y);
      DecInjective(m, n);
    }
  }

  // Nothing but the value itself begins with the text of a value.
  lemma {:induction false} PrefixFree(v: Value, x: seq<byte>, w: Value, y: seq<byte>)
    requires Text(v) + x == Text(w) + y
    ensures v == w && x == y
    decreases v
  {
    assert Text(v)[0] == (Text(v) + x)[0] == Text(w)[0];
    FirstByte(v);
    FirstByte(w);
    match v
    case Str(s) =>
      StrPrefixFree(s, x, w.bytes, y);
    case Int(n) =>
      Unwrap(I, DecInt(n), x, DecInt(w.n), y);
      IntPrefixFree(n, [E] + x, w.n, [E] + y);
      SplitEqual([E], x, [E], y);
    case List(items) =>
      Unwrap(L, ItemsText(items), x, ItemsText(w.items), y);
      ItemsPrefixFree(items, x, w.items, y);
    case Dict(entries) =>
      Unwrap(D, EntriesText(entries), x, EntriesText(w.entries), y);
      EntriesPrefixFree(entries, x, w.entries, y);
  }

  lemma Unwrap(open: byte, a: seq<byte>, x: seq<byte>, b: seq<byte>, y: seq<byte>)
    requires [open] + a + [E] + x == [open] + b + [E] + y
    ensures a + ([E] + x) == b + ([E] + y)
  {
    assert [open] + (a + ([E] + x)) == [open] + a + [E] + x;
    assert [open] + (b + ([E] + y)) == [open] + b + [E] + y;
    SplitEqual([open], a + ([E] + x), [open], b + ([E] + y));
  }

  lemma {:induction false} ItemsPrefixFree(a: seq<Value>, x: seq<byte>, b: seq<Value>, y: seq<byte>)
    requires ItemsText(a) + ([E] + x) == ItemsText(b) + ([E] + y)
    ensures a == b && x == y
    decreases a
  {
    ItemsHead(a, x);
    ItemsHead(b, y);
    if |a| == 0 || |b| == 0 {
      SplitEqual([E], x, [E], y);
    } else {
      PrefixFree(a[0], ItemsText(a[1..]) + ([E] + x), b[0], ItemsText(b[1..]) + ([E] + y));
      ItemsPrefixFree(a[1..], x, b[1..], y);
      assert a == [a[0]] + a[1..] && b == [b[0]] + b[1..];
    }
  }

  lemma ItemsHead(a: seq<Value>, x: seq<byte>)
    ensures |a| == 0 ==> ItemsText(a) + ([E] + x) == [E] + x
    ensures |a| > 0 ==> ItemsText(a) + ([E] + x) == Text(a[0]) + (ItemsText(a[1..]) + ([E] + x))
    ensures (ItemsText(a) + ([E] + x))[0] == E <==> |a| == 0
  {
    if |a| > 0 {
      FirstByte(a[0]);
      ConcatAssoc(Text(a[0]), ItemsText(a[1..]), [E] + x);
    }
  }

  lemma {:induction false} EntriesPrefixFree(a: seq<Entry>, x: seq<byte>, b: seq<Entry>, y: seq<byte>)
    requires EntriesText(a) + ([E] + x) == EntriesText(b) + ([E] + y)
    ensures a == b && x == y
    decreases a
  {
    EntriesHead(a, x);
    EntriesHead(b, y);
    if |a| == 0 || |b| == 0 {
      SplitEqual([E], x, [E], y);
    } else {
      var ra, rb := EntriesText(a[1..]) + ([E] + x), EntriesText(b[1..]) + ([E] + y);
      StrPrefixFree(a[0].key, Text(a[0].value) + ra, b[0].key, Text(b[0].value) + rb);
      PrefixFree(a[0].value, ra, b[0].value, rb);
      EntriesPrefixFree(a[1..], x, b[1..], y);
      assert a == [a[0]] + a[1..] && b == [b[0]] + b[1..];
    }
  }

  lemma EntriesHead(a: seq<Entry>, x: seq<byte>)
    ensures |a| == 0 ==> EntriesText(a) + ([E] + x) == [E] + x
    ensures |a| > 0 ==> (EntriesText(a) + ([E] + x) ==
                         StrText(a[0].key) + (Text(a[0].value) + (EntriesText(a[1..]) + ([E] + x))))
    ensures (EntriesText(a) + ([E] + x))[0] == E <==> |a| == 0
  {
    if |a| > 0 {
      FirstByte(Str(a[0].key));
      var k, v, r := StrText(a[0].key), Text(a[0].value), EntriesText(a[1..]);
      assert EntriesText(a) == k + v + r;
      ConcatAssoc(k, v, r + ([E] + x));
      ConcatAssoc(k + v, r, [E] + x);
    }
  }
}
