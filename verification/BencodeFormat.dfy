/** Bencoding in bytes (BEP 3): the letters and digits of a text, the order of
    keys, and a metainfo file's info dictionary from end to end. */
module BencodeFormat {
  import opened Bytes
  import opened BencodeText
  import opened BencodeOrder
  import opened BencodeEncoder
  import opened BencodeParser
  import opened InfoHash

  // The keys agree up to byte k, where a ends or has the lower byte.
  predicate DifferAt(a: seq<byte>, b: seq<byte>, k: nat) {
    k <= |a| && k < |b| && a[..k] == b[..k] && (k == |a| || a[k] < b[k])
  }

  lemma DifferLater(a: seq<byte>, b: seq<byte>, k: nat)
    ensures |a| > 0 && |b| > 0 && a[0] == b[0] ==> (DifferAt(a[1..], b[1..], k) <==> DifferAt(a, b, k + 1))
    ensures DifferAt(a, b, k) && k > 0 ==> a[0] == b[0]
    ensures DifferAt(a, b, 0) <==> |b| > 0 && (|a| == 0 || a[0] < b[0])
  {
    if |a| > 0 && |b| > 0 && a[0] == b[0] && k < |a| && k < |b| {
      var s, t := a[1..], b[1..];
      assert a[..k + 1] == [a[0]] + s[..k] && b[..k + 1] == [b[0]] + t[..k];
      assert s[..k] == a[..k + 1][1..] && t[..k] == b[..k + 1][1..];
    }
    if DifferAt(a, b, k) && k > 0 {
      assert a[0] == a[..k][0] == b[..k][0];
    }
  }

  lemma {:induction false} LessAt(a: seq<byte>, b: seq<byte>) returns (k: nat)
    ensures Less(a, b) ==> DifferAt(a, b, k)
    ensures forall j: nat :: DifferAt(a, b, j) ==> Less(a, b)
  {
    k := 0;
    DifferLater(a, b, 0);
    if |a| > 0 && |b| > 0 && a[0] == b[0] {
      var later := LessAt(a[1..], b[1..]);
      DifferLater(a, b, later);
      k := later + 1;
    }
    forall j: nat
      ensures DifferAt(a, b, j) ==> Less(a, b)
    {
      DifferLater(a, b, j);
      if j > 0 {
        DifferLater(a, b, j - 1);
      }
    }
  }

  /** Keys are in the order of their bytes as numbers: at the first byte where
      they differ the lower one comes first, and a proper prefix comes first. */
  lemma LessIs(a: seq<byte>, b: seq<byte>)
    ensures Less(a, b) <==>
            exists k: nat :: k <= |a| && k < |b| && a[..k] == b[..k] && (k == |a| || a[k] < b[k])
  {
    var k := LessAt(a, b);
    assert forall j: nat :: DifferAt(a, b, j) <==>
             j <= |a| && j < |b| && a[..j] == b[..j] && (j == |a| || a[j] < b[j]);
  }

  /** The keys of a parsed dictionary are in that order, and equal keys in the
      order of the text. */
  lemma ParsedKeys(entries: seq<Entry>, i: nat, j: nat, k: nat)
    requires Norm(Dict(entries)).Dict? && i < j < |Norm(Dict(entries)).entries|
    ensures var a, b := Norm(Dict(entries)).entries[i].key, Norm(Dict(entries)).entries[j].key;
            !(k <= |b| && k < |a| && b[..k] == a[..k] && (k == |b| || b[k] < a[k]))
  {
    var es := NormEntries(entries);
    SortIsStable(es);
    var sorted := SortEntries(es);
    assert Ordered(sorted);
    LessIs(sorted[j].key, sorted[i].key);
  }

  lemma ParsedKeysKept(entries: seq<Entry>, key: seq<byte>)
    ensures Norm(Dict(entries)).Dict? && |Norm(Dict(entries)).entries| == |entries|
    ensures Select(Norm(Dict(entries)).entries, key) == Select(NormEntries(entries), key)
  {
    SortIsStable(NormEntries(entries));
  }

  /** The digits are those of ASCII. */
  lemma DigitIs(d: nat, b: byte)
    requires d < 10
    ensures Digit(d) as int == 48 + d
    ensures IsDigit(b) <==> 48 <= b as int <= 57
    ensures IsDigit(b) ==> DigitVal(b) == b as int - 48
  {}

  /** The white space and the plus sign that strtol skips. */
  lemma SkippedAre(text: seq<byte>, p: nat, b: byte)
    ensures IsSpace(b) <==> b in [0x09, 0x0A, 0x0B, 0x0C, 0x0D, 0x20]
    ensures p <= |text| ==>
              var q := AfterSpace(text, p);
              && (forall i | p <= i < q :: IsSpace(text[i])) && (q < |text| ==> !IsSpace(text[q]))
              && (AfterPlus(text, q) == q + 1 <==>
                    q + 1 < |text| && text[q] == 0x2B && 48 <= text[q + 1] as int <= 57)
  {
    if p <= |text| {
      SpaceEnds(text, p);
    }
  }

  lemma {:induction false} SpaceEnds(text: seq<byte>, p: nat)
    requires p <= |text|
    ensures var q := AfterSpace(text, p);
            (forall i | p <= i < q :: IsSpace(text[i])) && (q < |text| ==> !IsSpace(text[q]))
    decreases |text| - p
  {
    if p < |text| && IsSpace(text[p]) {
      SpaceEnds(text, p + 1);
    }
  }

  /** Which numbers strtol gives as they stand. */
  lemma LongIs(n: int)
    ensures Clamp(LONG_MIN, LONG_MAX, n) == n <==> -0x8000_0000_0000_0000 <= n < 0x8000_0000_0000_0000
    ensures Clamp(LONG_MIN, LONG_MAX, -0x8000_0000_0000_0001) == -0x8000_0000_0000_0000
    ensures Clamp(LONG_MIN, LONG_MAX, 0x8000_0000_0000_0000) == 0x7FFF_FFFF_FFFF_FFFF
  {}

  /** A numeral is its digits, the highest first, with a minus sign in front of a
      negative number. */
  lemma NumeralIs(n: nat, d: nat, m: int)
    requires d < 10
    ensures Dec(d) == [Digit(d)]
    ensures n > 0 ==> Dec(10 * n + d) == Dec(n) + [Digit(d)]
    ensures m < 0 ==> DecInt(m) == [0x2D] + Dec(-m)
    ensures m >= 0 ==> DecInt(m) == Dec(m)
  {}

  /** What the text of each kind of value is: "4:spam", "i3e", "l...e", "d...e". */
  lemma TextIs(v: Value)
    ensures match v
            case Str(s) => Text(v) == Dec(|s|) + [0x3A] + s
            case Int(n) => Text(v) == [0x69] + DecInt(n) + [0x65]
            case List(items) => Text(v) == [0x6C] + ItemsText(items) + [0x65]
            case Dict(entries) => Text(v) == [0x64] + EntriesText(entries) + [0x65]
  {}

  lemma ContentsAre(v: Value, items: seq<Value>, e: Entry, entries: seq<Entry>)
    ensures ItemsText([]) == [] && EntriesText([]) == []
    ensures ItemsText([v] + items) == Text(v) + ItemsText(items)
    ensures EntriesText([e] + entries) == Dec(|e.key|) + [0x3A] + e.key + Text(e.value) + EntriesText(entries)
  {
    assert ([v] + items)[1..] == items && ([e] + entries)[1..] == entries;
  }

  /** A key is printed up to its first NUL byte. */
  lemma {:induction false} CStrIs(s: seq<byte>)
    ensures CStr(s) <= s && 0 !in CStr(s)
    ensures |CStr(s)| < |s| ==> s[|CStr(s)|] == 0
  {
    if |s| > 0 && s[0] != 0 {
      CStrIs(s[1..]);
      assert s == [s[0]] + s[1..];
    }
  }

  lemma KeyIs(key: seq<byte>)
    ensures KeyEncoding(key) == Dec(|key|) + [0x3A] + CStr(key)
  {}

  // "length" and "name"
  const LENGTH: seq<byte> := [0x6C, 0x65, 0x6E, 0x67, 0x74, 0x68]
  const NAME: seq<byte> := [0x6E, 0x61, 0x6D, 0x65]

  // The info dictionary of a file "a" of five bytes.
  const FIVE: Value := Dict([Entry(LENGTH, Int(5)), Entry(NAME, Str([0x61]))])

  lemma FiveSorted()
    ensures IsSorted(FIVE) && NulFree(FIVE)
  {
    assert LENGTH[0] < NAME[0];
    assert Less(LENGTH, NAME) && !Less(NAME, LENGTH);
  }

  lemma OneDigit()
    ensures Dec(1) == [0x31] && Dec(4) == [0x34] && Dec(5) == [0x35] && Dec(6) == [0x36]
  {}

  lemma TwoEntries(a: Entry, b: Entry)
    ensures Text(Dict([a, b])) ==
            [0x64] + ((StrText(a.key) + Text(a.value)) + (StrText(b.key) + Text(b.value))) + [0x65]
  {
    ContentsAre(b.value, [], a, [b]);
    ContentsAre(b.value, [], b, []);
    assert [a] + [b] == [a, b] && [b] + [] == [b];
    assert EntriesText([b]) == StrText(b.key) + Text(b.value) + [];
  }

  lemma FiveParts()
    ensures StrText(LENGTH) == [0x36, 0x3A, 0x6C, 0x65, 0x6E, 0x67, 0x74, 0x68] && Text(Int(5)) == [0x69, 0x35, 0x65]
    ensures StrText(NAME) == [0x34, 0x3A, 0x6E, 0x61, 0x6D, 0x65] && Text(Str([0x61])) == [0x31, 0x3A, 0x61]
  {
    OneDigit();
  }

  lemma FiveText()
    ensures Text(FIVE) == [0x64, 0x36, 0x3A, 0x6C, 0x65, 0x6E, 0x67, 0x74, 0x68, 0x69, 0x35, 0x65,
                           0x34, 0x3A, 0x6E, 0x61, 0x6D, 0x65, 0x31, 0x3A, 0x61, 0x65]
  {
    FiveParts();
    TwoEntries(Entry(LENGTH, Int(5)), Entry(NAME, Str([0x61])));
  }

  /** "d6:lengthi5e4:name1:ae" is in key order, and is printed as it stands. */
  lemma FiveIsKept()
    ensures Encoding(Norm(FIVE)) == [0x64, 0x36, 0x3A, 0x6C, 0x65, 0x6E, 0x67, 0x74, 0x68, 0x69, 0x35, 0x65,
                                     0x34, 0x3A, 0x6E, 0x61, 0x6D, 0x65, 0x31, 0x3A, 0x61, 0x65]
  {
    FiveSorted();
    FiveText();
    EncodeParsedIff(FIVE);
  }

  /** The key under which the info hash is looked for. */
  lemma InfoIs()
    ensures INFO == [105, 110, 102, 111]
  {}
}
