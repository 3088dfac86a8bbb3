/** The info hash of src/torrent_info.cpp: parse, print, hash. */
module InfoHash {
  import opened Bytes
  import opened BencodeText
  import opened BencodeOrder
  import opened BencodeRead
  import opened BencodeEncoder
  import BencodeParser
  import opened Sha1Spec
  import Sha1Stream

  // "info"
  const INFO: seq<byte> := [0x69, 0x6E, 0x66, 0x6F]

  // The conversion from size_t to int.
  function ToInt(n: nat): (r: int)
    ensures r <= n && (n < 0x8000_0000 ==> r == n)
    ensures -0x8000_0000 <= r < 0x8000_0000 && (n - r) % TWO32 == 0
  {
    if n % TWO32 < 0x8000_0000 then n % TWO32 else n % TWO32 - TWO32
  }

  // The bytes of a text that sha1_compute is given: its length is passed as an
  // int, and none are hashed when that is negative.
  function HashedPart(text: seq<byte>): (part: seq<byte>)
    ensures part <= text
  {
    text[..if ToInt(|text|) > 0 then ToInt(|text|) else 0]
  }

  function TextHash(text: seq<byte>): seq<byte> { Sha1(HashedPart(text)) }

  /** All of a text is hashed exactly when it is shorter than 2 GiB. */
  lemma HashedPartIff(text: seq<byte>)
    ensures HashedPart(text) == text <==> |text| < 0x8000_0000
  {
    if |text| >= 0x8000_0000 {
      assert ToInt(|text|) < |text|;
    }
  }

  // The hash of what the encoder prints for the value of an info entry.
  method HashInfo(info: Value) returns (hash: seq<byte>)
    ensures hash == TextHash(Encoding(info))
  {
    var be := new Encoder();
    be.Crawl(info);
    var text := be.encoded;
    assert text == Encoding(info);
    hash := HashText(text);
  }

  method HashText(text: seq<byte>) returns (hash: seq<byte>)
    ensures hash == TextHash(text)
  {
    var str := new byte[|text|](i requires 0 <= i < |text| => text[i]);
    assert str[..] == text;
    var result := new byte[20];
    ghost var n := |HashedPart(text)|;
    assert str[..n] == text[..n] == HashedPart(text);
    Sha1Stream.Sha1Compute(str, ToInt(|text|), result);
    hash := result[..];
  }

  // The value whose hash is kept: that of the last info entry.
  function LastInfo(entries: seq<Entry>): Option<Value> {
    var infos := Select(entries, INFO);
    if infos == [] then None else Some(infos[|infos| - 1])
  }

  /** The loop of torrent_init, as far as it finds the info hash. */
  method FindInfoHash(entries: seq<Entry>) returns (hash: Option<seq<byte>>)
    ensures match LastInfo(entries)
            case None => hash == None
            case Some(info) => hash == Some(TextHash(Encoding(info)))
  {
    hash := None;
    for k := 0 to |entries|
      invariant match LastInfo(entries[..k])
                case None => hash == None
                case Some(info) => hash == Some(TextHash(Encoding(info)))
    {
      LastInfoNext(entries, k);
      if entries[k].key == INFO {
        var found := HashInfo(entries[k].value);
        hash := Some(found);
      }
    }
    assert entries[..|entries|] == entries;
  }

  lemma LastInfoNext(entries: seq<Entry>, k: nat)
    requires k < |entries|
    ensures LastInfo(entries[..k + 1])
         == if entries[k].key == INFO then Some(entries[k].value) else LastInfo(entries[..k])
  {
    assert entries[..k + 1][..k] == entries[..k];
  }

  // Entry k is the last one with the key "info" in the text.
  ghost predicate IsInfo(entries: seq<Entry>, k: nat) {
    && k < |entries| && entries[k].key == INFO
    && forall j | k < j < |entries| :: entries[j].key != INFO
  }

  // Sorting the dictionary does not change which info entry is the last.
  lemma InfoSurvivesSorting(entries: seq<Entry>, k: nat)
    requires IsInfo(entries, k)
    ensures LastInfo(SortEntries(NormEntries(entries))) == Some(Norm(entries[k].value))
  {
    LastInfoSorted(NormEntries(entries), k);
  }

  lemma LastInfoSorted(es: seq<Entry>, k: nat)
    requires IsInfo(es, k)
    ensures LastInfo(SortEntries(es)) == Some(es[k].value)
  {
    LastSelected(es, k, INFO);
    SortIsStable(es);
    assert Select(SortEntries(es), INFO) == Select(es, INFO);
  }

  lemma LastSelected(es: seq<Entry>, k: nat, key: seq<byte>)
    requires k < |es| && es[k].key == key && forall j | k < j < |es| :: es[j].key != key
    ensures |Select(es, key)| > 0 && Select(es, key)[|Select(es, key)| - 1] == es[k].value
  {
    assert es == es[..k] + [es[k]] + es[k + 1..];
    SelectAround(es[..k], es[k], es[k + 1..], key);
    SelectNone(es[k + 1..], key);
  }

  lemma InfoIsShorter(entries: seq<Entry>, k: nat)
    requires k < |entries|
    ensures |Encoding(Norm(entries[k].value))| <= |Text(Dict(entries))|
  {
    var e := entries[k];
    NormKeepsLength(e.value);
    EncodingIffNulFree(Norm(e.value));
    assert entries == entries[..k] + [e] + entries[k + 1..];
    LengthAround(entries[..k], e, entries[k + 1..]);
    assert EntriesText([e]) == StrText(e.key) + Text(e.value) + EntriesText([e][1..]);
  }

  /** From the metainfo file to the info hash.  The hash is that of the bytes
      that stand in the file whenever the dictionaries in the info entry are in
      key order and its keys are free of NUL bytes, as far as they are hashed;
      in a file shorter than 2 GiB that is all of them. */
  method MetainfoHash(data: seq<byte>, ghost entries: seq<Entry>, ghost k: nat) returns (hash: Option<seq<byte>>)
    requires Reads(data, 0, Text(Dict(entries))) && InRange(Dict(entries)) && IsInfo(entries, k)
    ensures hash == Some(TextHash(Encoding(Norm(entries[k].value))))
    ensures |data| < 0x8000_0000 ==> hash == Some(Sha1(Encoding(Norm(entries[k].value))))
    ensures IsSorted(entries[k].value) && NulFree(entries[k].value) ==> hash == Some(TextHash(Text(entries[k].value)))
    ensures |data| < 0x8000_0000 && IsSorted(entries[k].value) && NulFree(entries[k].value) ==>
              hash == Some(Sha1(Text(entries[k].value)))
  {
    var meta := BencodeParser.ParseFile(data);
    assert meta == Norm(Dict(entries));
    InfoSurvivesSorting(entries, k);
    InfoIsShorter(entries, k);
    hash := FindInfoHash(meta.entries);
    HashedPartIff(Encoding(Norm(entries[k].value)));
    EncodeParsedIff(entries[k].value);
  }
}
