/** The compression function of src/sha1.cpp. */
module Sha1Rounds {
  import opened Bytes
  import opened Sha1Spec

  // How a little-endian host reads four bytes as a word.
  function HostWord(b0: byte, b1: byte, b2: byte, b3: byte): bv32 {
    ((b3 as bv32) << 24) | ((b2 as bv32) << 16) | ((b1 as bv32) << 8) | (b0 as bv32)
  }

  // The two masked rotations of blk0.
  function SwapBytes(l: bv32): bv32 {
    (((l << 24) | (l >> 8)) & 0xFF00FF00) | (((l << 8) | (l >> 24)) & 0x00FF00FF)
  }

  lemma SwapIsWord(b0: byte, b1: byte, b2: byte, b3: byte)
    ensures SwapBytes(HostWord(b0, b1, b2, b3)) == Word(b0, b1, b2, b3)
  {}

  lemma ChoiceIsCh(x: bv32, y: bv32, z: bv32)
    ensures (x & (y ^ z)) ^ z == Ch(x, y, z)
  {}

  lemma MajorityIsMaj(x: bv32, y: bv32, z: bv32)
    ensures ((x | y) & z) | (x & y) == Maj(x, y, z)
  {}

  lemma SumOrder(z: bv32, f: bv32, w: bv32, k: bv32, r: bv32)
    ensures z + (f + w + k + r) == Sum(r, f, z, k, w)
  {}

  // What step 1 of section 6.1.2 says of word t.
  ghost predicate Recurs(words: seq<bv32>, t: nat) {
    16 <= t < |words| ==>
      words[t] == Expand(words[t - 3], words[t - 8], words[t - 14], words[t - 16])
  }

  /** The 16-word array before round t: slot j % 16 holds word j of the schedule
      for the last 16 words computed so far, and a slot not yet reached still
      holds its raw word. */
  ghost predicate Holds(l: seq<bv32>, raw: seq<bv32>, words: seq<bv32>, t: nat) {
    && |l| == 16 && |raw| == 16 && |words| == 80
    && (forall j | t <= j < 16 :: l[j] == raw[j])
    && (forall j | t - 16 <= j < t && 0 <= j < 80 :: l[j % 16] == words[j])
  }

  // The raw words are the first 16 schedule words as the host reads them.
  ghost predicate RawWords(raw: seq<bv32>, words: seq<bv32>) {
    |raw| == 16 <= |words| && forall j | 0 <= j < 16 :: SwapBytes(raw[j]) == words[j]
  }

  // The variables of the 80 rounds: five registers and the circular array.
  datatype State = State(regs: Regs, l: seq<bv32>)

  ghost predicate Follows(trace: seq<State>, words: seq<bv32>, t: nat)
    requires t + 1 < |trace|
  {
    && t < |words|
    && Recurs(words, t)
    && (t < 16 ==> |trace[t].l| == 16 && SwapBytes(trace[t].l[t]) == words[t])
    && Holds(trace[t].l, trace[0].l, words, t)
    && trace[t + 1] == State(Step(trace[t].regs, t, words[t]), trace[t].l[t % 16 := words[t]])
  }

  /** The states before each round and after the last one, when the registers
      follow section 6.1.2 and the array holds the schedule. */
  ghost predicate IsTrace(trace: seq<State>, words: seq<bv32>) {
    && |trace| == 81 && |words| == 80
    && forall t {:trigger Follows(trace, words, t)} | 0 <= t < 80 :: Follows(trace, words, t)
  }

  method Blk0(l: array<bv32>, i: nat, ghost words: seq<bv32>) returns (w: bv32)
    requires i < 16 && l.Length == 16 && i < |words| && SwapBytes(l[i]) == words[i]
    modifies l
    ensures l[..] == old(l[..])[i := words[i]] && w == words[i]
  {
    l[i] := SwapBytes(l[i]);
    w := l[i];
  }

  method Blk(l: array<bv32>, i: nat, ghost raw: seq<bv32>, ghost words: seq<bv32>) returns (w: bv32)
    requires 16 <= i < 80 && Holds(l[..], raw, words, i) && Recurs(words, i)
    modifies l
    ensures l[..] == old(l[..])[i % 16 := words[i]] && w == words[i]
  {
    assert (i + 13) % 16 == (i - 3) % 16 && (i + 8) % 16 == (i - 8) % 16;
    assert (i + 2) % 16 == (i - 14) % 16 && i % 16 == (i - 16) % 16;
    l[i % 16] := Rotl1(l[(i + 13) % 16] ^ l[(i + 8) % 16] ^ l[(i + 2) % 16] ^ l[i % 16]);
    w := l[i % 16];
  }

  lemma RoundIsStep(v: bv32, w: bv32, x: bv32, y: bv32, z: bv32, i: nat,
                    word: bv32, f: bv32, k: bv32, r: bv32)
    requires f == F(i, w, x, y) && k == K(i) && r == Rotl5(v)
    ensures Regs(z + (f + word + k + r), v, Rotl30(w), x, y) == Step(Regs(v, w, x, y, z), i, word)
  {
    SumOrder(z, f, word, k, r);
  }

  /** What the five macros share: the two assignments, on a round function's
      value and constant. */
  method Round(v: bv32, w: bv32, ghost x: bv32, ghost y: bv32, z: bv32, ghost i: nat,
               word: bv32, f: bv32, k: bv32) returns (z': bv32, w': bv32)
    requires f == F(i, w, x, y) && k == K(i)
    ensures Regs(z', v, w', x, y) == Step(Regs(v, w, x, y, z), i, word)
  {
    var r := Rotl5(v);
    z' := z + (f + word + k + r);
    w' := Rotl30(w);
    RoundIsStep(v, w, x, y, z, i, word, f, k, r);
  }

  method R0(v: bv32, w: bv32, x: bv32, y: bv32, z: bv32, i: nat, l: array<bv32>,
            ghost trace: seq<State>, ghost words: seq<bv32>) returns (z': bv32, w': bv32)
    requires 0 <= i < 16 && IsTrace(trace, words)
    requires State(Regs(v, w, x, y, z), l[..]) == trace[i]
    modifies l
    ensures State(Regs(z', v, w', x, y), l[..]) == trace[i + 1]
  {
    assert Follows(trace, words, i);
    var word := Blk0(l, i, words);
    var f := (w & (x ^ y)) ^ y;
    ChoiceIsCh(w, x, y);
    z', w' := Round(v, w, x, y, z, i, word, f, 0x5A827999);
  }

  method R1(v: bv32, w: bv32, x: bv32, y: bv32, z: bv32, i: nat, l: array<bv32>,
            ghost trace: seq<State>, ghost words: seq<bv32>) returns (z': bv32, w': bv32)
    requires 16 <= i < 20 && IsTrace(trace, words)
    requires State(Regs(v, w, x, y, z), l[..]) == trace[i]
    modifies l
    ensures State(Regs(z', v, w', x, y), l[..]) == trace[i + 1]
  {
    assert Follows(trace, words, i);
    var word := Blk(l, i, trace[0].l, words);
    var f := (w & (x ^ y)) ^ y;
    ChoiceIsCh(w, x, y);
    z', w' := Round(v, w, x, y, z, i, word, f, 0x5A827999);
  }

  method R2(v: bv32, w: bv32, x: bv32, y: bv32, z: bv32, i: nat, l: array<bv32>,
            ghost trace: seq<State>, ghost words: seq<bv32>) returns (z': bv32, w': bv32)
    requires 20 <= i < 40 && IsTrace(trace, words)
    requires State(Regs(v, w, x, y, z), l[..]) == trace[i]
    modifies l
    ensures State(Regs(z', v, w', x, y), l[..]) == trace[i + 1]
  {
    assert Follows(trace, words, i);
    var word := Blk(l, i, trace[0].l, words);
    var f := w ^ x ^ y;
    z', w' := Round(v, w, x, y, z, i, word, f, 0x6ED9EBA1);
  }

  method R3(v: bv32, w: bv32, x: bv32, y: bv32, z: bv32, i: nat, l: array<bv32>,
            ghost trace: seq<State>, ghost words: seq<bv32>) returns (z': bv32, w': bv32)
    requires 40 <= i < 60 && IsTrace(trace, words)
    requires State(Regs(v, w, x, y, z), l[..]) == trace[i]
    modifies l
    ensures State(Regs(z', v, w', x, y), l[..]) == trace[i + 1]
  {
    assert Follows(trace, words, i);
    var word := Blk(l, i, trace[0].l, words);
    var f := ((w | x) & y) | (w & x);
    MajorityIsMaj(w, x, y);
    z', w' := Round(v, w, x, y, z, i, word, f, 0x8F1BBCDC);
  }

  method R4(v: bv32, w: bv32, x: bv32, y: bv32, z: bv32, i: nat, l: array<bv32>,
            ghost trace: seq<State>, ghost words: seq<bv32>) returns (z': bv32, w': bv32)
    requires 60 <= i < 80 && IsTrace(trace, words)
    requires State(Regs(v, w, x, y, z), l[..]) == trace[i]
    modifies l
    ensures State(Regs(z', v, w', x, y), l[..]) == trace[i + 1]
  {
    assert Follows(trace, words, i);
    var word := Blk(l, i, trace[0].l, words);
    var f := w ^ x ^ y;
    z', w' := Round(v, w, x, y, z, i, word, f, 0xCA62C1D6);
  }

  // The trace that section 6.1.2 prescribes.
  ghost function StateAt(h: Regs, raw: seq<bv32>, words: seq<bv32>, t: nat): (s: State)
    requires |raw| == 16 && t <= |words|
    ensures |s.l| == 16 && s.regs == Rounds(h, words, t)
  {
    if t == 0 then State(h, raw)
    else
      var s := StateAt(h, raw, words, t - 1);
      State(Step(s.regs, t - 1, words[t - 1]), s.l[(t - 1) % 16 := words[t - 1]])
  }

  lemma {:induction false} StateAtHolds(h: Regs, raw: seq<bv32>, words: seq<bv32>, t: nat)
    requires Holds(raw, raw, words, 0) && t <= 80
    ensures Holds(StateAt(h, raw, words, t).l, raw, words, t)
  {
    if t > 0 {
      StateAtHolds(h, raw, words, t - 1);
      HoldsNext(StateAt(h, raw, words, t - 1).l, raw, words, t - 1);
    }
  }

  lemma HoldsNext(l: seq<bv32>, raw: seq<bv32>, words: seq<bv32>, t: nat)
    requires Holds(l, raw, words, t) && t < 80
    ensures Holds(l[t % 16 := words[t]], raw, words, t + 1)
  {}

  lemma TraceExists(h: Regs, raw: seq<bv32>, words: seq<bv32>) returns (trace: seq<State>)
    requires |words| == 80 && RawWords(raw, words)
    requires forall t: nat :: Recurs(words, t)
    ensures IsTrace(trace, words)
    ensures trace[0] == State(h, raw) && trace[80].regs == Rounds(h, words, 80)
  {
    trace := seq(81, t requires 0 <= t < 81 => StateAt(h, raw, words, t));
    forall t | 0 <= t < 80
      ensures Follows(trace, words, t)
    {
      StateAtHolds(h, raw, words, t);
      assert trace[t + 1] == StateAt(h, raw, words, t + 1);
    }
  }

  lemma ScheduleRecurs(m: Block)
    ensures forall t: nat :: Recurs(Schedule(m), t)
  {
    forall t: nat
      ensures Recurs(Schedule(m), t)
    {
      if 16 <= t < 80 {
        var s := Schedule(m);
        assert s[t] == W(m, t) == Expand(W(m, t - 3), W(m, t - 8), W(m, t - 14), W(m, t - 16));
      }
    }
  }

  ghost function RegsOf(state: seq<bv32>): Regs
    requires |state| == 5
  {
    Regs(state[0], state[1], state[2], state[3], state[4])
  }

  /** The memcpy into the union: its 16 words, as the host reads them. */
  method LoadBlock(buffer: array<byte>, at: nat) returns (l: array<bv32>)
    requires at + 64 <= buffer.Length
    ensures fresh(l) && RawWords(l[..], Schedule(buffer[at..at + 64]))
  {
    l := new bv32[16];
    ghost var m: Block := buffer[at..at + 64];
    for i := 0 to 16
      invariant forall j | 0 <= j < i :: SwapBytes(l[j]) == Schedule(m)[j]
    {
      l[i] := HostWord(buffer[at + 4 * i], buffer[at + 4 * i + 1],
                       buffer[at + 4 * i + 2], buffer[at + 4 * i + 3]);
      SwapIsWord(buffer[at + 4 * i], buffer[at + 4 * i + 1],
                 buffer[at + 4 * i + 2], buffer[at + 4 * i + 3]);
      assert Schedule(m)[i] == W(m, i);
    }
  }

  method Rounds0(l: array<bv32>, a0: bv32, b0: bv32, c0: bv32, d0: bv32, e0: bv32,
                 ghost trace: seq<State>, ghost words: seq<bv32>)
    returns (a: bv32, b: bv32, c: bv32, d: bv32, e: bv32)
    requires IsTrace(trace, words)
    requires State(Regs(a0, b0, c0, d0, e0), l[..]) == trace[0]
    modifies l
    ensures State(Regs(a, b, c, d, e), l[..]) == trace[10]
  {
    a, b, c, d, e := a0, b0, c0, d0, e0;
    e, b := R0(a, b, c, d, e, 0, l, trace, words);
    d, a := R0(e, a, b, c, d, 1, l, trace, words);
    c, e := R0(d, e, a, b, c, 2, l, trace, words);
    b, d := R0(c, d, e, a, b, 3, l, trace, words);
    a, c := R0(b, c, d, e, a, 4, l, trace, words);
    e, b := R0(a, b, c, d, e, 5, l, trace, words);
    d, a := R0(e, a, b, c, d, 6, l, trace, words);
    c, e := R0(d, e, a, b, c, 7, l, trace, words);
    b, d := R0(c, d, e, a, b, 8, l, trace, words);
    a, c := R0(b, c, d, e, a, 9, l, trace, words);
  }

  method Rounds10(l: array<bv32>, a0: bv32, b0: bv32, c0: bv32, d0: bv32, e0: bv32,
                 ghost trace: seq<State>, ghost words: seq<bv32>)
    returns (a: bv32, b: bv32, c: bv32, d: bv32, e: bv32)
    requires IsTrace(trace, words)
    requires State(Regs(a0, b0, c0, d0, e0), l[..]) == trace[10]
    modifies l
    ensures State(Regs(a, b, c, d, e), l[..]) == trace[20]
  {
    a, b, c, d, e := a0, b0, c0, d0, e0;
    e, b := R0(a, b, c, d, e, 10, l, trace, words);
    d, a := R0(e, a, b, c, d, 11, l, trace, words);
    c, e := R0(d, e, a, b, c, 12, l, trace, words);
    b, d := R0(c, d, e, a, b, 13, l, trace, words);
    a, c := R0(b, c, d, e, a, 14, l, trace, words);
    e, b := R0(a, b, c, d, e, 15, l, trace, words);
    d, a := R1(e, a, b, c, d, 16, l, trace, words);
    c, e := R1(d, e, a, b, c, 17, l, trace, words);
    b, d := R1(c, d, e, a, b, 18, l, trace, words);
    a, c := R1(b, c, d, e, a, 19, l, trace, words);
  }

  method Rounds20(l: array<bv32>, a0: bv32, b0: bv32, c0: bv32, d0: bv32, e0: bv32,
                 ghost trace: seq<State>, ghost words: seq<bv32>)
    returns (a: bv32, b: bv32, c: bv32, d: bv32, e: bv32)
    requires IsTrace(trace, words)
    requires State(Regs(a0, b0, c0, d0, e0), l[..]) == trace[20]
    modifies l
    ensures State(Regs(a, b, c, d, e), l[..]) == trace[30]
  {
    a, b, c, d, e := a0, b0, c0, d0, e0;
    e, b := R2(a, b, c, d, e, 20, l, trace, words);
    d, a := R2(e, a, b, c, d, 21, l, trace, words);
    c, e := R2(d, e, a, b, c, 22, l, trace, words);
    b, d := R2(c, d, e, a, b, 23, l, trace, words);
    a, c := R2(b, c, d, e, a, 24, l, trace, words);
    e, b := R2(a, b, c, d, e, 25, l, trace, words);
    d, a := R2(e, a, b, c, d, 26, l, trace, words);
    c, e := R2(d, e, a, b, c, 27, l, trace, words);
    b, d := R2(c, d, e, a, b, 28, l, trace, words);
    a, c := R2(b, c, d, e, a, 29, l, trace, words);
  }

  method Rounds30(l: array<bv32>, a0: bv32, b0: bv32, c0: bv32, d0: bv32, e0: bv32,
                 ghost trace: seq<State>, ghost words: seq<bv32>)
    returns (a: bv32, b: bv32, c: bv32, d: bv32, e: bv32)
    requires IsTrace(trace, words)
    requires State(Regs(a0, b0, c0, d0, e0), l[..]) == trace[30]
    modifies l
    ensures State(Regs(a, b, c, d, e), l[..]) == trace[40]
  {
    a, b, c, d, e := a0, b0, c0, d0, e0;
    e, b := R2(a, b, c, d, e, 30, l, trace, words);
    d, a := R2(e, a, b, c, d, 31, l, trace, words);
    c, e := R2(d, e, a, b, c, 32, l, trace, words);
    b, d := R2(c, d, e, a, b, 33, l, trace, words);
    a, c := R2(b, c, d, e, a, 34, l, trace, words);
    e, b := R2(a, b, c, d, e, 35, l, trace, words);
    d, a := R2(e, a, b, c, d, 36, l, trace, words);
    c, e := R2(d, e, a, b, c, 37, l, trace, words);
    b, d := R2(c, d, e, a, b, 38, l, trace, words);
    a, c := R2(b, c, d, e, a, 39, l, trace, words);
  }

  method Rounds40(l: array<bv32>, a0: bv32, b0: bv32, c0: bv32, d0: bv32, e0: bv32,
                 ghost trace: seq<State>, ghost words: seq<bv32>)
    returns (a: bv32, b: bv32, c: bv32, d: bv32, e: bv32)
    requires IsTrace(trace, words)
    requires State(Regs(a0, b0, c0, d0, e0), l[..]) == trace[40]
    modifies l
    ensures State(Regs(a, b, c, d, e), l[..]) == trace[50]
  {
    a, b, c, d, e := a0, b0, c0, d0, e0;
    e, b := R3(a, b, c, d, e, 40, l, trace, words);
    d, a := R3(e, a, b, c, d, 41, l, trace, words);
    c, e := R3(d, e, a, b, c, 42, l, trace, words);
    b, d := R3(c, d, e, a, b, 43, l, trace, words);
    a, c := R3(b, c, d, e, a, 44, l, trace, words);
    e, b := R3(a, b, c, d, e, 45, l, trace, words);
    d, a := R3(e, a, b, c, d, 46, l, trace, words);
    c, e := R3(d, e, a, b, c, 47, l, trace, words);
    b, d := R3(c, d, e, a, b, 48, l, trace, words);
    a, c := R3(b, c, d, e, a, 49, l, trace, words);
  }

  method Rounds50(l: array<bv32>, a0: bv32, b0: bv32, c0: bv32, d0: bv32, e0: bv32,
                 ghost trace: seq<State>, ghost words: seq<bv32>)
    returns (a: bv32, b: bv32, c: bv32, d: bv32, e: bv32)
    requires IsTrace(trace, words)
    requires State(Regs(a0, b0, c0, d0, e0), l[..]) == trace[50]
    modifies l
    ensures State(Regs(a, b, c, d, e), l[..]) == trace[60]
  {
    a, b, c, d, e := a0, b0, c0, d0, e0;
    e, b := R3(a, b, c, d, e, 50, l, trace, words);
    d, a := R3(e, a, b, c, d, 51, l, trace, words);
    c, e := R3(d, e, a, b, c, 52, l, trace, words);
    b, d := R3(c, d, e, a, b, 53, l, trace, words);
    a, c := R3(b, c, d, e, a, 54, l, trace, words);
    e, b := R3(a, b, c, d, e, 55, l, trace, words);
    d, a := R3(e, a, b, c, d, 56, l, trace, words);
    c, e := R3(d, e, a, b, c, 57, l, trace, words);
    b, d := R3(c, d, e, a, b, 58, l, trace, words);
    a, c := R3(b, c, d, e, a, 59, l, trace, words);
  }

  method Rounds60(l: array<bv32>, a0: bv32, b0: bv32, c0: bv32, d0: bv32, e0: bv32,
                 ghost trace: seq<State>, ghost words: seq<bv32>)
    returns (a: bv32, b: bv32, c: bv32, d: bv32, e: bv32)
    requires IsTrace(trace, words)
    requires State(Regs(a0, b0, c0, d0, e0), l[..]) == trace[60]
    modifies l
    ensures State(Regs(a, b, c, d, e), l[..]) == trace[70]
  {
    a, b, c, d, e := a0, b0, c0, d0, e0;
    e, b := R4(a, b, c, d, e, 60, l, trace, words);
    d, a := R4(e, a, b, c, d, 61, l, trace, words);
    c, e := R4(d, e, a, b, c, 62, l, trace, words);
    b, d := R4(c, d, e, a, b, 63, l, trace, words);
    a, c := R4(b, c, d, e, a, 64, l, trace, words);
    e, b := R4(a, b, c, d, e, 65, l, trace, words);
    d, a := R4(e, a, b, c, d, 66, l, trace, words);
    c, e := R4(d, e, a, b, c, 67, l, trace, words);
    b, d := R4(c, d, e, a, b, 68, l, trace, words);
    a, c := R4(b, c, d, e, a, 69, l, trace, words);
  }

  method Rounds70(l: array<bv32>, a0: bv32, b0: bv32, c0: bv32, d0: bv32, e0: bv32,
                 ghost trace: seq<State>, ghost words: seq<bv32>)
    returns (a: bv32, b: bv32, c: bv32, d: bv32, e: bv32)
    requires IsTrace(trace, words)
    requires State(Regs(a0, b0, c0, d0, e0), l[..]) == trace[70]
    modifies l
    ensures State(Regs(a, b, c, d, e), l[..]) == trace[80]
  {
    a, b, c, d, e := a0, b0, c0, d0, e0;
    e, b := R4(a, b, c, d, e, 70, l, trace, words);
    d, a := R4(e, a, b, c, d, 71, l, trace, words);
    c, e := R4(d, e, a, b, c, 72, l, trace, words);
    b, d := R4(c, d, e, a, b, 73, l, trace, words);
    a, c := R4(b, c, d, e, a, 74, l, trace, words);
    e, b := R4(a, b, c, d, e, 75, l, trace, words);
    d, a := R4(e, a, b, c, d, 76, l, trace, words);
    c, e := R4(d, e, a, b, c, 77, l, trace, words);
    b, d := R4(c, d, e, a, b, 78, l, trace, words);
    a, c := R4(b, c, d, e, a, 79, l, trace, words);
  }

  method EightyRounds(l: array<bv32>, a0: bv32, b0: bv32, c0: bv32, d0: bv32, e0: bv32,
                      ghost trace: seq<State>, ghost words: seq<bv32>)
    returns (a: bv32, b: bv32, c: bv32, d: bv32, e: bv32)
    requires IsTrace(trace, words)
    requires State(Regs(a0, b0, c0, d0, e0), l[..]) == trace[0]
    modifies l
    ensures Regs(a, b, c, d, e) == trace[80].regs
  {
    a, b, c, d, e := Rounds0(l, a0, b0, c0, d0, e0, trace, words);
    a, b, c, d, e := Rounds10(l, a, b, c, d, e, trace, words);
    a, b, c, d, e := Rounds20(l, a, b, c, d, e, trace, words);
    a, b, c, d, e := Rounds30(l, a, b, c, d, e, trace, words);
    a, b, c, d, e := Rounds40(l, a, b, c, d, e, trace, words);
    a, b, c, d, e := Rounds50(l, a, b, c, d, e, trace, words);
    a, b, c, d, e := Rounds60(l, a, b, c, d, e, trace, words);
    a, b, c, d, e := Rounds70(l, a, b, c, d, e, trace, words);
  }

  // The statement state[k] += x.
  method AddTo(state: array<bv32>, k: nat, x: bv32)
    requires k < state.Length
    modifies state
    ensures state[..] == old(state[..])[k := Plus(old(state[k]), x)]
  {
    state[k] := state[k] + x;
  }

  /** Hashes the 64 bytes of buffer that start at `at`. */
  method Transform(state: array<bv32>, buffer: array<byte>, at: nat)
    requires state.Length == 5 && at + 64 <= buffer.Length
    modifies state
    ensures RegsOf(state[..]) == Compress(old(RegsOf(state[..])), buffer[at..at + 64])
  {
    ghost var h := RegsOf(state[..]);
    ghost var m: Block := buffer[at..at + 64];
    var l := LoadBlock(buffer, at);
    ScheduleRecurs(m);
    ghost var trace := TraceExists(h, l[..], Schedule(m));
    var a, b, c, d, e := EightyRounds(l, state[0], state[1], state[2], state[3], state[4], trace, Schedule(m));
    AddTo(state, 0, a);
    AddTo(state, 1, b);
    AddTo(state, 2, c);
    AddTo(state, 3, d);
    AddTo(state, 4, e);
    assert trace[80].regs == Rounds(h, Schedule(m), 80);
  }
}
