/** CRC-64/Jones, reflected, with zero initial value and no final xor: the checksum of an RDB image. */
module Crc64 {
  import opened Bytes

  const POLY: nat := 0xad93_d235_94c9_35a9

  /** A 64-bit word as its bits, least significant first. */
  type Word = w: seq<bool> | |w| == 64 witness Falses(64)

  function Falses(count: nat): (w: seq<bool>)
    ensures |w| == count
  {
    if count == 0 then [] else [false] + Falses(count - 1)
  }

  const ZERO: Word := Falses(64)

  function Bits(n: nat, count: nat): (w: seq<bool>)
    ensures |w| == count
  {
    if count == 0 then [] else [n % 2 == 1] + Bits(n / 2, count - 1)
  }

  function Val(w: seq<bool>): nat {
    if w == [] then 0 else (if w[0] then 1 else 0) + 2 * Val(w[1..])
  }

  function Xor(a: Word, b: Word): Word {
    seq(64, i requires 0 <= i < 64 => a[i] != b[i])
  }

  function ShiftRight(a: Word, n: nat): Word {
    seq(64, i requires 0 <= i < 64 => i + n < 64 && a[i + n])
  }

  function Reversed(a: Word): Word {
    seq(64, i requires 0 <= i < 64 => a[63 - i])
  }

  /** `w` in the low bits of a word. */
  function Pad(w: seq<bool>): Word
    requires |w| <= 64
  {
    seq(64, i requires 0 <= i < 64 => i < |w| && w[i])
  }

  // ------------------------------------------------------ the program's code

  function PolyWord(): Word {
    Bits(POLY, |ZERO|)
  }

  function Step(crc: Word): Word {
    if crc[0] then Xor(ShiftRight(crc, 1), Reversed(PolyWord())) else ShiftRight(crc, 1)
  }

  function Steps(crc: Word, n: nat): Word
    decreases n, crc
  {
    if n == 0 then crc else Steps(Step(crc), n - 1)
  }

  method Reverse(word: Word) returns (r: Word)
    ensures r == Reversed(word)
  {
    var v := word;
    r := ZERO;
    var i := 0;
    while i < 64
      invariant i <= 64
      invariant ShiftedOut(word, v, i) && ShiftedIn(word, r, i)
    {
      ShiftOneOut(word, v, i);
      ShiftOneIn(word, r, i);
      r := [v[0]] + r[..63];
      v := v[1..] + [false];
      i := i + 1;
    }
  }

  /** `v` is `word` without its first `i` bits. */
  ghost predicate ShiftedOut(word: Word, v: Word, i: nat) {
    forall k :: 0 <= k < 64 - i ==> v[k] == word[k + i]
  }

  /** `r` begins with the first `i` bits of `word`, last one first. */
  ghost predicate ShiftedIn(word: Word, r: Word, i: nat) {
    i <= 64 && forall k :: 0 <= k < i ==> r[k] == word[i - 1 - k]
  }

  lemma ShiftOneOut(word: Word, v: Word, i: nat)
    requires i < 64 && ShiftedOut(word, v, i)
    ensures v[0] == word[i] && ShiftedOut(word, v[1..] + [false], i + 1)
  {
    assert v[0] == word[0 + i];
    forall k | 0 <= k < 63 - i
      ensures (v[1..] + [false])[k] == word[k + (i + 1)]
    {
      assert v[k + 1] == word[k + 1 + i];
    }
  }

  lemma ShiftOneIn(word: Word, r: Word, i: nat)
    requires i < 64 && ShiftedIn(word, r, i)
    ensures ShiftedIn(word, [word[i]] + r[..63], i + 1)
  {
    forall k | 1 <= k < i + 1
      ensures ([word[i]] + r[..63])[k] == word[i - k]
    {
      assert r[k - 1] == word[i - 1 - (k - 1)];
    }
  }

  ghost predicate IsTable(table: seq<Word>) {
    |table| == 256 && forall n :: 0 <= n < 256 ==> table[n] == Steps(Bits(n, 64), 8)
  }

  method BuildTable() returns (table: array<Word>)
    ensures IsTable(table[..])
  {
    hide Steps, Bits, PolyWord, Reversed;
    var rev := Reverse(PolyWord());
    table := new Word[256](_ => ZERO);
    var n := 0;
    while n < 256
      invariant n <= 256
      invariant forall k :: 0 <= k < n ==> table[k] == Steps(Bits(k, 64), 8)
    {
      var crc := EightSteps(rev, n);
      table[n] := crc;
      n := n + 1;
    }
  }

  method EightSteps(rev: Word, n: nat) returns (crc: Word)
    requires rev == Reversed(PolyWord())
    ensures crc == Steps(Bits(n, 64), 8)
  {
    hide Xor, ShiftRight, Bits, PolyWord, Reversed;
    crc := Bits(n, 64);
    var bit := 0;
    while bit < 8
      invariant bit <= 8
      invariant Steps(crc, 8 - bit) == Steps(Bits(n, 64), 8)
    {
      crc := if crc[0] then Xor(ShiftRight(crc, 1), rev) else ShiftRight(crc, 1);
      bit := bit + 1;
    }
  }

  method Update(table: array<Word>, start: Word, data: seq<byte>) returns (crc: Word)
    requires IsTable(table[..])
    ensures crc == Fold(start, data)
  {
    hide Steps, Xor, ShiftRight, Bits;
    crc := start;
    assert data[..|data|] == data;
    for i := 0 to |data|
      invariant crc == Fold(start, data[..i])
    {
      var x := Xor(crc, Bits(data[i], 64));
      LookupStep(table[..], crc, data[i]);
      FoldAppend(start, data[..i], [data[i]]);
      assert data[..i + 1] == data[..i] + [data[i]];
      crc := Xor(table[Val(x[..8])], ShiftRight(crc, 8));
    }
  }

  // ---------------------------------------------- the bit-at-a-time reference

  /** One byte, eight single-bit steps. */
  function ByteStep(crc: Word, b: byte): Word {
    Steps(Xor(crc, Bits(b, 64)), 8)
  }

  function Fold(crc: Word, data: seq<byte>): Word
    decreases data
  {
    if data == [] then crc else Fold(ByteStep(crc, data[0]), data[1..])
  }

  function Checksum(data: seq<byte>): (n: u64)
  {
    ValBound(Fold(ZERO, data));
    Val(Fold(ZERO, data))
  }

  /** The catalogue's unreflected register: shift left, fold `POLY` in when the bit pushed out differs. */
  function SerialStep(reg: Word, bit: bool): Word {
    var shifted: Word := [false] + reg[..63];
    if reg[63] != bit then Xor(shifted, PolyWord()) else shifted
  }

  function Serial(reg: Word, bits: seq<bool>): Word
    decreases bits
  {
    if bits == [] then reg else Serial(SerialStep(reg, bits[0]), bits[1..])
  }

  /** Message bits in transmission order: every byte least significant bit first. */
  function MessageBits(data: seq<byte>): (bits: seq<bool>)
    ensures |bits| == 8 * |data|
  {
    if data == [] then [] else Bits(data[0], 8) + MessageBits(data[1..])
  }

  // ------------------------------------------------------------- properties

  lemma {:induction false} BitsOfVal(w: seq<bool>)
    ensures Bits(Val(w), |w|) == w
  {
    if w != [] {
      BitsOfVal(w[1..]);
    }
  }

  lemma LowByteBound(w: seq<bool>)
    requires |w| == 8
    ensures Val(w) < 256
  {
    ValPow(w);
    assert Pow2(8) == 16 * Pow2(4) == 256;
  }

  function Pow2(n: nat): nat {
    if n == 0 then 1 else 2 * Pow2(n - 1)
  }

  lemma {:induction false} ValPow(w: seq<bool>)
    ensures Val(w) < Pow2(|w|)
  {
    if w != [] { ValPow(w[1..]); }
  }

  lemma ValBound(w: Word)
    ensures Val(w) < 0x1_0000_0000_0000_0000
  {
    ValPow(w);
    Pow2Of64();
  }

  lemma Pow2Of64()
    ensures Pow2(|ZERO|) == 0x1_0000_0000_0000_0000
  {
    assert Pow2(8) == 16 * Pow2(4) == 256;
    Pow2Byte(8);
    Pow2Byte(16);
    Pow2Byte(24);
    Pow2Byte(32);
    Pow2Byte(40);
    Pow2Byte(48);
    Pow2Byte(56);
  }

  lemma Pow2Byte(n: nat)
    ensures Pow2(n + 8) == 256 * Pow2(n)
  {
    assert Pow2(n + 4) == 2 * Pow2(n + 3) == 4 * Pow2(n + 2) == 8 * Pow2(n + 1);
    assert Pow2(n + 8) == 2 * Pow2(n + 7) == 4 * Pow2(n + 6) == 8 * Pow2(n + 5);
  }

  /** Above bit `k`, a number below 2 to the `k` has only zeros. */
  lemma {:induction false} BitsPad(n: nat, k: nat, count: nat)
    requires k <= count && n < Pow2(k)
    ensures forall i :: 0 <= i < count ==> Bits(n, count)[i] == (i < k && Bits(n, k)[i])
  {
    if count > 0 {
      if k == 0 {
        BitsPad(0, 0, count - 1);
      } else {
        BitsPad(n / 2, k - 1, count - 1);
      }
    }
  }

  lemma PadBits(n: nat)
    requires n < 256
    ensures Bits(n, 64) == Pad(Bits(n, 8))
  {
    assert Pow2(8) == 16 * Pow2(4) == 256;
    BitsPad(n, 8, 64);
  }

  lemma HighBitsClear(b: byte)
    ensures forall i :: 8 <= i < 64 ==> !Bits(b, 64)[i]
  {
    PadBits(b);
  }

  lemma StepLinear(a: Word, b: Word)
    ensures Step(Xor(a, b)) == Xor(Step(a), Step(b))
  {
    hide PolyWord, Reversed;
    var sum := Xor(a, b);
    assert forall i :: 0 <= i < 64 ==> ShiftRight(sum, 1)[i] == (ShiftRight(a, 1)[i] != ShiftRight(b, 1)[i]);
    assert sum[0] == (a[0] != b[0]);
    forall i | 0 <= i < 64
      ensures Step(sum)[i] == Xor(Step(a), Step(b))[i]
    {}
  }

  lemma {:induction false} StepsLinear(a: Word, b: Word, n: nat)
    ensures Steps(Xor(a, b), n) == Xor(Steps(a, n), Steps(b, n))
    decreases n
  {
    hide Step, Xor;
    if n > 0 {
      StepLinear(a, b);
      StepsLinear(Step(a), Step(b), n - 1);
    }
  }

  /** While the low bits are clear, steps only shift. */
  lemma {:induction false} StepsShift(a: Word, n: nat)
    requires n <= 64 && forall i :: 0 <= i < n ==> !a[i]
    ensures Steps(a, n) == ShiftRight(a, n)
    decreases n
  {
    hide Step;
    if n == 0 {
      assert ShiftRight(a, 0) == a;
    } else {
      StepShifts(a);
      var next := ShiftRight(a, 1);
      assert forall i :: 0 <= i < n - 1 ==> next[i] == a[i + 1];
      StepsShift(next, n - 1);
      ShiftTwice(a, n - 1);
    }
  }

  lemma StepShifts(a: Word)
    requires !a[0]
    ensures Step(a) == ShiftRight(a, 1)
  {}

  lemma ShiftTwice(a: Word, n: nat)
    ensures ShiftRight(ShiftRight(a, 1), n) == ShiftRight(a, n + 1)
  {}

  /** One table lookup does the work of eight steps. */
  lemma TableStep(table: seq<Word>, x: Word)
    requires IsTable(table) && Val(x[..8]) < 256
    ensures Steps(x, 8) == Xor(table[Val(x[..8])], ShiftRight(x, 8))
  {
    hide Step, Steps;
    var low, high := Pad(x[..8]), Xor(x, Pad(x[..8]));
    assert x == Xor(low, high);
    StepsLinear(low, high, 8);
    StepsShift(high, 8);
    BitsOfVal(x[..8]);
    PadBits(Val(x[..8]));
    assert ShiftRight(high, 8) == ShiftRight(x, 8);
  }

  /** What `Update` does with one byte: index by the low byte, shift the register. */
  lemma LookupStep(table: seq<Word>, crc: Word, b: byte)
    requires IsTable(table)
    ensures var x := Xor(crc, Bits(b, 64));
            Val(x[..8]) < 256 && ByteStep(crc, b) == Xor(table[Val(x[..8])], ShiftRight(crc, 8))
  {
    hide Steps;
    var x := Xor(crc, Bits(b, 64));
    LowByteBound(x[..8]);
    TableStep(table, x);
    HighBitsClear(b);
    assert ShiftRight(x, 8) == ShiftRight(crc, 8);
  }

  lemma {:induction false} FoldAppend(crc: Word, a: seq<byte>, b: seq<byte>)
    ensures Fold(crc, a + b) == Fold(Fold(crc, a), b)
    decreases a
  {
    hide ByteStep;
    if a == [] {
      assert a + b == b;
    } else {
      assert (a + b)[1..] == a[1..] + b;
      FoldAppend(ByteStep(crc, a[0]), a[1..], b);
    }
  }

  lemma PolyIsOdd()
    ensures PolyWord()[0]
  {
    hide Bits;
    FirstBit(POLY, 64);
  }

  lemma FirstBit(n: nat, count: nat)
    requires count > 0
    ensures Bits(n, count)[0] == (n % 2 == 1)
  {}

  /** The polynomial being odd, no two words have the same successor. */
  lemma StepInjective(a: Word, b: Word)
    requires Step(a) == Step(b)
    ensures a == b
  {
    PolyIsOdd();
    hide PolyWord;
    assert Step(a)[63] == a[0] && Step(b)[63] == b[0];
    forall i | 0 <= i < 64
      ensures a[i] == b[i]
    {
      if i > 0 {
        assert Step(a)[i - 1] == Step(b)[i - 1];
      }
    }
  }

  lemma {:induction false} StepsInjective(a: Word, b: Word, n: nat)
    requires Steps(a, n) == Steps(b, n)
    ensures a == b
    decreases n
  {
    hide Step;
    if n > 0 {
      StepsInjective(Step(a), Step(b), n - 1);
      StepInjective(a, b);
    }
  }

  lemma ByteStepInjective(a: Word, b: Word, x: byte)
    requires ByteStep(a, x) == ByteStep(b, x)
    ensures a == b
  {
    var d := Bits(x, 64);
    StepsInjective(Xor(a, d), Xor(b, d), 8);
    assert a == Xor(Xor(a, d), d) && b == Xor(Xor(b, d), d);
  }

  lemma {:induction false} FoldInjective(a: Word, b: Word, data: seq<byte>)
    requires Fold(a, data) == Fold(b, data)
    ensures a == b
    decreases data
  {
    hide ByteStep;
    if data != [] {
      FoldInjective(ByteStep(a, data[0]), ByteStep(b, data[0]), data[1..]);
      ByteStepInjective(a, b, data[0]);
    }
  }

  /** The reflected register is the catalogue's register read the other way round. */
  lemma ReflectedStep(crc: Word, bit: bool)
    ensures Reversed(Step(Xor(crc, Pad([bit])))) == SerialStep(Reversed(crc), bit)
  {
    hide PolyWord;
    var x, y := Xor(crc, Pad([bit])), Reversed(crc);
    assert x[0] == (y[63] != bit);
    forall i | 0 <= i < 64
      ensures Reversed(Step(x))[i] == SerialStep(y, bit)[i]
    {
      if i > 0 {
        assert x[64 - i] == crc[64 - i] == y[i - 1];
      }
    }
  }

  /** Up to 64 message bits shifted in one at a time, or folded in all at once. */
  lemma {:induction false} SerialIsSteps(crc: Word, bits: seq<bool>)
    requires |bits| <= 64
    ensures Serial(Reversed(crc), bits) == Reversed(Steps(Xor(crc, Pad(bits)), |bits|))
    decreases bits
  {
    hide Step, SerialStep;
    if bits == [] {
      assert Xor(crc, Pad(bits)) == crc;
    } else {
      var first, others := Pad([bits[0]]), Pad([false] + bits[1..]);
      var next := Step(Xor(crc, first));
      ReflectedStep(crc, bits[0]);
      SerialIsSteps(next, bits[1..]);
      SplitFirst(crc, bits);
    }
  }

  lemma SplitFirst(crc: Word, bits: seq<bool>)
    requires 0 < |bits| <= 64
    ensures Step(Xor(crc, Pad(bits))) == Xor(Step(Xor(crc, Pad([bits[0]]))), Pad(bits[1..]))
  {
    hide PolyWord;
    var first, others := Pad([bits[0]]), Pad([false] + bits[1..]);
    assert Xor(crc, Pad(bits)) == Xor(Xor(crc, first), others);
    StepLinear(Xor(crc, first), others);
    assert Step(others) == Pad(bits[1..]);
  }

  lemma {:induction false} SerialAppend(reg: Word, a: seq<bool>, b: seq<bool>)
    ensures Serial(reg, a + b) == Serial(Serial(reg, a), b)
    decreases a
  {
    hide SerialStep;
    if a == [] {
      assert a + b == b;
    } else {
      assert (a + b)[1..] == a[1..] + b;
      SerialAppend(SerialStep(reg, a[0]), a[1..], b);
    }
  }

  /** Byte folding equals the unreflected, bit-at-a-time CRC over the message, reflected at the end. */
  lemma {:induction false} FoldIsSerial(crc: Word, data: seq<byte>)
    ensures Serial(Reversed(crc), MessageBits(data)) == Reversed(Fold(crc, data))
    decreases data
  {
    hide Step, SerialStep, PolyWord;
    if data != [] {
      PadBits(data[0]);
      SerialIsSteps(crc, Bits(data[0], 8));
      FoldIsSerial(ByteStep(crc, data[0]), data[1..]);
      SerialAppend(Reversed(crc), Bits(data[0], 8), MessageBits(data[1..]));
    }
  }

  /** The catalogue's polynomial, and what a message leaves whose last bit is its only one: that, reflected. */
  lemma LoneBit()
    ensures Val(PolyWord()) == 0xad93_d235_94c9_35a9
    ensures Fold(ZERO, []) == ZERO && Fold(ZERO, [0x80]) == Reversed(PolyWord())
  {
    hide Step, Steps, Reversed, Xor, Bits, PolyWord, Falses;
    PolyIs();
    var w: Word := Xor(ZERO, Bits(0x80, 64));
    OnlyBit7();
    StepsShift(w, 7);
    SevenAndOne(w);
    LastStep(ShiftRight(w, 7));
    assert [0x80 as byte][1..] == [];
  }

  lemma PolyIs()
    ensures Val(PolyWord()) == 0xad93_d235_94c9_35a9
  {
    Pow2Of64();
    ValOfBits(0xad93_d235_94c9_35a9, 64);
  }

  lemma OnlyBit7()
    ensures forall i :: 0 <= i < 64 ==> Xor(ZERO, Bits(0x80, 64))[i] == (i == 7)
  {
    hide Bits, Falses;
    PadBits(0x80);
    BitsOf128();
    AllFalse(64);
  }

  lemma BitsOf128()
    ensures Bits(0x80, 8) == [false, false, false, false, false, false, false, true]
  {
    assert Bits(8, 4) == [false, false, false, true];
    assert Bits(0x80, 8) == [false, false, false, false] + Bits(8, 4);
  }

  lemma {:induction false} AllFalse(count: nat)
    ensures forall i :: 0 <= i < count ==> !Falses(count)[i]
  {
    if count > 0 {
      AllFalse(count - 1);
    }
  }

  lemma {:induction false} SevenAndOne(w: Word)
    ensures Steps(w, 8) == Step(Steps(w, 7))
  {
    hide Step;
    StepsLater(w, 7);
  }

  lemma {:induction false} StepsLater(w: Word, n: nat)
    ensures Steps(w, n + 1) == Step(Steps(w, n))
    decreases n
  {
    hide Step;
    if n > 0 {
      StepsLater(Step(w), n - 1);
    }
  }

  lemma LastStep(w: Word)
    requires forall i :: 0 <= i < 64 ==> w[i] == (i == 0)
    ensures Step(w) == Reversed(PolyWord())
  {
    hide PolyWord, Reversed;
  }

  lemma {:induction false} MessageBitsInjective(a: seq<byte>, b: seq<byte>)
    requires |a| == |b| && MessageBits(a) == MessageBits(b)
    ensures a == b
  {
    if a != [] {
      var x, y := Bits(a[0], 8), Bits(b[0], 8);
      assert x == MessageBits(a)[..8] && y == MessageBits(b)[..8];
      assert MessageBits(a[1..]) == MessageBits(a)[8..] && MessageBits(b[1..]) == MessageBits(b)[8..];
      MessageBitsInjective(a[1..], b[1..]);
      ValOfBits(a[0], 8);
      ValOfBits(b[0], 8);
      assert Pow2(8) == 16 * Pow2(4) == 256;
      assert a == [a[0]] + a[1..] && b == [b[0]] + b[1..];
    }
  }

  lemma {:induction false} ValOfBits(n: nat, count: nat)
    requires n < Pow2(count)
    ensures Val(Bits(n, count)) == n
  {
    if count > 0 {
      ValOfBits(n / 2, count - 1);
      assert Bits(n, count)[1..] == Bits(n / 2, count - 1);
    }
  }

  /** A register tells any two byte strings of equal length up to eight apart. */
  lemma FoldSeparates(crc: Word, a: seq<byte>, b: seq<byte>)
    requires |a| == |b| <= 8 && Fold(crc, a) == Fold(crc, b)
    ensures a == b
  {
    hide Fold, Steps, Serial;
    FoldIsSerial(crc, a);
    FoldIsSerial(crc, b);
    var p, q := MessageBits(a), MessageBits(b);
    SerialIsSteps(crc, p);
    SerialIsSteps(crc, q);
    ReversedInjective(Steps(Xor(crc, Pad(p)), |p|), Steps(Xor(crc, Pad(q)), |q|));
    StepsInjective(Xor(crc, Pad(p)), Xor(crc, Pad(q)), |p|);
    XorInjective(crc, Pad(p), Pad(q));
    assert p == Pad(p)[..|p|] && q == Pad(q)[..|q|];
    MessageBitsInjective(a, b);
  }

  lemma ReversedInjective(a: Word, b: Word)
    requires Reversed(a) == Reversed(b)
    ensures a == b
  {
    assert a == Reversed(Reversed(a)) && b == Reversed(Reversed(b));
  }

  lemma XorInjective(c: Word, a: Word, b: Word)
    requires Xor(c, a) == Xor(c, b)
    ensures a == b
  {
    assert a == Xor(c, Xor(c, a)) && b == Xor(c, Xor(c, b));
  }

  /** Any change confined to eight consecutive bytes changes the checksum. */
  lemma BurstDetected(pre: seq<byte>, a: seq<byte>, b: seq<byte>, post: seq<byte>)
    requires |a| == |b| <= 8 && a != b
    ensures Checksum(pre + a + post) != Checksum(pre + b + post)
  {
    hide Fold;
    var crc := Fold(ZERO, pre);
    FoldAppend(ZERO, pre + a, post);
    FoldAppend(ZERO, pre, a);
    FoldAppend(ZERO, pre + b, post);
    FoldAppend(ZERO, pre, b);
    var x, y := Fold(ZERO, pre + a + post), Fold(ZERO, pre + b + post);
    if Val(x) == Val(y) {
      BitsOfVal(x);
      BitsOfVal(y);
      FoldInjective(Fold(crc, a), Fold(crc, b), post);
      FoldSeparates(crc, a, b);
    }
  }

  // -------------------------------------------- every checksum can be reached

  /** One step backwards: the bit shifted out is the top bit the polynomial left behind. */
  function Unstep(w: Word): Word {
    var before := if w[63] then Xor(w, Reversed(PolyWord())) else w;
    [w[63]] + before[..63]
  }

  function Unsteps(w: Word, n: nat): Word
    decreases n, w
  {
    if n == 0 then w else Unstep(Unsteps(w, n - 1))
  }

  lemma StepBack(w: Word)
    ensures Step(Unstep(w)) == w
  {
    PolyIsOdd();
    hide PolyWord;
    var back := Unstep(w);
    forall i | 0 <= i < 64
      ensures Step(back)[i] == w[i]
    {
      if i < 63 {
        assert back[i + 1] == (if w[63] then w[i] != Reversed(PolyWord())[i] else w[i]);
      }
    }
  }

  lemma {:induction false} StepsBack(w: Word, n: nat)
    ensures Steps(Unsteps(w, n), n) == w
    decreases n
  {
    hide Step, Unstep;
    if n > 0 {
      StepBack(Unsteps(w, n - 1));
      StepsBack(w, n - 1);
    }
  }

  /** The register before `data`, given the register after it. */
  function Unfold(w: Word, data: seq<byte>): Word
    decreases data
  {
    if data == [] then w else Xor(Unsteps(Unfold(w, data[1..]), 8), Bits(data[0], 64))
  }

  lemma {:induction false} FoldBack(w: Word, data: seq<byte>)
    ensures Fold(Unfold(w, data), data) == w
    decreases data
  {
    hide Steps, Unsteps, Bits;
    if data != [] {
      var mid := Unfold(w, data[1..]);
      var first := Unsteps(mid, 8);
      StepsBack(mid, 8);
      assert Xor(Xor(first, Bits(data[0], 64)), Bits(data[0], 64)) == first;
      FoldBack(w, data[1..]);
    }
  }

  /** Bits eight at a time, as bytes. */
  function BytesOf(bits: seq<bool>): (data: seq<byte>)
    requires |bits| % 8 == 0
    ensures |data| == |bits| / 8
  {
    if bits == [] then []
    else
      LowByteBound(bits[..8]);
      [Val(bits[..8])] + BytesOf(bits[8..])
  }

  lemma {:induction false} BytesOfBits(bits: seq<bool>)
    requires |bits| % 8 == 0
    ensures MessageBits(BytesOf(bits)) == bits
  {
    hide Val, Bits;
    if bits != [] {
      BitsOfVal(bits[..8]);
      BytesOfBits(bits[8..]);
      assert BytesOf(bits)[1..] == BytesOf(bits[8..]);
      assert bits == bits[..8] + bits[8..];
    }
  }

  /** The eight bytes that take the register from `crc` to `target`. */
  function Bridge(crc: Word, target: Word): (data: seq<byte>)
    ensures |data| == 8
  {
    BytesOf(Xor(crc, Unsteps(target, |ZERO|)))
  }

  lemma BridgeArrives(crc: Word, target: Word)
    ensures Fold(crc, Bridge(crc, target)) == target
  {
    hide Fold, Steps, Unsteps, Serial, BytesOf;
    var data, start := Bridge(crc, target), Unsteps(target, |ZERO|);
    var bits := Xor(crc, start);
    BytesOfBits(bits);
    FoldIsSerial(crc, data);
    SerialIsSteps(crc, bits);
    assert Pad(bits) == bits;
    assert Xor(crc, bits) == start;
    StepsBack(target, |ZERO|);
    ReversedInjective(Fold(crc, data), target);
  }

  /** What to put between `pre` and `post` for the checksum to be `sum`. */
  function Filler(pre: seq<byte>, post: seq<byte>, sum: u64): (data: seq<byte>)
    ensures |data| == 8
  {
    Bridge(Fold(ZERO, pre), Unfold(Bits(sum, |ZERO|), post))
  }

  /** Whatever stands before and after, there is exactly one choice of eight bytes that gives a wanted checksum. */
  lemma EverySumReached(pre: seq<byte>, post: seq<byte>, sum: u64)
    ensures forall data: seq<byte> :: |data| == 8 ==>
              (Checksum(pre + data + post) == sum <==> data == Filler(pre, post, sum))
  {
    hide Checksum, Filler;
    FillerReaches(pre, post, sum);
    forall data: seq<byte> | |data| == 8 && data != Filler(pre, post, sum)
      ensures Checksum(pre + data + post) != sum
    {
      BurstDetected(pre, data, Filler(pre, post, sum), post);
    }
  }

  lemma FillerReaches(pre: seq<byte>, post: seq<byte>, sum: u64)
    ensures Checksum(pre + Filler(pre, post, sum) + post) == sum
  {
    hide Fold, Unfold, Bridge, Bits, Val;
    var target, mid := Bits(sum, |ZERO|), Unfold(Bits(sum, |ZERO|), post);
    var data := Filler(pre, post, sum);
    FoldAppend(ZERO, pre + data, post);
    FoldAppend(ZERO, pre, data);
    BridgeArrives(Fold(ZERO, pre), mid);
    FoldBack(target, post);
    Pow2Of64();
    ValOfBits(sum, |ZERO|);
  }
}
