/** The table-driven CRC-32 of backup.service.ts against bit-by-bit division by the polynomial 0xEDB88320.

    A 32-bit number is the sequence of its bits, least significant first. */
module Crc32 {
  import opened Sequences

  type Byte = x: int | 0 <= x < 256

  type Word = w: seq<bool> | |w| == 32 witness Zeros(32)

  // ---------------------------------------------------------------- numbers and bits

  function Bits(n: nat, length: nat): (s: seq<bool>)
    ensures |s| == length
  {
    if length == 0 then [] else [n % 2 == 1] + Bits(n / 2, length - 1)
  }

  function Number(s: seq<bool>): nat {
    if s == [] then 0 else (if s[0] then 1 else 0) + 2 * Number(s[1..])
  }

  function Power2(n: nat): nat { if n == 0 then 1 else 2 * Power2(n - 1) }

  lemma {:induction false} BitsOfNumber(s: seq<bool>)
    ensures Bits(Number(s), |s|) == s && Number(s) < Power2(|s|)
  {
    if s != [] {
      BitsOfNumber(s[1..]);
      var n := Number(s);
      assert n / 2 == Number(s[1..]) && (n % 2 == 1) == s[0];
      assert s == [s[0]] + s[1..];
    }
  }

  lemma {:induction false} NumberOfBits(n: nat, length: nat)
    requires n < Power2(length)
    ensures Number(Bits(n, length)) == n
  {
    if length > 0 {
      NumberOfBits(n / 2, length - 1);
      assert Bits(n, length)[1..] == Bits(n / 2, length - 1);
    }
  }

  lemma Power2Of8()
    ensures Power2(8) == 256
  {
    assert Power2(4) == 16;
  }

  function Zeros(n: nat): (s: seq<bool>)
    ensures |s| == n && forall i | 0 <= i < n :: !s[i]
  {
    if n == 0 then [] else [false] + Zeros(n - 1)
  }

  // A byte as a 32-bit number.
  function Widen(b: Byte): Word { Bits(b, 8) + Zeros(24) }

  function Nibble(d: nat): (s: seq<bool>)
    ensures |s| == 4
  {
    [d % 2 == 1, d / 2 % 2 == 1, d / 4 % 2 == 1, d / 8 % 2 == 1]
  }

  // 0xedb88320
  const POLYNOMIAL: Word :=
    Nibble(0) + Nibble(2) + Nibble(3) + Nibble(8) + Nibble(8) + Nibble(0xb) + Nibble(0xd) + Nibble(0xe)

  // 0xffffffff
  const ONES: Word :=
    Nibble(15) + Nibble(15) + Nibble(15) + Nibble(15) + Nibble(15) + Nibble(15) + Nibble(15) + Nibble(15)

  // ---------------------------------------------------------------- the operations of the source on 32 bits

  function Xor(x: Word, y: Word): Word { seq(32, i requires 0 <= i < 32 => x[i] != y[i]) }

  // >>> n
  function Shift(x: Word, n: nat): Word
    requires n <= 32
  {
    x[n..] + Zeros(n)
  }

  // & 0xff
  function Low(x: Word): Word { x[..8] + Zeros(24) }

  // One step of the reflected division: shift one bit out, and subtract the polynomial if it was set.
  function Step(v: Word): Word {
    if v[0] then Xor(POLYNOMIAL, Shift(v, 1)) else Shift(v, 1)
  }

  function Steps(v: Word, n: nat): Word
    decreases n
  {
    if n == 0 then v else Steps(Step(v), n - 1)
  }

  // Reference definition: one byte bit by bit, and a sequence byte by byte.
  function FeedByte(crc: Word, b: Byte): Word { Steps(Xor(crc, Widen(b)), 8) }

  function Feed(crc: Word, data: seq<Byte>): Word
    decreases data
  {
    if data == [] then crc else Feed(FeedByte(crc, data[0]), data[1..])
  }

  // The checksum recorded for a whole file.
  function Checksum(data: seq<Byte>): Word { Xor(Feed(ONES, data), ONES) }

  // ---------------------------------------------------------------- linearity

  lemma StepIsLinear(x: Word, y: Word)
    ensures Step(Xor(x, y)) == Xor(Step(x), Step(y))
  {
    assert Shift(Xor(x, y), 1) == Xor(Shift(x, 1), Shift(y, 1));
  }

  lemma {:induction false} StepsAreLinear(x: Word, y: Word, n: nat)
    ensures Steps(Xor(x, y), n) == Xor(Steps(x, n), Steps(y, n))
    decreases n
  {
    if n > 0 {
      StepIsLinear(x, y);
      StepsAreLinear(Step(x), Step(y), n - 1);
    }
  }

  // A value whose low n bits are clear is only shifted by n steps.
  lemma {:induction false} ClearBitsShift(v: Word, n: nat)
    requires n <= 32 && forall i | 0 <= i < n :: !v[i]
    ensures Steps(v, n) == Shift(v, n)
    decreases n
  {
    if n > 0 {
      var w := Shift(v, 1);
      assert Step(v) == w;
      ClearBitsShift(w, n - 1);
      assert Shift(w, n - 1) == Shift(v, n);
    }
  }

  // Eight steps at once: look the low byte up, shift the rest.
  lemma EightSteps(v: Word)
    ensures Steps(v, 8) == Xor(Steps(Low(v), 8), Shift(v, 8))
  {
    var high: Word := Zeros(8) + v[8..];
    assert v == Xor(Low(v), high);
    StepsAreLinear(Low(v), high, 8);
    ClearBitsShift(high, 8);
    assert Shift(high, 8) == Shift(v, 8);
  }

  // ---------------------------------------------------------------- the table and the update loop

  ghost predicate IsTable(table: seq<Word>) {
    |table| == 256 && forall i | 0 <= i < 256 :: table[i] == Steps(Widen(i), 8)
  }

  // ZIP_CRC_TABLE.
  method BuildTable() returns (table: seq<Word>)
    ensures IsTable(table)
  {
    hide Xor, Shift, Widen;
    table := [];
    for index := 0 to 256
      invariant |table| == index && forall i | 0 <= i < index :: table[i] == Steps(Widen(i), 8)
    {
      var value := Widen(index);
      for bit := 0 to 8
        invariant Steps(value, 8 - bit) == Steps(Widen(index), 8)
      {
        value := if value[0] then Xor(POLYNOMIAL, Shift(value, 1)) else Shift(value, 1);
      }
      table := table + [value];
    }
  }

  // crc32Update.
  method Update(table: seq<Word>, crc: Word, data: seq<Byte>) returns (value: Word)
    requires IsTable(table)
    ensures value == Feed(crc, data)
  {
    value := crc;
    var i := 0;
    while i < |data|
      invariant 0 <= i <= |data|
      invariant Feed(value, data[i..]) == Feed(crc, data)
    {
      assert data[i..][0] == data[i] && data[i..][1..] == data[i + 1..];
      var index := LookUp(Xor(value, Widen(data[i])));
      TableStep(table, value, data[i], index);
      value := Xor(table[index], Shift(value, 8));
      i := i + 1;
    }
    assert data[i..] == [];
  }

  // The number & 0xff stands for.
  method LookUp(x: Word) returns (index: nat)
    ensures index < 256 && Widen(index) == Low(x)
  {
    index := Number(x[..8]);
    BitsOfNumber(x[..8]);
    Power2Of8();
  }

  lemma TableStep(table: seq<Word>, value: Word, b: Byte, index: nat)
    requires IsTable(table) && index < 256 && Widen(index) == Low(Xor(value, Widen(b)))
    ensures Xor(table[index], Shift(value, 8)) == FeedByte(value, b)
  {
    var x := Xor(value, Widen(b));
    EightSteps(x);
    assert Shift(x, 8) == Shift(value, 8);
  }

  // ---------------------------------------------------------------- chunks

  // Updating over a concatenation is updating over its parts in turn.
  lemma {:induction false} FeedConcatenates(crc: Word, a: seq<Byte>, b: seq<Byte>)
    ensures Feed(crc, a + b) == Feed(Feed(crc, a), b)
    decreases a
  {
    if a == [] {
      assert a + b == b;
    } else {
      assert (a + b)[0] == a[0] && (a + b)[1..] == a[1..] + b;
      FeedConcatenates(FeedByte(crc, a[0]), a[1..], b);
    }
  }

  function FeedChunks(crc: Word, chunks: seq<seq<Byte>>): Word {
    if chunks == [] then crc else Feed(FeedChunks(crc, chunks[..|chunks| - 1]), chunks[|chunks| - 1])
  }

  lemma {:induction false} ChunkingDoesNotMatter(crc: Word, chunks: seq<seq<Byte>>)
    ensures FeedChunks(crc, chunks) == Feed(crc, Concat(chunks))
    decreases |chunks|
  {
    if chunks != [] {
      var front := chunks[..|chunks| - 1];
      ChunkingDoesNotMatter(crc, front);
      FeedConcatenates(crc, Concat(front), chunks[|chunks| - 1]);
    }
  }

  // ---------------------------------------------------------------- error detection

  // The polynomial has its top bit set, so the top bit of a step's result tells which bit was shifted out.
  lemma StepIsInjective(x: Word, y: Word)
    requires Step(x) == Step(y)
    ensures x == y
  {
    assert POLYNOMIAL[31] == Nibble(0xe)[3];
    assert Step(x)[31] == x[0] && Step(y)[31] == y[0];
    forall i | 0 <= i < 32 ensures x[i] == y[i] {
      if i > 0 {
        assert Shift(x, 1)[i - 1] == x[i] && Shift(y, 1)[i - 1] == y[i];
        assert Step(x)[i - 1] == Step(y)[i - 1];
      }
    }
  }

  lemma {:induction false} StepsAreInjective(x: Word, y: Word, n: nat)
    requires Steps(x, n) == Steps(y, n)
    ensures x == y
    decreases n
  {
    if n > 0 {
      StepsAreInjective(Step(x), Step(y), n - 1);
      StepIsInjective(x, y);
    }
  }

  lemma XorCancels(c: Word, x: Word, y: Word)
    requires Xor(c, x) == Xor(c, y)
    ensures x == y
  {
    forall i | 0 <= i < 32 ensures x[i] == y[i] {
      assert Xor(c, x)[i] == (c[i] != x[i]) && Xor(c, y)[i] == (c[i] != y[i]);
    }
  }

  lemma XorCommutes(x: Word, y: Word)
    ensures Xor(x, y) == Xor(y, x)
  {
  }

  lemma {:induction false} FeedIsInjective(x: Word, y: Word, data: seq<Byte>)
    requires Feed(x, data) == Feed(y, data)
    ensures x == y
    decreases data
  {
    if data != [] {
      FeedIsInjective(FeedByte(x, data[0]), FeedByte(y, data[0]), data[1..]);
      var b := Widen(data[0]);
      StepsAreInjective(Xor(x, b), Xor(y, b), 8);
      XorCommutes(x, b);
      XorCommutes(y, b);
      XorCancels(b, x, y);
    }
  }

  lemma ByteIsInjective(crc: Word, a: Byte, b: Byte)
    requires FeedByte(crc, a) == FeedByte(crc, b)
    ensures a == b
  {
    StepsAreInjective(Xor(crc, Widen(a)), Xor(crc, Widen(b)), 8);
    XorCancels(crc, Widen(a), Widen(b));
    assert Bits(a, 8) == Widen(a)[..8] == Widen(b)[..8] == Bits(b, 8);
    Power2Of8();
    NumberOfBits(a, 8);
    NumberOfBits(b, 8);
  }

  // Any change of a single byte, wherever it is, changes the checksum.
  lemma OneChangedByteIsDetected(data: seq<Byte>, i: nat, b: Byte)
    requires i < |data| && b != data[i]
    ensures Checksum(data[i := b]) != Checksum(data)
  {
    hide Feed, FeedByte, Steps, Widen, Xor;
    var was := data[i];
    var prefix, suffix := data[..i], data[i + 1..];
    var crc := Feed(ONES, prefix);
    FeedAround(prefix, was, suffix);
    FeedAround(prefix, b, suffix);
    assert data == prefix + [was] + suffix && data[i := b] == prefix + [b] + suffix;
    if Checksum(data[i := b]) == Checksum(data) {
      XorCommutes(Feed(ONES, data), ONES);
      XorCommutes(Feed(ONES, data[i := b]), ONES);
      XorCancels(ONES, Feed(ONES, data), Feed(ONES, data[i := b]));
      FeedIsInjective(FeedByte(crc, was), FeedByte(crc, b), suffix);
      ByteIsInjective(crc, was, b);
      assert false;
    }
  }

  lemma FeedAround(prefix: seq<Byte>, b: Byte, suffix: seq<Byte>)
    ensures Feed(ONES, prefix + [b] + suffix) == Feed(FeedByte(Feed(ONES, prefix), b), suffix)
  {
    var crc := Feed(ONES, prefix);
    assert prefix + [b] + suffix == prefix + ([b] + suffix);
    FeedConcatenates(ONES, prefix, [b] + suffix);
    assert ([b] + suffix)[1..] == suffix;
  }
}
