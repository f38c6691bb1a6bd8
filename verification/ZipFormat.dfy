/** Values that other programs agree on: the signatures of ZIP records, checksums of known inputs, and which names of
    entries can be unpacked safely. */
module ZipFormat {
  import opened Crc32
  import opened Zip

  // ---------------------------------------------------------------- signatures and checksums

  lemma LowByte(p: int, q: int, w: int, x: int)
    requires 0 <= p < 256 && 0 <= w < 256 && p + 256 * q == w + 256 * x
    ensures p == w && q == x
  {
  }

  // Four bytes are determined by the number they stand for.
  lemma BytesOf(b: Bytes, w: Byte, x: Byte, y: Byte, z: Byte)
    requires |b| >= 4
    requires Read32(b, 0) == (w as int) + 256 * (x as int) + 65536 * (y as int) + 16777216 * (z as int)
    ensures b[..4] == [w, x, y, z]
  {
    var p: int, q: int, r: int, s: int := b[0], b[1], b[2], b[3];
    var i: int, j: int, k: int, l: int := w, x, y, z;
    LowByte(p, q + 256 * r + 65536 * s, i, j + 256 * k + 65536 * l);
    LowByte(q, r + 256 * s, j, k + 256 * l);
    LowByte(r, s, k, l);
  }

  // Every record begins with PK and two bytes of its own.
  lemma Signatures(name: Bytes, r: Row, crc: nat, compressed: nat, uncompressed: nat, count: nat, size: nat,
                   offset: nat)
    requires RowFits(r)
    ensures LocalHeader(name)[..4] == [0x50, 0x4b, 3, 4]
    ensures CentralFields(r)[..4] == [0x50, 0x4b, 1, 2]
    ensures EndRecord(count, size, offset)[..4] == [0x50, 0x4b, 5, 6]
    ensures Descriptor(crc, compressed, uncompressed)[..4] == [0x50, 0x4b, 7, 8]
  {
    hide LocalHeader, CentralFields, EndRecord, Descriptor, Read32;
    FieldsDescribe(r);
    BytesOf(LocalHeader(name), 0x50, 0x4b, 3, 4);
    BytesOf(CentralFields(r), 0x50, 0x4b, 1, 2);
    BytesOf(EndRecord(count, size, offset), 0x50, 0x4b, 5, 6);
    BytesOf(Descriptor(crc, compressed, uncompressed), 0x50, 0x4b, 7, 8);
  }

  // The checksums of nothing, of the byte 0xff and of the byte 0x7f: 0, 0xff000000 and 0x12b88320.
  lemma KnownChecksums()
    ensures Checksum([]) == Crc32.Zeros(32)
    ensures Checksum([0xff]) == Crc32.Zeros(24) + Nibble(15) + Nibble(15)
    ensures Checksum([0x7f])
         == Nibble(0) + Nibble(2) + Nibble(3) + Nibble(8) + Nibble(8) + Nibble(0xb) + Nibble(2) + Nibble(1)
  {
    hide Feed;
    NothingFed();
    AllClear();
    OneBitLeft();
  }

  lemma NothingFed()
    ensures Checksum([]) == Crc32.Zeros(32)
  {
    assert Feed(ONES, []) == ONES;
  }

  // The first byte cancels the low bits of the initial value; the rest is shifted through.
  lemma AllClear()
    ensures Checksum([0xff]) == Crc32.Zeros(24) + Nibble(15) + Nibble(15)
  {
    hide Steps, Feed, ONES, Widen;
    OneByte(0xff);
    WidenedBits();
    AllOnes();
    var v := Xor(ONES, Widen(0xff));
    assert forall i | 0 <= i < 32 :: v[i] == (i >= 8);
    ClearBitsShift(v, 8);
    HighByte(Shift(v, 8));
  }

  lemma HighByte(v: Word)
    requires forall i | 0 <= i < 32 :: v[i] == (i < 24)
    ensures Xor(v, ONES) == Crc32.Zeros(24) + Nibble(15) + Nibble(15)
  {
    hide ONES;
    AllOnes();
  }

  // The highest bit of the byte is left, and the polynomial is subtracted once.
  lemma OneBitLeft()
    ensures Checksum([0x7f])
         == Nibble(0) + Nibble(2) + Nibble(3) + Nibble(8) + Nibble(8) + Nibble(0xb) + Nibble(2) + Nibble(1)
  {
    hide Steps, Feed, POLYNOMIAL, ONES, Widen;
    OneByte(0x7f);
    AllOnes();
    WidenedBits();
    var v := Xor(ONES, Widen(0x7f));
    assert forall i | 0 <= i < 32 :: v[i] == (i >= 7);
    LastOfEight(v);
    ClearBitsShift(v, 7);
    var last := Shift(v, 7);
    assert forall i | 0 <= i < 32 :: last[i] == (i < 25);
    LastDivision(last);
  }

  lemma LastDivision(v: Word)
    requires forall i | 0 <= i < 32 :: v[i] == (i < 25)
    ensures Xor(Step(v), ONES)
         == Nibble(0) + Nibble(2) + Nibble(3) + Nibble(8) + Nibble(8) + Nibble(0xb) + Nibble(2) + Nibble(1)
  {
    hide POLYNOMIAL, Nibble, ONES;
    Polynomial();
    AllOnes();
    var low := Nibble(0) + Nibble(2) + Nibble(3) + Nibble(8) + Nibble(8) + Nibble(0xb);
    var shifted := Shift(v, 1);
    assert forall i | 0 <= i < 32 :: shifted[i] == (i < 24);
    var w := Xor(Step(v), ONES);
    Inverted();
    assert w[..24] == low;
    assert w[24..] == Nibble(2) + Nibble(1);
    assert w == low + (Nibble(2) + Nibble(1));
  }

  lemma AllOnes()
    ensures forall i | 0 <= i < 32 :: ONES[i]
  {
  }

  lemma Polynomial()
    ensures POLYNOMIAL[..24] == Nibble(0) + Nibble(2) + Nibble(3) + Nibble(8) + Nibble(8) + Nibble(0xb)
    ensures POLYNOMIAL[24..] == Nibble(0xd) + Nibble(0xe)
  {
    hide Nibble;
  }

  lemma Inverted()
    ensures forall i | 0 <= i < 8 :: (Nibble(2) + Nibble(1))[i] != (Nibble(0xd) + Nibble(0xe))[i]
  {
  }

  lemma OneByte(b: Byte)
    ensures Checksum([b]) == Xor(Steps(Xor(ONES, Widen(b)), 8), ONES)
  {
    hide Steps;
    assert Feed(FeedByte(ONES, b), []) == FeedByte(ONES, b);
    assert [b][1..] == [];
  }

  lemma WidenedBits()
    ensures forall i | 0 <= i < 32 :: Widen(0xff)[i] == (i < 8)
    ensures forall i | 0 <= i < 32 :: Widen(0x7f)[i] == (i < 7)
  {
    hide Bits;
    AllBits();
    SevenBits();
  }

  lemma AllBits()
    ensures Bits(0xff, 8) == [true, true, true, true, true, true, true, true]
  {
    assert Bits(3, 2) == [true, true];
    assert Bits(15, 4) == [true, true] + Bits(3, 2);
    assert Bits(63, 6) == [true, true] + Bits(15, 4);
  }

  lemma SevenBits()
    ensures Bits(0x7f, 8) == [true, true, true, true, true, true, true, false]
  {
    assert Bits(1, 2) == [true, false];
    assert Bits(7, 4) == [true, true] + Bits(1, 2);
    assert Bits(31, 6) == [true, true] + Bits(7, 4);
  }

  lemma {:induction false} LastOfEight(v: Word)
    ensures Steps(v, 8) == Step(Steps(v, 7))
  {
    LastStep(v, 7);
  }

  lemma {:induction false} LastStep(v: Word, n: nat)
    ensures Steps(v, n + 1) == Step(Steps(v, n))
    decreases n
  {
    if n > 0 { LastStep(Step(v), n - 1); }
  }

  // ---------------------------------------------------------------- names of entries

  // parts.join('/')
  function Joined(parts: seq<Bytes>): Bytes
    requires parts != []
  {
    if |parts| == 1 then parts[0] else parts[0] + [47] + Joined(parts[1..])
  }

  // A directory or file name in a path.
  predicate IsPart(part: Bytes) { forall i | 0 <= i < |part| :: part[i] != 47 }

  predicate IsDots(part: Bytes) { part == [46] || part == [46, 46] }

  lemma DotsAlone(part: Bytes)
    requires IsPart(part)
    ensures HasDotPart(part) <==> IsDots(part)
  {
    if i :| 0 <= i < |part| && DotsAt(part, i) { assert i == 0; }
    if IsDots(part) { assert DotsAt(part, 0); }
  }

  lemma DotsBehindPart(part: Bytes, rest: Bytes)
    requires IsPart(part)
    ensures HasDotPart(part + [47] + rest) <==> IsDots(part) || HasDotPart(rest)
  {
    var name, n := part + [47] + rest, |part| + 1;
    forall i | 0 <= i < |rest| ensures DotsAt(name, n + i) <==> DotsAt(rest, i) {
      assert forall k | 0 <= k < |rest| :: name[n + k] == rest[k];
      assert name[n - 1] == 47;
    }
    forall i | 0 <= i < n ensures DotsAt(name, i) <==> i == 0 && IsDots(part) {
      assert forall k | 0 <= k < |part| :: name[k] == part[k];
      assert name[|part|] == 47;
    }
    if i :| 0 <= i < |name| && DotsAt(name, i) {
      if i >= n { assert DotsAt(rest, i - n); }
    }
    if i :| 0 <= i < |rest| && DotsAt(rest, i) { assert DotsAt(name, n + i); }
    if IsDots(part) { assert DotsAt(name, 0); }
  }

  lemma {:induction false} DotsInParts(parts: seq<Bytes>)
    requires parts != [] && forall i | 0 <= i < |parts| :: IsPart(parts[i])
    ensures HasDotPart(Joined(parts)) <==> exists i | 0 <= i < |parts| :: IsDots(parts[i])
    decreases |parts|
  {
    hide HasDotPart;
    if |parts| == 1 {
      DotsAlone(parts[0]);
    } else {
      var rest := parts[1..];
      DotsInParts(rest);
      DotsBehindPart(parts[0], Joined(rest));
      if i :| 0 <= i < |parts| && IsDots(parts[i]) {
        if i > 0 { assert IsDots(rest[i - 1]); }
      }
      if i :| 0 <= i < |rest| && IsDots(rest[i]) { assert IsDots(parts[i + 1]); }
    }
  }

  lemma {:induction false} BytesOfParts(parts: seq<Bytes>, b: Byte)
    requires parts != [] && b != 47
    ensures b in Joined(parts) <==> exists i | 0 <= i < |parts| :: b in parts[i]
    decreases |parts|
  {
    if |parts| > 1 {
      var rest := parts[1..];
      BytesOfParts(rest, b);
      if i :| 0 <= i < |parts| && b in parts[i] {
        if i > 0 { assert b in rest[i - 1]; }
      }
      if i :| 0 <= i < |rest| && b in rest[i] { assert b in parts[i + 1]; }
    }
  }

  lemma {:induction false} EndsOfParts(parts: seq<Bytes>)
    requires parts != [] && forall i | 0 <= i < |parts| :: IsPart(parts[i])
    ensures Joined(parts) == [] <==> parts == [[]]
    ensures Joined(parts) != [] ==>
              && (Joined(parts)[0] == 47 <==> parts[0] == [])
              && (Joined(parts)[|Joined(parts)| - 1] == 47 <==> parts[|parts| - 1] == [])
    decreases |parts|
  {
    if |parts| > 1 {
      var rest := parts[1..];
      EndsOfParts(rest);
      assert Joined(parts) == parts[0] + [47] + Joined(rest);
    }
  }

  predicate IsDrive(part: Bytes) {
    |part| >= 2 && (65 <= part[0] <= 90 || 97 <= part[0] <= 122) && part[1] == 58
  }

  // A path is accepted exactly when it neither begins nor ends with a slash, names neither this nor the parent
  // directory anywhere, holds neither a backslash nor a zero, and does not begin with the letter of a drive.
  lemma SafeNames(parts: seq<Bytes>)
    requires parts != [] && forall i | 0 <= i < |parts| :: IsPart(parts[i])
    ensures Safe(Joined(parts)) <==>
              && parts[0] != [] && parts[|parts| - 1] != []
              && (forall i | 0 <= i < |parts| :: !IsDots(parts[i]) && 92 !in parts[i] && 0 !in parts[i])
              && !IsDrive(parts[0])
  {
    hide HasDotPart;
    var name := Joined(parts);
    EndsOfParts(parts);
    DotsInParts(parts);
    BytesOfParts(parts, 92);
    BytesOfParts(parts, 0);
    DriveOfParts(parts);
  }

  lemma DriveOfParts(parts: seq<Bytes>)
    requires parts != [] && IsPart(parts[0])
    ensures IsDrive(Joined(parts)) <==> IsDrive(parts[0])
  {
    if |parts| > 1 { assert Joined(parts) == parts[0] + [47] + Joined(parts[1..]); }
  }
}
