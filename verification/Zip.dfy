/** The ZIP writer and reader of backup.service.ts (APPNOTE.TXT sections 4.3.7, 4.3.9, 4.3.12 and 4.3.16).

    deflate and inflate are parameters, related only by being inverse. Names are their UTF-8 bytes. */
module Zip {
  import opened Wrappers
  import opened Sequences
  import Crc32

  type Byte = Crc32.Byte

  type Bytes = seq<Byte>

  const LOCAL := 0x04034b50
  const DESCRIPTOR := 0x08074b50
  const CENTRAL := 0x02014b50
  const END := 0x06054b50
  const MAX16 := 0xffff
  const MAX32 := 0xffffffff
  const MAX_ENTRIES := 100000
  const MAX_DIRECTORY := 32 * 1024 * 1024
  const MAX_MANIFEST := 1024 * 1024
  const SLASH: Byte := 47
  const BACKSLASH: Byte := 92
  const DOT: Byte := 46
  const COLON: Byte := 58

  datatype ZipError = BadName | TooLarge | NoDirectory | BadArchive | BadEntry | UnsafeEntry | BadLocal

  // ---------------------------------------------------------------- little-endian fields of a buffer

  function Read16(b: Bytes, o: nat): nat
    requires o + 2 <= |b|
  {
    (b[o] as int) + 256 * (b[o + 1] as int)
  }

  function Read32(b: Bytes, o: nat): nat
    requires o + 4 <= |b|
  {
    (b[o] as int) + 256 * (b[o + 1] as int) + 65536 * (b[o + 2] as int) + 16777216 * (b[o + 3] as int)
  }

  // The source throws when a value does not fit its field; Writable below says when that happens.
  function Put16(b: Bytes, o: nat, v: nat): (r: Bytes)
    requires o + 2 <= |b|
    ensures |r| == |b| && (v <= MAX16 ==> Read16(r, o) == v)
    ensures forall i | 0 <= i < |b| && (i < o || i >= o + 2) :: r[i] == b[i]
  {
    b[o := v % 256][o + 1 := v / 256 % 256]
  }

  function Put32(b: Bytes, o: nat, v: nat): (r: Bytes)
    requires o + 4 <= |b|
    ensures |r| == |b| && (v <= MAX32 ==> Read32(r, o) == v)
    ensures forall i | 0 <= i < |b| && (i < o || i >= o + 4) :: r[i] == b[i]
  {
    FourBytes(v);
    b[o := v % 256][o + 1 := v / 256 % 256][o + 2 := v / 65536 % 256][o + 3 := v / 16777216 % 256]
  }

  lemma FourBytes(v: nat)
    ensures v <= MAX32 ==> v / 16777216 < 256
    ensures v == v % 256 + 256 * (v / 256 % 256) + 65536 * (v / 65536 % 256) + 16777216 * (v / 16777216)
  {
    assert v / 256 == v / 256 % 256 + 256 * (v / 65536);
    assert v / 65536 == v / 65536 % 256 + 256 * (v / 16777216);
  }

  // Buffer.alloc(n)
  function Alloc(n: nat): (b: Bytes)
    ensures |b| == n && forall i | 0 <= i < n :: b[i] == 0
  {
    if n == 0 then [] else [0] + Alloc(n - 1)
  }

  // Fields of a record can be read wherever the record lies in a buffer.
  lemma FieldIn(a: Bytes, o: nat, h: Bytes, k: nat)
    requires o + |h| <= |a| && a[o..o + |h|] == h
    ensures k + 2 <= |h| ==> Read16(a, o + k) == Read16(h, k)
    ensures k + 4 <= |h| ==> Read32(a, o + k) == Read32(h, k)
  {
    if k + 2 <= |h| { assert h[k] == a[o + k] && h[k + 1] == a[o + k + 1]; }
    if k + 4 <= |h| { assert h[k + 2] == a[o + k + 2] && h[k + 3] == a[o + k + 3]; }
  }

  // ---------------------------------------------------------------- the four records

  datatype Entry = Entry(name: Bytes, content: Bytes)

  type Codec = Bytes -> Bytes

  // A name as it is stored: every backslash is a slash.
  function Stored(name: Bytes): (n: Bytes)
    ensures |n| == |name| && forall i | 0 <= i < |name| :: n[i] == if name[i] == BACKSLASH then SLASH else name[i]
  {
    seq(|name|, i requires 0 <= i < |name| => if name[i] == BACKSLASH then SLASH else name[i])
  }

  predicate NameFits(name: Bytes) { 0 < |name| <= MAX16 }

  function LocalHeader(name: Bytes): (h: Bytes)
    ensures |h| == 30 + |name| && h[30..] == name
    ensures Read32(h, 0) == LOCAL && Read16(h, 28) == 0 && (NameFits(name) ==> Read16(h, 26) == |name|)
  {
    var h := Alloc(30);
    var h := Put32(h, 0, LOCAL);
    var h := Put16(h, 4, 20);
    var h := Put16(h, 6, 0x0808);
    var h := Put16(h, 8, 8);
    var h := Put16(h, 26, |name|);
    h + name
  }

  function Descriptor(crc: nat, compressed: nat, uncompressed: nat): (d: Bytes)
    ensures |d| == 16 && Read32(d, 0) == DESCRIPTOR
    ensures crc <= MAX32 && compressed <= MAX32 && uncompressed <= MAX32 ==>
              Read32(d, 4) == crc && Read32(d, 8) == compressed && Read32(d, 12) == uncompressed
  {
    Put32(Put32(Put32(Put32(Alloc(16), 0, DESCRIPTOR), 4, crc), 8, compressed), 12, uncompressed)
  }

  datatype Row = Row(name: Bytes, crc: nat, compressed: nat, uncompressed: nat, offset: nat)

  predicate RowFits(r: Row) {
    NameFits(r.name) && r.crc <= MAX32 && r.compressed <= MAX32 && r.uncompressed <= MAX32 && r.offset <= MAX32
  }

  function CentralFields(r: Row): (h: Bytes)
    ensures |h| == 46
  {
    var h := Alloc(46);
    var h := Put32(h, 0, CENTRAL);
    var h := Put16(h, 4, 20);
    var h := Put16(h, 6, 20);
    var h := Put16(h, 8, 0x0808);
    var h := Put16(h, 10, 8);
    var h := Put32(h, 16, r.crc);
    var h := Put32(h, 20, r.compressed);
    var h := Put32(h, 24, r.uncompressed);
    var h := Put16(h, 28, |r.name|);
    Put32(h, 42, r.offset)
  }

  function CentralHeader(r: Row): (h: Bytes)
    ensures |h| == 46 + |r.name| && h[46..] == r.name && h[..46] == CentralFields(r)
  {
    CentralFields(r) + r.name
  }

  // Writing one field leaves the others as they are.
  lemma Kept16(b: Bytes, o: nat, v: nat)
    requires o + 2 <= |b|
    ensures forall k: nat | k + 2 <= |b| && (k + 2 <= o || o + 2 <= k) :: Read16(Put16(b, o, v), k) == Read16(b, k)
    ensures forall k: nat | k + 4 <= |b| && (k + 4 <= o || o + 2 <= k) :: Read32(Put16(b, o, v), k) == Read32(b, k)
  {
  }

  lemma Kept32(b: Bytes, o: nat, v: nat)
    requires o + 4 <= |b|
    ensures forall k: nat | k + 2 <= |b| && (k + 2 <= o || o + 4 <= k) :: Read16(Put32(b, o, v), k) == Read16(b, k)
    ensures forall k: nat | k + 4 <= |b| && (k + 4 <= o || o + 4 <= k) :: Read32(Put32(b, o, v), k) == Read32(b, k)
  {
  }

  lemma FieldsDescribe(r: Row)
    requires RowFits(r)
    ensures Describes(CentralFields(r), r)
  {
    hide Read16, Read32, Put16, Put32;
    var h0 := Alloc(46);
    assert Read16(h0, 30) == 0 && Read16(h0, 32) == 0 by { Zeros(h0); }
    Kept32(h0, 0, CENTRAL);
    var h1 := Put32(h0, 0, CENTRAL);
    Kept16(h1, 4, 20);
    var h2 := Put16(h1, 4, 20);
    Kept16(h2, 6, 20);
    var h3 := Put16(h2, 6, 20);
    Kept16(h3, 8, 0x0808);
    var h4 := Put16(h3, 8, 0x0808);
    Kept16(h4, 10, 8);
    var h5 := Put16(h4, 10, 8);
    Kept32(h5, 16, r.crc);
    var h6 := Put32(h5, 16, r.crc);
    Kept32(h6, 20, r.compressed);
    var h7 := Put32(h6, 20, r.compressed);
    Kept32(h7, 24, r.uncompressed);
    var h8 := Put32(h7, 24, r.uncompressed);
    Kept16(h8, 28, |r.name|);
    var h9 := Put16(h8, 28, |r.name|);
    Kept32(h9, 42, r.offset);
  }

  lemma Zeros(b: Bytes)
    requires forall i | 0 <= i < |b| :: b[i] == 0
    ensures forall k: nat | k + 2 <= |b| :: Read16(b, k) == 0
  {
  }

  // The fields of a central directory header that the reader looks at.
  predicate Describes(h: Bytes, r: Row)
    requires |h| >= 46
  {
    && Read32(h, 0) == CENTRAL && Read16(h, 8) == 0x0808 && Read16(h, 10) == 8 && Read32(h, 16) == r.crc
    && Read32(h, 20) == r.compressed && Read32(h, 24) == r.uncompressed
    && Read16(h, 28) == |r.name| && Read16(h, 30) == 0 && Read16(h, 32) == 0
    && Read32(h, 42) == r.offset
  }

  function EndRecord(count: nat, size: nat, offset: nat): (e: Bytes)
    ensures |e| == 22 && Read32(e, 0) == END
    ensures count <= MAX16 && size <= MAX32 && offset <= MAX32 ==>
              Read16(e, 10) == count && Read32(e, 12) == size && Read32(e, 16) == offset
  {
    var e := Alloc(22);
    var e := Put32(e, 0, END);
    var e := Put16(e, 8, count);
    var e := Put16(e, 10, count);
    var e := Put32(e, 12, size);
    Put32(e, 16, offset)
  }

  // ---------------------------------------------------------------- concatenated records

  // Where part k begins.
  function Offset(parts: seq<Bytes>, k: nat): nat
    requires k <= |parts|
  {
    |Concat(parts[..k])|
  }

  lemma ConcatAt(parts: seq<Bytes>, k: nat)
    requires k < |parts|
    ensures Offset(parts, k) + |parts[k]| == Offset(parts, k + 1) <= |Concat(parts)|
    ensures Concat(parts)[Offset(parts, k)..Offset(parts, k + 1)] == parts[k]
  {
    ConcatPrefix(parts, k + 1);
    ConcatOneMore(parts, k);
    var a, b := Offset(parts, k), Offset(parts, k + 1);
    assert Concat(parts)[a..b] == Concat(parts)[..b][a..];
  }

  // ---------------------------------------------------------------- the archive

  function CrcOf(content: Bytes): nat { Crc32.Number(Crc32.Checksum(content)) }

  lemma CrcFits(content: Bytes)
    ensures CrcOf(content) <= MAX32
  {
    var s := Crc32.Checksum(content);
    Crc32.BitsOfNumber(s);
    assert Crc32.Power2(32) == MAX32 + 1 by {
      assert Crc32.Power2(12) == 4096;
      assert Crc32.Power2(16) == 65536;
      assert Crc32.Power2(20) == 1048576;
      assert Crc32.Power2(24) == 16777216;
      assert Crc32.Power2(28) == 268435456;
    }
  }

  // Local header, compressed data and data descriptor of one entry.
  function Member(e: Entry, deflate: Codec): (m: Bytes)
    ensures |m| == 30 + |e.name| + |deflate(e.content)| + 16
  {
    LocalHeader(Stored(e.name)) + deflate(e.content) + Descriptor(CrcOf(e.content), |deflate(e.content)|, |e.content|)
  }

  function Members(entries: seq<Entry>, deflate: Codec): (members: seq<Bytes>)
    ensures |members| == |entries| && forall i | 0 <= i < |entries| :: members[i] == Member(entries[i], deflate)
  {
    seq(|entries|, i requires 0 <= i < |entries| => Member(entries[i], deflate))
  }

  function RowAt(e: Entry, deflate: Codec, offset: nat): Row {
    Row(Stored(e.name), CrcOf(e.content), |deflate(e.content)|, |e.content|, offset)
  }

  function Rows(entries: seq<Entry>, deflate: Codec): (rows: seq<Row>)
    ensures |rows| == |entries|
    ensures forall i | 0 <= i < |entries| :: rows[i] == RowAt(entries[i], deflate, Offset(Members(entries, deflate), i))
  {
    seq(|entries|, i requires 0 <= i < |entries| => RowAt(entries[i], deflate, Offset(Members(entries, deflate), i)))
  }

  function Headers(rows: seq<Row>): (headers: seq<Bytes>)
    ensures |headers| == |rows| && forall i | 0 <= i < |rows| :: headers[i] == CentralHeader(rows[i])
  {
    seq(|rows|, i requires 0 <= i < |rows| => CentralHeader(rows[i]))
  }

  function Data(entries: seq<Entry>, deflate: Codec): Bytes { Concat(Members(entries, deflate)) }

  function Directory(entries: seq<Entry>, deflate: Codec): Bytes { Concat(Headers(Rows(entries, deflate))) }

  predicate EntryFits(e: Entry, deflate: Codec) {
    NameFits(e.name) && |e.content| <= MAX32 && |deflate(e.content)| <= MAX32
  }

  // Everything the fixed-width fields can hold; beyond it the writer throws.
  predicate Writable(entries: seq<Entry>, deflate: Codec) {
    && (forall i | 0 <= i < |entries| :: EntryFits(entries[i], deflate))
    && |entries| <= MAX16 && |Data(entries, deflate)| <= MAX32 && |Directory(entries, deflate)| <= MAX32
  }

  function Archive(entries: seq<Entry>, deflate: Codec): Bytes {
    Data(entries, deflate) + Directory(entries, deflate)
      + EndRecord(|entries|, |Directory(entries, deflate)|, |Data(entries, deflate)|)
  }

  // ---------------------------------------------------------------- the reader

  datatype ZipEntry = ZipEntry(name: Bytes, compression: nat, compressed: nat, uncompressed: nat, offset: nat)

  // readAt: as much of the requested range as the file has.
  function ReadAt(file: Bytes, offset: nat, length: nat): (b: Bytes)
    ensures |b| <= length
  {
    if offset >= |file| then []
    else if offset + length <= |file| then file[offset..offset + length]
    else file[offset..]
  }

  predicate IsLetter(b: Byte) { 65 <= b <= 90 || 97 <= b <= 122 }

  // At position i of the name a part begins that is `.` or `..`.
  predicate DotsAt(name: Bytes, i: nat)
    requires i < |name|
  {
    && (i == 0 || name[i - 1] == SLASH) && name[i] == DOT
    && (i + 1 == |name| || name[i + 1] == SLASH || (name[i + 1] == DOT && (i + 2 == |name| || name[i + 2] == SLASH)))
  }

  // name.split('/') has such a part.
  predicate HasDotPart(name: Bytes) { exists i | 0 <= i < |name| :: DotsAt(name, i) }

  predicate Safe(name: Bytes) {
    && name != [] && BACKSLASH !in name && 0 !in name
    && name[|name| - 1] != SLASH && name[0] != SLASH
    && !(|name| >= 2 && IsLetter(name[0]) && name[1] == COLON)
    && !HasDotPart(name)
  }

  // The search for the end record, from index i of the tail downwards.
  function FindEnd(tail: Bytes, i: int): (end: Option<nat>)
    requires i + 22 <= |tail|
    ensures end.Some? ==> end.value + 22 <= |tail|
    decreases i
  {
    if i < 0 then None else if Read32(tail, i) == END then Some(i) else FindEnd(tail, i - 1)
  }

  // One iteration of the loop over the central directory: the entry and the next cursor.
  function ReadOne(
    file: Bytes, directory: Bytes, centralOffset: nat, cursor: nat, seen: set<Bytes>): Result<(ZipEntry, nat), ZipError>
  {
    if cursor + 46 > |directory| || Read32(directory, cursor) != CENTRAL then Err(BadEntry)
    else
      var flags, compression := Read16(directory, cursor + 8), Read16(directory, cursor + 10);
      var compressed, uncompressed := Read32(directory, cursor + 20), Read32(directory, cursor + 24);
      var nameLength := Read16(directory, cursor + 28);
      var offset := Read32(directory, cursor + 42);
      var entryEnd := cursor + 46 + nameLength + Read16(directory, cursor + 30) + Read16(directory, cursor + 32);
      if entryEnd > |directory| || offset + 30 > centralOffset then Err(BadEntry)
      else
        var name := directory[cursor + 46..cursor + 46 + nameLength];
        if !Safe(name) || flags % 2 != 0 || compression !in {0, 8} || name in seen then Err(UnsafeEntry)
        else
          var local := ReadAt(file, offset, 30);
          if |local| < 30 || Read32(local, 0) != LOCAL then Err(BadLocal)
          else if offset + 30 + Read16(local, 26) + Read16(local, 28) + compressed > centralOffset then Err(BadLocal)
          else Ok((ZipEntry(name, compression, compressed, uncompressed, offset), entryEnd))
  }

  function ReadFrom(
    file: Bytes, directory: Bytes, centralOffset: nat, count: nat, cursor: nat, seen: set<Bytes>)
    : Result<seq<ZipEntry>, ZipError>
    decreases count
  {
    if count == 0 then Ok([])
    else
      match ReadOne(file, directory, centralOffset, cursor, seen)
      case Err(e) => Err(e)
      case Ok((entry, next)) =>
        match ReadFrom(file, directory, centralOffset, count - 1, next, seen + {entry.name})
        case Err(e) => Err(e)
        case Ok(rest) => Ok([entry] + rest)
  }

  function TailLength(file: Bytes): nat { if |file| < 22 + MAX16 then |file| else 22 + MAX16 }

  function Listing(file: Bytes): Result<seq<ZipEntry>, ZipError> {
    var tail := file[|file| - TailLength(file)..];
    if |tail| < 22 || FindEnd(tail, |tail| - 22).None? then Err(NoDirectory)
    else
      var end := FindEnd(tail, |tail| - 22).value;
      var count, size, offset := Read16(tail, end + 10), Read32(tail, end + 12), Read32(tail, end + 16);
      if count > MAX_ENTRIES || size > MAX_DIRECTORY || offset + size > |file| then Err(BadArchive)
      else ReadFrom(file, ReadAt(file, offset, size), offset, count, 0, {})
  }

  method FindEndRecord(tail: Bytes) returns (end: Option<nat>)
    requires |tail| >= 22
    ensures end == FindEnd(tail, |tail| - 22)
  {
    var index := |tail| - 22;
    while index >= 0
      invariant -1 <= index <= |tail| - 22
      invariant FindEnd(tail, index) == FindEnd(tail, |tail| - 22)
    {
      if Read32(tail, index) == END { return Some(index); }
      index := index - 1;
    }
    end := None;
  }

  // readZipEntries.
  method ReadZipEntries(file: Bytes) returns (r: Result<seq<ZipEntry>, ZipError>)
    ensures r == Listing(file)
  {
    hide ReadOne, FindEnd, Read16, Read32;
    var tail := file[|file| - TailLength(file)..];
    if |tail| < 22 { return Err(NoDirectory); }
    var found := FindEndRecord(tail);
    if found.None? { return Err(NoDirectory); }
    var end := found.value;
    var count, size, offset := Read16(tail, end + 10), Read32(tail, end + 12), Read32(tail, end + 16);
    if count > MAX_ENTRIES || size > MAX_DIRECTORY || offset + size > |file| { return Err(BadArchive); }
    var directory := ReadAt(file, offset, size);
    var entries: seq<ZipEntry>, cursor, seen := [], 0, {};
    PrependNothing(ReadFrom(file, directory, offset, count, 0, {}));
    var index := 0;
    while index < count
      invariant 0 <= index <= count
      invariant Prepend(entries, ReadFrom(file, directory, offset, count - index, cursor, seen))
                == ReadFrom(file, directory, offset, count, 0, {})
    {
      var one := ReadOne(file, directory, offset, cursor, seen);
      if one.Err? { return Err(one.error); }
      var entry := one.value.0;
      PrependTwice(entries, entry,
                   ReadFrom(file, directory, offset, count - index - 1, one.value.1, seen + {entry.name}));
      seen := seen + {entry.name};
      entries := entries + [entry];
      cursor := one.value.1;
      index := index + 1;
    }
    r := Ok(entries);
    assert entries + [] == entries;
  }

  function Prepend(entries: seq<ZipEntry>, r: Result<seq<ZipEntry>, ZipError>): Result<seq<ZipEntry>, ZipError> {
    match r case Err(e) => Err(e) case Ok(rest) => Ok(entries + rest)
  }

  lemma PrependNothing(r: Result<seq<ZipEntry>, ZipError>)
    ensures Prepend([], r) == r
  {
    if r.Ok? { assert [] + r.value == r.value; }
  }

  lemma PrependTwice(entries: seq<ZipEntry>, entry: ZipEntry, r: Result<seq<ZipEntry>, ZipError>)
    ensures Prepend(entries, Prepend([entry], r)) == Prepend(entries + [entry], r)
  {
    if r.Ok? { assert entries + ([entry] + r.value) == entries + [entry] + r.value; }
  }

  // ---------------------------------------------------------------- the writer

  lemma MembersSoFar(entries: seq<Entry>, deflate: Codec, k: nat)
    requires k <= |entries|
    ensures Members(entries[..k], deflate) == Members(entries, deflate)[..k]
    ensures Data(entries[..k], deflate) == Concat(Members(entries, deflate)[..k])
    ensures |Data(entries[..k], deflate)| <= |Data(entries, deflate)|
  {
    hide Member, Concat;
    ConcatPrefix(Members(entries, deflate), k);
  }

  lemma OneMoreMember(entries: seq<Entry>, deflate: Codec, k: nat)
    requires k < |entries|
    ensures Data(entries[..k + 1], deflate) == Data(entries[..k], deflate) + Member(entries[k], deflate)
    ensures Rows(entries, deflate)[..k + 1]
            == Rows(entries, deflate)[..k] + [RowAt(entries[k], deflate, |Data(entries[..k], deflate)|)]
  {
    hide Member, RowAt, Data;
    MembersSoFar(entries, deflate, k);
    MembersSoFar(entries, deflate, k + 1);
    ConcatOneMore(Members(entries, deflate), k);
  }

  // One entry of writeZip: what is appended to the output. Content and compressed data arrive in chunks; the
  // checksum and the sizes do not depend on how.
  method WriteMember(table: seq<Crc32.Word>, e: Entry, deflate: Codec, offset: nat)
    returns (r: Result<(Bytes, Row), ZipError>)
    requires Crc32.IsTable(table)
    ensures r.Ok? <==> EntryFits(e, deflate)
    ensures r.Ok? ==> r.value == (Member(e, deflate), RowAt(e, deflate, offset))
    ensures r == Err(BadName) <==> !NameFits(e.name)
  {
    if |e.name| == 0 || |e.name| > MAX16 { return Err(BadName); }
    var name := Stored(e.name);
    var compressed := deflate(e.content);
    var crc := Crc32.Update(table, Crc32.ONES, e.content);
    var finalCrc := Crc32.Number(Crc32.Xor(crc, Crc32.ONES));
    if |compressed| > MAX32 || |e.content| > MAX32 { return Err(TooLarge); }
    r := Ok((LocalHeader(name) + compressed + Descriptor(finalCrc, |compressed|, |e.content|),
             Row(name, finalCrc, |compressed|, |e.content|, offset)));
  }

  // What has been written after k entries.
  predicate Written(entries: seq<Entry>, deflate: Codec, k: nat, output: Bytes, central: seq<Row>)
    requires k <= |entries|
  {
    output == Data(entries[..k], deflate) && central == Rows(entries, deflate)[..k]
  }

  lemma WriteOne(entries: seq<Entry>, deflate: Codec, k: nat, output: Bytes, central: seq<Row>)
    requires k < |entries| && Written(entries, deflate, k, output, central)
    ensures var row := RowAt(entries[k], deflate, |output|);
            Written(entries, deflate, k + 1, output + Member(entries[k], deflate), central + [row])
  {
    hide Rows, Data, Member, RowAt;
    OneMoreMember(entries, deflate, k);
  }

  lemma WrittenEnds(entries: seq<Entry>, deflate: Codec, output: Bytes, central: seq<Row>)
    ensures Written(entries, deflate, 0, [], [])
    ensures Written(entries, deflate, |entries|, output, central) ==>
              output == Data(entries, deflate) && central == Rows(entries, deflate)
  {
    hide Rows, Data;
    NoData(entries, deflate);
    AllMembers(entries, deflate);
  }

  method WriteMembers(entries: seq<Entry>, deflate: Codec) returns (r: Result<(Bytes, seq<Row>), ZipError>)
    ensures r.Ok? <==> forall k | 0 <= k < |entries| :: EntryFits(entries[k], deflate)
    ensures r.Ok? ==> r.value == (Data(entries, deflate), Rows(entries, deflate))
  {
    hide Written, Rows, Data, Member, RowAt, EntryFits, NameFits, Crc32.IsTable;
    var table := Crc32.BuildTable();
    var output: Bytes, central: seq<Row> := [], [];
    WrittenEnds(entries, deflate, output, central);
    for i := 0 to |entries|
      invariant forall k | 0 <= k < i :: EntryFits(entries[k], deflate)
      invariant Written(entries, deflate, i, output, central)
    {
      WriteOne(entries, deflate, i, output, central);
      var member := WriteMember(table, entries[i], deflate, |output|);
      if member.Err? { return Err(member.error); }
      output := output + member.value.0;
      central := central + [member.value.1];
    }
    WrittenEnds(entries, deflate, output, central);
    r := Ok((output, central));
  }

  // writeZip.
  method WriteZip(entries: seq<Entry>, deflate: Codec) returns (r: Result<Bytes, ZipError>)
    ensures r.Ok? <==> Writable(entries, deflate)
    ensures r.Ok? ==> r.value == Archive(entries, deflate)
  {
    hide Rows, Headers, Concat, EndRecord, EntryFits, Data;
    var written := WriteMembers(entries, deflate);
    if written.Err? { return Err(written.error); }
    var output, central := written.value.0, written.value.1;
    var directory := WriteDirectory(central);
    // The offsets and sizes are checked as their fields are written.
    if |central| > MAX16 || |directory| > MAX32 || |output| > MAX32 { return Err(TooLarge); }
    r := Ok(output + directory + EndRecord(|central|, |directory|, |output|));
  }

  lemma AllMembers(entries: seq<Entry>, deflate: Codec)
    ensures Data(entries[..|entries|], deflate) == Data(entries, deflate)
    ensures Rows(entries, deflate)[..|entries|] == Rows(entries, deflate)
  {
    assert entries[..|entries|] == entries;
  }

  lemma NoData(entries: seq<Entry>, deflate: Codec)
    ensures Data(entries[..0], deflate) == []
  {
  }

  method WriteDirectory(central: seq<Row>) returns (directory: Bytes)
    ensures directory == Concat(Headers(central))
  {
    directory := [];
    for i := 0 to |central|
      invariant directory == Concat(Headers(central)[..i])
    {
      ConcatOneMore(Headers(central), i);
      directory := directory + CentralHeader(central[i]);
    }
    assert Headers(central)[..|central|] == Headers(central);
  }

  // ---------------------------------------------------------------- reading back what was written

  // Every offset of a writable archive fits its field.
  lemma RowsFit(entries: seq<Entry>, deflate: Codec, k: nat)
    requires Writable(entries, deflate) && k < |entries|
    ensures RowFits(Rows(entries, deflate)[k])
  {
    assert EntryFits(entries[k], deflate);
    CrcFits(entries[k].content);
    ConcatAt(Members(entries, deflate), k);
  }

  function Names(rows: seq<Row>): set<Bytes> { set i | 0 <= i < |rows| :: rows[i].name }

  // Row k is safe, and its name is not used before.
  predicate Fresh(rows: seq<Row>, k: nat)
    requires k < |rows|
  {
    Safe(rows[k].name) && rows[k].name !in Names(rows[..k])
  }

  // From row k on, every row is.
  predicate Acceptable(rows: seq<Row>, k: nat)
    requires k <= |rows|
    decreases |rows| - k
  {
    k == |rows| || (Fresh(rows, k) && Acceptable(rows, k + 1))
  }

  function Expected(r: Row): ZipEntry { ZipEntry(r.name, 8, r.compressed, r.uncompressed, r.offset) }

  function ExpectedFrom(rows: seq<Row>, k: nat): seq<ZipEntry>
    requires k <= |rows|
    decreases |rows| - k
  {
    if k == |rows| then [] else [Expected(rows[k])] + ExpectedFrom(rows, k + 1)
  }

  // Reading one header that describes a row, given the local header it points to.
  lemma ReadHeader(file: Bytes, directory: Bytes, centralOffset: nat, cursor: nat, seen: set<Bytes>, r: Row)
    requires RowFits(r) && cursor + 46 + |r.name| <= |directory|
    requires directory[cursor..cursor + 46 + |r.name|] == CentralHeader(r)
    requires var local := ReadAt(file, r.offset, 30);
             |local| == 30 && Read32(local, 0) == LOCAL && Read16(local, 26) == |r.name| && Read16(local, 28) == 0
    requires r.offset + 30 + |r.name| + r.compressed <= centralOffset
    ensures ReadOne(file, directory, centralOffset, cursor, seen)
              == if Safe(r.name) && r.name !in seen then Ok((Expected(r), cursor + 46 + |r.name|)) else Err(UnsafeEntry)
  {
    hide Safe, CentralHeader, CentralFields, Read16, Read32, ReadAt;
    var h := CentralFields(r);
    FieldsDescribe(r);
    assert directory[cursor..cursor + 46] == directory[cursor..cursor + 46 + |r.name|][..46] == h;
    FieldIn(directory, cursor, h, 0);
    FieldIn(directory, cursor, h, 8);
    FieldIn(directory, cursor, h, 10);
    FieldIn(directory, cursor, h, 20);
    FieldIn(directory, cursor, h, 24);
    FieldIn(directory, cursor, h, 28);
    FieldIn(directory, cursor, h, 30);
    FieldIn(directory, cursor, h, 32);
    FieldIn(directory, cursor, h, 42);
    assert directory[cursor + 46..cursor + 46 + |r.name|] == directory[cursor..cursor + 46 + |r.name|][46..];
  }

  // Entry k as the reader finds it in the data region.
  lemma MemberIn(entries: seq<Entry>, deflate: Codec, k: nat)
    requires k < |entries|
    ensures var m, at := Member(entries[k], deflate), Offset(Members(entries, deflate), k);
            && at + |m| <= |Data(entries, deflate)| <= |Archive(entries, deflate)|
            && forall i, j | 0 <= i <= j <= |m| :: Archive(entries, deflate)[at + i..at + j] == m[i..j]
  {
    hide Member, Directory, EndRecord, Concat, Offset;
    var m, at := Member(entries[k], deflate), Offset(Members(entries, deflate), k);
    var file, data := Archive(entries, deflate), Data(entries, deflate);
    ConcatAt(Members(entries, deflate), k);
    assert file[..|data|] == data;
    forall i, j | 0 <= i <= j <= |m| ensures file[at + i..at + j] == m[i..j] {
      SliceOfSlice(file, data, at, m, i, j);
    }
  }

  lemma SliceOfSlice(file: Bytes, data: Bytes, at: nat, m: Bytes, i: nat, j: nat)
    requires |data| <= |file| && file[..|data|] == data
    requires at + |m| <= |data| && data[at..at + |m|] == m && i <= j <= |m|
    ensures file[at + i..at + j] == m[i..j]
  {
    var got, want := file[at + i..at + j], m[i..j];
    forall x | 0 <= x < j - i ensures got[x] == want[x] {
      assert file[..|data|][at + i + x] == data[at..at + |m|][i + x];
    }
  }

  // The local header a reader of thirty bytes sees.
  lemma ShortHeader(name: Bytes, local: Bytes)
    requires NameFits(name) && local == LocalHeader(name)[..30]
    ensures |local| == 30 && Read32(local, 0) == LOCAL && Read16(local, 26) == |name| && Read16(local, 28) == 0
  {
    hide LocalHeader, Read16, Read32;
    var h := LocalHeader(name);
    assert h[0..30] == local;
    FieldIn(h, 0, local, 0);
    FieldIn(h, 0, local, 26);
    FieldIn(h, 0, local, 28);
  }

  lemma MemberStarts(e: Entry, deflate: Codec)
    ensures Member(e, deflate)[0..30] == LocalHeader(Stored(e.name))[..30]
    ensures var from := 30 + |e.name|; Member(e, deflate)[from..from + |deflate(e.content)|] == deflate(e.content)
  {
    hide LocalHeader, Descriptor, CrcOf;
    var h, c := LocalHeader(Stored(e.name)), deflate(e.content);
    var m := Member(e, deflate);
    assert m[..|h|] == h;
    assert m[|h|..|h| + |c|] == c;
  }

  lemma LocalAt(entries: seq<Entry>, deflate: Codec, k: nat)
    requires k < |entries| && NameFits(entries[k].name)
    ensures var row := Rows(entries, deflate)[k];
            var local := ReadAt(Archive(entries, deflate), row.offset, 30);
            && |local| == 30 && Read32(local, 0) == LOCAL && Read16(local, 26) == |row.name| && Read16(local, 28) == 0
            && row.offset + 30 + |row.name| + row.compressed <= |Data(entries, deflate)|
  {
    hide Archive, Read16, Read32, LocalHeader, Descriptor, Member, Data, Offset, Concat;
    var e := entries[k];
    var at := Offset(Members(entries, deflate), k);
    MemberIn(entries, deflate, k);
    MemberStarts(e, deflate);
    var local := ReadAt(Archive(entries, deflate), at, 30);
    assert local == Archive(entries, deflate)[at + 0..at + 30];
    ShortHeader(Stored(e.name), local);
  }

  // The reader's view of row k of a written archive.
  lemma ReadRow(entries: seq<Entry>, deflate: Codec, k: nat)
    requires Writable(entries, deflate) && k < |entries|
    ensures var rows := Rows(entries, deflate);
            var headers := Headers(rows);
            Reads(Archive(entries, deflate), Concat(headers), |Data(entries, deflate)|, rows, headers, k)
  {
    hide Archive, CentralHeader, ReadOne, Read16, Read32, Safe, Names, Concat, Data, Members, CrcOf, ReadAt;
    var rows := Rows(entries, deflate);
    var headers := Headers(rows);
    RowsFit(entries, deflate, k);
    ConcatAt(headers, k);
    assert EntryFits(entries[k], deflate);
    LocalAt(entries, deflate, k);
    ReadHeader(Archive(entries, deflate), Concat(headers), |Data(entries, deflate)|, Offset(headers, k),
               Names(rows[..k]), rows[k]);
  }

  // One unfolding of the loop.
  lemma ReadFromStep(file: Bytes, directory: Bytes, centralOffset: nat, count: nat, cursor: nat, seen: set<Bytes>)
    requires count > 0
    ensures var one := ReadOne(file, directory, centralOffset, cursor, seen);
            ReadFrom(file, directory, centralOffset, count, cursor, seen)
              == if one.Err? then Err(one.error)
                 else
                   var (entry, next) := one.value;
                   Prepend([entry], ReadFrom(file, directory, centralOffset, count - 1, next, seen + {entry.name}))
  {
    hide ReadOne;
  }

  lemma NamesStep(rows: seq<Row>, k: nat)
    requires k < |rows|
    ensures Names(rows[..k + 1]) == Names(rows[..k]) + {rows[k].name}
  {
    assert forall i | 0 <= i < k :: rows[..k + 1][i] == rows[..k][i];
  }

  // At header k the reader's next step is the one for row k.
  predicate Reads(file: Bytes, directory: Bytes, size: nat, rows: seq<Row>, headers: seq<Bytes>, k: nat)
    requires k < |rows| == |headers|
  {
    ReadOne(file, directory, size, Offset(headers, k), Names(rows[..k]))
      == if Fresh(rows, k) then Ok((Expected(rows[k]), Offset(headers, k + 1))) else Err(UnsafeEntry)
  }

  lemma {:induction false} ReadBack(
    file: Bytes, directory: Bytes, size: nat, rows: seq<Row>, headers: seq<Bytes>, k: nat)
    requires k <= |rows| == |headers|
    requires forall i | 0 <= i < |rows| :: Reads(file, directory, size, rows, headers, i)
    ensures ReadFrom(file, directory, size, |rows| - k, Offset(headers, k), Names(rows[..k]))
              == if Acceptable(rows, k) then Ok(ExpectedFrom(rows, k)) else Err(UnsafeEntry)
    decreases |rows| - k
  {
    hide ReadOne, ReadFrom, Fresh, Offset, Names;
    if k < |rows| {
      assert Reads(file, directory, size, rows, headers, k);
      ReadFromStep(file, directory, size, |rows| - k, Offset(headers, k), Names(rows[..k]));
      ReadBack(file, directory, size, rows, headers, k + 1);
      NamesStep(rows, k);
    } else {
      ReadNothing(file, directory, size, Offset(headers, k), Names(rows[..k]));
    }
  }

  lemma ReadNothing(file: Bytes, directory: Bytes, centralOffset: nat, cursor: nat, seen: set<Bytes>)
    ensures ReadFrom(file, directory, centralOffset, 0, cursor, seen) == Ok([])
  {
  }

  // The end record is the first one the backward search meets, and it points at data and directory.
  lemma EndOfArchive(data: Bytes, directory: Bytes, count: nat)
    requires count <= MAX16 && |data| <= MAX32 && |directory| <= MAX32
    ensures var file := data + directory + EndRecord(count, |directory|, |data|);
            var tail := file[|file| - TailLength(file)..];
            && |tail| >= 22 && FindEnd(tail, |tail| - 22) == Some(|tail| - 22)
            && Read16(tail, |tail| - 22 + 10) == count && Read32(tail, |tail| - 22 + 12) == |directory|
            && Read32(tail, |tail| - 22 + 16) == |data|
            && ReadAt(file, |data|, |directory|) == directory
  {
    hide EndRecord, Read16, Read32;
    var end := EndRecord(count, |directory|, |data|);
    var file := data + directory + end;
    var tail := file[|file| - TailLength(file)..];
    assert tail[|tail| - 22..|tail|] == end;
    FieldIn(tail, |tail| - 22, end, 0);
    FieldIn(tail, |tail| - 22, end, 10);
    FieldIn(tail, |tail| - 22, end, 12);
    FieldIn(tail, |tail| - 22, end, 16);
    assert file[|data|..|data| + |directory|] == directory;
  }

  lemma ListingOf(data: Bytes, directory: Bytes, count: nat)
    requires count <= MAX16 && |data| <= MAX32 && |directory| <= MAX32
    ensures var file := data + directory + EndRecord(count, |directory|, |data|);
            Listing(file) == if |directory| > MAX_DIRECTORY then Err(BadArchive)
                             else ReadFrom(file, directory, |data|, count, 0, {})
  {
    hide EndRecord, Read16, Read32, ReadFrom, FindEnd, ReadAt;
    EndOfArchive(data, directory, count);
  }

  // The whole round trip: the reader lists a written archive, in order and with the sizes and offsets the writer
  // recorded, exactly when the directory is within the reader's own limit and every stored name is safe and new.
  lemma RoundTrip(entries: seq<Entry>, deflate: Codec)
    requires Writable(entries, deflate)
    ensures var rows := Rows(entries, deflate);
            Listing(Archive(entries, deflate))
              == if |Directory(entries, deflate)| > 32 * 1024 * 1024 then Err(BadArchive)
                 else if Acceptable(rows, 0) then Ok(ExpectedFrom(rows, 0))
                 else Err(UnsafeEntry)
  {
    hide Rows, Acceptable, ExpectedFrom, ReadFrom, Reads, Listing, EndRecord, Data, Concat, Headers;
    ListingOf(Data(entries, deflate), Directory(entries, deflate), |entries|);
    var rows := Rows(entries, deflate);
    var headers := Headers(rows);
    var file, directory, size := Archive(entries, deflate), Concat(headers), |Data(entries, deflate)|;
    forall i | 0 <= i < |rows| ensures Reads(file, directory, size, rows, headers, i) { ReadRow(entries, deflate, i); }
    ReadBack(file, directory, size, rows, headers, 0);
    assert Names(rows[..0]) == {} && Offset(headers, 0) == 0 by { FromTheStart(headers, rows); }
  }

  lemma FromTheStart(headers: seq<Bytes>, rows: seq<Row>)
    ensures Names(rows[..0]) == {} && Offset(headers, 0) == 0
  {
  }

  // Entry i of the listing is entry i of the input.
  lemma {:induction false} ExpectedAt(rows: seq<Row>, k: nat, i: nat)
    requires k <= |rows| && i < |rows| - k
    ensures |ExpectedFrom(rows, k)| == |rows| - k && ExpectedFrom(rows, k)[i] == Expected(rows[k + i])
    decreases |rows| - k
  {
    hide Expected;
    if i > 0 { ExpectedAt(rows, k + 1, i - 1); } else if k + 1 < |rows| { ExpectedAt(rows, k + 1, 0); }
  }

  // Acceptable in terms of the input: distinct, safe stored names.
  lemma {:induction false} AcceptableNames(rows: seq<Row>, k: nat)
    requires k <= |rows|
    ensures Acceptable(rows, k) <==>
              forall i | k <= i < |rows| :: Safe(rows[i].name) && forall j | 0 <= j < i :: rows[j].name != rows[i].name
    decreases |rows| - k
  {
    hide Safe;
    if k < |rows| {
      AcceptableNames(rows, k + 1);
      assert rows[k].name !in Names(rows[..k]) <==> forall j | 0 <= j < k :: rows[j].name != rows[k].name;
    }
  }

  // Two entries that are stored under one name make the archive unreadable.
  lemma AlikeNamesAreRefused(entries: seq<Entry>, deflate: Codec, i: nat, j: nat)
    requires Writable(entries, deflate) && i < j < |entries| && Stored(entries[i].name) == Stored(entries[j].name)
    ensures Listing(Archive(entries, deflate)).Err?
  {
    hide Listing, Archive, Directory, Writable, Safe, Offset, ExpectedFrom, Acceptable, Stored;
    var rows := Rows(entries, deflate);
    RoundTrip(entries, deflate);
    AcceptableNames(rows, 0);
    assert rows[i].name == rows[j].name;
  }

  lemma TwoFit(a: Entry, b: Entry, deflate: Codec)
    requires EntryFits(a, deflate) && EntryFits(b, deflate)
    requires |Member(a, deflate)| + |Member(b, deflate)| <= MAX32
    ensures Writable([a, b], deflate)
  {
    hide Concat, Member, RowAt, Offset, EntryFits, NameFits, CentralHeader, CentralFields;
    var entries := [a, b];
    var members, headers := Members(entries, deflate), Headers(Rows(entries, deflate));
    assert members == [members[0], members[1]] && headers == [headers[0], headers[1]];
    ConcatTwo(members[0], members[1]);
    ConcatTwo(headers[0], headers[1]);
    assert |headers[0]| <= 46 + MAX16 && |headers[1]| <= 46 + MAX16 by { NameLengths(entries, deflate); }
  }

  lemma NameLengths(entries: seq<Entry>, deflate: Codec)
    requires forall i | 0 <= i < |entries| :: EntryFits(entries[i], deflate)
    ensures forall i | 0 <= i < |entries| :: |Headers(Rows(entries, deflate))[i]| <= 46 + MAX16
  {
    hide Offset, CrcOf, CentralFields, Members;
  }

  // For example `a\b` and `a/b`: the writer completes the archive, and the reader refuses it.
  lemma AlikeNamesAreNotListed(deflate: Codec)
    requires |deflate([])| <= 1000
    ensures var entries := [Entry([97, BACKSLASH, 98], []), Entry([97, SLASH, 98], [])];
            Writable(entries, deflate) && Listing(Archive(entries, deflate)).Err?
  {
    hide Listing, Archive, Writable, LocalHeader, Descriptor, CrcOf;
    var a, b := Entry([97, BACKSLASH, 98], []), Entry([97, SLASH, 98], []);
    TwoFit(a, b, deflate);
    assert Stored(a.name) == Stored(b.name);
    AlikeNamesAreRefused([a, b], deflate, 0, 1);
  }

  // ---------------------------------------------------------------- extraction

  // zipEntryBuffer and extractZipEntry, up to their limits: manifests are also checked for their exact length.
  function Extract(
    file: Bytes, entry: ZipEntry, inflate: Bytes -> Option<Bytes>, limit: nat, exact: bool): Result<Bytes, ZipError>
  {
    if entry.uncompressed > limit || (exact && entry.compressed > limit) then Err(TooLarge)
    else
      var local := ReadAt(file, entry.offset, 30);
      if |local| < 30 || Read32(local, 0) != LOCAL then Err(BadLocal)
      else
        var at := entry.offset + 30 + Read16(local, 26) + Read16(local, 28);
        if !exact && at + entry.compressed > |file| then Err(BadLocal)
        else
          var compressed := ReadAt(file, at, entry.compressed);
          var output := if entry.compression == 8 then inflate(compressed) else Some(compressed);
          if output.None? then Err(BadEntry)
          else if |output.value| > limit then Err(TooLarge)
          else if exact && |output.value| != entry.uncompressed then Err(BadEntry)
          else Ok(output.value)
  }

  ghost predicate Inverse(deflate: Codec, inflate: Bytes -> Option<Bytes>) {
    forall c: Bytes :: inflate(deflate(c)) == Some(c)
  }

  // Extracting what was listed gives back the content, unless it exceeds the limit in force.
  lemma ExtractionRestores(entries: seq<Entry>, deflate: Codec, inflate: Bytes -> Option<Bytes>, k: nat, limit: nat,
                           exact: bool)
    requires k < |entries| && NameFits(entries[k].name) && Inverse(deflate, inflate)
    ensures var entry := Expected(Rows(entries, deflate)[k]);
            Extract(Archive(entries, deflate), entry, inflate, limit, exact)
              == if |entries[k].content| > limit || (exact && |deflate(entries[k].content)| > limit) then Err(TooLarge)
                 else Ok(entries[k].content)
  {
    hide Archive, LocalHeader, Descriptor, Read16, Read32, Member, Data, Offset, Concat, CrcOf;
    var e := entries[k];
    LocalAt(entries, deflate, k);
    MemberIn(entries, deflate, k);
    MemberStarts(e, deflate);
    var c := deflate(e.content);
    var at, from := Offset(Members(entries, deflate), k), 30 + |e.name|;
    assert Archive(entries, deflate)[at + from..at + (from + |c|)] == c;
    assert ReadAt(Archive(entries, deflate), at + from, |c|) == c;
  }
}
