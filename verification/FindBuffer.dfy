/**
 * Packing directory entries into a guest buffer as chained FILEFINDBUF3 records
 * (src/loader/doscalls.rs:847-911), and walking the chain back.
 */
module FindBuffer {
  import opened Bytes
  import opened Wrappers
  import opened GuestMem

  datatype FileStatus = FileStatus(
    creationDate: u16, creationTime: u16, accessDate: u16, accessTime: u16, writeDate: u16, writeTime: u16,
    size: u32, alloc: u32, attributes: u32)

  /** `name` is the file name in the active codepage. */
  datatype Entry = Entry(status: FileStatus, name: seq<byte>)

  const ERROR_BUFFER_OVERFLOW := 111

  /** Guest memory is at most this large. */
  const MEMORY_LIMIT := 0x8000_0000

  // ----- one record -----

  function Cut(name: seq<byte>): (r: seq<byte>)
    ensures |r| <= 255 && r <= name && (|name| <= 255 ==> r == name)
  {
    if |name| <= 255 then name else name[..255]
  }

  function StatusBytes(s: FileStatus): (r: seq<byte>)
    ensures |r| == 24
  {
    U16(s.creationDate) + U16(s.creationTime) + U16(s.accessDate) + U16(s.accessTime) + U16(s.writeDate) + U16(s.writeTime)
    + U32(s.size) + U32(s.alloc) + U32(s.attributes)
  }

  /** The size of the `cbList` field, present on level 2 only. */
  function EaSize(ea: bool): nat {
    if ea then 4 else 0
  }

  function EaBytes(ea: bool): (r: seq<byte>)
    ensures |r| == EaSize(ea)
  {
    if ea then U32(4) else []
  }

  function NameBytes(name: seq<byte>): (r: seq<byte>)
    ensures |r| == |Cut(name)| + 2
  {
    [|Cut(name)|] + Cut(name) + [0]
  }

  function Size(e: Entry, ea: bool): nat {
    30 + EaSize(ea) + |Cut(e.name)|
  }

  function Aligned(n: nat): nat {
    (n + 3) / 4 * 4
  }

  /** A record whose successor is `next` bytes further, or the last one if that is zero. */
  function RecordBytes(e: Entry, ea: bool, next: u32): (r: seq<byte>)
    ensures |r| == Size(e, ea)
  {
    U32(next) + StatusBytes(e.status) + EaBytes(ea) + NameBytes(e.name)
  }

  // ----- the whole buffer -----

  function Offset(entries: seq<Entry>, ea: bool, k: nat): nat
    requires k <= |entries|
  {
    if k == 0 then 0 else Offset(entries, ea, k - 1) + Aligned(Size(entries[k - 1], ea))
  }

  predicate FitsAt(entries: seq<Entry>, ea: bool, len: nat, k: nat)
    requires k < |entries|
  {
    Offset(entries, ea, k) + Size(entries[k], ea) <= len
  }

  /** How many of the first `n` entries are packed: all before the first that does not fit. */
  function Count(entries: seq<Entry>, ea: bool, len: nat, n: nat): (c: nat)
    requires n <= |entries|
    ensures c <= n && (forall k :: 0 <= k < c ==> FitsAt(entries, ea, len, k)) && (c < n ==> !FitsAt(entries, ea, len, c))
  {
    if n == 0 then 0
    else
      var c := Count(entries, ea, len, n - 1);
      if c == n - 1 && FitsAt(entries, ea, len, n - 1) then n else c
  }

  function Next(entries: seq<Entry>, ea: bool, c: nat, k: nat): u32
    requires k < c <= |entries|
  {
    if k + 1 < c then Aligned(Size(entries[k], ea)) else 0
  }

  function RecordWrite(entries: seq<Entry>, ea: bool, buf: nat, c: nat, k: nat): Write
    requires k < c <= |entries|
  {
    Write(buf + Offset(entries, ea, k), RecordBytes(entries[k], ea, Next(entries, ea, c, k)))
  }

  predicate InRecord(entries: seq<Entry>, ea: bool, buf: nat, k: nat, x: nat)
    requires k < |entries|
  {
    buf + Offset(entries, ea, k) <= x < buf + Offset(entries, ea, k) + Size(entries[k], ea)
  }

  /** The first `c` records stand one after the other from `buf` on, and nothing else has changed. */
  ghost predicate Laid(before: seq<byte>, m: seq<byte>, entries: seq<Entry>, ea: bool, buf: nat, c: nat)
    requires c <= |entries|
  {
    && |m| == |before|
    && (forall k :: 0 <= k < c ==> Landed(m, RecordWrite(entries, ea, buf, c, k)))
    && (forall x :: 0 <= x < |m| && (forall k :: 0 <= k < c ==> !InRecord(entries, ea, buf, k, x)) ==> m[x] == before[x])
  }

  /** A record ends before the next one starts. */
  lemma {:induction false} OffsetsGrow(entries: seq<Entry>, ea: bool, k: nat, n: nat)
    requires k < n <= |entries|
    ensures Offset(entries, ea, k) + Size(entries[k], ea) <= Offset(entries, ea, n)
  {
    hide Size, Aligned;
    AlignedUp(Size(entries[n - 1], ea));
    if k < n - 1 {
      OffsetsGrow(entries, ea, k, n - 1);
    }
  }

  lemma AlignedUp(n: nat)
    ensures n <= Aligned(n) <= n + 3 && Aligned(n) % 4 == 0
  {
  }

  lemma {:induction false} OffsetAligned(entries: seq<Entry>, ea: bool, k: nat)
    requires k <= |entries|
    ensures Offset(entries, ea, k) % 4 == 0
  {
    hide Size, Aligned;
    if k > 0 {
      AlignedUp(Size(entries[k - 1], ea));
      OffsetAligned(entries, ea, k - 1);
    }
  }

  /** What one turn of the loop does to the memory: a record at the end, and the offset before it. */
  function Appended(m: seq<byte>, entries: seq<Entry>, ea: bool, buf: nat, c: nat): (r: seq<byte>)
    requires c < |entries|
    ensures |r| == |m|
  {
    var m1 := Store(m, Write(buf + Offset(entries, ea, c), RecordBytes(entries[c], ea, 0)));
    if c == 0 then m1
    else Store(m1, Write(buf + Offset(entries, ea, c - 1), U32(Aligned(Size(entries[c - 1], ea)))))
  }

  lemma StoreElsewhere(m: seq<byte>, v: Write, w: Write)
    requires Landed(m, v) && Apart(v, w)
    ensures Landed(Store(m, w), v)
  {
    assert Store(m, w)[v.addr..v.addr + |v.data|] == v.data;
  }

  lemma StoreLands(m: seq<byte>, w: Write)
    requires w.addr + |w.data| <= |m|
    ensures Landed(Store(m, w), w)
  {
  }

  /** Overwriting the first field of a record changes its successor and nothing else of it. */
  lemma Relinked(m: seq<byte>, p: nat, e: Entry, ea: bool, next: u32, next': u32)
    requires Landed(m, Write(p, RecordBytes(e, ea, next)))
    ensures Landed(Store(m, Write(p, U32(next'))), Write(p, RecordBytes(e, ea, next')))
  {
    hide U32, StatusBytes, EaBytes, NameBytes, Store;
    var n := Size(e, ea);
    var rest := StatusBytes(e.status) + EaBytes(ea) + NameBytes(e.name);
    var m' := Store(m, Write(p, U32(next')));
    RecordSplits(e, ea, next);
    RecordSplits(e, ea, next');
    StoreLands(m, Write(p, U32(next')));
    PartOfSlice(m, p, n, 4, n);
    assert (U32(next) + rest)[4..n] == rest;
    assert m'[p + 4..p + n] == m[p + 4..p + n] by {
      StoreAfter(m, p, U32(next'), p + n);
    }
    assert m'[p..p + n] == m'[p..p + 4] + m'[p + 4..p + n];
  }

  lemma RecordSplits(e: Entry, ea: bool, next: u32)
    ensures RecordBytes(e, ea, next) == U32(next) + (StatusBytes(e.status) + EaBytes(ea) + NameBytes(e.name))
  {
    hide U32, StatusBytes, EaBytes, NameBytes;
  }

  lemma StoreAfter(m: seq<byte>, p: nat, data: seq<byte>, end: nat)
    requires p + |data| <= end <= |m|
    ensures Store(m, Write(p, data))[p + |data|..end] == m[p + |data|..end]
  {
  }

  /** Storing a record at the end, and relinking the one before, leaves each record as it should be. */
  lemma RecordsStand(m: seq<byte>, entries: seq<Entry>, ea: bool, buf: nat, c: nat, k: nat)
    requires k <= c < |entries| && buf + Offset(entries, ea, c) + Size(entries[c], ea) <= |m|
    requires forall j :: 0 <= j < c ==> Landed(m, RecordWrite(entries, ea, buf, c, j))
    ensures Landed(Appended(m, entries, ea, buf, c), RecordWrite(entries, ea, buf, c + 1, k))
  {
    hide RecordWrite, Appended, Landed, Offset, Size;
    if k == c {
      LastStands(m, entries, ea, buf, c);
    } else if k == c - 1 {
      PreviousStands(m, entries, ea, buf, c);
    } else {
      EarlierStands(m, entries, ea, buf, c, k);
    }
  }

  lemma LastStands(m: seq<byte>, entries: seq<Entry>, ea: bool, buf: nat, c: nat)
    requires c < |entries| && buf + Offset(entries, ea, c) + Size(entries[c], ea) <= |m|
    ensures Landed(Appended(m, entries, ea, buf, c), RecordWrite(entries, ea, buf, c + 1, c))
  {
    hide RecordBytes, U32, Offset, Size, Aligned, Store, Landed;
    var record := Write(buf + Offset(entries, ea, c), RecordBytes(entries[c], ea, 0));
    StoreLands(m, record);
    if c > 0 {
      var before := entries[c - 1];
      AtLeastFour(before, ea);
      OffsetsGrow(entries, ea, c - 1, c);
      StoreElsewhere(Store(m, record), record, Write(buf + Offset(entries, ea, c - 1), U32(Aligned(Size(before, ea)))));
    }
  }

  lemma PreviousStands(m: seq<byte>, entries: seq<Entry>, ea: bool, buf: nat, c: nat)
    requires 0 < c < |entries| && buf + Offset(entries, ea, c) + Size(entries[c], ea) <= |m|
    requires Landed(m, RecordWrite(entries, ea, buf, c, c - 1))
    ensures Landed(Appended(m, entries, ea, buf, c), RecordWrite(entries, ea, buf, c + 1, c - 1))
  {
    hide RecordBytes, U32, Offset, Size, Aligned, Store, Landed;
    var record := Write(buf + Offset(entries, ea, c), RecordBytes(entries[c], ea, 0));
    var before := entries[c - 1];
    AtLeastFour(before, ea);
    OffsetsGrow(entries, ea, c - 1, c);
    StoreElsewhere(m, RecordWrite(entries, ea, buf, c, c - 1), record);
    Relinked(Store(m, record), buf + Offset(entries, ea, c - 1), before, ea, 0, Aligned(Size(before, ea)));
  }

  lemma EarlierStands(m: seq<byte>, entries: seq<Entry>, ea: bool, buf: nat, c: nat, k: nat)
    requires k + 1 < c < |entries| && buf + Offset(entries, ea, c) + Size(entries[c], ea) <= |m|
    requires Landed(m, RecordWrite(entries, ea, buf, c, k))
    ensures Landed(Appended(m, entries, ea, buf, c), RecordWrite(entries, ea, buf, c + 1, k))
  {
    hide RecordBytes, U32, Offset, Size, Aligned, Store, Landed;
    var record := Write(buf + Offset(entries, ea, c), RecordBytes(entries[c], ea, 0));
    var before := entries[c - 1];
    AtLeastFour(before, ea);
    OffsetsGrow(entries, ea, k, c);
    OffsetsGrow(entries, ea, k, c - 1);
    StoreElsewhere(m, RecordWrite(entries, ea, buf, c, k), record);
    StoreElsewhere(Store(m, record), RecordWrite(entries, ea, buf, c, k),
                   Write(buf + Offset(entries, ea, c - 1), U32(Aligned(Size(before, ea)))));
  }

  lemma AppendedIsLaid(before: seq<byte>, m: seq<byte>, entries: seq<Entry>, ea: bool, buf: nat, c: nat)
    requires c < |entries| && Laid(before, m, entries, ea, buf, c)
    requires buf + Offset(entries, ea, c) + Size(entries[c], ea) <= |m|
    ensures Laid(before, Appended(m, entries, ea, buf, c), entries, ea, buf, c + 1)
  {
    hide RecordBytes, U32, Offset, Size, Aligned, RecordWrite, Appended, InRecord;
    var m2, c1 := Appended(m, entries, ea, buf, c), c + 1;
    forall k: nat | k < c1
      ensures Landed(m2, RecordWrite(entries, ea, buf, c1, k))
    {
      RecordsStand(m, entries, ea, buf, c, k);
    }
    forall x | 0 <= x < |m2| && forall k :: 0 <= k < c1 ==> !InRecord(entries, ea, buf, k, x)
      ensures m2[x] == before[x]
    {
      assert !InRecord(entries, ea, buf, c, x);
      assert c > 0 ==> !InRecord(entries, ea, buf, c - 1, x);
      UntouchedByAppend(m, entries, ea, buf, c, x);
    }
  }

  lemma UntouchedByAppend(m: seq<byte>, entries: seq<Entry>, ea: bool, buf: nat, c: nat, x: nat)
    requires c < |entries| && x < |m| && !InRecord(entries, ea, buf, c, x) && (c > 0 ==> !InRecord(entries, ea, buf, c - 1, x))
    ensures Appended(m, entries, ea, buf, c)[x] == m[x]
  {
    hide Offset, Size, Aligned, U32, RecordBytes, Store;
    var w := Write(buf + Offset(entries, ea, c), RecordBytes(entries[c], ea, 0));
    StoreOutside(m, w, x);
    if c > 0 {
      AtLeastFour(entries[c - 1], ea);
      StoreOutside(Store(m, w), Write(buf + Offset(entries, ea, c - 1), U32(Aligned(Size(entries[c - 1], ea)))), x);
    }
  }

  lemma StoreOutside(m: seq<byte>, w: Write, x: nat)
    requires x < |m| && !(w.addr <= x < w.addr + |w.data|)
    ensures Store(m, w)[x] == m[x]
  {
  }

  lemma AtLeastFour(e: Entry, ea: bool)
    ensures Size(e, ea) >= 30 && Size(e, ea) <= 289
    ensures 4 <= Aligned(Size(e, ea)) < TWO16
  {
  }

  // ----- packing -----

  method WriteStatus(mem: GuestMemory, s: FileStatus, at: nat, ghost before: seq<byte>, ghost base: nat, ghost done: seq<byte>)
    requires at == base + |done| && at + 24 <= |before| && mem.Contents() == Store(before, Write(base, done))
    modifies mem.bytes
    ensures mem.Contents() == Store(before, Write(base, done + StatusBytes(s)))
  {
    hide Store, U16, U32;
    ghost var d1 := U16(s.creationDate);
    ghost var d2 := d1 + U16(s.creationTime);
    ghost var d3 := d2 + U16(s.accessDate);
    ghost var d4 := d3 + U16(s.accessTime);
    ghost var d5 := d4 + U16(s.writeDate);
    ghost var d6 := d5 + U16(s.writeTime);
    ghost var d7 := d6 + U32(s.size);
    ghost var d8 := d7 + U32(s.alloc);
    Append(mem, at, U16(s.creationDate), before, base, done);
    Append(mem, at + 2, U16(s.creationTime), before, base, done + d1);
    ConcatAssoc(done, d1, U16(s.creationTime));
    Append(mem, at + 4, U16(s.accessDate), before, base, done + d2);
    ConcatAssoc(done, d2, U16(s.accessDate));
    Append(mem, at + 6, U16(s.accessTime), before, base, done + d3);
    ConcatAssoc(done, d3, U16(s.accessTime));
    Append(mem, at + 8, U16(s.writeDate), before, base, done + d4);
    ConcatAssoc(done, d4, U16(s.writeDate));
    Append(mem, at + 10, U16(s.writeTime), before, base, done + d5);
    ConcatAssoc(done, d5, U16(s.writeTime));
    Append(mem, at + 12, U32(s.size), before, base, done + d6);
    ConcatAssoc(done, d6, U32(s.size));
    Append(mem, at + 16, U32(s.alloc), before, base, done + d7);
    ConcatAssoc(done, d7, U32(s.alloc));
    Append(mem, at + 20, U32(s.attributes), before, base, done + d8);
    ConcatAssoc(done, d8, U32(s.attributes));
  }

  /** One record with no successor. */
  method WriteRecord(mem: GuestMemory, e: Entry, ea: bool, at: nat)
    requires at + Size(e, ea) <= mem.bytes.Length
    modifies mem.bytes
    ensures mem.Contents() == Store(old(mem.Contents()), Write(at, RecordBytes(e, ea, 0)))
  {
    hide Store, U16, U32, StatusBytes;
    ghost var before := mem.Contents();
    StoreNothing(before, at);
    var nameOffset := 28 + EaSize(ea);
    var name := Cut(e.name);
    ghost var d1 := U32(0);
    ghost var d2 := d1 + StatusBytes(e.status);
    ghost var d3 := d2 + EaBytes(ea);
    Append(mem, at, U32(0), before, at, []);
    assert [] + d1 == d1 && (!ea ==> d3 == d2);
    WriteStatus(mem, e.status, at + 4, before, at, d1);
    if ea {
      Append(mem, at + 28, U32(4), before, at, d2);
    }
    Append(mem, at + nameOffset, [|name|], before, at, d3);
    Append(mem, at + nameOffset + 1, name, before, at, d3 + [|name|]);
    Append(mem, at + nameOffset + 1 + |name|, [0], before, at, d3 + [|name|] + name);
    assert d3 + [|name|] + name + [0] == RecordBytes(e, ea, 0);
  }

  /**
   * `write_filefindbuf3_multi`.  The ghost result is the memory before the count is stored
   * at `pcFound`.
   */
  method WriteFindBuffer(mem: GuestMemory, entries: seq<Entry>, buf: nat, len: nat, pcFound: nat, ea: bool)
    returns (code: nat, ghost packed: seq<byte>)
    requires buf + len <= mem.bytes.Length <= MEMORY_LIMIT
    modifies mem.bytes
    ensures var c := Count(entries, ea, len, |entries|);
            && Laid(old(mem.Contents()), packed, entries, ea, buf, c)
            && c < TWO32
            && mem.Contents() == (if pcFound != 0 then Store(packed, Write(pcFound, U32(c))) else packed)
            && (code == if c == 0 then ERROR_BUFFER_OVERFLOW else 0)
  {
    hide Laid, RecordBytes, Size, Aligned, Store;
    ghost var before := mem.Contents();
    NothingLaid(before, entries, ea, buf);
    var offset, count := 0, 0;
    var previous: Option<nat> := None;
    var i := 0;
    while i < |entries|
      invariant i <= |entries| && count == i == Count(entries, ea, len, i)
      invariant offset == Offset(entries, ea, i) && offset <= len + 3 && count <= offset
      invariant previous == if i == 0 then None else Some(buf + Offset(entries, ea, i - 1))
      invariant Laid(before, mem.Contents(), entries, ea, buf, i)
    {
      var e := entries[i];
      var entrySize := Size(e, ea);
      AtLeastFour(e, ea);
      assert offset + entrySize < TWO32;
      if offset + entrySize > len {
        CountStops(entries, ea, len, i, |entries|);
        break;
      }
      AppendedIsLaid(before, mem.Contents(), entries, ea, buf, i);
      WriteRecord(mem, e, ea, buf + offset);
      if previous.Some? {
        LastStep(entries, ea, i);
        var ok := mem.WriteBytes(previous.value, U32(buf + offset - previous.value));
      }
      previous := Some(buf + offset);
      LastStep(entries, ea, i + 1);
      offset := offset + Aligned(entrySize);
      count := count + 1;
      i := i + 1;
    }
    packed := mem.Contents();
    if pcFound != 0 {
      var ok := mem.WriteBytes(pcFound, U32(count));
    }
    code := if count == 0 then ERROR_BUFFER_OVERFLOW else 0;
  }

  lemma LastStep(entries: seq<Entry>, ea: bool, k: nat)
    requires 0 < k <= |entries|
    ensures Offset(entries, ea, k) == Offset(entries, ea, k - 1) + Aligned(Size(entries[k - 1], ea))
    ensures Offset(entries, ea, k) <= Offset(entries, ea, k - 1) + Size(entries[k - 1], ea) + 3
    ensures 4 <= Aligned(Size(entries[k - 1], ea)) < TWO32
  {
    AtLeastFour(entries[k - 1], ea);
  }

  lemma NothingLaid(m: seq<byte>, entries: seq<Entry>, ea: bool, buf: nat)
    ensures Laid(m, m, entries, ea, buf, 0)
  {
  }

  lemma {:induction false} CountStops(entries: seq<Entry>, ea: bool, len: nat, i: nat, n: nat)
    requires i < n <= |entries| && Count(entries, ea, len, i) == i && !FitsAt(entries, ea, len, i)
    ensures Count(entries, ea, len, n) == i
  {
    hide FitsAt;
    if i < n - 1 {
      CountStops(entries, ea, len, i, n - 1);
    }
  }

  // ----- walking back -----

  /** What a program reads at `pos`. */
  function ReadStatus(m: seq<byte>, p: nat): FileStatus
    requires p + 24 <= |m|
  {
    FileStatus(Get16(m, p), Get16(m, p + 2), Get16(m, p + 4), Get16(m, p + 6), Get16(m, p + 8), Get16(m, p + 10),
               Get32(m, p + 12), Get32(m, p + 16), Get32(m, p + 20))
  }

  /** The offset field and the entry a program reads at `pos`, if it lies in memory. */
  function ReadRecord(m: seq<byte>, ea: bool, pos: nat): Option<(u32, Entry)> {
    var nameAt := pos + 28 + EaSize(ea);
    if nameAt >= |m| || nameAt + 1 + m[nameAt] > |m| then None
    else Some((Get32(m, pos), Entry(ReadStatus(m, pos + 4), m[nameAt + 1..nameAt + 1 + m[nameAt]])))
  }

  /** The records a program finds from `pos` on, with their positions, following the offsets. */
  function Walk(m: seq<byte>, ea: bool, pos: nat): seq<(nat, Entry)>
    decreases |m| - pos
  {
    var found := ReadRecord(m, ea, pos);
    if found.None? || pos >= |m| then []
    else if found.value.0 == 0 then [(pos, found.value.1)]
    else [(pos, found.value.1)] + Walk(m, ea, pos + found.value.0)
  }

  /** The entries as they come back: names cut at 255 bytes. */
  function Expected(entries: seq<Entry>, ea: bool, buf: nat, c: nat, k: nat): seq<(nat, Entry)>
    requires k <= c <= |entries|
    decreases c - k
  {
    if k == c then []
    else [(buf + Offset(entries, ea, k), Entry(entries[k].status, Cut(entries[k].name)))] + Expected(entries, ea, buf, c, k + 1)
  }

  lemma StatusReadsBack(m: seq<byte>, p: nat, s: FileStatus)
    requires Landed(m, Write(p, StatusBytes(s)))
    ensures ReadStatus(m, p) == s
  {
    hide U16, U32, Get16, Get32;
    var t := m[p..p + 24];
    assert t[0..2] == U16(s.creationDate) && t[2..4] == U16(s.creationTime);
    assert t[4..6] == U16(s.accessDate) && t[6..8] == U16(s.accessTime);
    assert t[8..10] == U16(s.writeDate) && t[10..12] == U16(s.writeTime);
    assert t[12..16] == U32(s.size) && t[16..20] == U32(s.alloc) && t[20..24] == U32(s.attributes);
    PartOfSlice(m, p, 24, 0, 2);
    PartOfSlice(m, p, 24, 2, 4);
    PartOfSlice(m, p, 24, 4, 6);
    PartOfSlice(m, p, 24, 6, 8);
    PartOfSlice(m, p, 24, 8, 10);
    PartOfSlice(m, p, 24, 10, 12);
    PartOfSlice(m, p, 24, 12, 16);
    PartOfSlice(m, p, 24, 16, 20);
    PartOfSlice(m, p, 24, 20, 24);
    Get16IsU16(m, p, s.creationDate);
    Get16IsU16(m, p + 2, s.creationTime);
    Get16IsU16(m, p + 4, s.accessDate);
    Get16IsU16(m, p + 6, s.accessTime);
    Get16IsU16(m, p + 8, s.writeDate);
    Get16IsU16(m, p + 10, s.writeTime);
    Get32IsU32(m, p + 12, s.size);
    Get32IsU32(m, p + 16, s.alloc);
    Get32IsU32(m, p + 20, s.attributes);
  }

  /** The parts of a record lie where a program looks for them. */
  lemma RecordParts(e: Entry, ea: bool, next: u32)
    ensures var r, at, name := RecordBytes(e, ea, next), 28 + EaSize(ea), Cut(e.name);
            && |r| == Size(e, ea) && |name| < 0x100 && at + 1 + |name| <= |r|
            && r[0..4] == U32(next) && r[4..28] == StatusBytes(e.status) && r[at] == |name| && r[at + 1..at + 1 + |name|] == name
  {
    hide U32, StatusBytes, Cut;
  }

  lemma RecordReadsBack(m: seq<byte>, p: nat, e: Entry, ea: bool, next: u32)
    requires Landed(m, Write(p, RecordBytes(e, ea, next)))
    ensures ReadRecord(m, ea, p) == Some((next, Entry(e.status, Cut(e.name)))) && p < |m|
  {
    hide U32, StatusBytes, Get32, ReadStatus, RecordBytes, Cut;
    var r := RecordBytes(e, ea, next);
    var at := 28 + EaSize(ea);
    var name := Cut(e.name);
    RecordParts(e, ea, next);
    PartOfSlice(m, p, |r|, 0, 4);
    PartOfSlice(m, p, |r|, 4, 28);
    PartOfSlice(m, p, |r|, at + 1, at + 1 + |name|);
    assert m[p + at] == m[p..p + |r|][at];
    Get32IsU32(m, p, next);
    StatusReadsBack(m, p + 4, e.status);
  }

  /** How many bytes of a name are kept. */
  function KeptLength(name: seq<byte>): nat {
    if |name| < 255 then |name| else 255
  }

  lemma RecordTail(e: Entry, ea: bool, next: u32)
    ensures var r, n, at := RecordBytes(e, ea, next), KeptLength(e.name), if ea then 32 else 28;
            && |r| == Size(e, ea) == at + n + 2 && r[at] == n && r[at + 1..at + 1 + n] == e.name[..n] && r[at + 1 + n] == 0
            && (ea ==> r[28..32] == U32(4))
  {
    hide U32, StatusBytes;
    var n := KeptLength(e.name);
    var head, tail := U32(next) + StatusBytes(e.status) + EaBytes(ea), NameBytes(e.name);
    assert RecordBytes(e, ea, next) == head + tail;
    assert tail[0] == n && tail[1..1 + n] == e.name[..n] && tail[1 + n] == 0;
    assert ea ==> head[28..32] == U32(4);
  }

  /** What a walk does not look at: the size of an empty attribute list on level 2, and the zero behind the name. */
  lemma RecordEnds(m: seq<byte>, p: nat, e: Entry, ea: bool, next: u32)
    requires Landed(m, Write(p, RecordBytes(e, ea, next)))
    ensures var n, at := KeptLength(e.name), if ea then 32 else 28;
            && Size(e, ea) == at + n + 2 && p + at + n + 2 <= |m|
            && m[p + at] == n && m[p + at + 1..p + at + 1 + n] == e.name[..n] && m[p + at + 1 + n] == 0
            && (ea ==> Get32(m, p + 28) == 4)
  {
    hide U32, RecordBytes, Get32, KeptLength;
    var r := RecordBytes(e, ea, next);
    var n, at := KeptLength(e.name), if ea then 32 else 28;
    RecordTail(e, ea, next);
    PartOfSlice(m, p, |r|, at + 1, at + 1 + n);
    assert m[p + at] == m[p..p + |r|][at] && m[p + at + 1 + n] == m[p..p + |r|][at + 1 + n];
    if ea {
      PartOfSlice(m, p, |r|, 28, 32);
      Get32IsU32(m, p + 28, 4);
    }
  }

  /** One record of a walk. */
  lemma WalkStep(m: seq<byte>, p: nat, e: Entry, ea: bool, next: u32)
    requires Landed(m, Write(p, RecordBytes(e, ea, next)))
    ensures var found := (p, Entry(e.status, Cut(e.name)));
            Walk(m, ea, p) == if next == 0 then [found] else [found] + Walk(m, ea, p + next)
  {
    hide ReadRecord, RecordBytes, Landed, Cut;
    RecordReadsBack(m, p, e, ea, next);
  }

  lemma {:induction false} WalkFrom(before: seq<byte>, m: seq<byte>, entries: seq<Entry>, ea: bool, buf: nat, c: nat, k: nat)
    requires k < c <= |entries| && Laid(before, m, entries, ea, buf, c)
    ensures Walk(m, ea, buf + Offset(entries, ea, k)) == Expected(entries, ea, buf, c, k)
    decreases c - k
  {
    hide RecordBytes, Size, Aligned, Laid, Walk, Landed, Offset;
    var p := buf + Offset(entries, ea, k);
    LaidAt(before, m, entries, ea, buf, c, k);
    WalkStep(m, p, entries[k], ea, Next(entries, ea, c, k));
    LastStep(entries, ea, k + 1);
    if k + 1 < c {
      WalkFrom(before, m, entries, ea, buf, c, k + 1);
    }
  }

  lemma LaidAt(before: seq<byte>, m: seq<byte>, entries: seq<Entry>, ea: bool, buf: nat, c: nat, k: nat)
    requires k < c <= |entries| && Laid(before, m, entries, ea, buf, c)
    ensures Landed(m, RecordWrite(entries, ea, buf, c, k))
  {
  }

  /**
   * Following the offsets from `buf` yields exactly the packed entries in order, at multiples
   * of four from `buf`; and packing has written no byte outside the buffer.
   */
  lemma PackedWalksBack(before: seq<byte>, m: seq<byte>, entries: seq<Entry>, ea: bool, buf: nat, len: nat)
    requires Laid(before, m, entries, ea, buf, Count(entries, ea, len, |entries|))
    ensures var c := Count(entries, ea, len, |entries|);
            && (c > 0 ==> Walk(m, ea, buf) == Expected(entries, ea, buf, c, 0))
            && |Expected(entries, ea, buf, c, 0)| == c
            && (forall k :: 0 <= k < c ==>
                  && Expected(entries, ea, buf, c, 0)[k] == (buf + Offset(entries, ea, k), Entry(entries[k].status, Cut(entries[k].name)))
                  && Offset(entries, ea, k) % 4 == 0)
            && |m| == |before| && (forall x :: 0 <= x < |m| && (x < buf || x >= buf + len) ==> m[x] == before[x])
  {
    hide RecordBytes, Size, Aligned, Walk, Expected, Landed, Offset, Laid;
    var c := Count(entries, ea, len, |entries|);
    if c > 0 {
      WalkFrom(before, m, entries, ea, buf, c, 0);
      FirstOffset(entries, ea);
    }
    ExpectedAt(entries, ea, buf, c, 0);
    forall k | 0 <= k < c
      ensures Expected(entries, ea, buf, c, 0)[k] == (buf + Offset(entries, ea, k), Entry(entries[k].status, Cut(entries[k].name)))
      ensures Offset(entries, ea, k) % 4 == 0
    {
      assert ExpectedIs(entries, ea, buf, c, 0, k);
      OffsetAligned(entries, ea, k);
    }
    OnlyTheBuffer(before, m, entries, ea, buf, len);
  }

  lemma FirstOffset(entries: seq<Entry>, ea: bool)
    ensures Offset(entries, ea, 0) == 0
  {
  }

  lemma OnlyTheBuffer(before: seq<byte>, m: seq<byte>, entries: seq<Entry>, ea: bool, buf: nat, len: nat)
    requires Laid(before, m, entries, ea, buf, Count(entries, ea, len, |entries|))
    ensures |m| == |before| && forall x :: 0 <= x < |m| && (x < buf || x >= buf + len) ==> m[x] == before[x]
  {
    hide RecordBytes, Size, Aligned, Offset, Landed;
    var c := Count(entries, ea, len, |entries|);
    forall x | 0 <= x < |m| && (x < buf || x >= buf + len)
      ensures m[x] == before[x]
    {
      forall k | 0 <= k < c
        ensures !InRecord(entries, ea, buf, k, x)
      {
        assert FitsAt(entries, ea, len, k);
      }
    }
  }

  lemma {:induction false} ExpectedAt(entries: seq<Entry>, ea: bool, buf: nat, c: nat, k: nat)
    requires k <= c <= |entries|
    ensures |Expected(entries, ea, buf, c, k)| == c - k
    ensures forall j :: k <= j < c ==> ExpectedIs(entries, ea, buf, c, k, j)
    decreases c - k
  {
    if k < c {
      ExpectedAt(entries, ea, buf, c, k + 1);
      forall j | k <= j < c
        ensures ExpectedIs(entries, ea, buf, c, k, j)
      {
        assert j > k ==> ExpectedIs(entries, ea, buf, c, k + 1, j);
      }
    }
  }

  predicate ExpectedIs(entries: seq<Entry>, ea: bool, buf: nat, c: nat, k: nat, j: nat)
    requires k <= j < c <= |entries|
  {
    && |Expected(entries, ea, buf, c, k)| == c - k
    && Expected(entries, ea, buf, c, k)[j - k] == (buf + Offset(entries, ea, j), Entry(entries[j].status, Cut(entries[j].name)))
  }
}
