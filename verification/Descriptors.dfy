/**
 * The GDT and IDT built in guest memory (src/loader/descriptors.rs:9-25 and 110-219), and
 * how selectors resolve through them.
 */
module Descriptors {
  import opened Bytes
  import opened GuestMem
  import opened Selectors

  const GDT_BASE := 0x8_0000
  const NUM_CODE_TILES := 2048
  const GDT_ENTRY_COUNT := TILED_CODE_START_INDEX + NUM_CODE_TILES
  const IDT_BASE := 0x8_D000
  const IDT_HANDLER_BASE := 0x8_D800
  const NUM_VECTORS := 32
  const TABLES_END := IDT_HANDLER_BASE + 16 * NUM_VECTORS

  type u64 = x: int | 0 <= x < 0x1_0000_0000_0000_0000

  function U64(v: u64): (s: seq<byte>)
    ensures |s| == 8
  {
    U32(v % TWO32) + U32(v / TWO32)
  }

  function Get64(s: seq<byte>, i: nat): u64
    requires i + 8 <= |s|
  {
    Get32(s, i) + TWO32 * Get32(s, i + 4)
  }

  lemma Get64IsU64(s: seq<byte>, i: nat, v: u64)
    requires i + 8 <= |s| && s[i..i + 8] == U64(v)
    ensures Get64(s, i) == v
  {
    hide U32, Get32;
    var t := s[i..i + 8];
    assert t[..4] == U32(v % TWO32) && t[4..] == U32(v / TWO32);
    assert s[i..i + 4] == t[..4] && s[i + 4..i + 8] == t[4..];
    Get32IsU32(s, i, v % TWO32);
    Get32IsU32(s, i + 4, v / TWO32);
  }

  // ----- one descriptor -----

  /** The descriptor with its fields in place; they do not overlap, so their sum is their union. */
  function MakeGdtEntry(base: u32, limit: u32, access: byte, flags: byte): u64 {
    limit % 0x1_0000
    + base % 0x1_0000 * 0x1_0000
    + base / 0x1_0000 % 0x100 * 0x1_0000_0000
    + access * 0x100_0000_0000
    + (limit / 0x1_0000 % 0x10 + flags / 0x10 * 0x10) * 0x1_0000_0000_0000
    + base / 0x100_0000 * 0x100_0000_0000_0000
  }

  function EntryBase(entry: u64): u32 {
    entry / 0x1_0000 % 0x1_0000 + entry / 0x1_0000_0000 % 0x100 * 0x1_0000 + entry / 0x100_0000_0000_0000 % 0x100 * 0x100_0000
  }

  function EntryLimit(entry: u64): u32 {
    entry % 0x1_0000 + entry / 0x1_0000_0000_0000 % 0x10 * 0x1_0000
  }

  /** The layout of section 3.4.5 of the Intel SDM, volume 3A, byte by byte. */
  function SegmentDescriptor(base: u32, limit: u32, access: byte, flags: byte): seq<byte> {
    U16(limit % 0x1_0000) + U16(base % 0x1_0000)
    + [base / 0x1_0000 % 0x100, access, limit / 0x1_0000 % 0x10 + flags / 0x10 * 0x10, base / 0x100_0000]
  }

  lemma EntryHalves(base: u32, limit: u32, access: byte, flags: byte)
    ensures var e := MakeGdtEntry(base, limit, access, flags);
            && e % TWO32 == limit % 0x1_0000 + base % 0x1_0000 * 0x1_0000
            && e / TWO32 == base / 0x1_0000 % 0x100 + access * 0x100
                            + (limit / 0x1_0000 % 0x10 + flags / 0x10 * 0x10) * 0x1_0000 + base / 0x100_0000 * 0x100_0000
  {
  }

  /** The stored descriptor has the architecture's layout. */
  lemma EntryHasItsLayout(base: u32, limit: u32, access: byte, flags: byte)
    ensures U64(MakeGdtEntry(base, limit, access, flags)) == SegmentDescriptor(base, limit, access, flags)
  {
    hide MakeGdtEntry;
    EntryHalves(base, limit, access, flags);
    var l, b := limit % 0x1_0000, base % 0x1_0000;
    HalfWords(l, b);
    WordDigits(base / 0x1_0000 % 0x100, access, limit / 0x1_0000 % 0x10 + flags / 0x10 * 0x10, base / 0x100_0000);
  }

  lemma HalfWords(lo: u16, hi: u16)
    ensures U32(lo + hi * 0x1_0000) == U16(lo) + U16(hi)
  {
    WordDigits(lo % 0x100, lo / 0x100, hi % 0x100, hi / 0x100);
  }

  lemma Split(whole: nat, high: nat, low: nat, unit: nat)
    requires unit > 0 && whole == high * unit + low && low < unit
    ensures whole / unit == high && whole % unit == low
  {
    DivisionIs(whole, unit, high);
    assert high * unit == unit * high && whole % unit == whole - unit * (whole / unit);
  }

  /** The fields of an entry, cut out of its 64 bits. */
  lemma FieldsOf(l: u16, b: u16, mid: byte, access: byte, x: byte, top: byte)
    ensures var e := l + b * 0x1_0000 + mid * 0x1_0000_0000 + access * 0x100_0000_0000 + x * 0x1_0000_0000_0000 + top * 0x100_0000_0000_0000;
            && e % 0x1_0000 == l && e / 0x1_0000 % 0x1_0000 == b && e / 0x1_0000_0000 % 0x100 == mid
            && e / 0x1_0000_0000_0000 % 0x100 == x && e / 0x100_0000_0000_0000 == top
  {
    var e6: int := top;
    var e5: int := x + 0x100 * e6;
    var e4: int := access + 0x100 * e5;
    var e3: int := mid + 0x100 * e4;
    var e2: int := b + 0x1_0000 * e3;
    var e1: int := l + 0x1_0000 * e2;
    Split(e1, e2, l, 0x1_0000);
    Split(e2, e3, b, 0x1_0000);
    Split(e3, e4, mid, 0x100);
    Split(e5, e6, x, 0x100);
    Split(e1, e3, l + 0x1_0000 * (b as int), 0x1_0000_0000);
    Split(e1, e5, l + 0x1_0000 * (b as int) + 0x1_0000_0000 * (mid as int) + 0x100_0000_0000 * (access as int), 0x1_0000_0000_0000);
    Split(e1, e6, e1 - 0x100_0000_0000_0000 * e6, 0x100_0000_0000_0000);
  }

  /** Base and limit read back, the limit in its 20 bits. */
  lemma EntryReadsBack(base: u32, limit: u32, access: byte, flags: byte)
    ensures EntryBase(MakeGdtEntry(base, limit, access, flags)) == base
    ensures EntryLimit(MakeGdtEntry(base, limit, access, flags)) == limit % 0x10_0000
  {
    var nibble := limit / 0x1_0000 % 0x10;
    var x := nibble + flags / 0x10 * 0x10;
    FieldsOf(limit % 0x1_0000, base % 0x1_0000, base / 0x1_0000 % 0x100, access, x, base / 0x100_0000);
    Digits(base, limit);
    var e := MakeGdtEntry(base, limit, access, flags);
    Nibble(e / 0x1_0000_0000_0000, flags / 0x10, nibble);
    assert base / 0x100_0000 % 0x100 == base / 0x100_0000;
  }

  lemma Nibble(n: nat, high: nat, low: nat)
    requires n % 0x100 == low + high * 0x10 && low < 0x10
    ensures n % 0x10 == low
  {
    assert n == n / 0x100 * 0x100 + n % 0x100;
    Split(n, n / 0x100 * 0x10 + high, low, 0x10);
  }

  lemma Digits(base: u32, limit: u32)
    ensures base == base % 0x1_0000 + base / 0x1_0000 % 0x100 * 0x1_0000 + base / 0x100_0000 * 0x100_0000
    ensures limit % 0x10_0000 == limit % 0x1_0000 + limit / 0x1_0000 % 0x10 * 0x1_0000
  {
  }

  // ----- the tables -----

  /** Entry `k` of the GDT. */
  function GdtEntry(k: nat): u64
    requires k < GDT_ENTRY_COUNT
  {
    if k == 0 then 0
    else if k == 1 then MakeGdtEntry(0, 0xF_FFFF, 0x9B, 0xCF)
    else if k <= 3 then MakeGdtEntry(0, 0xF_FFFF, 0x93, 0xCF)
    else if k == 4 then MakeGdtEntry(0, 0xFFFF, 0x93, 0)
    else if k == 5 then MakeGdtEntry(0, 0xFFFF, 0x9B, 0)
    else if k < TILED_CODE_START_INDEX then MakeGdtEntry((k - TILED_SEL_START_INDEX) * TILE_SIZE, 0xFFFF, 0xD3, 0)
    else MakeGdtEntry((k - TILED_CODE_START_INDEX) * TILE_SIZE, 0xFFFF, 0x9B, 0)
  }

  /** The exceptions for which the processor pushes an error code itself. */
  predicate HasErrorCode(v: nat) {
    v == 8 || 10 <= v <= 14 || v == 17
  }

  function HandlerAddr(v: nat): nat {
    IDT_HANDLER_BASE + v * 16
  }

  /** Push a zero if needed, push the vector, and trap. */
  function Stub(v: byte): seq<byte> {
    (if HasErrorCode(v) then [] else [0x6A, 0x00]) + [0x6A, v] + [0xCC]
  }

  /** A present 32-bit interrupt gate to the stub of `v` in the code segment 0x08. */
  function Gate(v: nat): seq<byte>
    requires v < NUM_VECTORS
  {
    U16(HandlerAddr(v) % 0x1_0000) + U16(0x08) + U16(0x8E00) + U16(HandlerAddr(v) / 0x1_0000)
  }

  /** The `n`-th part written: the GDT entries, then for each vector its stub and its gate. */
  function Part(n: nat): Write
    requires n < GDT_ENTRY_COUNT + 2 * NUM_VECTORS
  {
    if n < GDT_ENTRY_COUNT then Write(GDT_BASE + 8 * n, U64(GdtEntry(n)))
    else
      var v := (n - GDT_ENTRY_COUNT) / 2;
      if (n - GDT_ENTRY_COUNT) % 2 == 0 then Write(HandlerAddr(v), Stub(v)) else Write(IDT_BASE + 8 * v, Gate(v))
  }

  const PART_COUNT := GDT_ENTRY_COUNT + 2 * NUM_VECTORS

  function Parts(n: nat): (ws: seq<Write>)
    requires n <= PART_COUNT
    ensures |ws| == n
  {
    seq(n, i requires 0 <= i < n => Part(i))
  }

  lemma PartsStep(m: seq<byte>, n: nat)
    requires n < PART_COUNT
    ensures Apply(m, Parts(n + 1)) == Store(Apply(m, Parts(n)), Part(n))
  {
    assert Parts(n + 1)[..n] == Parts(n);
  }

  lemma PartSpan(n: nat)
    requires n < PART_COUNT
    ensures Part(n).data != [] && GDT_BASE <= Part(n).addr && Part(n).addr + |Part(n).data| <= TABLES_END
    ensures n < GDT_ENTRY_COUNT ==> Part(n).addr == GDT_BASE + 8 * n && |Part(n).data| == 8
    ensures n >= GDT_ENTRY_COUNT ==>
              var v := (n - GDT_ENTRY_COUNT) / 2;
              if (n - GDT_ENTRY_COUNT) % 2 == 0 then Part(n).addr == HandlerAddr(v) && |Part(n).data| <= 5
              else Part(n).addr == IDT_BASE + 8 * v && |Part(n).data| == 8
  {
    hide U64, GdtEntry;
  }

  /** No part overwrites another: the tables, the gates and the stubs are apart. */
  lemma PartsApart()
    ensures PairwiseApart(Parts(PART_COUNT))
  {
    hide Part;
    forall i, j | 0 <= i < j < PART_COUNT
      ensures Apart(Part(i), Part(j))
    {
      PartSpan(i);
      PartSpan(j);
    }
    var ws := Parts(PART_COUNT);
    forall i, j | 0 <= i < j < |ws|
      ensures Apart(ws[i], ws[j])
    {
      assert ws[i] == Part(i) && ws[j] == Part(j);
    }
  }

  // ----- building them -----

  /** The tables are in memory, and no other byte differs from `before`. */
  ghost predicate SetUp(before: seq<byte>, m: seq<byte>) {
    m == Apply(before, Parts(PART_COUNT))
  }

  /** `setup_idt`; memory must hold the tables, or the original stops with a panic. */
  method SetupIdt(mem: GuestMemory)
    requires mem.bytes.Length >= TABLES_END
    modifies mem.bytes
    ensures SetUp(old(mem.Contents()), mem.Contents())
  {
    hide MakeGdtEntry, U64, Store, Apply, Part, Parts;
    ghost var before := mem.Contents();
    NoParts(before);
    WriteEntry(mem, before, 0, 0);
    WriteEntry(mem, before, 1, MakeGdtEntry(0, 0xF_FFFF, 0x9B, 0xCF));
    WriteEntry(mem, before, 2, MakeGdtEntry(0, 0xF_FFFF, 0x93, 0xCF));
    WriteEntry(mem, before, 3, MakeGdtEntry(0, 0xF_FFFF, 0x93, 0xCF));
    WriteEntry(mem, before, 4, MakeGdtEntry(0, 0xFFFF, 0x93, 0x00));
    WriteEntry(mem, before, 5, MakeGdtEntry(0, 0xFFFF, 0x9B, 0x00));
    for i := 0 to NUM_TILES
      invariant mem.Contents() == Apply(before, Parts(TILED_SEL_START_INDEX + i))
    {
      WriteEntry(mem, before, TILED_SEL_START_INDEX + i, MakeGdtEntry(i * TILE_SIZE, 0xFFFF, 0xD3, 0x00));
    }
    for i := 0 to NUM_CODE_TILES
      invariant mem.Contents() == Apply(before, Parts(TILED_CODE_START_INDEX + i))
    {
      WriteEntry(mem, before, TILED_CODE_START_INDEX + i, MakeGdtEntry(i * TILE_SIZE, 0xFFFF, 0x9B, 0x00));
    }
    for i := 0 to NUM_VECTORS
      invariant mem.Contents() == Apply(before, Parts(GDT_ENTRY_COUNT + 2 * i))
    {
      PartsStep(before, GDT_ENTRY_COUNT + 2 * i);
      VectorParts(i);
      WriteStub(mem, i);
      PartsStep(before, GDT_ENTRY_COUNT + 2 * i + 1);
      WriteGate(mem, i);
    }
  }

  lemma NoParts(m: seq<byte>)
    ensures Apply(m, Parts(0)) == m
  {
  }

  lemma VectorParts(v: nat)
    requires v < NUM_VECTORS
    ensures Part(GDT_ENTRY_COUNT + 2 * v) == Write(HandlerAddr(v), Stub(v))
    ensures Part(GDT_ENTRY_COUNT + 2 * v + 1) == Write(IDT_BASE + 8 * v, Gate(v))
  {
    hide Stub, Gate;
  }

  method WriteEntry(mem: GuestMemory, ghost before: seq<byte>, k: nat, entry: u64)
    requires mem.bytes.Length >= TABLES_END && k < GDT_ENTRY_COUNT && entry == GdtEntry(k)
    requires mem.Contents() == Apply(before, Parts(k))
    modifies mem.bytes
    ensures mem.Contents() == Apply(before, Parts(k + 1))
  {
    hide GdtEntry, U64, Store, Apply, Parts;
    PartsStep(before, k);
    var ok := mem.WriteBytes(GDT_BASE + 8 * k, U64(entry));
  }

  method WriteStub(mem: GuestMemory, v: nat)
    requires v < NUM_VECTORS && mem.bytes.Length >= TABLES_END
    modifies mem.bytes
    ensures mem.Contents() == Store(old(mem.Contents()), Write(HandlerAddr(v), Stub(v)))
  {
    hide Store;
    ghost var before := mem.Contents();
    StoreNothing(before, HandlerAddr(v));
    ghost var done: seq<byte> := [];
    var off := 0;
    if !HasErrorCode(v) {
      Append(mem, HandlerAddr(v), [0x6A], before, HandlerAddr(v), []);
      Append(mem, HandlerAddr(v) + 1, [0x00], before, HandlerAddr(v), [] + [0x6A]);
      done := [0x6A, 0x00];
      assert [] + [0x6A] + [0x00] == done;
      off := 2;
    }
    Append(mem, HandlerAddr(v) + off, [0x6A], before, HandlerAddr(v), done);
    Append(mem, HandlerAddr(v) + off + 1, [v], before, HandlerAddr(v), done + [0x6A]);
    off := off + 2;
    Append(mem, HandlerAddr(v) + off, [0xCC], before, HandlerAddr(v), done + [0x6A] + [v]);
    assert done + [0x6A] + [v] + [0xCC] == Stub(v);
  }

  method WriteGate(mem: GuestMemory, v: nat)
    requires v < NUM_VECTORS && mem.bytes.Length >= TABLES_END
    modifies mem.bytes
    ensures mem.Contents() == Store(old(mem.Contents()), Write(IDT_BASE + 8 * v, Gate(v)))
  {
    hide Store, U16;
    ghost var before := mem.Contents();
    var at := IDT_BASE + 8 * v;
    StoreNothing(before, at);
    var lo, hi := U16(HandlerAddr(v) % 0x1_0000), U16(HandlerAddr(v) / 0x1_0000);
    Append(mem, at, lo, before, at, []);
    Append(mem, at + 2, U16(0x08), before, at, [] + lo);
    Append(mem, at + 4, U16(0x8E00), before, at, [] + lo + U16(0x08));
    Append(mem, at + 6, hi, before, at, [] + lo + U16(0x08) + U16(0x8E00));
    assert [] + lo + U16(0x08) + U16(0x8E00) + hi == Gate(v);
  }

  // ----- reading them back -----

  /** `gdt_entry_base`; reading outside memory gives a zero entry. */
  function GdtEntryBase(m: seq<byte>, selector: u16): u32 {
    var at := GDT_BASE + selector / 8 * 8;
    if at + 8 <= |m| then EntryBase(Get64(m, at)) else 0
  }

  function GdtEntryLimit(m: seq<byte>, selector: u16): u32 {
    var at := GDT_BASE + selector / 8 * 8;
    if at + 8 <= |m| then EntryLimit(Get64(m, at)) else 0
  }

  lemma PartLands(before: seq<byte>, m: seq<byte>, n: nat)
    requires SetUp(before, m) && |before| >= TABLES_END && n < PART_COUNT
    ensures |m| == |before| && Landed(m, Part(n))
  {
    hide Part;
    PartsApart();
    PartSpan(n);
    assert Parts(PART_COUNT)[n] == Part(n);
    ApplyLands(before, Parts(PART_COUNT), n);
  }

  lemma EntryInPlace(before: seq<byte>, m: seq<byte>, k: nat)
    requires SetUp(before, m) && |before| >= TABLES_END && k < GDT_ENTRY_COUNT
    ensures |m| == |before| && Get64(m, GDT_BASE + 8 * k) == GdtEntry(k)
  {
    hide U64, GdtEntry, SetUp, Get64;
    PartLands(before, m, k);
    Get64IsU64(m, GDT_BASE + 8 * k, GdtEntry(k));
  }

  /** Every data and code tile reads back with its base and a limit of 64 KB. */
  lemma TilesReadBack(before: seq<byte>, m: seq<byte>, i: nat)
    requires SetUp(before, m) && |before| >= TABLES_END
    ensures i < NUM_TILES ==>
              var selector := (TILED_SEL_START_INDEX + i) * 8;
              GdtEntryBase(m, selector) == i * TILE_SIZE && GdtEntryLimit(m, selector) == 0xFFFF
    ensures i < NUM_CODE_TILES ==>
              var selector := (TILED_CODE_START_INDEX + i) * 8;
              GdtEntryBase(m, selector) == i * TILE_SIZE && GdtEntryLimit(m, selector) == 0xFFFF
  {
    hide SetUp, Get64, EntryBase, EntryLimit, MakeGdtEntry;
    if i < NUM_TILES {
      EntryInPlace(before, m, TILED_SEL_START_INDEX + i);
      EntryReadsBack(i * TILE_SIZE, 0xFFFF, 0xD3, 0);
    }
    if i < NUM_CODE_TILES {
      EntryInPlace(before, m, TILED_CODE_START_INDEX + i);
      EntryReadsBack(i * TILE_SIZE, 0xFFFF, 0x9B, 0);
    }
  }

  lemma GateReadsBack(m: seq<byte>, v: nat)
    requires v < NUM_VECTORS && Landed(m, Write(IDT_BASE + 8 * v, Gate(v)))
    ensures Get16(m, IDT_BASE + 8 * v) == HandlerAddr(v) % 0x1_0000 && Get16(m, IDT_BASE + 8 * v + 6) == HandlerAddr(v) / 0x1_0000
    ensures Get16(m, IDT_BASE + 8 * v + 2) == 0x08 && Get16(m, IDT_BASE + 8 * v + 4) == 0x8E00
  {
    hide U16, Get16;
    var at, g := IDT_BASE + 8 * v, Gate(v);
    PartOfSlice(m, at, 8, 0, 2);
    PartOfSlice(m, at, 8, 2, 4);
    PartOfSlice(m, at, 8, 4, 6);
    PartOfSlice(m, at, 8, 6, 8);
    assert g[0..2] == U16(HandlerAddr(v) % 0x1_0000) && g[2..4] == U16(0x08);
    assert g[4..6] == U16(0x8E00) && g[6..8] == U16(HandlerAddr(v) / 0x1_0000);
    Get16IsU16(m, at, HandlerAddr(v) % 0x1_0000);
    Get16IsU16(m, at + 2, 0x08);
    Get16IsU16(m, at + 4, 0x8E00);
    Get16IsU16(m, at + 6, HandlerAddr(v) / 0x1_0000);
  }

  /** Each gate leads to its own stub, which lies in memory as it was written. */
  lemma GatesReachTheirStubs(before: seq<byte>, m: seq<byte>, v: nat)
    requires SetUp(before, m) && |before| >= TABLES_END && v < NUM_VECTORS
    ensures |m| == |before|
    ensures Get16(m, IDT_BASE + 8 * v) + 0x1_0000 * Get16(m, IDT_BASE + 8 * v + 6) == HandlerAddr(v)
    ensures Get16(m, IDT_BASE + 8 * v + 2) == 0x08 && Get16(m, IDT_BASE + 8 * v + 4) == 0x8E00
    ensures m[HandlerAddr(v)..HandlerAddr(v) + |Stub(v)|] == Stub(v)
    ensures GdtEntryBase(m, 0x08) == 0 && HandlerAddr(v) + |Stub(v)| <= GdtEntryLimit(m, 0x08) + 1
  {
    hide SetUp, Get64, EntryBase, EntryLimit, MakeGdtEntry, U16, Get16;
    VectorParts(v);
    PartLands(before, m, GDT_ENTRY_COUNT + 2 * v);
    PartLands(before, m, GDT_ENTRY_COUNT + 2 * v + 1);
    GateReadsBack(m, v);
    EntryInPlace(before, m, 1);
    EntryReadsBack(0, 0xF_FFFF, 0x9B, 0xCF);
  }

  /**
   * Below 256 MB the selector and offset given for a flat address lead back to it, both
   * through the descriptor table in memory and through the inverse conversion.
   */
  lemma FlatAddressesResolve(before: seq<byte>, m: seq<byte>, flat: u32)
    requires SetUp(before, m) && |before| >= TABLES_END && flat < NUM_TILES * TILE_SIZE
    ensures var selector, offset := FlatToSel(flat) / TILE_SIZE, FlatToSel(flat) % TILE_SIZE;
            && GdtEntryBase(m, selector) + offset == flat
            && offset <= GdtEntryLimit(m, selector)
            && SelToFlat(FlatToSel(flat)) == flat
  {
    hide SetUp, GdtEntryBase, GdtEntryLimit;
    SelectorRoundTrip(flat);
    TilesReadBack(before, m, flat / TILE_SIZE);
    assert FlatToSel(flat) / TILE_SIZE == (TILED_SEL_START_INDEX + flat / TILE_SIZE) * 8;
    assert FlatToSel(flat) % TILE_SIZE == flat % TILE_SIZE;
  }

  /** Nothing outside the tables is touched. */
  lemma OnlyTheTables(before: seq<byte>, m: seq<byte>, x: nat)
    requires SetUp(before, m) && |before| >= TABLES_END && x < |m| && (x < GDT_BASE || x >= TABLES_END)
    ensures |m| == |before| && m[x] == before[x]
  {
    hide Part;
    var ws := Parts(PART_COUNT);
    forall i | 0 <= i < |ws|
      ensures !(ws[i].addr <= x < ws[i].addr + |ws[i].data|)
    {
      PartSpan(i);
      assert ws[i] == Part(i);
    }
    ApplyOutside(before, ws, x);
  }

  // ----- what the processor makes of them -----

  /** A segment as the processor sees it: sections 3.4.5 and 3.4.5.1 of the Intel SDM, volume 3A. */
  datatype Segment = Segment(
    base: u32, limit: u32, present: bool, ring: nat, system: bool, code: bool, access: bool, wide: bool, pages: bool)

  predicate BitOf(b: byte, weight: int)
    requires weight > 0
  {
    b / weight % 2 == 1
  }

  /** The descriptor of eight bytes; `access` is the right to read code or to write data. */
  function SegmentOf(d: seq<byte>): Segment
    requires |d| == 8
  {
    Segment(
      Get16(d, 2) + 0x1_0000 * (d[4] as int) + 0x100_0000 * (d[7] as int), Get16(d, 0) + 0x1_0000 * (d[6] as int % 0x10),
      BitOf(d[5], 0x80), d[5] / 0x20 % 4, !BitOf(d[5], 0x10), BitOf(d[5], 8), BitOf(d[5], 2), BitOf(d[6], 0x40), BitOf(d[6], 0x80))
  }

  lemma SegmentOfDescriptor(base: u32, limit: u32, access: byte, flags: byte)
    requires limit < 0x10_0000
    ensures SegmentOf(SegmentDescriptor(base, limit, access, flags))
         == Segment(base, limit, BitOf(access, 0x80), access / 0x20 % 4, !BitOf(access, 0x10), BitOf(access, 8), BitOf(access, 2),
                    BitOf(flags, 0x40), BitOf(flags, 0x80))
  {
    hide U16, Get16;
    var d := SegmentDescriptor(base, limit, access, flags);
    var l, b, x := U16(limit % 0x1_0000), U16(base % 0x1_0000), limit / 0x1_0000 % 0x10 + flags / 0x10 * 0x10;
    assert d == l + b + [base / 0x1_0000 % 0x100, access, x, base / 0x100_0000];
    assert d[0..2] == l && d[2..4] == b;
    Get16IsU16(d, 0, limit % 0x1_0000);
    Get16IsU16(d, 2, base % 0x1_0000);
    Digits(base, limit);
    FlagBits(limit / 0x1_0000 % 0x10, flags);
  }

  lemma FlagBits(low: nat, flags: byte)
    requires low < 0x10
    ensures var x := low + flags / 0x10 * 0x10;
            && x < 0x100 && x % 0x10 == low && x / 0x40 % 2 == flags / 0x40 % 2 && x / 0x80 % 2 == flags / 0x80 % 2
  {
  }

  /** The segments by index: null, flat 32-bit code and data, 16-bit aliases, data tiles for ring 2, code tiles. */
  function ExpectedSegment(k: nat): Segment
    requires 0 < k < GDT_ENTRY_COUNT
  {
    if k == 1 then Segment(0, 0xF_FFFF, true, 0, false, true, true, true, true)
    else if k <= 3 then Segment(0, 0xF_FFFF, true, 0, false, false, true, true, true)
    else if k == 4 then Segment(0, 0xFFFF, true, 0, false, false, true, false, false)
    else if k == 5 then Segment(0, 0xFFFF, true, 0, false, true, true, false, false)
    else if k < 4102 then Segment((k - 6) * 0x1_0000, 0xFFFF, true, 2, false, false, true, false, false)
    else Segment((k - 4102) * 0x1_0000, 0xFFFF, true, 0, false, true, true, false, false)
  }

  /** Every descriptor in memory is the one of its kind, with its rights, its width and its ring. */
  lemma SegmentsAre(before: seq<byte>, m: seq<byte>, k: nat)
    requires SetUp(before, m) && |before| >= TABLES_END && k < GDT_ENTRY_COUNT
    ensures GDT_BASE + 8 * k + 8 <= |m|
    ensures var d := m[GDT_BASE + 8 * k..GDT_BASE + 8 * k + 8];
            if k == 0 then d == [0, 0, 0, 0, 0, 0, 0, 0] else SegmentOf(d) == ExpectedSegment(k)
  {
    hide SetUp, U64, MakeGdtEntry, SegmentDescriptor, SegmentOf;
    PartLands(before, m, k);
    if k == 0 {
      NullEntry();
    } else if k == 1 {
      EntryIs(0, 0xF_FFFF, 0x9B, 0xCF);
    } else if k <= 3 {
      EntryIs(0, 0xF_FFFF, 0x93, 0xCF);
    } else if k == 4 {
      EntryIs(0, 0xFFFF, 0x93, 0);
    } else if k == 5 {
      EntryIs(0, 0xFFFF, 0x9B, 0);
    } else if k < 4102 {
      EntryIs((k - 6) * 0x1_0000, 0xFFFF, 0xD3, 0);
    } else {
      EntryIs((k - 4102) * 0x1_0000, 0xFFFF, 0x9B, 0);
    }
  }

  lemma NullEntry()
    ensures U64(0) == [0, 0, 0, 0, 0, 0, 0, 0]
  {
  }

  lemma EntryIs(base: u32, limit: u32, access: byte, flags: byte)
    requires limit < 0x10_0000
    ensures SegmentOf(U64(MakeGdtEntry(base, limit, access, flags)))
         == Segment(base, limit, BitOf(access, 0x80), access / 0x20 % 4, !BitOf(access, 0x10), BitOf(access, 8), BitOf(access, 2),
                    BitOf(flags, 0x40), BitOf(flags, 0x80))
  {
    hide SegmentOf, SegmentDescriptor, U64, MakeGdtEntry;
    EntryHasItsLayout(base, limit, access, flags);
    SegmentOfDescriptor(base, limit, access, flags);
  }

  /** The exceptions with an error code: table 6-1 of the Intel SDM, volume 3A, up to the alignment check. */
  const PUSHED_CODES: set<nat> := {8, 10, 11, 12, 13, 14, 17}

  /** Running pushes of a byte up to the trap; the top of the stack comes first. */
  function RunToTrap(code: seq<byte>, stack: seq<int>): (r: seq<int>)
    decreases |code|
  {
    if |code| >= 2 && code[0] == 0x6A then RunToTrap(code[2..], [code[1] as int] + stack)
    else if code == [0xCC] then stack
    else []
  }

  /**
   * Whatever the exception, at the trap the stack holds the vector, an error code, which is
   * zero where the processor gives none, and then what the processor pushed.
   */
  lemma StubsUnifyTheStack(v: nat, error: int, frame: seq<int>)
    requires v < NUM_VECTORS
    ensures RunToTrap(Stub(v), if v in PUSHED_CODES then [error] + frame else frame)
         == [v, if v in PUSHED_CODES then error else 0] + frame
  {
    var stub := Stub(v);
    if v in PUSHED_CODES {
      assert stub == [0x6A, v, 0xCC] && stub[2..] == [0xCC];
      assert RunToTrap(stub[2..], [v] + ([error] + frame)) == [v] + ([error] + frame);
    } else {
      assert stub == [0x6A, 0x00, 0x6A, v, 0xCC] && stub[2..] == [0x6A, v, 0xCC] && stub[2..][2..] == [0xCC];
      assert RunToTrap(stub[2..], [0] + frame) == RunToTrap([0xCC], [v] + ([0] + frame));
    }
  }
}
