/**
 * The parser against an encoder of the format: whatever file holds these tables where its
 * header says, parses to them (src/lx.rs:37-260, src/lx/header.rs).  The linker writes only a
 * small part of this: one kind of fixup, no exports, no resources.
 */
module LxEncoding {
  import opened Bytes
  import opened Wrappers
  import opened LxFormat
  import opened LxRoundTrip
  import P = LxParser
  import W = LxWriter

  // ----- entry bundles -----

  /**
   * A bundle of ordinals: unused ones, or slots for 16-bit entries, call gates or 32-bit
   * entries.  As the parser reads them, only the last kind names an object.
   */
  datatype Bundle =
    | Unused(count: nat)
    | Bits16(slots16: seq<(byte, u16)>)
    | Gates(gates: seq<(byte, u16, u16)>)
    | Bits32(objectNum: u16, slots32: seq<(byte, u32)>)
  {
    function Count(): nat {
      match this
      case Unused(count) => count
      case Bits16(slots) => |slots|
      case Gates(gates) => |gates|
      case Bits32(_, slots) => |slots|
    }

    predicate Valid() { 1 <= Count() < 0x100 }

    function Encode(): (s: seq<byte>)
      requires Valid()
      ensures |s| >= 2
    {
      match this
      case Unused(count) => [count, 0]
      case Bits16(slots) => [Count(), 1] + EncodeSlots16(slots)
      case Gates(gates) => [Count(), 2] + EncodeGates(gates)
      case Bits32(objectNum, slots) => [Count(), 3] + (U16(objectNum) + EncodeSlots32(slots))
    }
  }

  function EncodeSlots16(slots: seq<(byte, u16)>): (s: seq<byte>)
    ensures |s| == 3 * |slots|
  {
    if slots == [] then [] else [slots[0].0] + U16(slots[0].1) + EncodeSlots16(slots[1..])
  }

  function EncodeGates(gates: seq<(byte, u16, u16)>): (s: seq<byte>)
    ensures |s| == 5 * |gates|
  {
    if gates == [] then [] else [gates[0].0] + U16(gates[0].1) + U16(gates[0].2) + EncodeGates(gates[1..])
  }

  /** Flags and a 32-bit offset for each slot. */
  function EncodeSlots32(slots: seq<(byte, u32)>): (s: seq<byte>)
    ensures |s| == 5 * |slots|
  {
    if slots == [] then [] else [slots[0].0] + (U32(slots[0].1) + EncodeSlots32(slots[1..]))
  }

  predicate AllBundlesValid(bundles: seq<Bundle>) {
    forall i :: 0 <= i < |bundles| ==> bundles[i].Valid()
  }

  function EncodeBundles(bundles: seq<Bundle>): seq<byte>
    requires AllBundlesValid(bundles)
  {
    if bundles == [] then [0] else bundles[0].Encode() + EncodeBundles(bundles[1..])
  }

  /** The exports of the bundles, the first of which starts at `ordinal`. */
  function Exports(bundles: seq<Bundle>, ordinal: nat): seq<Export> {
    if bundles == [] then []
    else
      var b := bundles[0];
      (if b.Bits32? then SlotExports(b.objectNum, b.slots32, ordinal) else []) + Exports(bundles[1..], ordinal + b.Count())
  }

  function SlotExports(objectNum: u16, slots: seq<(byte, u32)>, ordinal: nat): (r: seq<Export>)
    ensures |r| == |slots|
  {
    seq(|slots|, k requires 0 <= k < |slots| => Export(ordinal + k, objectNum, slots[k].1))
  }

  /** How many ordinals the bundles before bundle `i` take. */
  function OrdinalsBefore(bundles: seq<Bundle>, i: nat): nat
    requires i <= |bundles|
  {
    if i == 0 then 0 else OrdinalsBefore(bundles, i - 1) + bundles[i - 1].Count()
  }

  predicate IsSlot(bundles: seq<Bundle>, i: nat, k: nat) {
    i < |bundles| && bundles[i].Bits32? && k < |bundles[i].slots32|
  }

  /** The export of slot `k` of bundle `i`: ordinals count all slots of all bundles. */
  function ExportOf(bundles: seq<Bundle>, i: nat, k: nat, ordinal: nat): Export
    requires IsSlot(bundles, i, k)
  {
    Export(ordinal + OrdinalsBefore(bundles, i) + k, bundles[i].objectNum, bundles[i].slots32[k].1)
  }

  lemma {:induction false} BeforeRest(bundles: seq<Bundle>, i: nat)
    requires 1 <= i <= |bundles|
    ensures OrdinalsBefore(bundles, i) == bundles[0].Count() + OrdinalsBefore(bundles[1..], i - 1)
  {
    if i > 1 {
      BeforeRest(bundles, i - 1);
    }
  }

  lemma {:induction false} ExportIsSlot(bundles: seq<Bundle>, ordinal: nat, e: Export) returns (i: nat, k: nat)
    requires e in Exports(bundles, ordinal)
    ensures IsSlot(bundles, i, k) && e == ExportOf(bundles, i, k, ordinal)
  {
    hide SlotExports;
    var b, rest := bundles[0], bundles[1..];
    if e in Exports(rest, ordinal + b.Count()) {
      i, k := ExportIsSlot(rest, ordinal + b.Count(), e);
      i := i + 1;
      BeforeRest(bundles, i);
    } else {
      i := 0;
      k := SlotOf(b.objectNum, b.slots32, ordinal, e);
    }
  }

  lemma SlotOf(objectNum: u16, slots: seq<(byte, u32)>, ordinal: nat, e: Export) returns (k: nat)
    requires e in SlotExports(objectNum, slots, ordinal)
    ensures k < |slots| && e == Export(ordinal + k, objectNum, slots[k].1)
  {
    k :| 0 <= k < |slots| && SlotExports(objectNum, slots, ordinal)[k] == e;
  }

  lemma {:induction false} SlotIsExported(bundles: seq<Bundle>, ordinal: nat, i: nat, k: nat)
    requires IsSlot(bundles, i, k)
    ensures ExportOf(bundles, i, k, ordinal) in Exports(bundles, ordinal)
  {
    var b, rest := bundles[0], bundles[1..];
    if i == 0 {
      assert ExportOf(bundles, 0, k, ordinal) == SlotExports(b.objectNum, b.slots32, ordinal)[k];
    } else {
      BeforeRest(bundles, i);
      SlotIsExported(rest, ordinal + b.Count(), i - 1, k);
    }
  }

  /** Exactly the 32-bit slots are exported. */
  lemma ExportsAreSlots(bundles: seq<Bundle>, ordinal: nat, e: Export)
    ensures e in Exports(bundles, ordinal) <==> exists i: nat, k: nat :: IsSlot(bundles, i, k) && e == ExportOf(bundles, i, k, ordinal)
  {
    hide Exports, ExportOf;
    if e in Exports(bundles, ordinal) {
      var i, k := ExportIsSlot(bundles, ordinal, e);
    }
    forall i: nat, k: nat | IsSlot(bundles, i, k)
      ensures ExportOf(bundles, i, k, ordinal) in Exports(bundles, ordinal)
    {
      SlotIsExported(bundles, ordinal, i, k);
    }
  }

  /** They come in the order of their ordinals. */
  lemma {:induction false} ExportsAscend(bundles: seq<Bundle>, ordinal: nat)
    ensures forall j :: 0 <= j < |Exports(bundles, ordinal)| ==> ordinal <= Exports(bundles, ordinal)[j].ordinal
    ensures forall j, k :: 0 <= j < k < |Exports(bundles, ordinal)| ==>
              Exports(bundles, ordinal)[j].ordinal < Exports(bundles, ordinal)[k].ordinal
  {
    if bundles != [] {
      ExportsAscend(bundles[1..], ordinal + bundles[0].Count());
    }
  }

  lemma LiesFirst(f: seq<byte>, at: nat, s: seq<byte>)
    requires Lies(f, at, s) && s != []
    ensures at < |f| && f[at] == s[0]
  {
    assert f[at] == f[at..at + |s|][0];
  }

  lemma {:induction false} ReadsSlots32(f: seq<byte>, pos: nat, ordinal: nat, objectNum: u16, slots: seq<(byte, u32)>)
    requires Lies(f, pos, EncodeSlots32(slots))
    ensures P.Entries32(f, pos, ordinal, objectNum, |slots|) == Ok(SlotExports(objectNum, slots, ordinal))
    decreases |slots|
  {
    hide Get32, U32;
    if slots != [] {
      var rest := EncodeSlots32(slots[1..]);
      LiesSplit(f, pos, [slots[0].0], U32(slots[0].1) + rest);
      LiesSplit(f, pos + 1, U32(slots[0].1), rest);
      LiesU32(f, pos + 1, slots[0].1);
      ReadsSlots32(f, pos + 5, ordinal + 1, objectNum, slots[1..]);
      assert SlotExports(objectNum, slots, ordinal)
          == [Export(ordinal, objectNum, slots[0].1)] + SlotExports(objectNum, slots[1..], ordinal + 1);
    }
  }

  /** What one bundle contributes, and where the next one starts. */
  lemma ReadsBundle(f: seq<byte>, pos: nat, b: Bundle, ordinal: nat)
    requires b.Valid() && Lies(f, pos, b.Encode())
    ensures P.EntryTable(f, pos, ordinal) ==
            P.Prepend(if b.Bits32? then SlotExports(b.objectNum, b.slots32, ordinal) else [],
                      P.EntryTable(f, pos + |b.Encode()|, ordinal + b.Count()))
  {
    hide P.EntryTable, P.Entries32, Get16, Lies, Bundle.Encode;
    BundleStarts(f, pos, b);
    P.EntryTableStep(f, pos, ordinal);
    P.PrependNothing([], P.EntryTable(f, pos + |b.Encode()|, ordinal + b.Count()));
    if b.Bits32? {
      ReadsSlots32(f, pos + 4, ordinal, b.objectNum, b.slots32);
    }
  }

  /** The number that stands for the kind of a bundle. */
  function KindOf(b: Bundle): byte {
    match b
    case Unused(_) => 0
    case Bits16(_) => 1
    case Gates(_) => 2
    case Bits32(_, _) => 3
  }

  function BodySize(b: Bundle): nat {
    match b
    case Unused(_) => 0
    case Bits16(slots) => 3 * |slots|
    case Gates(gates) => 5 * |gates|
    case Bits32(_, slots) => 2 + 5 * |slots|
  }

  lemma BundleStarts(f: seq<byte>, pos: nat, b: Bundle)
    requires b.Valid() && Lies(f, pos, b.Encode())
    ensures |b.Encode()| == 2 + BodySize(b) && pos + |b.Encode()| <= |f|
    ensures f[pos] == b.Count() && f[pos + 1] == KindOf(b)
    ensures b.Bits32? ==> Get16(f, pos + 2) == b.objectNum && Lies(f, pos + 4, EncodeSlots32(b.slots32))
  {
    hide Get16, U16, EncodeSlots16, EncodeGates, EncodeSlots32;
    var head: seq<byte> := [b.Count(), KindOf(b)];
    assert b.Encode() == head + b.Encode()[2..];
    LiesSplit(f, pos, head, b.Encode()[2..]);
    LiesFirst(f, pos, head);
    assert f[pos + 1] == f[pos..pos + 2][1];
    if b.Bits32? {
      LiesSplit(f, pos + 2, U16(b.objectNum), EncodeSlots32(b.slots32));
      LiesU16(f, pos + 2, b.objectNum);
    }
  }

  /** The entry table of any bundles gives exactly their exports. */
  lemma {:induction false} ReadsBundles(f: seq<byte>, pos: nat, bundles: seq<Bundle>, ordinal: nat)
    requires AllBundlesValid(bundles) && Lies(f, pos, EncodeBundles(bundles))
    ensures P.EntryTable(f, pos, ordinal) == Ok(Exports(bundles, ordinal))
    decreases |bundles|
  {
    hide P.EntryTable, Bundle.Encode;
    if bundles == [] {
      LiesFirst(f, pos, [0]);
      P.NoEntries(f, pos, ordinal);
    } else {
      LiesSplit(f, pos, bundles[0].Encode(), EncodeBundles(bundles[1..]));
      ReadsBundle(f, pos, bundles[0], ordinal);
      ReadsBundles(f, pos + |bundles[0].Encode()|, bundles[1..], ordinal + bundles[0].Count());
    }
  }

  // ----- entry tables that end in another way -----

  /** The bundles without the zero behind them. */
  function BundleBytes(bundles: seq<Bundle>): seq<byte>
    requires AllBundlesValid(bundles)
  {
    if bundles == [] then [] else bundles[0].Encode() + BundleBytes(bundles[1..])
  }

  /** The table ends at `pos`: with the file, with a zero, or with a bundle of a kind that is not known. */
  predicate TableEnds(f: seq<byte>, pos: nat) {
    pos >= |f| || f[pos] == 0 || (pos + 1 < |f| && f[pos + 1] > 3)
  }

  /** A bundle starts at `pos` that the file does not hold. */
  predicate IsCutOff(f: seq<byte>, pos: nat) {
    && pos < |f| && f[pos] != 0
    && var count := f[pos] as int;
       || pos + 1 == |f|
       || (f[pos + 1] == 1 && pos + 2 + 3 * count > |f|)
       || (f[pos + 1] == 2 && pos + 2 + 5 * count > |f|)
       || (f[pos + 1] == 3 && pos + 4 + 5 * count > |f|)
  }

  lemma {:induction false} SlotsAreCutOff(f: seq<byte>, pos: nat, ordinal: nat, objectNum: u16, count: nat)
    requires count > 0 && pos + 5 * count > |f|
    ensures P.Entries32(f, pos, ordinal, objectNum, count) == Err(UnexpectedEof)
    decreases count
  {
    hide Get32;
    if count > 1 && pos + 5 <= |f| {
      SlotsAreCutOff(f, pos + 5, ordinal + 1, objectNum, count - 1);
    }
  }

  lemma EndOfTable(f: seq<byte>, pos: nat, ordinal: nat)
    ensures TableEnds(f, pos) ==> P.EntryTable(f, pos, ordinal) == Ok([])
    ensures IsCutOff(f, pos) ==> P.EntryTable(f, pos, ordinal) == Err(UnexpectedEof)
  {
    hide P.EntryTable, P.Entries32, Get16;
    P.NoEntries(f, pos, ordinal);
    if pos < |f| && f[pos] != 0 {
      P.EntryTableStep(f, pos, ordinal);
      if IsCutOff(f, pos) && pos + 4 <= |f| && f[pos + 1] == 3 {
        SlotsAreCutOff(f, pos + 4, ordinal, Get16(f, pos + 2), f[pos]);
      }
    }
  }

  /** The exports count however the table ends; only a bundle that is cut off is an error. */
  lemma {:induction false} ReadsUpToTheEnd(f: seq<byte>, pos: nat, bundles: seq<Bundle>, ordinal: nat)
    requires AllBundlesValid(bundles) && Lies(f, pos, BundleBytes(bundles))
    ensures TableEnds(f, pos + |BundleBytes(bundles)|) ==> P.EntryTable(f, pos, ordinal) == Ok(Exports(bundles, ordinal))
    ensures IsCutOff(f, pos + |BundleBytes(bundles)|) ==> P.EntryTable(f, pos, ordinal) == Err(UnexpectedEof)
    decreases |bundles|
  {
    hide P.EntryTable, Bundle.Encode, TableEnds, IsCutOff;
    if bundles == [] {
      EndOfTable(f, pos, ordinal);
    } else {
      LiesSplit(f, pos, bundles[0].Encode(), BundleBytes(bundles[1..]));
      ReadsBundle(f, pos, bundles[0], ordinal);
      ReadsUpToTheEnd(f, pos + |bundles[0].Encode()|, bundles[1..], ordinal + bundles[0].Count());
    }
  }

  // ----- non-resident names -----

  predicate NamesValid(names: seq<(u16, string)>) {
    forall i :: 0 <= i < |names| ==> names[i].1 != [] && PlainName(names[i].1)
  }

  /** Each name with its length before it and its ordinal behind it; a zero ends the table. */
  function EncodeNonResident(names: seq<(u16, string)>): seq<byte> {
    if names == [] then [0] else W.EncodeName(names[0].1) + (U16(names[0].0) + EncodeNonResident(names[1..]))
  }

  /** One name. */
  lemma ReadsNonResidentName(f: seq<byte>, pos: nat, ordinal: u16, name: string, rest: seq<byte>)
    requires name != [] && PlainName(name) && Lies(f, pos, W.EncodeName(name) + (U16(ordinal) + rest))
    ensures Lies(f, pos + |W.EncodeName(name)| + 2, rest)
    ensures P.NonResident(f, pos) ==
            P.Prepend([(ordinal, name)], P.NonResident(f, pos + |W.EncodeName(name)| + 2))
  {
    hide Get16, U16, P.Name, Lies;
    var encoded := W.EncodeName(name);
    LiesSplit(f, pos, encoded, U16(ordinal) + rest);
    TakeU16(f, pos + |encoded|, ordinal, rest);
    LiesFirst(f, pos, encoded);
    ReadsName(f, pos, name);
  }

  lemma {:induction false} ReadsNonResident(f: seq<byte>, pos: nat, names: seq<(u16, string)>)
    requires NamesValid(names) && Lies(f, pos, EncodeNonResident(names))
    ensures P.NonResident(f, pos) == Ok(names)
    decreases |names|
  {
    hide W.EncodeName, P.NonResident;
    if names == [] {
      LiesFirst(f, pos, [0]);
      NoNonResident(f, pos);
    } else {
      var (ordinal, name) := names[0];
      ReadsNonResidentName(f, pos, ordinal, name, EncodeNonResident(names[1..]));
      ReadsNonResident(f, pos + |W.EncodeName(name)| + 2, names[1..]);
      assert names == [names[0]] + names[1..];
    }
  }

  lemma NoNonResident(f: seq<byte>, pos: nat)
    requires pos < |f| && f[pos] == 0
    ensures P.NonResident(f, pos) == Ok([])
  {
  }

  // ----- objects, pages and resources -----

  function EncodeObject(o: ObjectEntry): (s: seq<byte>)
    ensures |s| == 24
  {
    U32(o.size) + (U32(o.base) + (U32(o.flags) + (U32(o.pageMapIndex) + (U32(o.pageCount) + U32(o.reserved)))))
  }

  function EncodePageEntry(e: PageEntry): (s: seq<byte>)
    ensures |s| == 8
  {
    U32(e.dataOffset) + (U16(e.dataSize) + U16(e.flags))
  }

  function EncodeResource(r: ResourceEntry): (s: seq<byte>)
    ensures |s| == 14
  {
    U16(r.typeId) + (U16(r.nameId) + (U32(r.size) + (U16(r.objectNum) + U32(r.offset))))
  }

  lemma ReadsObjectEntry(f: seq<byte>, at: nat, o: ObjectEntry)
    requires Lies(f, at, EncodeObject(o))
    ensures at + 24 <= |f| && ObjectAt(f, at) == o
  {
    hide Get32, U32, Lies;
    LiesEnds(f, at, EncodeObject(o));
    TakeU32(f, at, o.size, U32(o.base) + (U32(o.flags) + (U32(o.pageMapIndex) + (U32(o.pageCount) + U32(o.reserved)))));
    TakeU32(f, at + 4, o.base, U32(o.flags) + (U32(o.pageMapIndex) + (U32(o.pageCount) + U32(o.reserved))));
    TakeU32(f, at + 8, o.flags, U32(o.pageMapIndex) + (U32(o.pageCount) + U32(o.reserved)));
    TakeU32(f, at + 12, o.pageMapIndex, U32(o.pageCount) + U32(o.reserved));
    TakeU32(f, at + 16, o.pageCount, U32(o.reserved));
    LiesU32At(f, at + 20, o.reserved);
  }

  lemma ReadsPageEntryOf(f: seq<byte>, at: nat, e: PageEntry)
    requires Lies(f, at, EncodePageEntry(e))
    ensures at + 8 <= |f| && PageAt(f, at) == e
  {
    hide Get32, Get16, U32, U16, Lies;
    LiesEnds(f, at, EncodePageEntry(e));
    TakeU32(f, at, e.dataOffset, U16(e.dataSize) + U16(e.flags));
    TakeU16(f, at + 4, e.dataSize, U16(e.flags));
    LiesU16At(f, at + 6, e.flags);
  }

  lemma ReadsResource(f: seq<byte>, at: nat, r: ResourceEntry)
    requires Lies(f, at, EncodeResource(r))
    ensures at + 14 <= |f| && ResourceAt(f, at) == r
  {
    hide Get32, Get16, U32, U16, Lies;
    LiesEnds(f, at, EncodeResource(r));
    TakeU16(f, at, r.typeId, U16(r.nameId) + (U32(r.size) + (U16(r.objectNum) + U32(r.offset))));
    TakeU16(f, at + 2, r.nameId, U32(r.size) + (U16(r.objectNum) + U32(r.offset)));
    TakeU32(f, at + 4, r.size, U16(r.objectNum) + U32(r.offset));
    TakeU16(f, at + 8, r.objectNum, U32(r.offset));
    LiesU32At(f, at + 10, r.offset);
  }

  lemma LiesEnds(f: seq<byte>, at: nat, part: seq<byte>)
    requires Lies(f, at, part)
    ensures at + |part| <= |f|
  {
  }

  lemma LiesU32At(f: seq<byte>, at: nat, v: u32)
    requires Lies(f, at, U32(v))
    ensures at + 4 <= |f| && Get32(f, at) == v
  {
    LiesU32(f, at, v);
  }

  lemma LiesU16At(f: seq<byte>, at: nat, v: u16)
    requires Lies(f, at, U16(v))
    ensures at + 2 <= |f| && Get16(f, at) == v
  {
    LiesU16(f, at, v);
  }

  lemma TakeU32(f: seq<byte>, at: nat, v: u32, rest: seq<byte>)
    requires Lies(f, at, U32(v) + rest)
    ensures at + 4 <= |f| && Get32(f, at) == v && Lies(f, at + 4, rest)
  {
    LiesSplit(f, at, U32(v), rest);
    LiesU32(f, at, v);
  }

  lemma TakeU16(f: seq<byte>, at: nat, v: u16, rest: seq<byte>)
    requires Lies(f, at, U16(v) + rest)
    ensures at + 2 <= |f| && Get16(f, at) == v && Lies(f, at + 2, rest)
  {
    LiesSplit(f, at, U16(v), rest);
    LiesU16(f, at, v);
  }

  function EncodeAll<T>(entries: seq<T>, encode: T -> seq<byte>): (parts: seq<seq<byte>>)
    ensures |parts| == |entries|
  {
    seq(|entries|, i requires 0 <= i < |entries| => encode(entries[i]))
  }

  /** Entries of one size lie at its multiples. */
  lemma EntryLies<T>(f: seq<byte>, at: nat, entries: seq<T>, encode: T -> seq<byte>, size: nat, i: nat)
    requires Lies(f, at, Join(EncodeAll(entries, encode))) && i < |entries|
    requires forall e :: |encode(e)| == size
    ensures Lies(f, at + size * i, encode(entries[i]))
  {
    hide Join, Lies;
    var parts := EncodeAll(entries, encode);
    JoinEven(parts, size, i);
    LiesPart(parts, i);
    LiesSub(f, at, Join(parts), size * i, encode(entries[i]));
  }

  lemma EntriesEnd<T>(f: seq<byte>, at: nat, entries: seq<T>, encode: T -> seq<byte>, size: nat)
    requires Lies(f, at, Join(EncodeAll(entries, encode)))
    requires forall e :: |encode(e)| == size
    ensures at + size * |entries| <= |f|
  {
    var parts := EncodeAll(entries, encode);
    JoinEven(parts, size, |parts|);
    assert parts[..|parts|] == parts;
  }

  lemma ReadsObjectTable(f: seq<byte>, at: nat, objects: seq<ObjectEntry>)
    requires Lies(f, at, Join(EncodeAll(objects, EncodeObject)))
    ensures P.ObjectTable(f, at, |objects|) == Ok(objects)
  {
    hide Join, EncodeObject, ObjectAt, Lies;
    EntriesEnd(f, at, objects, EncodeObject, 24);
    forall i | 0 <= i < |objects|
      ensures at + 24 * i + 24 <= |f| && ObjectAt(f, at + 24 * i) == objects[i]
    {
      EntryLies(f, at, objects, EncodeObject, 24, i);
      ReadsObjectEntry(f, at + 24 * i, objects[i]);
    }
    assert P.ObjectTable(f, at, |objects|).value == objects;
  }

  lemma ReadsPageTable(f: seq<byte>, at: nat, pages: seq<PageEntry>)
    requires Lies(f, at, Join(EncodeAll(pages, EncodePageEntry)))
    ensures P.PageMap(f, at, |pages|) == Ok(pages)
  {
    hide Join, EncodePageEntry, PageAt, Lies;
    EntriesEnd(f, at, pages, EncodePageEntry, 8);
    forall i | 0 <= i < |pages|
      ensures at + 8 * i + 8 <= |f| && PageAt(f, at + 8 * i) == pages[i]
    {
      EntryLies(f, at, pages, EncodePageEntry, 8, i);
      ReadsPageEntryOf(f, at + 8 * i, pages[i]);
    }
    assert P.PageMap(f, at, |pages|).value == pages;
  }

  lemma ReadsResourceTable(f: seq<byte>, at: nat, resources: seq<ResourceEntry>)
    requires Lies(f, at, Join(EncodeAll(resources, EncodeResource)))
    ensures P.ResourceTable(f, at, |resources|) == Ok(resources)
  {
    hide Join, EncodeResource, ResourceAt, Lies;
    EntriesEnd(f, at, resources, EncodeResource, 14);
    forall i | 0 <= i < |resources|
      ensures at + 14 * i + 14 <= |f| && ResourceAt(f, at + 14 * i) == resources[i]
    {
      EntryLies(f, at, resources, EncodeResource, 14, i);
      ReadsResource(f, at + 14 * i, resources[i]);
    }
    assert P.ResourceTable(f, at, |resources|).value == resources;
  }
}
