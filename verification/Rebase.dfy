/**
 * What fixups do to a rebased image (src/loader/lx_loader.rs:72-151): they change only
 * their sites, each site refers to its target, and two loads of one file at different
 * bases differ only at sites, by the base differences.
 */
module Rebase {
  import opened Bytes
  import opened Wrappers
  import opened GuestMem
  import opened LxFormat
  import opened Imports
  import opened LxLoader
  import Selectors

  /** Bytes a fixup of this type covers; zero for the types the loader does not handle. */
  function SiteSize(sourceType: byte): nat {
    match sourceType
    case 0x07 => 4
    case 0x08 => 4
    case 0x02 => 4
    case 0x03 => 4
    case 0x05 => 2
    case 0x06 => 6
    case _ => 0
  }

  /** Sites lie inside their objects and do not overlap. */
  predicate WellPlaced(sites: seq<Site>, lens: seq<nat>) {
    && (forall i :: 0 <= i < |sites| ==>
          sites[i].obj < |lens| && sites[i].rel + SiteSize(sites[i].sourceType) <= lens[sites[i].obj])
    && (forall i, j :: 0 <= i < j < |sites| && sites[i].obj == sites[j].obj ==>
          || sites[i].rel + SiteSize(sites[i].sourceType) <= sites[j].rel
          || sites[j].rel + SiteSize(sites[j].sourceType) <= sites[i].rel)
  }

  /** Objects of these lengths lie at these bases, disjoint and inside memory. */
  predicate Admissible(bases: seq<u32>, lens: seq<nat>, size: nat) {
    && |bases| == |lens| && size <= TWO32
    && (forall o :: 0 <= o < |bases| ==> bases[o] + lens[o] <= size)
    && (forall o, p :: 0 <= o < p < |bases| ==> bases[o] + lens[o] <= bases[p] || bases[p] + lens[p] <= bases[o])
  }

  /** The loader writes this site: its target resolves. */
  predicate Active(lx: LxFile, symbols: Symbols, bases: seq<u32>, s: Site) {
    SiteSize(s.sourceType) > 0 && TargetAddr(lx, symbols, bases, s.target) != 0
  }

  lemma WriteShape(lx: LxFile, symbols: Symbols, bases: seq<u32>, lens: seq<nat>, size: nat, sites: seq<Site>, i: nat)
    requires WellPlaced(sites, lens) && Admissible(bases, lens, size) && i < |sites|
    ensures sites[i].obj < |bases|
    ensures var s, w := sites[i], FixupWrite(lx, symbols, bases, sites[i]);
            if Active(lx, symbols, bases, s)
            then w.addr == bases[s.obj] + s.rel && |w.data| == SiteSize(s.sourceType)
                 && w.data == FixupBytes(s.sourceType, TargetAddr(lx, symbols, bases, s.target), w.addr)
            else w.data == []
  {
    hide TargetAddr, U32, U16, TileSelector;
  }

  lemma SitesApart(lx: LxFile, symbols: Symbols, bases: seq<u32>, lens: seq<nat>, size: nat, sites: seq<Site>)
    requires WellPlaced(sites, lens) && Admissible(bases, lens, size)
    ensures SitesIn(sites, |bases|)
    ensures PairwiseApart(FixupWrites(lx, symbols, bases, sites)) && AllFit(FixupWrites(lx, symbols, bases, sites), size)
  {
    hide FixupWrite, Active;
    forall i | 0 <= i < |sites|
      ensures sites[i].obj < |bases| && Fits(FixupWrite(lx, symbols, bases, sites[i]), size)
    {
      WriteShape(lx, symbols, bases, lens, size, sites, i);
    }
    forall i, j | 0 <= i < j < |sites|
      ensures Apart(FixupWrite(lx, symbols, bases, sites[i]), FixupWrite(lx, symbols, bases, sites[j]))
    {
      WriteShape(lx, symbols, bases, lens, size, sites, i);
      WriteShape(lx, symbols, bases, lens, size, sites, j);
      var o, p := sites[i].obj, sites[j].obj;
      if o != p {
        assert bases[o] + lens[o] <= bases[p] || bases[p] + lens[p] <= bases[o];
      }
    }
  }

  /** Memory after all sites are fixed up. */
  function Fixed(was: seq<byte>, lx: LxFile, symbols: Symbols, bases: seq<u32>, sites: seq<Site>): (r: seq<byte>)
    requires SitesIn(sites, |bases|)
    ensures |r| == |was|
  {
    Apply(was, FixupWrites(lx, symbols, bases, sites))
  }

  /** Position `k` of object `o` belongs to a site. */
  predicate InSite(sites: seq<Site>, o: nat, k: nat) {
    exists i :: 0 <= i < |sites| && sites[i].obj == o && sites[i].rel <= k < sites[i].rel + SiteSize(sites[i].sourceType)
  }

  /** A byte of an object that belongs to no site keeps its value. */
  lemma OnlySitesChange(was: seq<byte>, lx: LxFile, symbols: Symbols, bases: seq<u32>, lens: seq<nat>, sites: seq<Site>, o: nat, k: nat)
    requires WellPlaced(sites, lens) && Admissible(bases, lens, |was|)
    requires o < |bases| && k < lens[o] && !InSite(sites, o, k)
    ensures SitesIn(sites, |bases|) && bases[o] + k < |was|
    ensures Fixed(was, lx, symbols, bases, sites)[bases[o] + k] == was[bases[o] + k]
  {
    hide FixupWrite, Active;
    SitesApart(lx, symbols, bases, lens, |was|, sites);
    var ws := FixupWrites(lx, symbols, bases, sites);
    var x := bases[o] + k;
    forall i | 0 <= i < |ws|
      ensures !(ws[i].addr <= x < ws[i].addr + |ws[i].data|)
    {
      WriteShape(lx, symbols, bases, lens, |was|, sites, i);
      var p := sites[i].obj;
      if p != o {
        assert bases[o] + lens[o] <= bases[p] || bases[p] + lens[p] <= bases[o];
      }
    }
    ApplyOutside(was, ws, x);
  }

  /** A byte outside every object keeps its value. */
  lemma OutsideObjects(was: seq<byte>, lx: LxFile, symbols: Symbols, bases: seq<u32>, lens: seq<nat>, sites: seq<Site>, x: nat)
    requires WellPlaced(sites, lens) && Admissible(bases, lens, |was|) && x < |was|
    requires forall o :: 0 <= o < |bases| ==> x < bases[o] || bases[o] + lens[o] <= x
    ensures SitesIn(sites, |bases|) && Fixed(was, lx, symbols, bases, sites)[x] == was[x]
  {
    hide FixupWrite, Active;
    SitesApart(lx, symbols, bases, lens, |was|, sites);
    var ws := FixupWrites(lx, symbols, bases, sites);
    forall i | 0 <= i < |ws|
      ensures !(ws[i].addr <= x < ws[i].addr + |ws[i].data|)
    {
      WriteShape(lx, symbols, bases, lens, |was|, sites, i);
    }
    ApplyOutside(was, ws, x);
  }

  lemma SiteLands(was: seq<byte>, lx: LxFile, symbols: Symbols, bases: seq<u32>, lens: seq<nat>, sites: seq<Site>, i: nat)
    requires WellPlaced(sites, lens) && Admissible(bases, lens, |was|) && i < |sites| && Active(lx, symbols, bases, sites[i])
    ensures SitesIn(sites, |bases|)
    ensures var s := sites[i];
            Landed(Fixed(was, lx, symbols, bases, sites),
                   Write(bases[s.obj] + s.rel,
                         FixupBytes(s.sourceType, TargetAddr(lx, symbols, bases, s.target), bases[s.obj] + s.rel)))
  {
    hide FixupBytes, TargetAddr;
    SitesApart(lx, symbols, bases, lens, |was|, sites);
    WriteShape(lx, symbols, bases, lens, |was|, sites, i);
    ApplyLands(was, FixupWrites(lx, symbols, bases, sites), i);
  }

  /** What a fixed-up site says about `target`, as the processor reads it. */
  predicate PointsTo(m: seq<byte>, sourceType: byte, at: nat, target: nat)
    requires at + SiteSize(sourceType) <= |m|
  {
    match sourceType
    case 0x07 => Get32(m, at) == target % TWO32
    case 0x08 => (Get32(m, at) + at + 4) % TWO32 == target % TWO32
    case 0x02 => FarPointsTo(m, at, target)
    case 0x03 => FarPointsTo(m, at, target)
    case 0x05 => Get16(m, at) == target % TWO16
    case 0x06 => Get32(m, at) == target % TWO32 && Get16(m, at + 4) == 0x08
    case _ => true
  }

  /** Offset and selector, packed, convert back to `target` exactly below 256 MB. */
  predicate FarPointsTo(m: seq<byte>, at: nat, target: nat)
    requires at + 4 <= |m|
  {
    target < TWO32 ==>
      (FlatOfFar(m, at) == target <==> target < 0x1000_0000)
  }

  /** The flat address of the offset and selector at `at`. */
  function FlatOfFar(m: seq<byte>, at: nat): u32
    requires at + 4 <= |m|
  {
    Selectors.SelToFlat(Get16(m, at + 2) * TWO16 + Get16(m, at))
  }

  lemma LandedHalves(m: seq<byte>, at: nat, x: seq<byte>, y: seq<byte>)
    requires Landed(m, Write(at, x + y))
    ensures Landed(m, Write(at, x)) && Landed(m, Write(at + |x|, y))
  {
    var xy := m[at..at + |x + y|];
    assert xy[..|x|] == x && xy[|x|..] == y;
    assert m[at..at + |x|] == xy[..|x|] && m[at + |x|..at + |x| + |y|] == xy[|x|..];
  }

  lemma FarSite(m: seq<byte>, at: nat, target: nat)
    requires Landed(m, Write(at, U16(target % TWO16) + U16(TileSelector(target))))
    ensures at + 4 <= |m| && FarPointsTo(m, at, target)
  {
    hide U16, Get16;
    LandedHalves(m, at, U16(target % TWO16), U16(TileSelector(target)));
    Get16IsU16(m, at, target % TWO16);
    Get16IsU16(m, at + 2, TileSelector(target));
    if target < TWO32 {
      PackedSelector(target);
      Selectors.SelectorRoundTrip(target);
    }
  }

  lemma PackedSelector(target: u32)
    ensures TileSelector(target) * TWO16 + target % TWO16 == Selectors.FlatToSel(target)
  {
    var v := (6 + target / TWO16) * 8;
    assert v * TWO16 % TWO32 == v % TWO16 * TWO16;
  }

  /** Every active site refers to its target, in the way of its type. */
  lemma SitesPointToTargets(was: seq<byte>, lx: LxFile, symbols: Symbols, bases: seq<u32>, lens: seq<nat>, sites: seq<Site>, i: nat)
    requires WellPlaced(sites, lens) && Admissible(bases, lens, |was|) && i < |sites| && Active(lx, symbols, bases, sites[i])
    ensures SitesIn(sites, |bases|) && bases[sites[i].obj] + sites[i].rel + SiteSize(sites[i].sourceType) <= |was|
    ensures PointsTo(Fixed(was, lx, symbols, bases, sites), sites[i].sourceType, bases[sites[i].obj] + sites[i].rel,
                     TargetAddr(lx, symbols, bases, sites[i].target))
  {
    hide Fixed, FixupBytes, TargetAddr, PointsTo;
    SiteLands(was, lx, symbols, bases, lens, sites, i);
    var s := sites[i];
    BytesPoint(Fixed(was, lx, symbols, bases, sites), s.sourceType, bases[s.obj] + s.rel, TargetAddr(lx, symbols, bases, s.target));
  }

  /** The bytes stored for a source type say what that type means. */
  lemma BytesPoint(m: seq<byte>, sourceType: byte, at: nat, target: nat)
    requires SiteSize(sourceType) > 0 && Landed(m, Write(at, FixupBytes(sourceType, target, at)))
    ensures at + SiteSize(sourceType) <= |m| && PointsTo(m, sourceType, at, target)
  {
    hide U16, U32, Get16, Get32, FarPointsTo, TileSelector;
    match sourceType {
      case 0x07 => Get32IsU32(m, at, target % TWO32);
      case 0x08 => Get32IsU32(m, at, (target - (at + 4)) % TWO32);
      case 0x02 => FarSite(m, at, target);
      case 0x03 => FarSite(m, at, target);
      case 0x05 => Get16IsU16(m, at, target % TWO16);
      case 0x06 =>
        LandedHalves(m, at, U32(target % TWO32), U16(0x08));
        Get32IsU32(m, at, target % TWO32);
        Get16IsU16(m, at + 4, 0x08);
      case _ =>
    }
  }

  // ----- two loads of one file -----

  /** Byte `k` of object `o` is the same in both memories. */
  predicate SameByte(m1: seq<byte>, bases1: seq<u32>, m2: seq<byte>, bases2: seq<u32>, o: nat, k: nat)
    requires o < |bases1| && o < |bases2|
  {
    bases1[o] + k < |m1| && bases2[o] + k < |m2| && m1[bases1[o] + k] == m2[bases2[o] + k]
  }

  /** Before the fixups, each object has the same bytes at both bases. */
  predicate SameObjects(m1: seq<byte>, bases1: seq<u32>, m2: seq<byte>, bases2: seq<u32>, lens: seq<nat>)
    requires Admissible(bases1, lens, |m1|) && Admissible(bases2, lens, |m2|)
  {
    forall o, k :: 0 <= o < |lens| && 0 <= k < lens[o] ==> SameByte(m1, bases1, m2, bases2, o, k)
  }

  /**
   * Two loads differ only at sites: elsewhere the bytes agree, and a site for an internal
   * target differs by the shift of the target's object, in the way of its type.
   */
  lemma LoadsDifferByBases(was1: seq<byte>, was2: seq<byte>, lx: LxFile, symbols: Symbols,
                           bases1: seq<u32>, bases2: seq<u32>, lens: seq<nat>, sites: seq<Site>)
    requires WellPlaced(sites, lens) && Admissible(bases1, lens, |was1|) && Admissible(bases2, lens, |was2|)
    requires SameObjects(was1, bases1, was2, bases2, lens)
    ensures SitesIn(sites, |bases1|) && SitesIn(sites, |bases2|)
    ensures var m1, m2 := Fixed(was1, lx, symbols, bases1, sites), Fixed(was2, lx, symbols, bases2, sites);
            && (forall o, k :: 0 <= o < |lens| && 0 <= k < lens[o] && !InSite(sites, o, k) ==>
                  SameByte(m1, bases1, m2, bases2, o, k))
            && (forall i :: 0 <= i < |sites| ==> SiteShifts(m1, m2, lx, symbols, bases1, bases2, sites[i]))
  {
    hide Fixed, InSite, SiteShifts;
    SitesApart(lx, symbols, bases1, lens, |was1|, sites);
    SitesApart(lx, symbols, bases2, lens, |was2|, sites);
    var m1, m2 := Fixed(was1, lx, symbols, bases1, sites), Fixed(was2, lx, symbols, bases2, sites);
    forall o, k | 0 <= o < |lens| && 0 <= k < lens[o] && !InSite(sites, o, k)
      ensures SameByte(m1, bases1, m2, bases2, o, k)
    {
      assert SameByte(was1, bases1, was2, bases2, o, k);
      OnlySitesChange(was1, lx, symbols, bases1, lens, sites, o, k);
      OnlySitesChange(was2, lx, symbols, bases2, lens, sites, o, k);
    }
    forall i | 0 <= i < |sites|
      ensures SiteShifts(m1, m2, lx, symbols, bases1, bases2, sites[i])
    {
      SiteShift(was1, was2, lx, symbols, bases1, bases2, lens, sites, i);
    }
  }

  /** An internal site the loader writes at either base. */
  predicate SiteShiftsApplies(lx: LxFile, symbols: Symbols, bases1: seq<u32>, bases2: seq<u32>, s: Site) {
    && s.target.Internal? && 1 <= s.target.objectNum <= |bases1| && |bases1| == |bases2| && s.obj < |bases1|
    && Active(lx, symbols, bases1, s) && Active(lx, symbols, bases2, s)
  }

  /** How far object `o` moved from one base vector to another. */
  function Moved(bases1: seq<u32>, bases2: seq<u32>, o: nat): int
    requires o < |bases1| && o < |bases2|
  {
    (bases2[o] as int) - bases1[o]
  }

  /**
   * How an internal site changes between two base vectors, for each type the loader handles:
   * full words by the shift of the target's object, self-relative ones by that less the shift
   * of their own object, 16-bit ones by the shift modulo 2^16, and far pointers by the shift
   * of the flat address they stand for, below 256 MB.
   */
  predicate SiteShifts(m1: seq<byte>, m2: seq<byte>, lx: LxFile, symbols: Symbols, bases1: seq<u32>, bases2: seq<u32>, s: Site) {
    SiteShiftsApplies(lx, symbols, bases1, bases2, s) ==>
    var t := s.target.objectNum - 1;
    var at1, at2 := bases1[s.obj] + s.rel, bases2[s.obj] + s.rel;
    var shift, own := Moved(bases1, bases2, t), Moved(bases1, bases2, s.obj);
    && at1 + SiteSize(s.sourceType) <= |m1| && at2 + SiteSize(s.sourceType) <= |m2|
    && ShiftedBy(m1, at1, m2, at2, s.sourceType, shift, own)
    && (s.sourceType in {0x02, 0x03}
        && bases1[t] + s.target.targetOffset < 0x1000_0000 && bases2[t] + s.target.targetOffset < 0x1000_0000 ==>
          FlatOfFar(m2, at2) - FlatOfFar(m1, at1) == shift)
  }

  /** The values read at a site differ by the shift of its target, and of its object where it is self-relative. */
  predicate ShiftedBy(m1: seq<byte>, at1: nat, m2: seq<byte>, at2: nat, sourceType: byte, shift: int, own: int)
    requires at1 + SiteSize(sourceType) <= |m1| && at2 + SiteSize(sourceType) <= |m2|
  {
    match sourceType
    case 0x07 => (Get32(m2, at2) - Get32(m1, at1)) % TWO32 == shift % TWO32
    case 0x08 => (Get32(m2, at2) - Get32(m1, at1)) % TWO32 == (shift - own) % TWO32
    case 0x05 => (Get16(m2, at2) - Get16(m1, at1)) % TWO16 == shift % TWO16
    case 0x06 =>
      && (Get32(m2, at2) - Get32(m1, at1)) % TWO32 == shift % TWO32
      && Get16(m1, at1 + 4) == Get16(m2, at2 + 4) == 0x08
    case _ => true
  }

  lemma SiteShift(was1: seq<byte>, was2: seq<byte>, lx: LxFile, symbols: Symbols,
                  bases1: seq<u32>, bases2: seq<u32>, lens: seq<nat>, sites: seq<Site>, i: nat)
    requires WellPlaced(sites, lens) && Admissible(bases1, lens, |was1|) && Admissible(bases2, lens, |was2|) && i < |sites|
    ensures SitesIn(sites, |bases1|) && SitesIn(sites, |bases2|)
    ensures SiteShifts(Fixed(was1, lx, symbols, bases1, sites), Fixed(was2, lx, symbols, bases2, sites),
                       lx, symbols, bases1, bases2, sites[i])
  {
    hide Fixed, U16, U32, Get16, Get32, PointsTo, ShiftedBy, FlatOfFar;
    SitesApart(lx, symbols, bases1, lens, |was1|, sites);
    SitesApart(lx, symbols, bases2, lens, |was2|, sites);
    var s := sites[i];
    if SiteShiftsApplies(lx, symbols, bases1, bases2, s) {
      SitesPointToTargets(was1, lx, symbols, bases1, lens, sites, i);
      SitesPointToTargets(was2, lx, symbols, bases2, lens, sites, i);
      var m1, m2 := Fixed(was1, lx, symbols, bases1, sites), Fixed(was2, lx, symbols, bases2, sites);
      var t, at1, at2 := s.target.objectNum - 1, bases1[s.obj] + s.rel, bases2[s.obj] + s.rel;
      PointersShift(m1, at1, bases1[t] + s.target.targetOffset, m2, at2, bases2[t] + s.target.targetOffset, s.sourceType);
    }
  }

  lemma PointersShift(m1: seq<byte>, at1: nat, target1: nat, m2: seq<byte>, at2: nat, target2: nat, sourceType: byte)
    requires at1 + SiteSize(sourceType) <= |m1| && at2 + SiteSize(sourceType) <= |m2|
    requires PointsTo(m1, sourceType, at1, target1) && PointsTo(m2, sourceType, at2, target2)
    ensures ShiftedBy(m1, at1, m2, at2, sourceType, target2 - target1, at2 - at1)
    ensures sourceType in {0x02, 0x03} && target1 < 0x1000_0000 && target2 < 0x1000_0000 ==>
              FlatOfFar(m2, at2) - FlatOfFar(m1, at1) == target2 - target1
  {
    hide Get16, Get32, FlatOfFar;
    match sourceType {
      case 0x07 => WordShift(Get32(m1, at1), 0, target1, Get32(m2, at2), 0, target2);
      case 0x08 => WordShift(Get32(m1, at1), at1 + 4, target1, Get32(m2, at2), at2 + 4, target2);
      case 0x05 => HalfShift(Get16(m1, at1), target1, Get16(m2, at2), target2);
      case 0x06 => WordShift(Get32(m1, at1), 0, target1, Get32(m2, at2), 0, target2);
      case _ =>
    }
  }

  lemma HalfShift(v1: u16, target1: int, v2: u16, target2: int)
    requires v1 == target1 % TWO16 && v2 == target2 % TWO16
    ensures (v2 - v1) % TWO16 == (target2 - target1) % TWO16
  {
    assert target1 == v1 + target1 / TWO16 * TWO16;
    assert target2 == v2 + target2 / TWO16 * TWO16;
  }

  lemma WordShift(v1: u32, at1: int, target1: int, v2: u32, at2: int, target2: int)
    requires (v1 + at1) % TWO32 == target1 % TWO32 && (v2 + at2) % TWO32 == target2 % TWO32
    ensures (v2 - v1) % TWO32 == (target2 - target1 - (at2 - at1)) % TWO32
  {
    var k1, k2 := (v1 + at1) / TWO32 - target1 / TWO32, (v2 + at2) / TWO32 - target2 / TWO32;
    assert v1 + at1 == target1 + k1 * TWO32;
    assert v2 + at2 == target2 + k2 * TWO32;
  }
}
