/**
 * Guest memory (src/loader/guest_mem.rs): one bounds-checked byte array, and what a
 * list of writes does to its contents.
 */
module GuestMem {
  import opened Bytes

  /** One `write`/`write_bytes` call: `data` stored from `addr` on.  Empty data is no write. */
  datatype Write = Write(addr: nat, data: seq<byte>)

  predicate Fits(w: Write, size: nat) {
    w.data == [] || w.addr + |w.data| <= size
  }

  /** The contents after one call; an access that does not fit changes nothing. */
  function Store(m: seq<byte>, w: Write): (r: seq<byte>)
    ensures |r| == |m|
  {
    if w.data != [] && Fits(w, |m|)
    then m[..w.addr] + w.data + m[w.addr + |w.data|..]
    else m
  }

  function Apply(m: seq<byte>, ws: seq<Write>): (r: seq<byte>)
    ensures |r| == |m|
  {
    if ws == [] then m else Store(Apply(m, ws[..|ws| - 1]), ws[|ws| - 1])
  }

  predicate Apart(v: Write, w: Write) {
    v.data == [] || w.data == [] || v.addr + |v.data| <= w.addr || w.addr + |w.data| <= v.addr
  }

  predicate PairwiseApart(ws: seq<Write>) {
    forall i, j :: 0 <= i < j < |ws| ==> Apart(ws[i], ws[j])
  }

  /** `x` is an address some write of `ws` covers. */
  predicate Covered(ws: seq<Write>, x: int) {
    exists i :: 0 <= i < |ws| && ws[i].addr <= x < ws[i].addr + |ws[i].data|
  }

  lemma {:induction false} ApplyConcat(m: seq<byte>, vs: seq<Write>, ws: seq<Write>)
    ensures Apply(m, vs + ws) == Apply(Apply(m, vs), ws)
  {
    if ws == [] {
      assert vs + ws == vs;
    } else {
      ApplyConcat(m, vs, ws[..|ws| - 1]);
      assert (vs + ws)[..|vs + ws| - 1] == vs + ws[..|ws| - 1];
    }
  }

  /** A byte no write covers keeps its value. */
  lemma {:induction false} ApplyOutside(m: seq<byte>, ws: seq<Write>, x: nat)
    requires x < |m| && !Covered(ws, x)
    ensures Apply(m, ws)[x] == m[x]
  {
    if ws != [] {
      var w := ws[|ws| - 1];
      var init := ws[..|ws| - 1];
      forall i | 0 <= i < |init|
        ensures !(init[i].addr <= x < init[i].addr + |init[i].data|)
      {
        assert init[i] == ws[i];
      }
      ApplyOutside(m, init, x);
      assert !(w.addr <= x < w.addr + |w.data|);
    }
  }

  /** The bytes of `w` are in `m`. */
  predicate Landed(m: seq<byte>, w: Write) {
    w.addr + |w.data| <= |m| && m[w.addr..w.addr + |w.data|] == w.data
  }

  /** Of pairwise separate writes, every one that fits is still there in the end. */
  lemma {:induction false} ApplyLands(m: seq<byte>, ws: seq<Write>, i: nat)
    requires i < |ws| && PairwiseApart(ws) && Fits(ws[i], |m|) && ws[i].data != []
    ensures Landed(Apply(m, ws), ws[i])
  {
    var w := ws[|ws| - 1];
    var init := ws[..|ws| - 1];
    if i < |ws| - 1 {
      assert init[i] == ws[i];
      ApplyLands(m, init, i);
      assert Apart(ws[i], w);
      var before, after := Apply(m, init), Apply(m, ws);
      forall x | ws[i].addr <= x < ws[i].addr + |ws[i].data|
        ensures after[x] == before[x]
      {
      }
      assert after[ws[i].addr..ws[i].addr + |ws[i].data|] == before[ws[i].addr..ws[i].addr + |ws[i].data|];
    }
  }

  // ----- the order of separate writes does not matter -----

  predicate NoneEmpty(ws: seq<Write>) {
    forall i :: 0 <= i < |ws| ==> ws[i].data != []
  }

  lemma {:induction false} CountedOnce(ws: seq<Write>, w: Write)
    requires PairwiseApart(ws) && NoneEmpty(ws)
    ensures multiset(ws)[w] <= 1
  {
    if ws != [] {
      var init := ws[..|ws| - 1];
      assert ws == init + [ws[|ws| - 1]];
      CountedOnce(init, w);
      forall i | 0 <= i < |init|
        ensures init[i] != ws[|ws| - 1]
      {
        assert Apart(ws[i], ws[|ws| - 1]);
      }
      assert ws[|ws| - 1] !in multiset(init);
    }
  }

  lemma CountedTwice(ws: seq<Write>, i: nat, j: nat)
    requires i < j < |ws| && ws[i] == ws[j]
    ensures multiset(ws)[ws[i]] >= 2
  {
    assert ws == ws[..j] + ws[j..];
    assert ws[..j][i] == ws[i] && ws[j..][0] == ws[j];
    assert ws[i] in ws[..j] && ws[i] in ws[j..];
    assert multiset(ws[..j])[ws[i]] >= 1 && multiset(ws[j..])[ws[i]] >= 1;
  }

  /** Rearranged, separate writes are still separate. */
  lemma ApartRearranged(vs: seq<Write>, ws: seq<Write>)
    requires PairwiseApart(vs) && NoneEmpty(vs) && multiset(vs) == multiset(ws)
    ensures PairwiseApart(ws) && NoneEmpty(ws)
  {
    forall i | 0 <= i < |ws|
      ensures ws[i].data != []
    {
      var k := Find(vs, ws, i);
    }
    forall i, j | 0 <= i < j < |ws|
      ensures Apart(ws[i], ws[j])
    {
      var k := Find(vs, ws, i);
      var l := Find(vs, ws, j);
      if k == l {
        CountedTwice(ws, i, j);
        CountedOnce(vs, ws[i]);
      }
    }
  }

  /** An element of `ws` is in `vs` too. */
  lemma Find(vs: seq<Write>, ws: seq<Write>, i: nat) returns (k: nat)
    requires multiset(vs) == multiset(ws) && i < |ws|
    ensures k < |vs| && vs[k] == ws[i]
  {
    assert ws[i] in multiset(ws);
    assert ws[i] in vs;
    k :| 0 <= k < |vs| && vs[k] == ws[i];
  }

  /**
   * Writes performed in another order: each lands, and what the originals do not cover is
   * unchanged.
   */
  lemma ApplyRearranged(m: seq<byte>, vs: seq<Write>, ws: seq<Write>)
    requires PairwiseApart(vs) && NoneEmpty(vs) && multiset(vs) == multiset(ws)
    requires forall i :: 0 <= i < |vs| ==> Fits(vs[i], |m|)
    ensures forall i :: 0 <= i < |vs| ==> Landed(Apply(m, ws), vs[i])
    ensures forall x :: 0 <= x < |m| && !Covered(vs, x) ==> Apply(m, ws)[x] == m[x]
  {
    ApartRearranged(vs, ws);
    forall i | 0 <= i < |vs|
      ensures Landed(Apply(m, ws), vs[i])
    {
      var k := Find(ws, vs, i);
      ApplyLands(m, ws, k);
    }
    forall x | 0 <= x < |m| && !Covered(vs, x)
      ensures Apply(m, ws)[x] == m[x]
    {
      forall i | 0 <= i < |ws|
        ensures !(ws[i].addr <= x < ws[i].addr + |ws[i].data|)
      {
        var k := Find(vs, ws, i);
      }
      ApplyOutside(m, ws, x);
    }
  }

  /** Separate writes below `n` are at most `n` many. */
  lemma {:induction false} ApartCount(ws: seq<Write>, n: nat)
    requires PairwiseApart(ws) && NoneEmpty(ws) && forall i :: 0 <= i < |ws| ==> ws[i].addr < n
    ensures |ws| <= n
  {
    AddrsCount(ws);
    forall a | a in Addrs(ws)
      ensures a < n
    {
      AddrsAre(ws, a);
    }
    RangeCount(Addrs(ws), n);
  }

  function Addrs(ws: seq<Write>): set<nat> {
    if ws == [] then {} else Addrs(ws[..|ws| - 1]) + {ws[|ws| - 1].addr}
  }

  predicate StartsAt(ws: seq<Write>, i: nat, a: nat) {
    i < |ws| && ws[i].addr == a
  }

  lemma {:induction false} AddrsAre(ws: seq<Write>, a: nat)
    requires a in Addrs(ws)
    ensures exists i: nat :: StartsAt(ws, i, a)
  {
    if a in Addrs(ws[..|ws| - 1]) {
      AddrsAre(ws[..|ws| - 1], a);
      var i: nat :| StartsAt(ws[..|ws| - 1], i, a);
      assert StartsAt(ws, i, a);
    } else {
      assert StartsAt(ws, |ws| - 1, a);
    }
  }

  lemma {:induction false} AddrsCount(ws: seq<Write>)
    requires PairwiseApart(ws) && NoneEmpty(ws)
    ensures |Addrs(ws)| == |ws|
  {
    if ws != [] {
      var init, last := ws[..|ws| - 1], ws[|ws| - 1];
      AddrsCount(init);
      forall a | a in Addrs(init)
        ensures a != last.addr
      {
        AddrsAre(init, a);
        var i: nat :| StartsAt(init, i, a);
        assert Apart(ws[i], last);
      }
    }
  }

  lemma {:induction false} RangeCount(s: set<nat>, n: nat)
    requires forall a :: a in s ==> a < n
    ensures |s| <= n
  {
    if n == 0 {
      assert s == {};
    } else {
      var rest := s - {n - 1};
      RangeCount(rest, n - 1);
      assert s <= rest + {n - 1};
      assert |s| <= |rest| + 1;
    }
  }

  /** Two adjacent stores are one store of the joined bytes. */
  lemma StoreAdjacent(m: seq<byte>, addr: nat, x: seq<byte>, y: seq<byte>)
    requires addr + |x| + |y| <= |m|
    ensures Store(Store(m, Write(addr, x)), Write(addr + |x|, y)) == Store(m, Write(addr, x + y))
  {
    var a, b := Store(Store(m, Write(addr, x)), Write(addr + |x|, y)), Store(m, Write(addr, x + y));
    assert |a| == |b|;
    forall k | 0 <= k < |m|
      ensures a[k] == b[k]
    {
    }
  }

  lemma StoreNothing(m: seq<byte>, at: nat)
    ensures Store(m, Write(at, [])) == m
  {
  }

  class GuestMemory {
    const bytes: array<byte>

    constructor (size: nat)
      ensures fresh(bytes) && bytes.Length == size
      ensures forall k :: 0 <= k < size ==> bytes[k] == 0
    {
      bytes := new byte[size](_ => 0);
    }

    function Contents(): seq<byte>
      reads bytes
    {
      bytes[..]
    }

    /** Stores `data` if the whole range is in bounds, and nothing otherwise. */
    method WriteBytes(offset: nat, data: seq<byte>) returns (ok: bool)
      modifies bytes
      ensures ok <==> offset + |data| <= bytes.Length
      ensures Contents() == Store(old(Contents()), Write(offset, data))
    {
      ok := offset + |data| <= bytes.Length;
      if ok {
        for i := 0 to |data|
          invariant forall k :: 0 <= k < i ==> bytes[offset + k] == data[k]
          invariant forall k :: 0 <= k < bytes.Length && !(offset <= k < offset + i) ==> bytes[k] == old(bytes[k])
        {
          bytes[offset + i] := data[i];
        }
        ghost var want := Store(old(bytes[..]), Write(offset, data));
        forall k | 0 <= k < bytes.Length
          ensures bytes[k] == want[k]
        {
          if offset <= k < offset + |data| {
            assert bytes[offset + (k - offset)] == data[k - offset];
          }
        }
        assert bytes[..] == want;
      }
    }
  }

  /** Writes `piece` at `at`, where the bytes `done` written since `before` end. */
  method Append(mem: GuestMemory, at: nat, piece: seq<byte>, ghost before: seq<byte>, ghost base: nat, ghost done: seq<byte>)
    requires at == base + |done| && at + |piece| <= |before| && mem.Contents() == Store(before, Write(base, done))
    modifies mem.bytes
    ensures mem.Contents() == Store(before, Write(base, done + piece))
  {
    StoreAdjacent(before, base, done, piece);
    var ok := mem.WriteBytes(at, piece);
  }
}
