/** Bytes, fixed-width unsigned integers and their little-endian encodings. */
module Bytes {

  const TWO16 := 0x1_0000
  const TWO32 := 0x1_0000_0000

  type byte = x: int | 0 <= x < 0x100
  type u16 = x: int | 0 <= x < 0x1_0000
  type u32 = x: int | 0 <= x < 0x1_0000_0000

  function U16(v: u16): (s: seq<byte>)
    ensures |s| == 2
  {
    [v % 0x100, v / 0x100]
  }

  function U32(v: u32): (s: seq<byte>)
    ensures |s| == 4
  {
    [v % 0x100, v / 0x100 % 0x100, v / 0x1_0000 % 0x100, v / 0x100_0000]
  }

  function Get16(s: seq<byte>, i: nat): u16
    requires i + 2 <= |s|
  {
    s[i] + 0x100 * (s[i + 1] as int)
  }

  function Get32(s: seq<byte>, i: nat): u32
    requires i + 4 <= |s|
  {
    s[i] + 0x100 * (s[i + 1] as int) + 0x1_0000 * (s[i + 2] as int) + 0x100_0000 * (s[i + 3] as int)
  }

  lemma WordDigits(a: byte, b: byte, c: byte, d: byte)
    ensures U32(a + 0x100 * (b as int) + 0x1_0000 * (c as int) + 0x100_0000 * (d as int)) == [a, b, c, d]
  {
    var w3: int := d;
    var w2: int := c + 0x100 * w3;
    var w1: int := b + 0x100 * w2;
    var v: int := a + 0x100 * w1;
    DivisionIs(v, 0x100, w1);
    DivisionIs(v, 0x1_0000, w2);
    DivisionIs(v, 0x100_0000, w3);
    DivisionIs(w1, 0x100, w2);
    DivisionIs(w2, 0x100, w3);
  }

  /** Reading a word back where its encoding lies gives the word, and only there. */
  lemma Get32IsU32(s: seq<byte>, i: nat, v: u32)
    requires i + 4 <= |s|
    ensures s[i..i + 4] == U32(v) <==> Get32(s, i) == v
  {
    WordDigits(s[i], s[i + 1], s[i + 2], s[i + 3]);
    assert s[i..i + 4] == [s[i], s[i + 1], s[i + 2], s[i + 3]] == U32(Get32(s, i));
    if s[i..i + 4] == U32(v) {
      WordValue(v);
      assert Get32(s, i) == Get32(U32(v), 0);
    }
  }

  lemma WordValue(v: u32)
    ensures Get32(U32(v), 0) == v
  {
    assert v == 0x100 * (v / 0x100) + v % 0x100;
    assert v / 0x100 == 0x100 * (v / 0x1_0000) + v / 0x100 % 0x100;
    assert v / 0x1_0000 == 0x100 * (v / 0x100_0000) + v / 0x1_0000 % 0x100;
  }

  lemma Get16IsU16(s: seq<byte>, i: nat, v: u16)
    requires i + 2 <= |s|
    ensures s[i..i + 2] == U16(v) <==> Get16(s, i) == v
  {
    var t := s[i..i + 2];
    assert t[0] == s[i] && t[1] == s[i + 1];
  }

  /** The quotient is the one number that leaves a remainder below the divisor. */
  lemma DivisionIs(a: nat, d: nat, q: int)
    requires d > 0
    ensures a / d == q <==> 0 <= a - d * q < d
  {
    var k := a / d - q;
    assert a == d * (a / d) + a % d;
    assert d * k == d * (a / d) - d * q;
    assert d * k >= d <==> k >= 1;
    assert d * k <= 0 <==> k <= 0;
    assert d * k >= 0 <==> k >= 0;
  }

  /** A part of a slice. */
  lemma PartOfSlice<T>(m: seq<T>, p: nat, n: nat, i: nat, j: nat)
    requires p + n <= |m| && i <= j <= n
    ensures m[p..p + n][i..j] == m[p + i..p + j]
  {
    var part, whole := m[p..p + n][i..j], m[p + i..p + j];
    forall k | 0 <= k < j - i
      ensures part[k] == whole[k]
    {
      assert m[p..p + n][i + k] == m[p + (i + k)];
    }
  }

  // ----- joining parts -----

  /** The parts, one after the other. */
  function Join<T>(parts: seq<seq<T>>): seq<T> {
    if parts == [] then [] else Join(parts[..|parts| - 1]) + parts[|parts| - 1]
  }

  /** Where part `i` starts in the joined sequence. */
  function Start<T>(parts: seq<seq<T>>, i: nat): nat
    requires i <= |parts|
  {
    |Join(parts[..i])|
  }

  lemma ConcatAssoc<T>(x: seq<T>, y: seq<T>, z: seq<T>)
    ensures (x + y) + z == x + (y + z)
  {
  }

  lemma JoinPush<T>(parts: seq<seq<T>>, part: seq<T>)
    ensures Join(parts + [part]) == Join(parts) + part
  {
    assert (parts + [part])[..|parts|] == parts;
  }

  /** Joining one part more. */
  lemma JoinTake<T>(parts: seq<seq<T>>, i: nat)
    requires i < |parts|
    ensures Join(parts[..i + 1]) == Join(parts[..i]) + parts[i]
  {
    assert parts[..i + 1] == parts[..i] + [parts[i]];
    JoinPush(parts[..i], parts[i]);
  }

  lemma {:induction false} JoinAt<T>(parts: seq<seq<T>>, i: nat)
    requires i < |parts|
    ensures Start(parts, i + 1) == Start(parts, i) + |parts[i]| <= |Join(parts)|
    ensures Join(parts)[Start(parts, i)..Start(parts, i + 1)] == parts[i]
  {
    assert parts[..i + 1] == parts[..i] + [parts[i]];
    JoinPush(parts[..i], parts[i]);
    if i < |parts| - 1 {
      var init := parts[..|parts| - 1];
      JoinAt(init, i);
      assert init[..i] == parts[..i] && init[..i + 1] == parts[..i + 1];
      assert Join(parts)[Start(parts, i)..Start(parts, i + 1)] == Join(init)[Start(parts, i)..Start(parts, i + 1)];
    } else {
      assert parts[..i + 1] == parts;
    }
  }

  lemma StartStep<T>(parts: seq<seq<T>>, i: nat)
    requires i < |parts|
    ensures Start(parts, i + 1) == Start(parts, i) + |parts[i]|
  {
    hide Join;
    JoinTake(parts, i);
  }

  /** Parts of one size start at its multiples. */
  lemma {:induction false} JoinEven<T>(parts: seq<seq<T>>, size: nat, i: nat)
    requires i <= |parts| && forall p :: p in parts ==> |p| == size
    ensures Start(parts, i) == size * i
  {
    if i > 0 {
      hide Join;
      JoinEven(parts, size, i - 1);
      StartStep(parts, i - 1);
      assert parts[i - 1] in parts;
      assert size * i == size * (i - 1) + size;
    }
  }

  lemma {:induction false} JoinConcat<T>(xs: seq<seq<T>>, ys: seq<seq<T>>)
    ensures Join(xs + ys) == Join(xs) + Join(ys)
  {
    if ys == [] {
      assert xs + ys == xs;
    } else {
      var init := ys[..|ys| - 1];
      JoinConcat(xs, init);
      assert xs + ys == (xs + init) + [ys[|ys| - 1]];
      JoinPush(xs + init, ys[|ys| - 1]);
      ConcatAssoc(Join(xs), Join(init), ys[|ys| - 1]);
    }
  }

  /** The encodings of `ws`, one after the other. */
  function Words(ws: seq<u32>): (s: seq<byte>)
    ensures |s| == 4 * |ws|
  {
    if ws == [] then [] else Words(ws[..|ws| - 1]) + U32(ws[|ws| - 1])
  }

  lemma {:induction false} WordsAt(ws: seq<u32>, i: nat)
    requires i < |ws|
    ensures Words(ws)[4 * i..4 * i + 4] == U32(ws[i])
    ensures Get32(Words(ws), 4 * i) == ws[i]
  {
    if i < |ws| - 1 {
      WordsAt(ws[..|ws| - 1], i);
      assert Words(ws)[4 * i..4 * i + 4] == Words(ws[..|ws| - 1])[4 * i..4 * i + 4];
    }
    Get32IsU32(Words(ws), 4 * i, ws[i]);
  }
}
