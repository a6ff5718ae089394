/**
 * Cooked standard input (src/loader/doscalls.rs:110-180, the keyboard-queue path of
 * `dos_read_stdin`): what the reads deliver over a whole run, and what typing may change
 * on the terminal.
 */
module Stdin {
  import opened Bytes
  import opened Terminal
  import opened Console

  const CR := 0x0D
  const LF := 0x0A
  const BS := 0x08
  const ATTR := 0x07

  // ----- what the reads deliver -----

  /** Characters counted as typed on the current line after key `k`. */
  function CookedAfter1(cooked: nat, k: byte): nat {
    if k == CR then 0
    else if k == BS then (if cooked > 0 then cooked - 1 else 0)
    else if k >= 0x20 then cooked + 1
    else cooked
  }

  /** The bytes one key stands for. */
  function Cooked1(cooked: nat, k: byte): seq<byte> {
    if k == CR then [CR, LF]
    else if k == BS && cooked == 0 then []
    else [k]
  }

  function CookedAfter(cooked: nat, keys: seq<byte>): nat {
    if keys == [] then cooked else CookedAfter1(CookedAfter(cooked, keys[..|keys| - 1]), keys[|keys| - 1])
  }

  /** The key stream with CR expanded to CR LF and backspaces at line start dropped. */
  function Cook(cooked: nat, keys: seq<byte>): seq<byte> {
    if keys == [] then []
    else Cook(cooked, keys[..|keys| - 1]) + Cooked1(CookedAfter(cooked, keys[..|keys| - 1]), keys[|keys| - 1])
  }

  /** The state between reads. */
  datatype State = State(pendingLf: bool, cooked: nat, queue: seq<byte>)

  /** Everything the state still owes its reader. */
  function Owed(s: State): seq<byte> {
    (if s.pendingLf then [LF] else []) + Cook(s.cooked, s.queue)
  }

  lemma {:induction false} CookConcat(cooked: nat, a: seq<byte>, b: seq<byte>)
    ensures CookedAfter(cooked, a + b) == CookedAfter(CookedAfter(cooked, a), b)
    ensures Cook(cooked, a + b) == Cook(cooked, a) + Cook(CookedAfter(cooked, a), b)
  {
    hide Cooked1, CookedAfter1;
    if b == [] {
      assert a + b == a;
    } else {
      var init, k := b[..|b| - 1], b[|b| - 1];
      CookConcat(cooked, a, init);
      assert (a + b)[..|a + b| - 1] == a + init;
      ConcatAssoc(Cook(cooked, a), Cook(CookedAfter(cooked, a), init), Cooked1(CookedAfter(cooked, a + init), k));
    }
  }

  lemma CookFirst(cooked: nat, k: byte, rest: seq<byte>)
    ensures Cook(cooked, [k] + rest) == Cooked1(cooked, k) + Cook(CookedAfter1(cooked, k), rest)
    ensures CookedAfter(cooked, [k] + rest) == CookedAfter(CookedAfter1(cooked, k), rest)
  {
    hide Cook, CookedAfter;
    CookConcat(cooked, [k], rest);
    CookOne(cooked, k);
  }

  lemma CookOne(cooked: nat, k: byte)
    ensures Cook(cooked, [k]) == Cooked1(cooked, k) && CookedAfter(cooked, [k]) == CookedAfter1(cooked, k)
  {
    hide Cooked1, CookedAfter1;
    assert [k][..0] == [];
    assert Cook(cooked, [k]) == [] + Cooked1(cooked, k);
  }

  lemma PendingOwed(cooked: nat, keys: seq<byte>)
    ensures Owed(State(true, cooked, keys)) == [LF] + Owed(State(false, cooked, keys))
  {
    assert [LF] + Cook(cooked, keys) == [LF] + ([] + Cook(cooked, keys));
  }

  lemma NothingOwed(cooked: nat)
    ensures Owed(State(false, cooked, [])) == []
  {
  }

  // ----- lines of the key stream -----

  /** Where the last line of `keys` starts: behind the last Enter. */
  function LineStart(keys: seq<byte>): (n: nat)
    ensures n <= |keys| && CR !in keys[n..] && (n > 0 ==> keys[n - 1] == CR)
  {
    if keys == [] then 0
    else if keys[|keys| - 1] == CR then |keys|
    else
      var n := LineStart(keys[..|keys| - 1]);
      assert keys[n..] == keys[..|keys| - 1][n..] + [keys[|keys| - 1]];
      n
  }

  /** How many of `keys` are characters. */
  function Printable(keys: seq<byte>): nat {
    if keys == [] then 0 else Printable(keys[..|keys| - 1]) + (if keys[|keys| - 1] >= 0x20 then 1 else 0)
  }

  /** How many of `bytes` are backspaces. */
  function Backspaces(bytes: seq<byte>): nat {
    if bytes == [] then 0 else Backspaces(bytes[..|bytes| - 1]) + (if bytes[|bytes| - 1] == BS then 1 else 0)
  }

  lemma BackspacesPush(bytes: seq<byte>, b: byte)
    ensures Backspaces(bytes + [b]) == Backspaces(bytes) + (if b == BS then 1 else 0)
  {
    assert (bytes + [b])[..|bytes|] == bytes;
  }

  /** On one line, characters counted are those typed less the backspaces delivered. */
  lemma {:induction false} CountOnLine(line: seq<byte>)
    requires CR !in line
    ensures CookedAfter(0, line) == Printable(line) - Backspaces(Cook(0, line))
  {
    if line != [] {
      var init, k := line[..|line| - 1], line[|line| - 1];
      CountOnLine(init);
      BackspacesPush(Cook(0, init), k);
      assert Cook(0, init) + [] == Cook(0, init);
    }
  }

  /** Enter is delivered as CR LF, and what follows is cooked as from an empty line. */
  lemma EnterStartsAnew(a: seq<byte>, b: seq<byte>)
    ensures Cook(0, a + [CR] + b) == Cook(0, a) + [CR, LF] + Cook(0, b)
    ensures CookedAfter(0, a + [CR] + b) == CookedAfter(0, b)
  {
    hide Cook, CookedAfter;
    CookConcat(0, a + [CR], b);
    CookConcat(0, a, [CR]);
    CookOne(CookedAfter(0, a), CR);
  }

  /**
   * What one more key adds to the stream delivered: CR LF for Enter; for a backspace itself,
   * if and only if since the last Enter more characters were typed than backspaces delivered,
   * and else nothing; itself for every other key.
   */
  lemma KeyAdds(keys: seq<byte>, k: byte)
    ensures var line := keys[LineStart(keys)..];
            Cook(0, keys + [k]) ==
            Cook(0, keys)
            + (if k == CR then [CR, LF]
               else if k == BS && Printable(line) <= Backspaces(Cook(0, line)) then []
               else [k])
  {
    hide Cook, CookedAfter;
    var n := LineStart(keys);
    CookConcat(0, keys, [k]);
    CookOne(CookedAfter(0, keys), k);
    CountOnLine(keys[n..]);
    if n > 0 {
      assert keys == keys[..n - 1] + [CR] + keys[n..];
      EnterStartsAnew(keys[..n - 1], keys[n..]);
    }
  }

  /** Taking a key off the queue: its first byte is delivered, an LF stays pending. */
  lemma TakeOwed(cooked: nat, k: byte, rest: seq<byte>)
    ensures var after := State(k == CR, CookedAfter1(cooked, k), rest);
            Owed(State(false, cooked, [k] + rest)) == (if Cooked1(cooked, k) == [] then [] else [k]) + Owed(after)
  {
    hide Cook;
    CookFirst(cooked, k, rest);
    var more := Cook(CookedAfter1(cooked, k), rest);
    if k == CR {
      assert [CR, LF] + more == [CR] + ([LF] + more);
    }
  }

  // ----- what the keys echo -----

  /** The terminal after the echo of key `k`. */
  function Echo1(t: Term, high: (byte, nat) -> char, cooked: nat, k: byte, cp: nat): (r: Term)
    requires t.Valid()
    ensures r.Valid()
  {
    if k == CR then Feed(t, high, [CR, LF], ATTR, 437)
    else if k == BS then (if cooked > 0 then Feed(t, high, [BS, 0x20, BS], ATTR, 437) else t)
    else if k >= 0x20 then Feed(t, high, [k], ATTR, cp)
    else t
  }

  /** The terminal after the echo of `keys`; `cps[i]` is the code page active at key `i`. */
  function Echo(t: Term, high: (byte, nat) -> char, cooked: nat, keys: seq<byte>, cps: seq<nat>): (r: Term)
    requires t.Valid() && |cps| == |keys|
    ensures r.Valid()
  {
    if keys == [] then t
    else
      var n := |keys| - 1;
      Echo1(Echo(t, high, cooked, keys[..n], cps[..n]), high, CookedAfter(cooked, keys[..n]), keys[n], cps[n])
  }

  // ----- the reader -----

  datatype ReadResult = Delivered(b: byte) | Nothing | GaveUp

  class Input {
    const vio: VioManager
    var queue: seq<byte>
    var pendingLf: bool
    var cooked: nat

    constructor (vio: VioManager)
      ensures this.vio == vio && Pending() == State(false, 0, [])
    {
      this.vio := vio;
      queue, pendingLf, cooked := [], false, 0;
    }

    function Pending(): State
      reads this
    {
      State(pendingLf, cooked, queue)
    }

    /** A key arrives from the renderer. */
    method KeyPressed(k: byte)
      modifies this`queue
      ensures Owed(Pending()) == old(Owed(Pending())) + Cook(CookedAfter(cooked, old(queue)), [k])
      ensures queue == old(queue) + [k]
    {
      KeyOwed(Pending(), k);
      queue := queue + [k];
    }

    /**
     * One `dos_read_stdin` call.  It delivers the next owed byte; with nothing owed it
     * gives up (shutdown) where the original would wait.  The echo is that of the keys taken.
     */
    method Read(len: nat, cp: nat, ghost t: Term) returns (r: ReadResult, ghost n: nat)
      requires t.Valid() && vio.Valid() && vio.Shows(t)
      modifies this, vio`cursorRow, vio`cursorCol, vio.buffer, vio.rawBytes
      ensures vio.Valid()
      ensures match r
              case Nothing => len == 0 && Pending() == old(Pending())
              case Delivered(b) => len > 0 && old(Owed(Pending())) == [b] + Owed(Pending())
              case GaveUp => len > 0 && old(Owed(Pending())) == [] == Owed(Pending())
      ensures len > 0 ==> ReadStep(old(Pending())) == (if r.Delivered? then [r.b] else [], Pending())
      ensures n == if len == 0 then 0 else TakenKeys(old(Pending()))
      ensures n <= |old(queue)| && queue == old(queue)[n..] && cooked == CookedAfter(old(cooked), old(queue)[..n])
      ensures vio.Shows(Echo(t, vio.high, old(cooked), old(queue)[..n], seq(n, _ => cp)))
    {
      hide Cook, Cooked1, CookedAfter1, CookedAfter, Echo, Echo1, Owed, VioManager.Shows, VioManager.Valid, TakenKeys;
      ghost var was, count := queue, cooked;
      n := 0;
      EchoNothing(t, vio.high, count, was, cp);
      if len == 0 {
        return Nothing, n;
      }
      if pendingLf {
        pendingLf := false;
        PendingOwed(cooked, queue);
        return Delivered(LF), n;
      }
      ghost var owed := Owed(Pending());
      while queue != []
        invariant n <= |was| && queue == was[n..] && !pendingLf
        invariant Owed(Pending()) == owed && vio.Valid()
        invariant ReadStep(Pending()) == ReadStep(old(Pending()))
        invariant cooked == CookedAfter(count, was[..n])
        invariant vio.Shows(Echo(t, vio.high, count, was[..n], seq(n, _ => cp)))
        decreases |queue|
      {
        var k := queue[0];
        TakeOwed(cooked, k, queue[1..]);
        assert queue == [k] + queue[1..];
        EchoPush(t, vio.high, count, was, n, cp);
        ghost var before := Echo(t, vio.high, count, was[..n], seq(n, _ => cp));
        queue := queue[1..];
        n := n + 1;
        var delivered := TakeKey(k, cp, before);
        if delivered {
          return Delivered(k), n;
        }
      }
      NothingOwed(cooked);
      return GaveUp, n;
    }

    /** The three branches on a key taken from the queue; false if it is discarded. */
    method TakeKey(k: byte, cp: nat, ghost t: Term) returns (delivered: bool)
      requires vio.Valid() && vio.Shows(t) && !pendingLf
      modifies this`pendingLf, this`cooked, vio`cursorRow, vio`cursorCol, vio.buffer, vio.rawBytes
      ensures vio.Valid() && vio.Shows(Echo1(t, vio.high, old(cooked), k, cp))
      ensures cooked == CookedAfter1(old(cooked), k) && pendingLf == (k == CR)
      ensures delivered == (Cooked1(old(cooked), k) != []) && (k == CR ==> delivered)
    {
      delivered := true;
      if k == CR {
        pendingLf := true;
        cooked := 0;
        var _ := vio.WriteTty([CR, LF], ATTR, 437, t);
      } else if k == BS {
        if cooked > 0 {
          cooked := cooked - 1;
          var _ := vio.WriteTty([BS, 0x20, BS], ATTR, 437, t);
        } else {
          delivered := false;
        }
      } else if k >= 0x20 {
        cooked := cooked + 1;
        var _ := vio.WriteTty([k], ATTR, cp, t);
      }
    }
  }

  lemma EchoNothing(t: Term, high: (byte, nat) -> char, cooked: nat, keys: seq<byte>, cp: nat)
    requires t.Valid()
    ensures Echo(t, high, cooked, keys[..0], seq(0, _ => cp)) == t && CookedAfter(cooked, keys[..0]) == cooked && keys[0..] == keys
  {
  }

  lemma EchoPush(t: Term, high: (byte, nat) -> char, cooked: nat, keys: seq<byte>, n: nat, cp: nat)
    requires t.Valid() && n < |keys|
    ensures Echo(t, high, cooked, keys[..n + 1], seq(n + 1, _ => cp))
         == Echo1(Echo(t, high, cooked, keys[..n], seq(n, _ => cp)), high, CookedAfter(cooked, keys[..n]), keys[n], cp)
    ensures CookedAfter(cooked, keys[..n + 1]) == CookedAfter1(CookedAfter(cooked, keys[..n]), keys[n])
  {
    assert keys[..n + 1][..n] == keys[..n];
    assert seq(n + 1, _ => cp)[..n] == seq(n, _ => cp);
  }

  /** The echo of some keys and then of more is the echo of all of them. */
  lemma {:induction false} EchoConcat(t: Term, high: (byte, nat) -> char, cooked: nat,
                                      a: seq<byte>, b: seq<byte>, cpa: seq<nat>, cpb: seq<nat>)
    requires t.Valid() && |cpa| == |a| && |cpb| == |b|
    ensures Echo(t, high, cooked, a + b, cpa + cpb)
         == Echo(Echo(t, high, cooked, a, cpa), high, CookedAfter(cooked, a), b, cpb)
  {
    hide Echo1, CookedAfter1, Cook;
    if b == [] {
      assert a + b == a && cpa + cpb == cpa;
    } else {
      var n := |b| - 1;
      EchoConcat(t, high, cooked, a, b[..n], cpa, cpb[..n]);
      CookConcat(cooked, a, b[..n]);
      assert (a + b)[..|a| + n] == a + b[..n] && (cpa + cpb)[..|a| + n] == cpa + cpb[..n];
    }
  }

  // ----- whole runs -----

  /** A key arrives, or one read is made with `cp` as the active code page. */
  datatype Op = Key(k: byte) | ReadOne(cp: nat)

  /** One read on the state alone: the byte delivered, if any, and the state after. */
  function ReadStep(s: State): (r: (seq<byte>, State))
    decreases |s.queue|
  {
    if s.pendingLf then ([LF], s.(pendingLf := false))
    else if s.queue == [] then ([], s)
    else
      var k, rest := s.queue[0], s.queue[1..];
      var next := State(k == CR, CookedAfter1(s.cooked, k), rest);
      if Cooked1(s.cooked, k) == [] then ReadStep(next) else ([k], next)
  }

  /** A read delivers the first owed byte, or nothing when nothing is owed. */
  lemma {:induction false} ReadDeliversOwed(s: State)
    ensures var (out, s') := ReadStep(s); Owed(s) == out + Owed(s') && (out == [] ==> Owed(s) == []) && |out| <= 1
    decreases |s.queue|
  {
    hide Cook;
    if s.pendingLf {
      PendingOwed(s.cooked, s.queue);
    } else if s.queue == [] {
      NothingOwed(s.cooked);
    } else {
      var k, rest := s.queue[0], s.queue[1..];
      assert s.queue == [k] + rest;
      TakeOwed(s.cooked, k, rest);
      if Cooked1(s.cooked, k) == [] {
        ReadDeliversOwed(State(k == CR, CookedAfter1(s.cooked, k), rest));
      }
    }
  }

  /** The bytes delivered and the state after a run of key presses and reads. */
  function Run(s: State, ops: seq<Op>): (seq<byte>, State) {
    if ops == [] then ([], s)
    else
      var (out, before) := Run(s, ops[..|ops| - 1]);
      match ops[|ops| - 1]
      case Key(k) => (out, before.(queue := before.queue + [k]))
      case ReadOne(_) =>
        var (b, after) := ReadStep(before);
        (out + b, after)
  }

  function KeysOf(ops: seq<Op>): seq<byte> {
    if ops == [] then []
    else
      match ops[|ops| - 1]
      case Key(k) => KeysOf(ops[..|ops| - 1]) + [k]
      case ReadOne(_) => KeysOf(ops[..|ops| - 1])
  }

  lemma {:induction false} ReadKeepsCount(s: State)
    ensures var (out, s') := ReadStep(s); CookedAfter(s'.cooked, s'.queue) == CookedAfter(s.cooked, s.queue)
    decreases |s.queue|
  {
    if !s.pendingLf && s.queue != [] {
      var k, rest := s.queue[0], s.queue[1..];
      assert s.queue == [k] + rest;
      CookFirst(s.cooked, k, rest);
      if Cooked1(s.cooked, k) == [] {
        ReadKeepsCount(State(k == CR, CookedAfter1(s.cooked, k), rest));
      }
    }
  }

  /**
   * Over any interleaving of key presses and reads, the bytes delivered followed by the
   * bytes still owed are the cooked form of all keys pressed.
   */
  lemma {:induction false} RunsDeliverCookedKeys(ops: seq<Op>)
    ensures var (out, s) := Run(State(false, 0, []), ops);
            && out + Owed(s) == Cook(0, KeysOf(ops))
            && out <= Cook(0, KeysOf(ops))
            && CookedAfter(s.cooked, s.queue) == CookedAfter(0, KeysOf(ops))
  {
    hide Cook, Owed, ReadStep, CookedAfter;
    if ops == [] {
      NothingOwed(0);
      CookNothing();
    } else {
      var init := ops[..|ops| - 1];
      RunsDeliverCookedKeys(init);
      var (out, before) := Run(State(false, 0, []), init);
      match ops[|ops| - 1] {
        case Key(k) =>
          KeyOwed(before, k);
          CookConcat(0, KeysOf(init), [k]);
          ConcatAssoc(out, Owed(before), Cook(CookedAfter(0, KeysOf(init)), [k]));
        case ReadOne(_) =>
          ReadDeliversOwed(before);
          ReadKeepsCount(before);
          var (b, after) := ReadStep(before);
          ConcatAssoc(out, b, Owed(after));
      }
    }
  }

  lemma CookNothing()
    ensures Cook(0, []) == [] && CookedAfter(0, []) == 0
  {
  }

  /** A key press adds its cooked form to what is owed. */
  lemma KeyOwed(s: State, k: byte)
    ensures Owed(s.(queue := s.queue + [k])) == Owed(s) + Cook(CookedAfter(s.cooked, s.queue), [k])
    ensures CookedAfter(s.cooked, s.queue + [k]) == CookedAfter(CookedAfter(s.cooked, s.queue), [k])
  {
    hide Cook;
    CookConcat(s.cooked, s.queue, [k]);
    ConcatAssoc(if s.pendingLf then [LF] else [], Cook(s.cooked, s.queue), Cook(CookedAfter(s.cooked, s.queue), [k]));
  }

  // ----- the screen over a whole run -----

  /** How many keys a read in state `s` takes off the queue. */
  function TakenKeys(s: State): (n: nat)
    ensures n <= |s.queue| && ReadStep(s).1.queue == s.queue[n..]
    ensures ReadStep(s).1.cooked == CookedAfter(s.cooked, s.queue[..n])
    decreases |s.queue|
  {
    if s.pendingLf || s.queue == [] then 0
    else
      var k, rest := s.queue[0], s.queue[1..];
      var next := State(k == CR, CookedAfter1(s.cooked, k), rest);
      TakesFirst(s.cooked, s.queue, if Cooked1(s.cooked, k) == [] then TakenKeys(next) else 0);
      if Cooked1(s.cooked, k) == [] then 1 + TakenKeys(next) else 1
  }

  lemma TakesFirst(cooked: nat, queue: seq<byte>, n: nat)
    requires n < |queue|
    ensures queue[n + 1..] == queue[1..][n..] && queue[1..][..0] == []
    ensures CookedAfter(cooked, queue[..n + 1]) == CookedAfter(CookedAfter1(cooked, queue[0]), queue[1..][..n])
  {
    CookFirst(cooked, queue[0], queue[1..][..n]);
    assert queue[..n + 1] == [queue[0]] + queue[1..][..n];
  }

  /** The terminal after a run; each read echoes the keys it takes, as `Input.Read` does. */
  function Shown(t: Term, high: (byte, nat) -> char, ops: seq<Op>): (r: Term)
    requires t.Valid()
    ensures r.Valid()
  {
    if ops == [] then t
    else
      var init := ops[..|ops| - 1];
      var before, s := Shown(t, high, init), Run(State(false, 0, []), init).1;
      match ops[|ops| - 1]
      case Key(_) => before
      case ReadOne(cp) =>
        var n := TakenKeys(s);
        Echo(before, high, s.cooked, s.queue[..n], seq(n, _ => cp))
  }

  /** All keys that reads took in a run. */
  function TakenIn(ops: seq<Op>): seq<byte> {
    if ops == [] then []
    else
      var init := ops[..|ops| - 1];
      var s := Run(State(false, 0, []), init).1;
      match ops[|ops| - 1]
      case Key(_) => TakenIn(init)
      case ReadOne(_) => TakenIn(init) + s.queue[..TakenKeys(s)]
  }

  /** The code page at each of them. */
  function PagesIn(ops: seq<Op>): (cps: seq<nat>)
    ensures |cps| == |TakenIn(ops)|
  {
    if ops == [] then []
    else
      var init := ops[..|ops| - 1];
      match ops[|ops| - 1]
      case Key(_) => PagesIn(init)
      case ReadOne(cp) => PagesIn(init) + seq(TakenKeys(Run(State(false, 0, []), init).1), _ => cp)
  }

  /**
   * Over any run the screen is the echo of the keys taken so far, in one piece, and these
   * with the queue are the keys pressed.
   */
  lemma {:induction false} RunsEchoTakenKeys(t: Term, high: (byte, nat) -> char, ops: seq<Op>)
    requires t.Valid()
    ensures Shown(t, high, ops) == Echo(t, high, 0, TakenIn(ops), PagesIn(ops))
    ensures var s := Run(State(false, 0, []), ops).1;
            TakenIn(ops) + s.queue == KeysOf(ops) && s.cooked == CookedAfter(0, TakenIn(ops))
  {
    hide ReadStep, Echo, CookedAfter, TakenKeys;
    if ops == [] {
      NothingShown(t, high);
    } else {
      var init := ops[..|ops| - 1];
      RunsEchoTakenKeys(t, high, init);
      var s := Run(State(false, 0, []), init).1;
      match ops[|ops| - 1] {
        case Key(k) =>
          ConcatAssoc(TakenIn(init), s.queue, [k]);
        case ReadOne(cp) =>
          ReadEchoes(t, high, TakenIn(init), PagesIn(init), s, TakenKeys(s), cp);
      }
    }
  }

  lemma ReadEchoes(t: Term, high: (byte, nat) -> char, taken: seq<byte>, cps: seq<nat>, s: State, n: nat, cp: nat)
    requires t.Valid() && |cps| == |taken| && s.cooked == CookedAfter(0, taken) && n <= |s.queue|
    ensures Echo(Echo(t, high, 0, taken, cps), high, s.cooked, s.queue[..n], seq(n, _ => cp))
         == Echo(t, high, 0, taken + s.queue[..n], cps + seq(n, _ => cp))
    ensures CookedAfter(s.cooked, s.queue[..n]) == CookedAfter(0, taken + s.queue[..n])
    ensures taken + s.queue == (taken + s.queue[..n]) + s.queue[n..]
  {
    hide Echo, CookedAfter, Cook;
    var more, left := s.queue[..n], s.queue[n..];
    EchoConcat(t, high, 0, taken, more, cps, seq(n, _ => cp));
    CookConcat(0, taken, more);
    ConcatAssoc(taken, more, left);
    assert s.queue == more + left;
  }

  lemma NothingShown(t: Term, high: (byte, nat) -> char)
    requires t.Valid()
    ensures Echo(t, high, 0, [], []) == t && CookedAfter(0, []) == 0
  {
  }

  // ----- typing never reaches back before the input -----

  /** Position `(r, c)` precedes the cursor of `t`. */
  predicate Precedes(t: Term, r: nat, c: nat) {
    r < t.row || (r == t.row && c < t.col)
  }

  /** How far the cursor of `t` is past that of `start`, counting along the lines. */
  function Distance(start: Term, t: Term): int {
    (t.row - start.row) * start.cols + (t.col - start.col)
  }

  /** Nothing before the input has changed, and each counted character lies behind the cursor. */
  predicate Safe(start: Term, t: Term, cooked: nat)
    requires start.Valid() && t.Valid()
  {
    && t.cols == start.cols && |start.lines| <= |t.lines|
    && Distance(start, t) >= cooked
    && forall r, c :: 0 <= r < |start.lines| && 0 <= c < start.cols && Precedes(start, r, c) ==> t.lines[r][c] == start.lines[r][c]
  }

  lemma NotBehind(start: Term, t: Term)
    requires start.Valid() && t.Valid() && t.cols == start.cols && Distance(start, t) >= 0
    ensures !Precedes(start, t.row, t.col)
  {
    if t.row < start.row {
      NegativeRows(t.row - start.row, start.cols);
    }
  }

  lemma {:induction false} NegativeRows(d: int, cols: nat)
    requires d <= -1
    ensures d * cols + cols <= 0
    decreases -d
  {
    if d < -1 {
      NegativeRows(d + 1, cols);
      assert d * cols == (d + 1) * cols - cols;
    }
  }

  lemma NextRow(start: Term, row: nat)
    ensures (row + 1 - start.row) * start.cols == (row - start.row) * start.cols + start.cols
  {
  }

  /** Typing one character from a safe state. */
  lemma PutIsSafe(start: Term, t: Term, g: Glyph, cooked: nat)
    requires start.Valid() && t.Valid() && Safe(start, t, cooked)
    ensures Safe(start, t.Put(g), cooked + 1)
    ensures Distance(start, t.Put(g)) == Distance(start, t) + 1
  {
    NotBehind(start, t);
    NextRow(start, t.row);
    var r := t.Put(g);
    assert |t.lines| <= |r.lines|;
    forall row, c | 0 <= row < |start.lines| && 0 <= c < start.cols && Precedes(start, row, c)
      ensures r.lines[row][c] == start.lines[row][c]
    {
      assert t.lines[row][c] == start.lines[row][c];
    }
  }

  /** The destructive backspace, when a character has been typed on the line. */
  lemma BackspaceIsSafe(start: Term, t: Term, g: Glyph, cooked: nat)
    requires start.Valid() && t.Valid() && Safe(start, t, cooked) && cooked > 0
    ensures var back := if t.col > 0 then t.(col := t.col - 1) else t;
            var wiped := back.Put(g);
            Safe(start, if wiped.col > 0 then wiped.(col := wiped.col - 1) else wiped, cooked - 1)
  {
    var back := if t.col > 0 then t.(col := t.col - 1) else t;
    assert Safe(start, back, cooked - 1);
    PutIsSafe(start, back, g, cooked - 1);
  }

  lemma Echo1IsSafe(start: Term, t: Term, high: (byte, nat) -> char, cooked: nat, k: byte, cp: nat)
    requires start.Valid() && t.Valid() && Safe(start, t, cooked) && k != CR
    ensures Safe(start, Echo1(t, high, cooked, k, cp), CookedAfter1(cooked, k))
  {
    if k == BS {
      if cooked > 0 {
        EraseFeed(t, high);
        BackspaceIsSafe(start, t, GlyphOf(high, 0x20, ATTR, 437), cooked);
      }
    } else if k >= 0x20 {
      FeedOne(t, high, k, ATTR, cp);
      PutIsSafe(start, t, GlyphOf(high, k, ATTR, cp), cooked);
    }
  }

  lemma FeedOne(t: Term, high: (byte, nat) -> char, b: byte, attr: byte, cp: nat)
    requires t.Valid()
    ensures Feed(t, high, [b], attr, cp) == t.Feed1(b, GlyphOf(high, b, attr, cp))
  {
    assert [b][..0] == [];
  }

  /**
   * From a state with no counted characters, typing and backspacing before Enter never
   * changes a terminal position before the one where input began, even after the line
   * wraps or new lines are added.
   */
  lemma {:induction false} EchoStaysBehindStart(start: Term, high: (byte, nat) -> char, keys: seq<byte>, cps: seq<nat>)
    requires start.Valid() && |cps| == |keys| && CR !in keys
    ensures Safe(start, Echo(start, high, 0, keys, cps), CookedAfter(0, keys))
  {
    if keys != [] {
      var n := |keys| - 1;
      EchoStaysBehindStart(start, high, keys[..n], cps[..n]);
      Echo1IsSafe(start, Echo(start, high, 0, keys[..n], cps[..n]), high, CookedAfter(0, keys[..n]), keys[n], cps[n]);
    }
  }

  /** So over any number of reads, before Enter nothing on the screen before the input changes. */
  lemma ReadsStayBehindStart(start: Term, high: (byte, nat) -> char, ops: seq<Op>)
    requires start.Valid() && CR !in TakenIn(ops)
    ensures Safe(start, Shown(start, high, ops), Run(State(false, 0, []), ops).1.cooked)
  {
    hide Safe, Shown, Echo, CookedAfter, Run, TakenIn;
    RunsEchoTakenKeys(start, high, ops);
    EchoStaysBehindStart(start, high, TakenIn(ops), PagesIn(ops));
  }

  // ----- past Enter, and what the echo looks like -----

  /**
   * The same for every line: where the echo of the last Enter left the cursor the input of
   * the line begins, and nothing before that changes.
   */
  lemma EachLineStaysBehindItsStart(t: Term, high: (byte, nat) -> char, keys: seq<byte>, cps: seq<nat>)
    requires t.Valid() && |cps| == |keys|
    ensures var n := LineStart(keys);
            Safe(Echo(t, high, 0, keys[..n], cps[..n]), Echo(t, high, 0, keys, cps), CookedAfter(0, keys[n..]))
  {
    hide Safe, Echo, CookedAfter, LineStart;
    var n := LineStart(keys);
    CountAtStart(keys);
    NextLineStaysBehind(t, high, keys[..n], cps[..n], keys[n..], cps[n..]);
    assert keys == keys[..n] + keys[n..] && cps == cps[..n] + cps[n..];
  }

  lemma NextLineStaysBehind(t: Term, high: (byte, nat) -> char, before: seq<byte>, pages: seq<nat>, line: seq<byte>, cps: seq<nat>)
    requires t.Valid() && |before| == |pages| && |line| == |cps| && CookedAfter(0, before) == 0 && CR !in line
    ensures Safe(Echo(t, high, 0, before, pages), Echo(t, high, 0, before + line, pages + cps), CookedAfter(0, line))
  {
    hide Safe, Echo, CookedAfter;
    EchoConcat(t, high, 0, before, line, pages, cps);
    EchoStaysBehindStart(Echo(t, high, 0, before, pages), high, line, cps);
  }

  lemma CountAtStart(keys: seq<byte>)
    ensures CookedAfter(0, keys[..LineStart(keys)]) == 0
  {
    hide Cook, CookedAfter;
    var n := LineStart(keys);
    CookNothing();
    if n > 0 {
      assert keys[..n] == keys[..n - 1] + [CR] + [];
      EnterStartsAnew(keys[..n - 1], []);
    }
  }

  /** So over any run of reads. */
  lemma ReadsStayBehindEachStart(t: Term, high: (byte, nat) -> char, ops: seq<Op>)
    requires t.Valid()
    ensures var keys, cps := TakenIn(ops), PagesIn(ops);
            var n := LineStart(keys);
            Safe(Echo(t, high, 0, keys[..n], cps[..n]), Shown(t, high, ops), Run(State(false, 0, []), ops).1.cooked)
  {
    hide Safe, Shown, Echo, CookedAfter, Run, TakenIn;
    var keys := TakenIn(ops);
    RunsEchoTakenKeys(t, high, ops);
    EachLineStaysBehindItsStart(t, high, keys, PagesIn(ops));
    CountFromStart(keys);
  }

  lemma CountFromStart(keys: seq<byte>)
    ensures CookedAfter(0, keys) == CookedAfter(0, keys[LineStart(keys)..])
  {
    hide Cook, CookedAfter;
    var n := LineStart(keys);
    if n > 0 {
      assert keys == keys[..n - 1] + [CR] + keys[n..];
      EnterStartsAnew(keys[..n - 1], keys[n..]);
    }
  }

  /** A typed character appears at the cursor, which moves on. */
  lemma CharacterIsEchoed(t: Term, high: (byte, nat) -> char, cooked: nat, k: byte, cp: nat)
    requires t.Valid() && k >= 0x20
    ensures var r := Echo1(t, high, cooked, k, cp);
            && |r.lines| >= |t.lines|
            && r.lines[t.row] == t.lines[t.row][t.col := Glyph(Cell(if k < 0x80 then k as char else high(k, cp), 0x07), k)]
            && (forall i :: 0 <= i < |t.lines| && i != t.row ==> r.lines[i] == t.lines[i])
            && (if t.col + 1 < t.cols then r.row == t.row && r.col == t.col + 1 else r.row == t.row + 1 && r.col == 0)
  {
    FeedOne(t, high, k, ATTR, cp);
  }

  /** A backspace with something to erase blanks the cell before the cursor and goes there. */
  lemma BackspaceErases(t: Term, high: (byte, nat) -> char, cooked: nat, cp: nat)
    requires t.Valid() && cooked > 0 && t.cols >= 2
    ensures var r, c := Echo1(t, high, cooked, BS, cp), if t.col > 0 then t.col - 1 else 0;
            r.row == t.row && r.col == c && r.lines == t.lines[t.row := t.lines[t.row][c := Glyph(Cell(' ', 0x07), 0x20)]]
  {
    var back := if t.col > 0 then t.(col := t.col - 1) else t;
    EraseFeed(t, high);
    assert back.col + 1 < t.cols;
  }

  lemma EraseFeed(t: Term, high: (byte, nat) -> char)
    requires t.Valid()
    ensures var back := if t.col > 0 then t.(col := t.col - 1) else t;
            var wiped := back.Put(GlyphOf(high, 0x20, ATTR, 437));
            Feed(t, high, [BS, 0x20, BS], ATTR, 437) == if wiped.col > 0 then wiped.(col := wiped.col - 1) else wiped
  {
    var back := if t.col > 0 then t.(col := t.col - 1) else t;
    FeedConcat(t, high, [BS], [0x20], ATTR, 437);
    FeedConcat(t, high, [BS] + [0x20], [BS], ATTR, 437);
    assert [BS, 0x20, BS] == [BS] + [0x20] + [BS];
    FeedOne(t, high, BS, ATTR, 437);
    FeedOne(back, high, 0x20, ATTR, 437);
    FeedOne(back.Put(GlyphOf(high, 0x20, ATTR, 437)), high, BS, ATTR, 437);
  }

  /** Enter goes to the start of the next line, a backspace with nothing to erase and other keys show nothing. */
  lemma OtherKeysAreEchoed(t: Term, high: (byte, nat) -> char, cooked: nat, k: byte, cp: nat)
    requires t.Valid() && k < 0x20 && (k == BS ==> cooked == 0)
    ensures var r := Echo1(t, high, cooked, k, cp);
            if k == CR
            then r.row == t.row + 1 && r.col == 0 && t.lines <= r.lines
            else r == t
  {
    if k == CR {
      FeedConcat(t, high, [CR], [LF], ATTR, 437);
      assert [CR, LF] == [CR] + [LF];
      FeedOne(t, high, CR, ATTR, 437);
      FeedOne(t.(col := 0), high, LF, ATTR, 437);
    }
  }
}
