/**
 * Printers and scanners of the ordinal table undo each other: the trace scanner finds every
 * entry that `gen-trace` printed, and the parser reads `gen-def` output back sorted.
 */
module GenApiRoundTrip {
  import opened Bytes
  import opened GenApi
  import opened Text
  import opened Wrappers

  // ----- the module table -----

  lemma NameIsWordy(k: nat)
    requires k < |MODULES|
    ensures Wordy(MODULES[k].name) && MODULES[k].name != []
  {
    if k == 0 {} else if k == 1 {} else if k == 2 {} else if k == 3 {} else if k == 4 {} else if k == 5 {} else if k == 6 {}
    else if k == 7 {} else if k == 8 {} else if k == 9 {} else if k == 10 {} else if k == 11 {} else {}
  }

  lemma BaseConstIsWordy(k: nat)
    requires k < |MODULES|
    ensures Wordy(MODULES[k].baseConst) && MODULES[k].baseConst != []
  {
    hide Wordy;
    if k < 5 {
      LowBaseConstIsWordy(k);
    } else if k < 9 {
      MiddleBaseConstIsWordy(k);
    } else {
      HighBaseConstIsWordy(k);
    }
  }

  lemma LowBaseConstIsWordy(k: nat)
    requires k < 5
    ensures Wordy(MODULES[k].baseConst) && MODULES[k].baseConst != []
  {
    if k == 0 {} else if k == 1 {} else if k == 2 {} else if k == 3 {} else {}
  }

  lemma MiddleBaseConstIsWordy(k: nat)
    requires 5 <= k < 9
    ensures Wordy(MODULES[k].baseConst) && MODULES[k].baseConst != []
  {
    if k == 5 {} else if k == 6 {} else if k == 7 {} else {}
  }

  lemma HighBaseConstIsWordy(k: nat)
    requires 9 <= k < |MODULES|
    ensures Wordy(MODULES[k].baseConst) && MODULES[k].baseConst != []
  {
    if k == 9 {} else if k == 10 {} else if k == 11 {} else {}
  }

  lemma UpperConstIsWordy(k: nat)
    requires k < |MODULES|
    ensures Wordy(MODULES[k].upperConst) && MODULES[k].upperConst != []
  {
    hide Wordy;
    if k < 5 {
      LowUpperConstIsWordy(k);
    } else if k < 9 {
      MiddleUpperConstIsWordy(k);
    } else {
      HighUpperConstIsWordy(k);
    }
  }

  lemma LowUpperConstIsWordy(k: nat)
    requires k < 5
    ensures Wordy(MODULES[k].upperConst) && MODULES[k].upperConst != []
  {
    if k == 0 {} else if k == 1 {} else if k == 2 {} else if k == 3 {} else {}
  }

  lemma MiddleUpperConstIsWordy(k: nat)
    requires 5 <= k < 9
    ensures Wordy(MODULES[k].upperConst) && MODULES[k].upperConst != []
  {
    if k == 5 {} else if k == 6 {} else if k == 7 {} else {}
  }

  lemma HighUpperConstIsWordy(k: nat)
    requires 9 <= k < |MODULES|
    ensures Wordy(MODULES[k].upperConst) && MODULES[k].upperConst != []
  {
    if k == 9 {} else if k == 10 {} else if k == 11 {} else {}
  }

  lemma ConstsAreWordy(k: nat)
    requires k < |MODULES|
    ensures Wordy(MODULES[k].name) && Wordy(MODULES[k].baseConst) && Wordy(MODULES[k].upperConst)
    ensures MODULES[k].name != [] && MODULES[k].baseConst != [] && MODULES[k].upperConst != []
  {
    hide Wordy, MODULES;
    NameIsWordy(k);
    BaseConstIsWordy(k);
    UpperConstIsWordy(k);
  }

  /** Two characteristics that no two constants share: length and third letter. */
  const SIGNATURES: seq<(nat, char)> := [
    (1, '-'), (4, '2'), (10, 'W'), (10, 'G'), (13, 'D'), (13, 'O'), (11, 'S'), (8, 'S'), (8, 'G'), (8, 'M'), (10, 'O'),
    (12, '3'), (13, 'P')]

  lemma SignatureOf(k: nat)
    requires k < |MODULES|
    ensures |SIGNATURES| == |MODULES| && |MODULES[k].baseConst| == SIGNATURES[k].0
    ensures k > 0 ==> |MODULES[k].baseConst| > 2 && MODULES[k].baseConst[2] == SIGNATURES[k].1
  {
    if k == 0 {} else if k == 1 {} else if k == 2 {} else if k == 3 {} else if k == 4 {} else if k == 5 {} else if k == 6 {}
    else if k == 7 {} else if k == 8 {} else if k == 9 {} else if k == 10 {} else if k == 11 {} else {}
  }

  lemma ConstsDiffer(i: nat, k: nat)
    requires i < |MODULES| && k < |MODULES|
    ensures MODULES[i].baseConst == MODULES[k].baseConst ==> i == k
  {
    SignatureOf(i);
    SignatureOf(k);
    hide MODULES;
  }

  lemma BasesResolve(k: nat)
    requires k < |MODULES|
    ensures ResolveConst(MODULES[k].baseConst) == MODULES[k].base
  {
    hide Trim, ParseU32;
    ConstsAreWordy(k);
    TrimTight(MODULES[k].baseConst);
    var i := BaseConstFrom(MODULES[k].baseConst, 0);
    if i < |MODULES| {
      ConstsDiffer(i, k);
    }
  }

  lemma BasesAscend(i: nat, j: nat)
    requires i < j < |MODULES|
    ensures Upper(i) <= MODULES[j].base
    decreases j - i
  {
    if j > i + 1 {
      BasesAscend(i, j - 1);
      NextBase(j - 1);
    }
  }

  lemma NextBase(i: nat)
    requires i + 1 < |MODULES|
    ensures MODULES[i].base < MODULES[i + 1].base
  {
    if i == 0 {} else if i == 1 {} else if i == 2 {} else if i == 3 {} else if i == 4 {} else if i == 5 {} else if i == 6 {}
    else if i == 7 {} else if i == 8 {} else if i == 9 {} else if i == 10 {} else {}
  }

  // ----- single lines under the trace scanner -----

  lemma {:induction false} NoBraces(s: string)
    requires '{' !in s && '}' !in s
    ensures Braces(s) == 0
  {
    if s != [] {
      NoBraces(s[..|s| - 1]);
    }
  }

  lemma {:induction false} BracesConcat(s: string, t: string)
    ensures Braces(s + t) == Braces(s) + Braces(t)
  {
    if t == [] {
      assert s + t == s;
    } else {
      BracesConcat(s, t[..|t| - 1]);
      assert (s + t)[..|s + t| - 1] == s + t[..|t| - 1];
    }
  }

  lemma TrimIndent(n: nat, core: string)
    requires core != [] && Tight(core)
    ensures Trim(Spaces(n) + core) == core
  {
    TrimOf(Spaces(n), core, []);
    assert Spaces(n) + core + [] == Spaces(n) + core;
  }

  /** Inside the function, and not finished. */
  predicate Inside(t: Scanner) {
    t.inFn && !t.done && t.depth > 0
  }

  lemma NotHeader(line: string)
    requires '&' !in line
    ensures !IsHeader(line)
  {
    assert line[0..] == line;
    FindNone(line, ".contains(&o)", 10, 0);
  }

  /** The parts of an arm are found again. */
  lemma ArmFound(n: u32, name: string)
    requires name != [] && Wordy(name)
    ensures ArmOf(Decimal(n) + (" => " + ("\"" + name + "\","))) == Some((n, name))
  {
    hide Decimal, Find, ParseU32, Trim;
    var core := Decimal(n) + (" => " + ("\"" + name + "\","));
    var literal := "\"" + name + "\"";
    var left, right := Decimal(n) + " ", " " + (literal + ",");
    assert core == left + "=>" + right;
    FindAfter(left, "=>", right, 0);
    assert core[..|left|] == left && core[|left| + 2..] == right;
    TrimOf([], Decimal(n), " ");
    assert [] + Decimal(n) + " " == left;
    DecimalParses(n);
    TrimOf(" ", literal + ",", []);
    assert " " + (literal + ",") + [] == right;
    assert (literal + ",")[..|literal|] == literal;
    assert DropEnd(literal + ",", ',') == literal;
    TrimTight(literal);
    assert DropEnd(literal, ',') == literal;
    assert literal[1..|literal| - 1] == name;
    assert name[0] != '?';
  }

  lemma ArmScanned(t: Scanner, indent: nat, n: u32, name: string)
    requires Inside(t) && name != [] && Wordy(name)
    ensures Scanned(t, Arm(indent, n, name)) == t.(names := t.names[(if t.sub.Some? then t.sub.value else 0) + n := name])
  {
    hide Decimal, Trim, ArmOf, IsHeader, Find;
    var core := Decimal(n) + (" => " + ("\"" + name + "\","));
    TrimIndent(indent, core);
    NoBraces(core);
    NotHeader(core);
    ArmFound(n, name);
  }

  /** A line that is neither header, close nor arm, and has no braces, changes nothing. */
  lemma Ignored(t: Scanner, raw: string)
    requires Inside(t) && Braces(Trim(raw)) == 0 && '&' !in Trim(raw)
    requires Trim(raw) == [] || Trim(raw)[0] != '}'
    requires ArmOf(Trim(raw)).None?
    ensures Scanned(t, raw) == t
  {
    NotHeader(Trim(raw));
  }

  lemma CommentScanned(t: Scanner, m: Module)
    requires Inside(t) && Wordy(m.name)
    ensures Scanned(t, Comment(m)) == t
  {
    hide Trim, ArmOf, IsHeader;
    var core := "// " + Rule(2) + " " + m.name + " " + Rule(46);
    assert core[|core| - 1] == Rule(46)[45];
    TrimIndent(8, core);
    NoBraces(core);
    NoArrow(core);
    Ignored(t, Comment(m));
  }

  lemma NoArrow(line: string)
    requires '=' !in line
    ensures ArmOf(line).None?
  {
    assert line[0..] == line;
    FindNone(line, "=>", 0, 0);
  }

  lemma BlankScanned(t: Scanner)
    requires Inside(t)
    ensures Scanned(t, "") == t
  {
    NoArrow("");
    Ignored(t, "");
  }

  lemma DefaultIsNoArm()
    ensures ArmOf("_ => \"?\",").None?
  {
    FindAfter("_ ", "=>", " \"?\",", 0);
    assert "_ " + "=>" + " \"?\"," == "_ => \"?\",";
    var line := "_ => \"?\",";
    assert line[..2] == "_ ";
    TrimOf([], "_", " ");
    assert [] + "_" + " " == "_ ";
    var under := "_";
    assert !IsDigit(under[0]);
    assert !AllDigits(under) && ParseU32(under).None?;
  }

  lemma DefaultScanned(t: Scanner, indent: nat)
    requires Inside(t)
    ensures Scanned(t, Spaces(indent) + "_ => \"?\",") == t
  {
    hide Trim, ArmOf, IsHeader;
    TrimIndent(indent, "_ => \"?\",");
    NoBraces("_ => \"?\",");
    DefaultIsNoArm();
    Ignored(t, Spaces(indent) + "_ => \"?\",");
  }

  lemma CloseScanned(t: Scanner)
    requires Inside(t) && t.sub.Some? && t.depth >= 2
    ensures Scanned(t, CLOSE_ARM) == t.(depth := t.depth - 1, sub := None)
  {
    hide Trim, IsHeader;
    TrimIndent(8, "},");
    NotHeader("},");
    assert "},"[..1] == "}" && "}"[..0] == [];
    assert Braces("},") == -1;
    assert "},"[0..] == "},";
    FindNone("},", "=>", 0, 0);
  }

  lemma HeaderFound(m: Module)
    requires Wordy(m.baseConst) && Wordy(m.upperConst) && m.baseConst != []
    ensures IsHeader(HeaderCore(m)) && Contains(HeaderCore(m), "o - ")
    ensures HeaderBase(HeaderCore(m)) == ResolveConst(m.baseConst)
  {
    hide Find, Trim, ResolveConst, Wordy, DropStart, DropEnd;
    HeaderMatches(m);
    HeaderPiece(m);
    PieceTrims(m.baseConst);
  }

  lemma HeaderMatches(m: Module)
    requires Wordy(m.baseConst) && Wordy(m.upperConst)
    ensures IsHeader(HeaderCore(m))
  {
    hide Find;
    var guard := "o if (" + m.baseConst + ".." + m.upperConst + ")";
    var rest := " => " + "match o - " + (m.baseConst + " {");
    FindAfter(guard, ".contains(&o)", rest, 10);
    var before := guard + ".contains(&o)" + " => ";
    assert HeaderCore(m) == before + "match o - " + (m.baseConst + " {");
    FindAfter(before, "match o - ", m.baseConst + " {", 8);
  }

  /** What follows the minus sign. */
  lemma HeaderPiece(m: Module)
    requires Wordy(m.baseConst) && Wordy(m.upperConst)
    ensures Contains(HeaderCore(m), "o - ") && SecondPiece(HeaderCore(m), "o - ") == Some(m.baseConst + " {")
  {
    var core := HeaderCore(m);
    var before := "o if (" + m.baseConst + ".." + m.upperConst + ")" + ".contains(&o)" + " => " + "match ";
    var piece := m.baseConst + " {";
    assert before + "o - " + piece == core;
    FindAfter(before, "o - ", piece, 2);
    var i := |before|;
    assert core[i + 4..] == piece;
    FindNone(core, "o - ", 2, i + 4);
  }

  lemma PieceTrims(base: string)
    requires Wordy(base) && base != []
    ensures Trim(DropEnd(DropStart(Trim(base + " {"), '{'), '{')) == base
  {
    hide Trim;
    var piece := base + " {";
    assert Tight(piece);
    TrimTight(piece);
    assert DropStart(piece, '{') == piece;
    assert piece[..|piece| - 1] == base + " ";
    assert DropEnd(piece, '{') == base + " " by {
      assert (base + " ")[|base|] == ' ';
    }
    TrimOf([], base, " ");
    assert [] + base + " " == base + " ";
  }

  lemma HeaderBraces(m: Module)
    requires Wordy(m.baseConst) && Wordy(m.upperConst)
    ensures Braces(HeaderCore(m)) == 1
  {
    var init := ("o if (" + m.baseConst + ".." + m.upperConst + ")") + ".contains(&o)" + (" => " + "match o - " + (m.baseConst + " "));
    assert HeaderCore(m) == init + "{";
    NoBraces(init);
    BracesConcat(init, "{");
    assert "{"[..0] == [];
    assert Braces("{") == 1;
  }

  lemma HeaderScanned(t: Scanner, k: nat)
    requires Inside(t) && k < |MODULES|
    ensures Scanned(t, Header(MODULES[k])) == t.(depth := t.depth + 1, sub := Some(MODULES[k].base))
  {
    hide Trim, IsHeader, HeaderBase, Find, Wordy, ResolveConst;
    var m := MODULES[k];
    ConstsAreWordy(k);
    assert Header(m) == Spaces(8) + HeaderCore(m);
    TrimIndent(8, HeaderCore(m));
    HeaderFound(m);
    HeaderBraces(m);
    BasesResolve(k);
  }

  // ----- the whole trace file -----

  lemma {:induction false} ScanConcat(t: Scanner, a: seq<string>, b: seq<string>)
    ensures ScanAll(t, a + b) == ScanAll(ScanAll(t, a), b)
  {
    hide Scanned;
    if b == [] {
      assert a + b == a;
    } else {
      ScanConcat(t, a, b[..|b| - 1]);
      assert (a + b)[..|a + b| - 1] == a + b[..|b| - 1];
    }
  }

  lemma ScanOne(t: Scanner, line: string)
    ensures ScanAll(t, [line]) == Scanned(t, line)
  {
    assert [line][..0] == [];
    assert ScanAll(t, []) == t;
  }

  /** The names of the entries entered one after the other under their flat ordinals. */
  function InsertAll(names: map<nat, string>, entries: seq<OrdEntry>): map<nat, string> {
    if entries == [] then names
    else InsertAll(names, entries[..|entries| - 1])[entries[|entries| - 1].flat := entries[|entries| - 1].name]
  }

  lemma {:induction false} InsertConcat(names: map<nat, string>, a: seq<OrdEntry>, b: seq<OrdEntry>)
    ensures InsertAll(names, a + b) == InsertAll(InsertAll(names, a), b)
  {
    if b == [] {
      assert a + b == a;
    } else {
      InsertConcat(names, a, b[..|b| - 1]);
      assert (a + b)[..|a + b| - 1] == a + b[..|b| - 1];
    }
  }

  /** A group printed as arms is entered by the scanner. */
  lemma {:induction false} ArmsScanned(t: Scanner, k: nat, group: seq<OrdEntry>)
    requires Inside(t) && k < |MODULES| && t.sub == (if MODULES[k].name == "DOSCALLS" then None else Some(MODULES[k].base))
    requires forall i :: 0 <= i < |group| ==> InModule(group[i], k)
    ensures ScanAll(t, Arms(MODULES[k], group)) == t.(names := InsertAll(t.names, group))
  {
    hide Scanned, Arm;
    if group != [] {
      var e := group[|group| - 1];
      var init := group[..|group| - 1];
      forall i | 0 <= i < |init|
        ensures InModule(init[i], k)
      {
        assert InModule(group[i], k);
      }
      ArmsScanned(t, k, init);
      assert InModule(e, k);
      var u := t.(names := InsertAll(t.names, init));
      ArmScanned(u, 8, e.flat, e.name);
      ArmScanned(u, 12, e.local, e.name);
    }
  }

  predicate InModule(e: OrdEntry, k: nat)
    requires k < |MODULES|
  {
    e.moduleName == MODULES[k].name && e.flat == MODULES[k].base + e.local && e.flat < TWO32 && e.name != [] && Wordy(e.name)
    && (MODULES[k].name == "DOSCALLS" ==> MODULES[k].base == 0)
  }

  lemma ModuleScanned(t: Scanner, k: nat, group: seq<OrdEntry>)
    requires Inside(t) && k < |MODULES| && t.sub == None
    requires forall i :: 0 <= i < |group| ==> InModule(group[i], k)
    ensures ScanAll(t, ModuleLines(MODULES[k], group)) == t.(names := InsertAll(t.names, group))
  {
    hide Scanned, Arms, InsertAll, Comment, Header, Wordy, InModule;
    var m := MODULES[k];
    if group == [] {
      NothingScanned(t);
    } else if m.name == "DOSCALLS" {
      ConstsAreWordy(k);
      ScanConcat(t, [Comment(m)] + Arms(m, group), [""]);
      ScanConcat(t, [Comment(m)], Arms(m, group));
      ScanOne(t, Comment(m));
      CommentScanned(t, m);
      ArmsScanned(t, k, group);
      var u := t.(names := InsertAll(t.names, group));
      ScanOne(u, "");
      BlankScanned(u);
    } else {
      SubMatchScanned(t, k, group);
    }
  }

  lemma NothingScanned(t: Scanner)
    ensures ScanAll(t, []) == t && InsertAll(t.names, []) == t.names
  {
  }

  lemma SubMatchScanned(t: Scanner, k: nat, group: seq<OrdEntry>)
    requires Inside(t) && k < |MODULES| && t.sub == None && MODULES[k].name != "DOSCALLS"
    requires forall i :: 0 <= i < |group| ==> InModule(group[i], k)
    ensures ScanAll(t, [Comment(MODULES[k]), Header(MODULES[k])] + Arms(MODULES[k], group) + [DEFAULT_ARM, CLOSE_ARM, ""])
            == t.(names := InsertAll(t.names, group))
  {
    hide Scanned, Arms, InsertAll, Comment, Header, Wordy, InModule;
    var m := MODULES[k];
    ConstsAreWordy(k);
    var start, end := [Comment(m), Header(m)], [DEFAULT_ARM, CLOSE_ARM, ""];
    ScanConcat(t, start + Arms(m, group), end);
    ScanConcat(t, start, Arms(m, group));
    assert start == [Comment(m)] + [Header(m)];
    ScanConcat(t, [Comment(m)], [Header(m)]);
    ScanOne(t, Comment(m));
    CommentScanned(t, m);
    ScanOne(t, Header(m));
    HeaderScanned(t, k);
    var u := t.(depth := t.depth + 1, sub := Some(m.base));
    ArmsScanned(u, k, group);
    var v := u.(names := InsertAll(t.names, group));
    EndScanned(v);
  }

  lemma EndScanned(t: Scanner)
    requires Inside(t) && t.sub.Some? && t.depth >= 2
    ensures ScanAll(t, [DEFAULT_ARM, CLOSE_ARM, ""]) == t.(depth := t.depth - 1, sub := None)
  {
    hide Scanned;
    assert [DEFAULT_ARM, CLOSE_ARM, ""] == [DEFAULT_ARM] + [CLOSE_ARM] + [""];
    ScanConcat(t, [DEFAULT_ARM] + [CLOSE_ARM], [""]);
    ScanConcat(t, [DEFAULT_ARM], [CLOSE_ARM]);
    ScanOne(t, DEFAULT_ARM);
    DefaultScanned(t, 12);
    ScanOne(t, CLOSE_ARM);
    CloseScanned(t);
    var u := t.(depth := t.depth - 1, sub := None);
    ScanOne(u, "");
    BlankScanned(u);
  }

  /** The entries in the order in which they are printed. */
  function Grouped(entries: seq<OrdEntry>, n: nat): seq<OrdEntry>
    requires n <= |MODULES|
  {
    if n == 0 then [] else Grouped(entries, n - 1) + Group(entries, MODULES[n - 1].name)
  }

  lemma {:induction false} GroupIs(entries: seq<OrdEntry>, name: string, e: OrdEntry)
    ensures e in Group(entries, name) <==> e in entries && e.moduleName == name
  {
    if entries != [] {
      GroupIs(entries[..|entries| - 1], name, e);
      assert entries == entries[..|entries| - 1] + [entries[|entries| - 1]];
    }
  }

  lemma ProperIsInModule(e: OrdEntry, k: nat)
    requires Proper(e) && k < |MODULES| && e.moduleName == MODULES[k].name
    ensures InModule(e, k)
  {
    var i := ModuleIndex(e.moduleName);
    NamesDiffer(i, k);
    DoscallsBase(k);
    UpperBound(i);
  }

  lemma UpperBound(i: nat)
    requires i < |MODULES|
    ensures Upper(i) <= STUB_AREA_SIZE
  {
    if i == 0 {} else if i == 1 {} else if i == 2 {} else if i == 3 {} else if i == 4 {} else if i == 5 {} else if i == 6 {}
    else if i == 7 {} else if i == 8 {} else if i == 9 {} else if i == 10 {} else if i == 11 {} else {}
  }

  lemma DoscallsBase(k: nat)
    requires k < |MODULES|
    ensures MODULES[k].name == "DOSCALLS" ==> k == 0
  {
    NamesDiffer(0, k);
  }

  /** The same for the names of the modules. */
  const NAME_SIGNATURES: seq<(nat, char)> := [
    (8, 'S'), (8, 'E'), (5, 'W'), (5, 'G'), (8, 'D'), (8, 'O'), (6, 'S'), (3, 'S'), (3, 'G'), (3, 'M'), (5, 'O'), (7, '3'), (8, 'P')]

  lemma NameSignatureOf(k: nat)
    requires k < |MODULES|
    ensures |NAME_SIGNATURES| == |MODULES| && |MODULES[k].name| == NAME_SIGNATURES[k].0
    ensures |MODULES[k].name| > 2 && MODULES[k].name[2] == NAME_SIGNATURES[k].1
  {
    if k == 0 {} else if k == 1 {} else if k == 2 {} else if k == 3 {} else if k == 4 {} else if k == 5 {} else if k == 6 {}
    else if k == 7 {} else if k == 8 {} else if k == 9 {} else if k == 10 {} else if k == 11 {} else {}
  }

  lemma NamesDiffer(i: nat, k: nat)
    requires i < |MODULES| && k < |MODULES|
    ensures MODULES[i].name == MODULES[k].name ==> i == k
  {
    NameSignatureOf(i);
    NameSignatureOf(k);
  }

  lemma {:induction false} BodyScanned(t: Scanner, entries: seq<OrdEntry>, n: nat)
    requires Inside(t) && n <= |MODULES| && t.sub == None && forall i :: 0 <= i < |entries| ==> Proper(entries[i])
    ensures ScanAll(t, BodyLines(entries, n)) == t.(names := InsertAll(t.names, Grouped(entries, n)))
  {
    hide ModuleLines, Proper, Group;
    if n == 0 {
      NothingScanned(t);
    } else {
      BodyScanned(t, entries, n - 1);
      var m := MODULES[n - 1];
      var group := Group(entries, m.name);
      forall i | 0 <= i < |group|
        ensures InModule(group[i], n - 1)
      {
        GroupIs(entries, m.name, group[i]);
        ProperIsInModule(group[i], n - 1);
      }
      var u := t.(names := InsertAll(t.names, Grouped(entries, n - 1)));
      ScanConcat(t, BodyLines(entries, n - 1), ModuleLines(m, group));
      ModuleScanned(u, n - 1, group);
      InsertConcat(t.names, Grouped(entries, n - 1), group);
    }
  }

  /** Lines before the function that cannot be its first one. */
  predicate NotTheFunction(line: string) {
    line == [] || (line[0] != 'p' && !White(line[0]))
  }

  lemma {:induction false} HeadScanned(lines: seq<string>)
    requires forall i :: 0 <= i < |lines| ==> NotTheFunction(lines[i])
    ensures ScanAll(START, lines) == START
  {
    hide Trim;
    if lines != [] {
      HeadScanned(lines[..|lines| - 1]);
      assert NotTheFunction(lines[|lines| - 1]);
      FirstStays(lines[|lines| - 1]);
      assert FN_PREFIX[0] == 'p';
    }
  }

  lemma HeadLine(i: nat)
    requires i < |HEAD|
    ensures NotTheFunction(HEAD[i])
  {
    if i == 0 {} else if i == 1 {} else if i == 2 {} else if i == 3 {} else if i == 4 {} else if i == 5 {} else if i == 6 {}
    else if i == 7 {} else {}
  }

  /** Trimming does not bring another character to the front of a text that starts black. */
  lemma FirstStays(s: string)
    requires s == [] || !White(s[0])
    ensures Trim(s) == [] <==> s == []
    ensures s != [] ==> Trim(s)[0] == s[0]
  {
    hide TrimEnd;
    TrimEndIs(s);
  }

  lemma OpeningScanned()
    ensures ScanAll(START, OPENING) == START.(inFn := true, depth := 1)
  {
    hide FN_LINE, MATCH_LINE, FN_PREFIX, Trim, Scanned;
    assert OPENING == [FN_LINE] + [MATCH_LINE];
    ScanConcat(START, [FN_LINE], [MATCH_LINE]);
    ScanOne(START, FN_LINE);
    FnLineScanned();
    var t := START.(inFn := true, depth := 0);
    ScanOne(t, MATCH_LINE);
    MatchScanned(t);
  }

  lemma FnLineScanned()
    ensures Scanned(START, FN_LINE) == START.(inFn := true, depth := 0)
  {
    hide Trim;
    FnLineTrims();
  }

  lemma FnLineTrims()
    ensures Trim(FN_LINE) == FN_LINE
  {
    hide Trim;
    assert FN_LINE[0] == 'p' && FN_LINE[|FN_LINE| - 1] == '{';
    TrimTight(FN_LINE);
  }

  lemma MatchScanned(t: Scanner)
    requires t.inFn && !t.done && t.depth == 0 && t.sub == None
    ensures Scanned(t, MATCH_LINE) == t.(depth := 1)
  {
    hide Trim, ArmOf, IsHeader, Braces;
    var core := "match ordinal " + "{";
    MatchIsIndented();
    TrimIndent(4, core);
    hide MATCH_LINE, Spaces;
    NotHeader(core);
    NoArrow(core);
    MatchBraces();
  }

  lemma MatchIsIndented()
    ensures MATCH_LINE == Spaces(4) + ("match ordinal " + "{")
  {
  }

  lemma MatchBraces()
    ensures Braces("match ordinal " + "{") == 1
  {
    BracesConcat("match ordinal ", "{");
    NoBraces("match ordinal ");
    assert "{"[..0] == [];
  }

  lemma ClosingScanned(t: Scanner)
    requires Inside(t) && t.depth == 1 && t.sub == None
    ensures ScanAll(t, CLOSING) == t.(depth := 0, done := true)
  {
    hide Trim, ArmOf, IsHeader;
    var first, second := CLOSING[0], CLOSING[1];
    assert CLOSING == [first] + [second];
    ScanConcat(t, [first], [second]);
    ScanOne(t, first);
    DefaultScanned(t, 8);
    ScanOne(t, second);
    TrimIndent(4, "}");
    assert "}"[..0] == [];
    assert Braces("}") == -1;
  }

  lemma {:induction false} FinishedStays(t: Scanner, lines: seq<string>)
    requires t.done
    ensures ScanAll(t, lines) == t
  {
    if lines != [] {
      FinishedStays(t, lines[..|lines| - 1]);
    }
  }

  /** The scanner over everything that was printed, the second function included. */
  lemma FileScanned(entries: seq<OrdEntry>)
    requires forall i :: 0 <= i < |entries| ==> Proper(entries[i])
    ensures ScanAll(START, TraceLines(entries)).names == InsertAll(map[], Grouped(entries, |MODULES|))
  {
    hide Scanned, BodyLines, Grouped, TailLines, Proper, ScanAll, HEAD, OPENING, CLOSING, InsertAll, NotTheFunction, MODULES;
    var body := BodyLines(entries, |MODULES|);
    ScanConcat(START, HEAD + OPENING + body + CLOSING, TailLines());
    ScanConcat(START, HEAD + OPENING + body, CLOSING);
    ScanConcat(START, HEAD + OPENING, body);
    ScanConcat(START, HEAD, OPENING);
    forall i | 0 <= i < |HEAD|
      ensures NotTheFunction(HEAD[i])
    {
      HeadLine(i);
    }
    HeadScanned(HEAD);
    OpeningScanned();
    var t := START.(inFn := true, depth := 1);
    BodyScanned(t, entries, |MODULES|);
    var u := t.(names := InsertAll(map[], Grouped(entries, |MODULES|)));
    ClosingScanned(u);
    FinishedStays(u.(depth := 0, done := true), TailLines());
  }

  // ----- every line is one line -----

  predicate AllOneLine(lines: seq<string>) {
    forall k :: 0 <= k < |lines| ==> OneLine(lines[k])
  }

  lemma OneLineConcat(a: seq<string>, b: seq<string>)
    requires AllOneLine(a) && AllOneLine(b)
    ensures AllOneLine(a + b)
  {
    forall k | 0 <= k < |a + b|
      ensures OneLine((a + b)[k])
    {
      assert (a + b)[k] == if k < |a| then a[k] else b[k - |a|];
    }
  }

  lemma WordyIsOneLine(s: string)
    requires Wordy(s)
    ensures OneLine(s)
  {
  }

  lemma {:induction false} ArmsOneLine(m: Module, group: seq<OrdEntry>)
    requires forall i :: 0 <= i < |group| ==> Wordy(group[i].name)
    ensures AllOneLine(Arms(m, group))
  {
    hide Arm;
    if group != [] {
      var init, e := group[..|group| - 1], group[|group| - 1];
      ArmsOneLine(m, init);
      ArmOneLine(8, e.flat, e.name);
      ArmOneLine(12, e.local, e.name);
      var line := if m.name == "DOSCALLS" then Arm(8, e.flat, e.name) else Arm(12, e.local, e.name);
      OneLineConcat(Arms(m, init), [line]);
    }
  }

  lemma ArmOneLine(indent: nat, n: nat, name: string)
    requires Wordy(name)
    ensures OneLine(Arm(indent, n, name))
  {
    hide Decimal;
    WordyIsOneLine(name);
  }

  lemma {:induction false} BodyOneLine(entries: seq<OrdEntry>, n: nat)
    requires n <= |MODULES| && forall i :: 0 <= i < |entries| ==> Wordy(entries[i].name)
    ensures AllOneLine(BodyLines(entries, n))
  {
    hide Arms, Wordy, OneLine, Comment, Header, Group;
    if n > 0 {
      BodyOneLine(entries, n - 1);
      var m := MODULES[n - 1];
      var group := Group(entries, m.name);
      forall i | 0 <= i < |group|
        ensures Wordy(group[i].name)
      {
        GroupIs(entries, m.name, group[i]);
      }
      ArmsOneLine(m, group);
      MarksOneLine(n - 1);
      FixedOneLine();
      OneLineConcat([Comment(m)], Arms(m, group));
      OneLineConcat([Comment(m)] + Arms(m, group), [""]);
      OneLineConcat([Comment(m), Header(m)], Arms(m, group));
      OneLineConcat([Comment(m), Header(m)] + Arms(m, group), [DEFAULT_ARM, CLOSE_ARM, ""]);
      OneLineConcat(BodyLines(entries, n - 1), ModuleLines(m, group));
    }
  }

  lemma MarksOneLine(k: nat)
    requires k < |MODULES|
    ensures OneLine(Comment(MODULES[k])) && OneLine(Header(MODULES[k]))
  {
    hide Wordy, MODULES;
    ConstsAreWordy(k);
    WordyIsOneLine(MODULES[k].name);
    WordyIsOneLine(MODULES[k].baseConst);
    WordyIsOneLine(MODULES[k].upperConst);
  }

  lemma RangeOneLine(k: nat)
    requires k < |MODULES|
    ensures OneLine(RangeLine(k))
  {
    hide Wordy, MODULES, OneLine, Bound;
    var m := MODULES[k];
    ConstsAreWordy(k);
    WordyIsOneLine(m.name);
    WordyIsOneLine(m.baseConst);
    WordyIsOneLine(m.upperConst);
    BoundOneLine(m);
    if m.name == "DOSCALLS" || m.name == "UCONV" {
      RangeShort(m.name, Bound(m));
    } else {
      RangeOther(m, Bound(m));
    }
  }

  lemma BoundOneLine(m: Module)
    requires OneLine(m.upperConst)
    ensures OneLine(Bound(m))
  {
  }

  lemma RangeShort(name: string, bound: string)
    requires OneLine(name) && OneLine(bound)
    ensures OneLine(Spaces(4) + "if ordinal < " + bound + " { \"" + name + "\" }")
    ensures OneLine(Spaces(4) + "else if ordinal < " + bound + " { \"" + name + "\" }")
  {
  }

  lemma RangeOther(m: Module, bound: string)
    requires OneLine(m.name) && OneLine(m.baseConst) && OneLine(m.upperConst) && OneLine(bound)
    ensures OneLine(Spaces(4) + "else if ordinal < " + bound + " { \"" + m.name + "\" }   // "
                    + m.baseConst + "\U{2013}" + m.upperConst + "\U{2212}1")
  {
  }

  lemma FixedOneLine()
    ensures OneLine(DEFAULT_ARM) && OneLine(CLOSE_ARM) && OneLine("")
  {
  }

  lemma TailOneLine()
    ensures AllOneLine(TailLines())
  {
    hide RangeLine, TAIL_START, TAIL_END, OneLine, MODULES;
    var ranges := RangeLines();
    forall k | 0 <= k < |ranges|
      ensures OneLine(ranges[k])
    {
      RangeOneLine(k);
    }
    TailEndsOneLine();
    OneLineConcat(TAIL_START, ranges);
    OneLineConcat(TAIL_START + ranges, TAIL_END);
  }

  lemma TailEndsOneLine()
    ensures AllOneLine(TAIL_START) && AllOneLine(TAIL_END)
  {
    hide OneLine;
    TailComment();
    TailFunction();
    TailPlainLines();
  }

  lemma TailComment()
    ensures OneLine(TAIL_START[2])
  {
  }

  lemma TailFunction()
    ensures OneLine(TAIL_START[3])
  {
  }

  lemma TailPlainLines()
    ensures OneLine("}") && OneLine("") && OneLine(TAIL_END[0])
  {
  }

  lemma TraceOneLine(entries: seq<OrdEntry>)
    requires forall i :: 0 <= i < |entries| ==> Wordy(entries[i].name)
    ensures AllOneLine(TraceLines(entries))
  {
    hide TailLines, BodyLines, HEAD, OPENING, CLOSING, MODULES, OneLine;
    BodyOneLine(entries, |MODULES|);
    TailOneLine();
    HeadOneLine();
    OneLineConcat(HEAD, OPENING);
    OneLineConcat(HEAD + OPENING, BodyLines(entries, |MODULES|));
    OneLineConcat(HEAD + OPENING + BodyLines(entries, |MODULES|), CLOSING);
    OneLineConcat(HEAD + OPENING + BodyLines(entries, |MODULES|) + CLOSING, TailLines());
  }

  lemma HeadOneLine()
    ensures AllOneLine(HEAD) && AllOneLine(OPENING) && AllOneLine(CLOSING)
  {
    forall i | 0 <= i < |HEAD|
      ensures OneLine(HEAD[i])
    {
      HeadLineOneLine(i);
    }
    forall i | 0 <= i < |OPENING|
      ensures OneLine(OPENING[i]) && OneLine(CLOSING[i])
    {
      OpeningOneLine(i);
    }
  }

  lemma HeadLineOneLine(i: nat)
    requires i < |HEAD|
    ensures OneLine(HEAD[i])
  {
    hide OneLine;
    if i == 0 {
      FirstHeadLine();
    } else if i == 1 {
      SecondHeadLine();
    } else if i == 2 {
      ThirdHeadLine();
    } else if i < 6 {
      PlainHeadLine(i);
    } else if i == 6 {
      FirstDocLine();
    } else {
      LastDocLines(i);
    }
  }

  lemma FirstHeadLine()
    ensures OneLine(HEAD[0])
  {
  }

  lemma SecondHeadLine()
    ensures OneLine(HEAD[1])
  {
  }

  lemma ThirdHeadLine()
    ensures OneLine(HEAD[2])
  {
  }

  lemma PlainHeadLine(i: nat)
    requires 3 <= i < 6
    ensures OneLine(HEAD[i])
  {
    if i == 3 {} else if i == 4 {} else {}
  }

  lemma FirstDocLine()
    ensures OneLine(HEAD[6])
  {
  }

  lemma LastDocLines(i: nat)
    requires 7 <= i < |HEAD|
    ensures OneLine(HEAD[i])
  {
    if i == 7 {} else {}
  }

  lemma OpeningOneLine(i: nat)
    requires i < 2
    ensures |OPENING| == 2 == |CLOSING| && OneLine(OPENING[i]) && OneLine(CLOSING[i])
  {
    if i == 0 {} else {}
  }

  // ----- the module that the printed function returns -----

  const UCONV_INDEX := 10

  lemma BoundsResolve(k: nat)
    requires k < |MODULES|
    ensures ResolveConst(Bound(MODULES[k])) == if k == UCONV_INDEX then STUB_AREA_SIZE else Upper(k)
  {
    hide ResolveConst, Trim;
    OnlyUconv(k);
    StubAreaResolves();
    if k + 1 < |MODULES| {
      BasesResolve(k + 1);
    }
    UpperConsts(k);
  }

  lemma OnlyUconv(k: nat)
    requires k < |MODULES|
    ensures MODULES[k].name == "UCONV" <==> k == UCONV_INDEX
  {
    assert MODULES[UCONV_INDEX].name == "UCONV";
    if k < UCONV_INDEX {
      NamesDiffer(k, UCONV_INDEX);
    } else if k > UCONV_INDEX {
      NamesDiffer(UCONV_INDEX, k);
    }
  }

  lemma StubAreaResolves()
    ensures ResolveConst("STUB_AREA_SIZE") == STUB_AREA_SIZE
  {
    hide Trim, ParseU32;
    var name := "STUB_AREA_SIZE";
    assert Wordy(name) && name != [];
    TrimTight(name);
    forall i | 0 <= i < |MODULES|
      ensures |MODULES[i].baseConst| < |name|
    {
      SignatureOf(i);
    }
  }

  /** The upper bound of a module is written as the base of the next. */
  lemma UpperConsts(k: nat)
    requires k < |MODULES|
    ensures k + 1 < |MODULES| ==> MODULES[k].upperConst == MODULES[k + 1].baseConst && Upper(k) == MODULES[k + 1].base
    ensures k + 1 == |MODULES| ==> MODULES[k].upperConst == "STUB_AREA_SIZE" && Upper(k) == STUB_AREA_SIZE
  {
    if k == 0 {} else if k == 1 {} else if k == 2 {} else if k == 3 {} else if k == 4 {} else if k == 5 {} else if k == 6 {}
    else if k == 7 {} else if k == 8 {} else if k == 9 {} else if k == 10 {} else if k == 11 {} else {}
  }

  lemma {:induction false} TestsBefore(ordinal: nat, i: nat, k: nat)
    requires k <= i < |MODULES| && MODULES[i].base <= ordinal && k <= UCONV_INDEX
    ensures ModuleFor(ordinal) == ModuleFor(ordinal, k)
  {
    hide ResolveConst, Bound, MODULES;
    if k > 0 {
      TestsBefore(ordinal, i, k - 1);
      BoundsResolve(k - 1);
      BasesAscend(k - 1, i);
    }
  }

  /**
   * For an ordinal in the range of module `i` the printed function returns that module if and
   * only if the ordinal is below SO32DLL's base: UCONV's test comes first and takes all the rest.
   */
  lemma PrintedModuleIff(ordinal: nat, i: nat)
    requires i < |MODULES| && MODULES[i].base <= ordinal < Upper(i)
    ensures ModuleFor(ordinal) == MODULES[i].name <==> ordinal < MODULES[UCONV_INDEX + 1].base
    ensures ordinal >= MODULES[UCONV_INDEX + 1].base ==> ModuleFor(ordinal) == "UCONV"
  {
    hide ResolveConst, Bound, MODULES, Upper;
    var k := if i < UCONV_INDEX then i else UCONV_INDEX;
    RangeEnds(ordinal, i);
    TestsBefore(ordinal, i, k);
    BoundsResolve(k);
    OnlyUconv(i);
    OnlyUconv(UCONV_INDEX);
  }

  lemma RangeEnds(ordinal: nat, i: nat)
    requires i < |MODULES| && MODULES[i].base <= ordinal < Upper(i)
    ensures ordinal < STUB_AREA_SIZE && |MODULES| == 13 && (i <= UCONV_INDEX <==> ordinal < MODULES[UCONV_INDEX + 1].base)
  {
  }

  // ----- the map that comes out -----

  /** No two proper entries share a flat ordinal unless they share module and ordinal. */
  lemma FlatDecides(e: OrdEntry, f: OrdEntry)
    requires Proper(e) && Proper(f) && e.flat == f.flat
    ensures e.moduleName == f.moduleName && e.local == f.local
  {
    var i, j := ModuleIndex(e.moduleName), ModuleIndex(f.moduleName);
    if i < j {
      BasesAscend(i, j);
    } else if j < i {
      BasesAscend(j, i);
    }
  }

  /** One name for each flat ordinal. */
  predicate Functional(entries: seq<OrdEntry>) {
    forall e, f :: e in entries && f in entries && e.flat == f.flat ==> e.name == f.name
  }

  lemma ProperIsFunctional(entries: seq<OrdEntry>)
    requires AllProper(entries)
    ensures Functional(entries)
  {
    hide Proper;
    forall e, f | e in entries && f in entries && e.flat == f.flat
      ensures e.name == f.name
    {
      var i :| 0 <= i < |entries| && entries[i] == e;
      var j :| 0 <= j < |entries| && entries[j] == f;
      FlatDecides(e, f);
    }
  }

  lemma {:induction false} InsertedIs(entries: seq<OrdEntry>)
    requires Functional(entries)
    ensures forall e :: e in entries ==> e.flat in InsertAll(map[], entries) && InsertAll(map[], entries)[e.flat] == e.name
    ensures forall n :: n in InsertAll(map[], entries) ==> exists e :: e in entries && e.flat == n
  {
    if entries != [] {
      var init, last := entries[..|entries| - 1], entries[|entries| - 1];
      assert entries == init + [last];
      InsertedIs(init);
    }
  }

  lemma {:induction false} GroupedIs(entries: seq<OrdEntry>, n: nat, e: OrdEntry)
    requires n <= |MODULES|
    ensures e in Grouped(entries, n) <==> e in entries && exists k :: 0 <= k < n && MODULES[k].name == e.moduleName
  {
    hide Group;
    if n > 0 {
      GroupedIs(entries, n - 1, e);
      GroupIs(entries, MODULES[n - 1].name, e);
    }
  }

  lemma AllAreGrouped(entries: seq<OrdEntry>, e: OrdEntry)
    requires AllProper(entries)
    ensures e in Grouped(entries, |MODULES|) <==> e in entries
  {
    GroupedIs(entries, |MODULES|, e);
    if e in entries {
      var i :| 0 <= i < |entries| && entries[i] == e;
      assert Proper(entries[i]);
      assert MODULES[ModuleIndex(e.moduleName)].name == e.moduleName;
    }
  }

  /**
   * The trace scanner, run on the text of `gen-trace`, returns exactly the map from flat
   * ordinals to names.
   */
  lemma TraceRoundTrip(entries: seq<OrdEntry>)
    requires AllProper(entries)
    ensures var names := TraceNames(Unlines(TraceLines(entries)));
            && (forall e :: e in entries ==> e.flat in names && names[e.flat] == e.name)
            && (forall n :: n in names ==> exists e :: e in entries && e.flat == n)
  {
    hide TraceLines, Grouped, ScanAll, InsertAll, Lines, Unlines;
    forall i | 0 <= i < |entries|
      ensures Proper(entries[i]) && Wordy(entries[i].name)
    {
    }
    TraceOneLine(entries);
    LinesOfUnlines(TraceLines(entries));
    FileScanned(entries);
    var grouped := Grouped(entries, |MODULES|);
    forall e
      ensures e in grouped <==> e in entries
    {
      AllAreGrouped(entries, e);
    }
    ProperIsFunctional(entries);
    InsertedIs(grouped);
  }

  // ----- reading a definition file back -----

  lemma CommentRead(s: string, number: nat)
    requires s == [] || s[0] == '#'
    ensures ReadEntry(s, number) == Ok(None)
  {
    FirstStays(s);
  }

  lemma TrimStartOf(white: string, s: string)
    requires AllWhite(white) && s != [] && !White(s[0])
    ensures TrimStart(white + s) == s
  {
    var whole := white + s;
    TrimStartIs(whole);
    var n := |whole| - |TrimStart(whole)|;
    assert whole[|white|] == s[0];
    forall k | 0 <= k < |white|
      ensures White(whole[k])
    {
      assert whole[k] == white[k];
    }
    assert n == |white|;
  }

  /** The words on the line of an entry. */
  lemma DefLineWords(e: OrdEntry)
    requires Wordy(e.moduleName) && e.moduleName != [] && Wordy(e.name) && e.name != []
    ensures var line := DefLine(e);
            var word := e.moduleName + "." + Decimal(e.local);
            && Trim(line) == line && line != [] && line[0] != '#'
            && FirstWord(line) == word && word <= line && FirstWord(TrimStart(line[|word|..])) == e.name
  {
    hide Trim, TrimStart, FirstWord;
    var line := DefLine(e);
    var number := Decimal(e.local);
    var word := e.moduleName + "." + number;
    var gap := Spaces(if |number| < 6 then 6 - |number| else 0) + "  ";
    assert line == word + (gap + e.name);
    assert line[0] == e.moduleName[0] && line[|line| - 1] == e.name[|e.name| - 1];
    TrimTight(line);
    FirstWordOf(word, gap + e.name);
    assert line[|word|..] == gap + e.name;
    TrimStartOf(gap, e.name);
    FirstWordOf(e.name, []);
    assert e.name + [] == e.name;
  }

  /** The module and the number in the first word. */
  lemma WordParts(name: string, n: u32)
    requires Wordy(name)
    ensures var word := name + "." + Decimal(n);
            && Find(word, ".") == Some(|name|) && word[..|name|] == name
            && ParseU32(word[|name| + 1..]) == Some(n)
  {
    hide Decimal, ParseU32, Find;
    FindAfter(name, ".", Decimal(n), 0);
    var word := name + "." + Decimal(n);
    assert word[..|name|] == name;
    assert word[|name| + 1..] == Decimal(n);
    DecimalParses(n);
  }

  lemma EntryRead(e: OrdEntry, number: nat)
    requires Proper(e)
    ensures ReadEntry(DefLine(e), number) == Ok(Some(e))
  {
    hide Trim, TrimStart, FirstWord, Find, DefLine, Decimal, ParseU32, Wordy, Upper;
    ConstsAreWordy(ModuleIndex(e.moduleName));
    hide ModuleIndex;
    DefLineWords(e);
    WordParts(e.moduleName, e.local);
  }

  lemma ReadPush(lines: seq<string>, entries: seq<OrdEntry>, line: string, entry: Option<OrdEntry>)
    requires ReadEntries(lines) == Ok(entries) && ReadEntry(line, |lines| + 1) == Ok(entry)
    ensures ReadEntries(lines + [line]) == Ok(if entry.Some? then entries + [entry.value] else entries)
  {
    hide ReadEntry;
    assert (lines + [line])[..|lines|] == lines;
  }

  lemma {:induction false} ReadComments(lines: seq<string>, entries: seq<OrdEntry>, more: seq<string>)
    requires ReadEntries(lines) == Ok(entries) && Comments(more)
    ensures ReadEntries(lines + more) == Ok(entries)
  {
    hide ReadEntry, ReadEntries;
    if more == [] {
      assert lines + more == lines;
    } else {
      var init, last := more[..|more| - 1], more[|more| - 1];
      ReadComments(lines, entries, init);
      CommentRead(last, |lines + init| + 1);
      ReadPush(lines + init, entries, last, None);
      assert lines + init + [last] == lines + more;
    }
  }

  lemma {:induction false} ReadGroup(lines: seq<string>, entries: seq<OrdEntry>, group: seq<OrdEntry>)
    requires ReadEntries(lines) == Ok(entries) && forall k :: 0 <= k < |group| ==> Proper(group[k])
    ensures ReadEntries(lines + DefLinesOf(group)) == Ok(entries + group)
  {
    hide ReadEntry, ReadEntries, Proper, DefLine;
    if group == [] {
      assert lines + DefLinesOf(group) == lines && entries + group == entries;
    } else {
      var init, last := group[..|group| - 1], group[|group| - 1];
      ReadGroup(lines, entries, init);
      EntryRead(last, |lines + DefLinesOf(init)| + 1);
      ReadPush(lines + DefLinesOf(init), entries + init, DefLine(last), Some(last));
      assert lines + DefLinesOf(init) + [DefLine(last)] == lines + DefLinesOf(group);
      assert entries + init + [last] == entries + group;
    }
  }

  // ----- sorting -----

  predicate Ascending(s: seq<OrdEntry>) {
    forall i, j :: 0 <= i < j < |s| ==> s[i].local <= s[j].local
  }

  lemma {:induction false} InsertedCounts(s: seq<OrdEntry>, e: OrdEntry)
    ensures multiset(Inserted(s, e)) == multiset(s) + multiset{e}
  {
    if s != [] && s[|s| - 1].local > e.local {
      InsertedCounts(s[..|s| - 1], e);
      assert s == s[..|s| - 1] + [s[|s| - 1]];
    }
  }

  lemma {:induction false} InsertedSorts(s: seq<OrdEntry>, e: OrdEntry)
    requires Ascending(s)
    ensures Ascending(Inserted(s, e))
  {
    if s != [] && s[|s| - 1].local > e.local {
      var init, last := s[..|s| - 1], s[|s| - 1];
      InsertedSorts(init, e);
      InsertedCounts(init, e);
      var r := Inserted(init, e);
      forall i | 0 <= i < |r|
        ensures r[i].local <= last.local
      {
        assert r[i] in multiset(r);
        assert r[i] in init || r[i] == e;
      }
    }
  }

  lemma {:induction false} SortedSorts(s: seq<OrdEntry>)
    ensures Ascending(SortedByOrdinal(s)) && multiset(SortedByOrdinal(s)) == multiset(s)
  {
    hide Inserted;
    if s != [] {
      SortedSorts(s[..|s| - 1]);
      InsertedSorts(SortedByOrdinal(s[..|s| - 1]), s[|s| - 1]);
      InsertedCounts(SortedByOrdinal(s[..|s| - 1]), s[|s| - 1]);
      assert s == s[..|s| - 1] + [s[|s| - 1]];
    }
  }

  /** The canonical list of a module is its group, sorted; the whole is all entries. */
  lemma {:induction false} CanonicalCounts(entries: seq<OrdEntry>, n: nat)
    requires n <= |MODULES|
    ensures multiset(Canonical(entries, n)) == multiset(Grouped(entries, n))
  {
    hide SortedByOrdinal, Group;
    if n > 0 {
      CanonicalCounts(entries, n - 1);
      SortedSorts(Group(entries, MODULES[n - 1].name));
    }
  }

  /** Module order first, then ordinal order. */
  predicate InOrder(e: OrdEntry, f: OrdEntry) {
    var i, j := ModuleIndex(e.moduleName), ModuleIndex(f.moduleName);
    i < j || (i == j && e.local <= f.local)
  }

  predicate AllInOrder(s: seq<OrdEntry>) {
    forall i, j :: 0 <= i < j < |s| ==> InOrder(s[i], s[j])
  }

  lemma IndexOfModule(k: nat)
    requires k < |MODULES|
    ensures ModuleIndex(MODULES[k].name) == k
  {
    var i := ModuleIndex(MODULES[k].name);
    if i < |MODULES| {
      NamesDiffer(i, k);
    }
  }

  lemma {:induction false} CanonicalInOrder(entries: seq<OrdEntry>, n: nat)
    requires n <= |MODULES|
    ensures AllInOrder(Canonical(entries, n))
    ensures forall e :: e in Canonical(entries, n) ==> ModuleIndex(e.moduleName) < n
  {
    hide SortedByOrdinal, Group, ModuleIndex, MODULES;
    if n > 0 {
      CanonicalInOrder(entries, n - 1);
      var before := Canonical(entries, n - 1);
      var group := Group(entries, MODULES[n - 1].name);
      var sorted := SortedByOrdinal(group);
      SortedSorts(group);
      IndexOfModule(n - 1);
      forall k | 0 <= k < |sorted|
        ensures ModuleIndex(sorted[k].moduleName) == n - 1
      {
        assert sorted[k] in multiset(sorted);
        assert sorted[k] in group;
        GroupIs(entries, MODULES[n - 1].name, sorted[k]);
      }
      var all := before + sorted;
      forall i, j | 0 <= i < j < |all|
        ensures InOrder(all[i], all[j])
      {
        if i < |before| {
          assert before[i] in before;
        }
      }
    }
  }

  // ----- the whole definition file -----

  lemma LabelIsComment(m: Module)
    ensures Label(m) != [] && Label(m)[0] == '#' && BaseLine(m) != [] && BaseLine(m)[0] == '#'
  {
  }

  lemma {:induction false} DefBodyRead(head: seq<string>, entries: seq<OrdEntry>, n: nat)
    requires n <= |MODULES| && ReadEntries(head) == Ok([]) && forall i :: 0 <= i < |entries| ==> Proper(entries[i])
    ensures ReadEntries(head + DefBody(entries, n)) == Ok(Canonical(entries, n))
  {
    hide ReadEntries, Proper, Group, SortedByOrdinal, Label;
    if n == 0 {
      assert head + DefBody(entries, 0) == head;
    } else {
      DefBodyRead(head, entries, n - 1);
      var m := MODULES[n - 1];
      var group := Group(entries, m.name);
      DefModuleRead(head + DefBody(entries, n - 1), Canonical(entries, n - 1), entries, m);
      ConcatAssoc(head, DefBody(entries, n - 1), DefModuleLines(m, group));
    }
  }

  lemma DefModuleRead(lines: seq<string>, before: seq<OrdEntry>, entries: seq<OrdEntry>, m: Module)
    requires ReadEntries(lines) == Ok(before) && forall i :: 0 <= i < |entries| ==> Proper(entries[i])
    ensures ReadEntries(lines + DefModuleLines(m, Group(entries, m.name))) == Ok(before + SortedByOrdinal(Group(entries, m.name)))
  {
    hide ReadEntries, Proper, Label, SortedByOrdinal, Group;
    var group := Group(entries, m.name);
    if group == [] {
      EmptySorts();
      assert lines + [] == lines && before + [] == before;
    } else {
      var sorted := SortedByOrdinal(group);
      SortedSorts(group);
      forall k | 0 <= k < |sorted|
        ensures Proper(sorted[k])
      {
        assert sorted[k] in multiset(sorted);
        assert sorted[k] in group;
        GroupIs(entries, m.name, sorted[k]);
      }
      LabelIsComment(m);
      ReadComments(lines, before, [Label(m)]);
      ReadGroup(lines + [Label(m)], before, sorted);
      ReadComments(lines + [Label(m)] + DefLinesOf(sorted), before + sorted, [""]);
      assert lines + [Label(m)] + DefLinesOf(sorted) + [""] == lines + DefModuleLines(m, group);
    }
  }

  lemma EmptySorts()
    ensures SortedByOrdinal([]) == []
  {
  }

  lemma {:induction false} DefGroupOneLine(group: seq<OrdEntry>)
    requires forall k :: 0 <= k < |group| ==> Proper(group[k])
    ensures AllOneLine(DefLinesOf(group))
  {
    hide DefLine, Proper;
    if group != [] {
      var init, last := group[..|group| - 1], group[|group| - 1];
      DefGroupOneLine(init);
      DefLineOneLine(last);
      OneLineConcat(DefLinesOf(init), [DefLine(last)]);
    }
  }

  lemma DefLineOneLine(e: OrdEntry)
    requires Proper(e)
    ensures OneLine(DefLine(e))
  {
    hide Decimal;
    ConstsAreWordy(ModuleIndex(e.moduleName));
    WordyIsOneLine(e.moduleName);
    WordyIsOneLine(e.name);
  }

  lemma {:induction false} DefBodyOneLine(entries: seq<OrdEntry>, n: nat)
    requires n <= |MODULES| && forall i :: 0 <= i < |entries| ==> Proper(entries[i])
    ensures AllOneLine(DefBody(entries, n))
  {
    hide Proper, Group, SortedByOrdinal, Label, OneLine;
    if n > 0 {
      DefBodyOneLine(entries, n - 1);
      var m := MODULES[n - 1];
      var group := Group(entries, m.name);
      var sorted := SortedByOrdinal(group);
      SortedSorts(group);
      forall k | 0 <= k < |sorted|
        ensures Proper(sorted[k])
      {
        assert sorted[k] in multiset(sorted);
        assert sorted[k] in group;
        GroupIs(entries, m.name, sorted[k]);
      }
      DefGroupOneLine(sorted);
      DefMarksOneLine(n - 1);
      FixedOneLine();
      OneLineConcat([Label(m)], DefLinesOf(sorted));
      OneLineConcat([Label(m)] + DefLinesOf(sorted), [""]);
      OneLineConcat(DefBody(entries, n - 1), DefModuleLines(m, group));
    }
  }

  lemma DefMarksOneLine(k: nat)
    requires k < |MODULES|
    ensures OneLine(Label(MODULES[k])) && OneLine(BaseLine(MODULES[k]))
  {
    hide Wordy, Decimal;
    ConstsAreWordy(k);
    WordyIsOneLine(MODULES[k].name);
  }

  predicate Comments(lines: seq<string>) {
    forall k :: 0 <= k < |lines| ==> lines[k] == [] || lines[k][0] == '#'
  }

  lemma DefHeadLines()
    ensures AllOneLine(DefHead()) && Comments(DefHead())
  {
    hide BaseLine, DEF_START, OneLine, MODULES;
    var bases := BaseLines();
    forall k | 0 <= k < |bases|
      ensures OneLine(bases[k]) && bases[k] != [] && bases[k][0] == '#'
    {
      DefMarksOneLine(k);
      LabelIsComment(MODULES[k]);
    }
    DefStartLines();
    FixedOneLine();
    OneLineConcat(DEF_START, bases);
    OneLineConcat(DEF_START + bases, [""]);
  }

  lemma DefStartLines()
    ensures AllOneLine(DEF_START) && Comments(DEF_START)
  {
    hide OneLine;
    DefFirstLine();
    DefFormatLine();
    DefModulesLine();
  }

  lemma DefFirstLine()
    ensures OneLine(DEF_START[0]) && OneLine("#")
  {
  }

  lemma DefFormatLine()
    ensures OneLine(DEF_START[2])
  {
  }

  lemma DefModulesLine()
    ensures OneLine(DEF_START[4])
  {
  }

  /**
   * The parser, run on the text of `gen-def`, returns all the entries and no others, module
   * by module in the order of the address space, and by ordinal within each module.
   */
  lemma DefRoundTrip(entries: seq<OrdEntry>)
    requires AllProper(entries)
    ensures ReadEntries(Lines(Unlines(DefLines(entries)))) == Ok(Canonical(entries, |MODULES|))
    ensures multiset(Canonical(entries, |MODULES|)) == multiset(entries) && AllInOrder(Canonical(entries, |MODULES|))
  {
    hide Proper, ReadEntries, DefBody, DefHead, Canonical, Lines, Unlines;
    DefHeadLines();
    assert ReadEntries(DefHead()) == Ok([]) by {
      NothingRead();
      ReadComments([], [], DefHead());
      assert [] + DefHead() == DefHead();
    }
    DefBodyRead(DefHead(), entries, |MODULES|);
    DefBodyOneLine(entries, |MODULES|);
    OneLineConcat(DefHead(), DefBody(entries, |MODULES|));
    LinesOfUnlines(DefLines(entries));
    CanonicalCounts(entries, |MODULES|);
    CanonicalInOrder(entries, |MODULES|);
    GroupedCounts(entries);
  }

  lemma NothingRead()
    ensures ReadEntries([]) == Ok([])
  {
  }

  lemma {:induction false} GroupCount(entries: seq<OrdEntry>, name: string, e: OrdEntry)
    ensures multiset(Group(entries, name))[e] == if e.moduleName == name then multiset(entries)[e] else 0
  {
    if entries != [] {
      GroupCount(entries[..|entries| - 1], name, e);
      assert entries == entries[..|entries| - 1] + [entries[|entries| - 1]];
    }
  }

  lemma {:induction false} GroupedCount(entries: seq<OrdEntry>, n: nat, e: OrdEntry)
    requires n <= |MODULES|
    ensures multiset(Grouped(entries, n))[e] ==
            if exists k :: 0 <= k < n && MODULES[k].name == e.moduleName then multiset(entries)[e] else 0
  {
    hide Group;
    if n > 0 {
      GroupedCount(entries, n - 1, e);
      GroupCount(entries, MODULES[n - 1].name, e);
      forall k | 0 <= k < n - 1
        ensures MODULES[k].name != MODULES[n - 1].name
      {
        NamesDiffer(k, n - 1);
      }
    }
  }

  lemma GroupedCounts(entries: seq<OrdEntry>)
    requires AllProper(entries)
    ensures multiset(Grouped(entries, |MODULES|)) == multiset(entries)
  {
    hide Grouped;
    forall e
      ensures multiset(Grouped(entries, |MODULES|))[e] == multiset(entries)[e]
    {
      GroupedCount(entries, |MODULES|, e);
      if e in entries {
        var i :| 0 <= i < |entries| && entries[i] == e;
        assert Proper(entries[i]);
        assert MODULES[ModuleIndex(e.moduleName)].name == e.moduleName;
      }
    }
  }
}
