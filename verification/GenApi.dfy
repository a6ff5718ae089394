/**
 * The ordinal table tool (src/bin/gen_api.rs): its two printers, `gen-trace` and `gen-def`,
 * and the two scanners that read their output back.
 */
module GenApi {
  import opened Bytes
  import opened Text
  import opened Wrappers

  // ----- the address space -----

  /** A module, its base, and how generated code writes its base and its upper bound. */
  datatype Module = Module(name: string, base: nat, baseConst: string, upperConst: string)

  const STUB_AREA_SIZE := 16384

  const MODULES: seq<Module> := [
    Module("DOSCALLS", 0, "0", "1024"),
    Module("QUECALLS", 1024, "1024", "PMWIN_BASE"),
    Module("PMWIN", 2048, "PMWIN_BASE", "PMGPI_BASE"),
    Module("PMGPI", 3072, "PMGPI_BASE", "KBDCALLS_BASE"),
    Module("KBDCALLS", 4096, "KBDCALLS_BASE", "VIOCALLS_BASE"),
    Module("VIOCALLS", 5120, "VIOCALLS_BASE", "SESMGR_BASE"),
    Module("SESMGR", 6144, "SESMGR_BASE", "NLS_BASE"),
    Module("NLS", 7168, "NLS_BASE", "MSG_BASE"),
    Module("MSG", 8192, "MSG_BASE", "MDM_BASE"),
    Module("MDM", 10240, "MDM_BASE", "UCONV_BASE"),
    Module("UCONV", 12288, "UCONV_BASE", "SO32DLL_BASE"),
    Module("SO32DLL", 13312, "SO32DLL_BASE", "TCP32DLL_BASE"),
    Module("TCP32DLL", 14336, "TCP32DLL_BASE", "STUB_AREA_SIZE")]

  const MODULE_COUNT := 13

  /** Index of the module of that name, or `MODULE_COUNT`. */
  function ModuleIndex(name: string): (i: nat)
    ensures i <= MODULE_COUNT == |MODULES| && (i < MODULE_COUNT ==> MODULES[i].name == name)
  {
    ModuleIndexFrom(name, 0)
  }

  function ModuleIndexFrom(name: string, k: nat): (i: nat)
    requires k <= MODULE_COUNT == |MODULES|
    ensures k <= i <= MODULE_COUNT && (i < MODULE_COUNT ==> MODULES[i].name == name)
    ensures forall j :: k <= j < i ==> MODULES[j].name != name
    decreases MODULE_COUNT - k
  {
    if k == MODULE_COUNT then MODULE_COUNT else if MODULES[k].name == name then k else ModuleIndexFrom(name, k + 1)
  }

  function Upper(i: nat): nat
    requires i < |MODULES|
  {
    if i + 1 < |MODULES| then MODULES[i + 1].base else STUB_AREA_SIZE
  }

  /** `resolve_const`: the value of a constant's name, or of a number. */
  function ResolveConst(text: string): nat {
    var name := Trim(text);
    var i := BaseConstFrom(name, 0);
    if i < MODULE_COUNT then MODULES[i].base
    else if name == "STUB_AREA_SIZE" then STUB_AREA_SIZE
    else if ParseU32(name).Some? then ParseU32(name).value else 0
  }

  function BaseConstFrom(name: string, k: nat): (i: nat)
    requires k <= MODULE_COUNT == |MODULES|
    ensures k <= i <= MODULE_COUNT && (i < MODULE_COUNT ==> MODULES[i].baseConst == name)
    ensures forall j :: k <= j < i ==> MODULES[j].baseConst != name
    decreases MODULE_COUNT - k
  {
    if k == MODULE_COUNT then MODULE_COUNT else if MODULES[k].baseConst == name then k else BaseConstFrom(name, k + 1)
  }

  // ----- entries -----

  datatype OrdEntry = OrdEntry(moduleName: string, local: u32, flat: nat, name: string)

  /** The entries of one module, in their order. */
  function Group(entries: seq<OrdEntry>, moduleName: string): seq<OrdEntry> {
    if entries == [] then []
    else
      var init, last := entries[..|entries| - 1], entries[|entries| - 1];
      if last.moduleName == moduleName then Group(init, moduleName) + [last] else Group(init, moduleName)
  }

  /** An entry of a known module, inside its range, with an identifier for a name. */
  predicate Proper(e: OrdEntry) {
    var i := ModuleIndex(e.moduleName);
    i < MODULE_COUNT && e.flat == MODULES[i].base + e.local && e.flat < Upper(i) && e.name != [] && Wordy(e.name)
  }

  predicate AllProper(entries: seq<OrdEntry>) {
    && (forall k :: 0 <= k < |entries| ==> Proper(entries[k]))
    && (forall j, k :: 0 <= j < k < |entries| ==>
          entries[j].moduleName != entries[k].moduleName || entries[j].local != entries[k].local)
  }

  // ----- gen-trace -----

  /** `N => "Name",` behind some spaces. */
  function Arm(indent: nat, n: nat, name: string): string {
    Spaces(indent) + (Decimal(n) + (" => " + ("\"" + name + "\",")))
  }

  function Arms(m: Module, group: seq<OrdEntry>): seq<string> {
    if group == [] then []
    else
      var e := group[|group| - 1];
      Arms(m, group[..|group| - 1]) + [if m.name == "DOSCALLS" then Arm(8, e.flat, e.name) else Arm(12, e.local, e.name)]
  }

  function Rule(n: nat): string {
    seq(n, _ => '\U{2500}')
  }

  function Comment(m: Module): string {
    Spaces(8) + ("// " + Rule(2) + " " + m.name + " " + Rule(46))
  }

  function Header(m: Module): string {
    Spaces(8) + HeaderCore(m)
  }

  /** The header of a sub-match, without its indent; its parts are those the scanner looks for. */
  function HeaderCore(m: Module): string {
    ("o if (" + m.baseConst + ".." + m.upperConst + ")") + ".contains(&o)" + (" => " + "match o - " + (m.baseConst + " {"))
  }

  const DEFAULT_ARM := Spaces(12) + "_ => \"?\","
  const CLOSE_ARM := Spaces(8) + "},"

  /** What is printed for one module; nothing if it has no entries. */
  function ModuleLines(m: Module, group: seq<OrdEntry>): seq<string> {
    if group == [] then []
    else if m.name == "DOSCALLS" then [Comment(m)] + Arms(m, group) + [""]
    else [Comment(m), Header(m)] + Arms(m, group) + [DEFAULT_ARM, CLOSE_ARM, ""]
  }

  function BodyLines(entries: seq<OrdEntry>, n: nat): seq<string>
    requires n <= |MODULES|
  {
    if n == 0 then [] else BodyLines(entries, n - 1) + ModuleLines(MODULES[n - 1], Group(entries, MODULES[n - 1].name))
  }

  function LineComment(text: string): string {
    "// " + text
  }

  function DocComment(text: string): string {
    "/// " + text
  }

  // The longest lines are given in two parts: the verifier works out what a literal of some
  // forty characters contains, but not much more.

  const HEAD: seq<string> := [
    LineComment("AUTO-GENERATED \U{2014} do not edit manually."),
    LineComment("Regenerate with: " + "cargo run --bin gen_api -- gen-trace"),
    LineComment("Source of truth:  targets/os2api.def"),
    "",
    "use super::constants::*;",
    "",
    DocComment("Map a warpine flat ordinal " + "to its OS/2 API name."),
    "///",
    DocComment("Returns `\"?\"` for unknown ordinals.")]

  const FN_LINE := FN_PREFIX + "ordinal: u32) -> &'static str {"
  const MATCH_LINE := "    match ordinal {"
  const OPENING: seq<string> := [FN_LINE, MATCH_LINE]

  const CLOSING: seq<string> := [Spaces(8) + "_ => \"?\",", Spaces(4) + "}"]

  /** The bound that is printed for a module. */
  function Bound(m: Module): string {
    if m.name == "UCONV" then "STUB_AREA_SIZE" else m.upperConst
  }

  function RangeLine(i: nat): string
    requires i < |MODULES|
  {
    var m := MODULES[i];
    if m.name == "DOSCALLS" then Spaces(4) + "if ordinal < " + Bound(m) + " { \"" + m.name + "\" }"
    else if m.name == "UCONV" then Spaces(4) + "else if ordinal < " + Bound(m) + " { \"" + m.name + "\" }"
    else
      Spaces(4) + "else if ordinal < " + Bound(m) + " { \"" + m.name + "\" }   // " + m.baseConst + "\U{2013}" + m.upperConst + "\U{2212}1"
  }

  /** What the printed tests return for `ordinal`, from line `i` on. */
  function ModuleFor(ordinal: nat, i: nat := 0): string
    requires i <= |MODULES|
    decreases |MODULES| - i
  {
    if i == |MODULES| then "?"
    else if ordinal < ResolveConst(Bound(MODULES[i])) then MODULES[i].name
    else ModuleFor(ordinal, i + 1)
  }

  const TAIL_START: seq<string> := [
    "}",
    "",
    DocComment("Map a flat warpine ordinal " + "to the OS/2 DLL that owns it."),
    "pub fn module_for_ordinal(" + "ordinal: u32) -> &'static str {"]

  const TAIL_END: seq<string> := [Spaces(4) + "else { \"?\" }", "}"]

  function RangeLines(): seq<string> {
    seq(|MODULES|, i requires 0 <= i < |MODULES| => RangeLine(i))
  }

  /** The rest of the file, with `module_for_ordinal`. */
  function TailLines(): seq<string> {
    TAIL_START + RangeLines() + TAIL_END
  }

  function TraceLines(entries: seq<OrdEntry>): seq<string> {
    HEAD + OPENING + BodyLines(entries, |MODULES|) + CLOSING + TailLines()
  }

  /** `cmd_gen_trace`, writing line by line. */
  method GenTrace(entries: seq<OrdEntry>) returns (text: string)
    ensures text == Unlines(TraceLines(entries))
  {
    hide Unlines, ModuleLines, Group, TailLines;
    ghost var head := HEAD + OPENING;
    UnlinesNone();
    text := WriteLines([], HEAD + OPENING, []);
    assert [] + head == head == head + [];
    for i := 0 to |MODULES|
      invariant text == Unlines(head + BodyLines(entries, i))
    {
      var m := MODULES[i];
      var group := SelectGroup(entries, m.name);
      text := WriteModule(text, m, group, head + BodyLines(entries, i));
      ConcatAssoc(head, BodyLines(entries, i), ModuleLines(m, group));
    }
    text := WriteLines(text, CLOSING + TailLines(), head + BodyLines(entries, |MODULES|));
    assert head + BodyLines(entries, |MODULES|) + (CLOSING + TailLines()) == TraceLines(entries);
  }

  method WriteModule(text: string, m: Module, group: seq<OrdEntry>, ghost lines: seq<string>) returns (after: string)
    requires text == Unlines(lines)
    ensures after == Unlines(lines + ModuleLines(m, group))
  {
    hide Unlines, Arms, Comment, Header;
    after := text;
    assert lines + [] == lines;
    if group != [] {
      after := WriteLine(after, Comment(m), lines);
      ghost var done := [Comment(m)];
      if m.name != "DOSCALLS" {
        after := WriteLine(after, Header(m), lines + done);
        ConcatAssoc(lines, done, [Header(m)]);
        done := done + [Header(m)];
      }
      after := WriteArms(after, m, group, lines + done);
      ConcatAssoc(lines, done, Arms(m, group));
      done := done + Arms(m, group);
      if m.name == "DOSCALLS" {
        after := WriteLine(after, "", lines + done);
        ConcatAssoc(lines, done, [""]);
        assert done + [""] == ModuleLines(m, group);
      } else {
        after := WriteLines(after, [DEFAULT_ARM, CLOSE_ARM, ""], lines + done);
        ConcatAssoc(lines, done, [DEFAULT_ARM, CLOSE_ARM, ""]);
        assert [Comment(m)] + [Header(m)] == [Comment(m), Header(m)];
        assert done + [DEFAULT_ARM, CLOSE_ARM, ""] == ModuleLines(m, group);
      }
    }
  }

  method WriteArms(text: string, m: Module, group: seq<OrdEntry>, ghost lines: seq<string>) returns (after: string)
    requires text == Unlines(lines)
    ensures after == Unlines(lines + Arms(m, group))
  {
    hide Unlines, Arm;
    after := text;
    assert group[..0] == [] && lines + [] == lines;
    for k := 0 to |group|
      invariant after == Unlines(lines + Arms(m, group[..k]))
    {
      var e := group[k];
      ghost var before := Arms(m, group[..k]);
      assert group[..k + 1][..k] == group[..k];
      if m.name == "DOSCALLS" {
        after := WriteLine(after, Arm(8, e.flat, e.name), lines + before);
        ConcatAssoc(lines, before, [Arm(8, e.flat, e.name)]);
      } else {
        after := WriteLine(after, Arm(12, e.local, e.name), lines + before);
        ConcatAssoc(lines, before, [Arm(12, e.local, e.name)]);
      }
    }
    assert group[..|group|] == group;
  }

  method WriteLine(text: string, line: string, ghost lines: seq<string>) returns (after: string)
    requires text == Unlines(lines)
    ensures after == Unlines(lines + [line])
  {
    UnlinesPush(lines, line);
    after := text + line + "\n";
  }

  method WriteLines(text: string, more: seq<string>, ghost lines: seq<string>) returns (after: string)
    requires text == Unlines(lines)
    ensures after == Unlines(lines + more)
  {
    hide Unlines;
    after := text;
    assert lines + more[..0] == lines;
    for i := 0 to |more|
      invariant after == Unlines(lines + more[..i])
    {
      after := WriteLine(after, more[i], lines + more[..i]);
      assert lines + more[..i + 1] == lines + more[..i] + [more[i]];
    }
    assert more[..|more|] == more;
  }

  method SelectGroup(entries: seq<OrdEntry>, moduleName: string) returns (group: seq<OrdEntry>)
    ensures group == Group(entries, moduleName)
  {
    group := [];
    for i := 0 to |entries|
      invariant group == Group(entries[..i], moduleName)
    {
      assert entries[..i + 1][..i] == entries[..i];
      if entries[i].moduleName == moduleName {
        group := group + [entries[i]];
      }
    }
    assert entries[..|entries|] == entries;
  }

  // ----- scanning a trace file -----

  /** The scanner's state; `sub` is the base of the sub-match it is inside. */
  datatype Scanner = Scanner(inFn: bool, done: bool, sub: Option<nat>, depth: int, names: map<nat, string>)

  const FN_PREFIX := "pub fn ordinal_to_name("

  function Braces(s: string): int {
    if s == [] then 0
    else Braces(s[..|s| - 1]) + (if s[|s| - 1] == '{' then 1 else if s[|s| - 1] == '}' then -1 else 0)
  }

  function StrLiteral(s: string): Option<string> {
    var t := Trim(DropEnd(Trim(s), ','));
    if |t| >= 2 && t[0] == '"' && t[|t| - 1] == '"' && t[1..|t| - 1] != "?" then Some(t[1..|t| - 1]) else None
  }

  /** The number and name of an arm, if the line is one. */
  function ArmOf(line: string): Option<(nat, string)> {
    match Find(line, "=>")
    case None => None
    case Some(i) =>
      var n := ParseU32(Trim(line[..i]));
      var name := StrLiteral(DropEnd(Trim(line[i + 2..]), ','));
      if n.Some? && name.Some? then Some((n.value, name.value)) else None
  }

  predicate IsHeader(line: string) {
    Contains(line, ".contains(&o)") && Contains(line, "match o - ")
  }

  function HeaderBase(line: string): nat {
    var piece := SecondPiece(line, "o - ");
    if piece.None? then 0 else ResolveConst(Trim(DropEnd(DropStart(Trim(piece.value), '{'), '{')))
  }

  function Scanned(t: Scanner, raw: string): Scanner {
    var line := Trim(raw);
    if t.done then t
    else if !t.inFn then if FN_PREFIX <= line then t.(inFn := true, depth := 0) else t
    else
      var depth := t.depth + Braces(line);
      if depth <= 0 then t.(depth := depth, done := true)
      else if IsHeader(line) then t.(depth := depth, sub := if Contains(line, "o - ") then Some(HeaderBase(line)) else t.sub)
      else if t.sub.Some? && "}," <= line && !Contains(line, "=>") then t.(depth := depth, sub := None)
      else
        match ArmOf(line)
        case None => t.(depth := depth)
        case Some(arm) =>
          t.(depth := depth, names := t.names[(if t.sub.Some? then t.sub.value else 0) + arm.0 := arm.1])
  }

  function ScanAll(t: Scanner, lines: seq<string>): Scanner {
    if lines == [] then t else Scanned(ScanAll(t, lines[..|lines| - 1]), lines[|lines| - 1])
  }

  const START := Scanner(false, false, None, 0, map[])

  function TraceNames(text: string): map<nat, string> {
    ScanAll(START, Lines(text)).names
  }

  /** `extract_trace_names`. */
  method ExtractTraceNames(text: string) returns (names: map<nat, string>)
    ensures names == TraceNames(text)
  {
    hide Lines, Braces, ArmOf, IsHeader, HeaderBase, Trim, Find;
    names := map[];
    var inFn := false;
    var sub: Option<nat> := None;
    var depth := 0;
    var lines := Lines(text);
    var i := 0;
    while i < |lines|
      invariant i <= |lines| && ScanAll(START, lines[..i]) == Scanner(inFn, false, sub, depth, names)
    {
      assert lines[..i + 1][..i] == lines[..i];
      var line := Trim(lines[i]);
      i := i + 1;
      if !inFn {
        if FN_PREFIX <= line {
          inFn := true;
          depth := 0;
        }
        continue;
      }
      var balance := CountBraces(line);
      depth := depth + balance;
      if depth <= 0 {
        DoneStays(lines, i, |lines|);
        assert lines[..|lines|] == lines;
        break;
      }
      if IsHeader(line) {
        if Contains(line, "o - ") {
          sub := Some(HeaderBase(line));
        }
        continue;
      }
      if sub.Some? && "}," <= line && !Contains(line, "=>") {
        sub := None;
        continue;
      }
      var arm := ArmOf(line);
      if arm.Some? {
        names := names[(if sub.Some? then sub.value else 0) + arm.value.0 := arm.value.1];
      }
    }
    assert i == |lines| ==> lines[..i] == lines;
  }

  method CountBraces(s: string) returns (balance: int)
    ensures balance == Braces(s)
  {
    balance := 0;
    for i := 0 to |s|
      invariant balance == Braces(s[..i])
    {
      assert s[..i + 1][..i] == s[..i];
      if s[i] == '{' {
        balance := balance + 1;
      } else if s[i] == '}' {
        balance := balance - 1;
      }
    }
    assert s[..|s|] == s;
  }

  lemma {:induction false} DoneStays(lines: seq<string>, i: nat, n: nat)
    requires i <= n <= |lines| && ScanAll(START, lines[..i]).done
    ensures ScanAll(START, lines[..n]) == ScanAll(START, lines[..i])
  {
    hide Lines, Braces, ArmOf, IsHeader, HeaderBase, Trim, Find;
    if i < n {
      DoneStays(lines, i, n - 1);
      assert lines[..n][..n - 1] == lines[..n - 1];
    }
  }

  // ----- gen-def -----

  function Padded(s: string, width: nat): string {
    s + Spaces(if |s| < width then width - |s| else 0)
  }

  function Inserted(s: seq<OrdEntry>, e: OrdEntry): seq<OrdEntry> {
    if s == [] || s[|s| - 1].local <= e.local then s + [e] else Inserted(s[..|s| - 1], e) + [s[|s| - 1]]
  }

  /** `sort_by_key` on the local ordinal, which is stable. */
  function SortedByOrdinal(s: seq<OrdEntry>): seq<OrdEntry> {
    if s == [] then [] else Inserted(SortedByOrdinal(s[..|s| - 1]), s[|s| - 1])
  }

  /** All entries, grouped in module order and sorted by ordinal. */
  function Canonical(entries: seq<OrdEntry>, n: nat): seq<OrdEntry>
    requires n <= |MODULES|
  {
    if n == 0 then [] else Canonical(entries, n - 1) + SortedByOrdinal(Group(entries, MODULES[n - 1].name))
  }

  function DefLine(e: OrdEntry): string {
    e.moduleName + ("." + (Padded(Decimal(e.local), 6) + ("  " + e.name)))
  }

  function DefLinesOf(group: seq<OrdEntry>): seq<string> {
    if group == [] then [] else DefLinesOf(group[..|group| - 1]) + [DefLine(group[|group| - 1])]
  }

  /** The label line; its length counts the bytes of the two rules in it. */
  function Label(m: Module): string {
    "# " + Rule(2) + " " + m.name + " " + Rule(if |m.name| + 10 < 75 then 75 - (|m.name| + 10) else 0)
  }

  function DefModuleLines(m: Module, group: seq<OrdEntry>): seq<string> {
    if group == [] then [] else [Label(m)] + DefLinesOf(SortedByOrdinal(group)) + [""]
  }

  function DefBody(entries: seq<OrdEntry>, n: nat): seq<string>
    requires n <= |MODULES|
  {
    if n == 0 then [] else DefBody(entries, n - 1) + DefModuleLines(MODULES[n - 1], Group(entries, MODULES[n - 1].name))
  }

  function BaseLine(m: Module): string {
    "#   " + Padded(m.name, 12) + " base " + Padded(Decimal(m.base), 6) + "  (MAGIC_API_BASE + " + Decimal(m.base) + " + ordinal)"
  }

  function HashComment(text: string): string {
    "# " + text
  }

  const DEF_START: seq<string> := [
    HashComment("OS/2 API ordinal map " + "for the Warpine LX linker."),
    "#",
    HashComment("Format:  MODULE.ORDINAL  SymbolName"),
    "#",
    HashComment("Modules and their " + "MAGIC_API_BASE offsets:")]

  function BaseLines(): seq<string> {
    seq(|MODULES|, i requires 0 <= i < |MODULES| => BaseLine(MODULES[i]))
  }

  function DefHead(): seq<string> {
    DEF_START + BaseLines() + [""]
  }

  function DefLines(entries: seq<OrdEntry>): seq<string> {
    DefHead() + DefBody(entries, |MODULES|)
  }

  /** `cmd_gen_def`. */
  method GenDef(entries: seq<OrdEntry>) returns (text: string)
    ensures text == Unlines(DefLines(entries))
  {
    hide Unlines, DefModuleLines, Group, DefHead;
    ghost var head := DefHead();
    UnlinesNone();
    text := WriteLines([], DefHead(), []);
    assert [] + head == head == head + [];
    for i := 0 to |MODULES|
      invariant text == Unlines(head + DefBody(entries, i))
    {
      var m := MODULES[i];
      var group := SelectGroup(entries, m.name);
      text := WriteDefModule(text, m, group, head + DefBody(entries, i));
      ConcatAssoc(head, DefBody(entries, i), DefModuleLines(m, group));
    }
  }

  method WriteDefModule(text: string, m: Module, group: seq<OrdEntry>, ghost lines: seq<string>) returns (after: string)
    requires text == Unlines(lines)
    ensures after == Unlines(lines + DefModuleLines(m, group))
  {
    hide Unlines, DefLine, SortedByOrdinal, Label;
    after := text;
    assert lines + [] == lines;
    if group != [] {
      after := WriteLine(after, Label(m), lines);
      var sorted := SortedByOrdinal(group);
      ghost var start := lines + [Label(m)];
      assert sorted[..0] == [] && start + [] == start;
      for k := 0 to |sorted|
        invariant after == Unlines(start + DefLinesOf(sorted[..k]))
      {
        ghost var before := DefLinesOf(sorted[..k]);
        assert sorted[..k + 1][..k] == sorted[..k];
        after := WriteLine(after, DefLine(sorted[k]), start + before);
        ConcatAssoc(start, before, [DefLine(sorted[k])]);
      }
      assert sorted[..|sorted|] == sorted;
      after := WriteLine(after, "", start + DefLinesOf(sorted));
      assert start + DefLinesOf(sorted) + [""] == lines + DefModuleLines(m, group);
    }
  }

  // ----- reading a definition file -----

  /** What is wrong with a line, and its number. */
  datatype DefError = MissingName(line: nat) | NoDot(line: nat) | BadOrdinal(line: nat) | UnknownModule(line: nat)

  /** The entry on a line; None for a blank line or a comment. */
  function ReadEntry(raw: string, number: nat): Result<Option<OrdEntry>, DefError> {
    var line := Trim(raw);
    if line == [] || line[0] == '#' then Ok(None)
    else
      var word := FirstWord(line);
      var name := FirstWord(TrimStart(line[|word|..]));
      if name == [] then Err(MissingName(number))
      else
        match Find(word, ".")
        case None => Err(NoDot(number))
        case Some(dot) =>
          var ordinal := ParseU32(word[dot + 1..]);
          if ordinal.None? then Err(BadOrdinal(number))
          else
            var i := ModuleIndex(word[..dot]);
            if i == MODULE_COUNT then Err(UnknownModule(number))
            else Ok(Some(OrdEntry(word[..dot], ordinal.value, MODULES[i].base + ordinal.value, name)))
  }

  /** The entries of the lines, or the first error. */
  function ReadEntries(lines: seq<string>): Result<seq<OrdEntry>, DefError> {
    if lines == [] then Ok([])
    else
      match ReadEntries(lines[..|lines| - 1])
      case Err(e) => Err(e)
      case Ok(entries) =>
        match ReadEntry(lines[|lines| - 1], |lines|)
        case Err(e) => Err(e)
        case Ok(None) => Ok(entries)
        case Ok(Some(entry)) => Ok(entries + [entry])
  }

  /** `parse_def`, on the contents of the file. */
  method ParseDef(text: string) returns (r: Result<seq<OrdEntry>, DefError>)
    ensures r == ReadEntries(Lines(text))
  {
    hide ReadEntry, Lines;
    var entries: seq<OrdEntry> := [];
    var lines := Lines(text);
    for i := 0 to |lines|
      invariant ReadEntries(lines[..i]) == Ok(entries)
    {
      assert lines[..i + 1][..i] == lines[..i];
      var entry := ReadEntry(lines[i], i + 1);
      if entry.Err? {
        FirstErrorStays(lines, i + 1, |lines|);
        assert lines[..|lines|] == lines;
        return Err(entry.error);
      }
      if entry.value.Some? {
        entries := entries + [entry.value.value];
      }
    }
    assert lines[..|lines|] == lines;
    return Ok(entries);
  }

  lemma {:induction false} FirstErrorStays(lines: seq<string>, i: nat, n: nat)
    requires i <= n <= |lines| && ReadEntries(lines[..i]).Err?
    ensures ReadEntries(lines[..n]) == ReadEntries(lines[..i])
  {
    hide ReadEntry;
    if i < n {
      FirstErrorStays(lines, i, n - 1);
      assert lines[..n][..n - 1] == lines[..n - 1];
    }
  }
}
