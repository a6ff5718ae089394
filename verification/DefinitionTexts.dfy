/**
 * Definition files as people write them (src/bin/gen_api.rs:113-157): any spacing, comments,
 * blank lines and mistakes, unlike those that the tool prints itself.
 */
module DefinitionTexts {
  import opened Bytes
  import opened Wrappers
  import opened Text
  import opened GenApi

  predicate NoWhite(s: string) {
    forall k :: 0 <= k < |s| ==> !White(s[k])
  }

  /** A word and another one, with white space around them; more may follow behind white space. */
  datatype Spacing = Spacing(before: string, gap: string, after: string)

  predicate SpacingFits(sp: Spacing) {
    AllWhite(sp.before) && AllWhite(sp.gap) && sp.gap != [] && (sp.after == [] || White(sp.after[0]))
  }

  predicate IsWord(s: string) {
    s != [] && NoWhite(s)
  }

  /** The line with these two words. */
  function Line(sp: Spacing, word: string, name: string): string {
    sp.before + (word + sp.gap + name + sp.after)
  }

  lemma {:induction false} TrimStartSkips(before: string, s: string)
    requires AllWhite(before) && s != [] && !White(s[0])
    ensures TrimStart(before + s) == s
  {
    if before == [] {
      assert before + s == s;
    } else {
      assert (before + s)[1..] == before[1..] + s;
      TrimStartSkips(before[1..], s);
    }
  }

  /** Trimming the end of a text that ends in `rest` takes something off `rest` only. */
  lemma TrimEndWithin(s: string, rest: string)
    requires s != [] && !White(s[|s| - 1])
    ensures exists n: nat :: n <= |rest| && TrimEnd(s + rest) == s + rest[..n]
  {
    TrimEndIs(s + rest);
    var n := |TrimEnd(s + rest)|;
    assert (s + rest)[|s| - 1] == s[|s| - 1];
    assert n >= |s|;
    assert (s + rest)[..n] == s + rest[..n - |s|];
  }

  /** What trimming leaves of a line: its words, and the beginning of what follows them. */
  lemma LineTrims(sp: Spacing, word: string, name: string) returns (more: string)
    requires SpacingFits(sp) && IsWord(word) && IsWord(name)
    ensures Trim(Line(sp, word, name)) == word + sp.gap + name + more && (more == [] || White(more[0]))
  {
    var body := word + sp.gap + name;
    TrimStartSkips(sp.before, body + sp.after);
    assert TrimStart(Line(sp, word, name)) == body + sp.after;
    assert body[|body| - 1] == name[|name| - 1];
    TrimEndWithin(body, sp.after);
    var n: nat :| n <= |sp.after| && TrimEnd(body + sp.after) == body + sp.after[..n];
    more := sp.after[..n];
  }

  /** The words the reader finds. */
  lemma WordsAreFound(sp: Spacing, word: string, name: string)
    requires SpacingFits(sp) && IsWord(word) && IsWord(name)
    ensures var line := Trim(Line(sp, word, name));
            && line != [] && line[0] == word[0] && FirstWord(line) == word && FirstWord(TrimStart(line[|word|..])) == name
  {
    var more := LineTrims(sp, word, name);
    var line := Trim(Line(sp, word, name));
    assert line == word + (sp.gap + name + more);
    FirstWordOf(word, sp.gap + name + more);
    assert line[|word|..] == sp.gap + (name + more);
    TrimStartSkips(sp.gap, name + more);
    FirstWordOf(name, more);
  }

  /** Decimal digits, with a plus sign before them or not. */
  predicate IsNumber(s: string) {
    (s != [] && AllDigits(s)) || (|s| > 1 && s[0] == '+' && AllDigits(s[1..]))
  }

  function NumberOf(s: string): nat
    requires IsNumber(s)
  {
    if s[0] == '+' then Value(s[1..]) else Value(s)
  }

  lemma NumberParses(s: string)
    ensures ParseU32(s) == if IsNumber(s) && NumberOf(s) < TWO32 then Some(NumberOf(s)) else None
  {
    hide Value;
  }

  lemma DotIsFound(a: string, b: string)
    requires '.' !in a
    ensures Find(a + "." + b, ".") == Some(|a|)
    ensures (a + "." + b)[..|a|] == a && (a + "." + b)[|a| + 1..] == b
  {
    FindAfter(a, ".", b, 0);
  }

  predicate IsModule(m: nat, name: string) {
    m < |MODULES| && MODULES[m].name == name
  }

  /** A line with a module, a dot, an ordinal and a name is that entry, if module and ordinal are right. */
  lemma EntryIsRead(sp: Spacing, moduleName: string, ordinal: string, name: string, number: nat)
    requires SpacingFits(sp) && IsWord(name) && NoWhite(moduleName) && NoWhite(ordinal) && '.' !in moduleName
    requires moduleName == [] || moduleName[0] != '#'
    ensures var r := ReadEntry(Line(sp, moduleName + "." + ordinal, name), number);
            if !IsNumber(ordinal) || NumberOf(ordinal) >= 0x1_0000_0000 then r == Err(BadOrdinal(number))
            else
              && (forall m: nat :: IsModule(m, moduleName) ==>
                    r == Ok(Some(OrdEntry(moduleName, NumberOf(ordinal), MODULES[m].base + NumberOf(ordinal), name))))
              && ((forall m: nat :: !IsModule(m, moduleName)) ==> r == Err(UnknownModule(number)))
  {
    hide Line, Trim, TrimStart, FirstWord, Find, ParseU32, IsNumber, NumberOf, ModuleIndex, SpacingFits, NoWhite;
    var word := moduleName + "." + ordinal;
    EntryWord(moduleName, ordinal);
    WordsAreFound(sp, word, name);
    DotIsFound(moduleName, ordinal);
    NumberParses(ordinal);
    ModuleNameDecides(moduleName);
  }

  lemma EntryWord(moduleName: string, ordinal: string)
    requires NoWhite(moduleName) && NoWhite(ordinal) && (moduleName == [] || moduleName[0] != '#')
    ensures IsWord(moduleName + "." + ordinal) && (moduleName + "." + ordinal)[0] != '#'
  {
    assert !White('.');
  }

  lemma ModuleNameDecides(name: string)
    ensures forall m: nat :: IsModule(m, name) ==> ModuleIndex(name) == m
    ensures (forall m: nat :: !IsModule(m, name)) ==> ModuleIndex(name) == MODULE_COUNT
  {
    var i := ModuleIndex(name);
    if i < MODULE_COUNT {
      assert IsModule(i, name);
    }
    forall m: nat | IsModule(m, name)
      ensures i == m
    {
      NamesDiffer(m, i);
    }
  }

  lemma NamesDiffer(m: nat, i: nat)
    requires m < |MODULES| && i == ModuleIndex(MODULES[m].name)
    ensures i == m
  {
    if i < m {
      DistinctNames(i, m);
    }
  }

  lemma DistinctNames(i: nat, m: nat)
    requires i < m < |MODULES|
    ensures MODULES[i].name != MODULES[m].name
  {
  }

  /** Two words without a dot in the first. */
  lemma DotIsMissing(sp: Spacing, word: string, name: string, number: nat)
    requires SpacingFits(sp) && IsWord(word) && IsWord(name) && '.' !in word && word[0] != '#'
    ensures ReadEntry(Line(sp, word, name), number) == Err(NoDot(number))
  {
    hide Line, Trim, TrimStart, FirstWord, Find;
    WordsAreFound(sp, word, name);
    NotFound(word);
  }

  lemma NotFound(word: string)
    requires '.' !in word
    ensures Find(word, ".") == None
  {
    FindNone(word, ".", 0, 0);
  }

  /** One word alone. */
  lemma NameIsMissing(before: string, word: string, after: string, number: nat)
    requires AllWhite(before) && IsWord(word) && AllWhite(after) && word[0] != '#'
    ensures ReadEntry(before + word + after, number) == Err(MissingName(number))
  {
    hide Find;
    TrimOf(before, word, after);
    FirstWordOf(word, []);
    assert word + [] == word;
    hide FirstWord, Trim;
    assert word[|word|..] == [];
    assert TrimStart([]) == [];
    NoFirstWord();
  }

  lemma NoFirstWord()
    ensures FirstWord([]) == []
  {
  }

  /** Blank lines and comments are skipped. */
  lemma OthersAreSkipped(before: string, comment: string, number: nat)
    requires AllWhite(before) && (comment == [] || comment[0] == '#')
    ensures ReadEntry(before + comment, number) == Ok(None)
  {
    if comment == [] {
      BlankTrims(before);
      assert before + comment == before;
    } else {
      TrimStartSkips(before, comment);
      TrimEndIs(comment);
      assert TrimEnd(comment) != [] ==> TrimEnd(comment)[0] == comment[0];
    }
  }

  lemma BlankTrims(before: string)
    requires AllWhite(before)
    ensures Trim(before) == []
  {
    TrimStartIs(before);
  }

  // ----- whole files -----

  predicate HasEntry(lines: seq<string>, k: nat) {
    k < |lines| && ReadEntry(lines[k], k + 1).Ok? && ReadEntry(lines[k], k + 1).value.Some?
  }

  /** How many of the first `n` lines have an entry. */
  function EntriesBefore(lines: seq<string>, n: nat): nat
    requires n <= |lines|
  {
    if n == 0 then 0 else EntriesBefore(lines, n - 1) + if HasEntry(lines, n - 1) then 1 else 0
  }

  predicate AllGood(lines: seq<string>, n: nat) {
    forall k :: 0 <= k < n && k < |lines| ==> ReadEntry(lines[k], k + 1).Ok?
  }

  predicate EntryStands(lines: seq<string>, n: nat, entries: seq<OrdEntry>, k: nat)
    requires n <= |lines| && k < n && HasEntry(lines, k)
  {
    EntriesBefore(lines, k) < |entries| && entries[EntriesBefore(lines, k)] == ReadEntry(lines[k], k + 1).value.value
  }

  /** `entries` are those of the first `n` lines, in order, each once. */
  predicate EntriesStand(lines: seq<string>, n: nat, entries: seq<OrdEntry>)
    requires n <= |lines|
  {
    |entries| == EntriesBefore(lines, n) && forall k :: 0 <= k < n && HasEntry(lines, k) ==> EntryStands(lines, n, entries, k)
  }

  lemma EntriesPush(lines: seq<string>, n: nat, before: seq<OrdEntry>)
    requires n < |lines| && EntriesStand(lines, n, before) && ReadEntry(lines[n], n + 1).Ok?
    ensures var e := ReadEntry(lines[n], n + 1).value;
            EntriesStand(lines, n + 1, if e.Some? then before + [e.value] else before)
  {
    hide ReadEntry;
    forall k | 0 <= k < n && HasEntry(lines, k)
      ensures EntryStands(lines, n, before, k)
    {
    }
  }

  lemma {:induction false} EntriesAreRead(lines: seq<string>, n: nat)
    requires n <= |lines| && AllGood(lines, n)
    ensures ReadEntries(lines[..n]).Ok? && EntriesStand(lines, n, ReadEntries(lines[..n]).value)
  {
    hide ReadEntry, EntriesStand;
    if n == 0 {
      NothingStands(lines);
    } else {
      assert lines[..n][..n - 1] == lines[..n - 1] && |lines[..n]| == n;
      EntriesAreRead(lines, n - 1);
      assert ReadEntry(lines[n - 1], n).Ok?;
      EntriesPush(lines, n - 1, ReadEntries(lines[..n - 1]).value);
    }
  }

  lemma NothingStands(lines: seq<string>)
    ensures EntriesStand(lines, 0, [])
  {
  }

  /** Without a mistake the entries of the lines come in order, each once; otherwise the first mistake is reported. */
  lemma FileIsRead(lines: seq<string>)
    ensures AllGood(lines, |lines|) ==> ReadEntries(lines).Ok? && EntriesStand(lines, |lines|, ReadEntries(lines).value)
    ensures forall k :: 0 <= k < |lines| && AllGood(lines, k) && ReadEntry(lines[k], k + 1).Err? ==>
              ReadEntries(lines) == Err(ReadEntry(lines[k], k + 1).error)
  {
    hide ReadEntry, EntriesStand;
    assert lines[..|lines|] == lines;
    if AllGood(lines, |lines|) {
      EntriesAreRead(lines, |lines|);
    }
    forall k | 0 <= k < |lines| && AllGood(lines, k) && ReadEntry(lines[k], k + 1).Err?
      ensures ReadEntries(lines) == Err(ReadEntry(lines[k], k + 1).error)
    {
      EntriesAreRead(lines, k);
      assert lines[..k + 1][..k] == lines[..k] && |lines[..k + 1]| == k + 1;
      FirstErrorStays(lines, k + 1, |lines|);
    }
  }
}
