/** The operations on text that the tools use, with their meaning in Rust's standard library. */
module Text {
  import opened Bytes
  import opened Wrappers

  // ----- trimming -----

  /** `char::is_whitespace`. */
  predicate White(c: char) {
    var n := c as int;
    9 <= n <= 13 || n == 0x20 || n == 0x85 || n == 0xA0 || n == 0x1680 || 0x2000 <= n <= 0x200A
    || n == 0x2028 || n == 0x2029 || n == 0x202F || n == 0x205F || n == 0x3000
  }

  function TrimStart(s: string): string {
    if s != [] && White(s[0]) then TrimStart(s[1..]) else s
  }

  function TrimEnd(s: string): string {
    if s != [] && White(s[|s| - 1]) then TrimEnd(s[..|s| - 1]) else s
  }

  function Trim(s: string): string {
    TrimEnd(TrimStart(s))
  }

  lemma {:induction false} TrimStartIs(s: string)
    ensures var n := |s| - |TrimStart(s)|;
            0 <= n <= |s| && TrimStart(s) == s[n..] && (forall k :: 0 <= k < n ==> White(s[k])) && (n < |s| ==> !White(s[n]))
  {
    if s != [] && White(s[0]) {
      TrimStartIs(s[1..]);
      var n := |s| - |TrimStart(s)|;
      forall k | 0 <= k < n
        ensures White(s[k])
      {
        assert k > 0 ==> s[k] == s[1..][k - 1];
      }
    }
  }

  lemma {:induction false} TrimEndIs(s: string)
    ensures var n := |TrimEnd(s)|;
            n <= |s| && TrimEnd(s) == s[..n] && (forall k :: n <= k < |s| ==> White(s[k])) && (n > 0 ==> !White(s[n - 1]))
  {
    if s != [] && White(s[|s| - 1]) {
      TrimEndIs(s[..|s| - 1]);
    }
  }

  predicate AllWhite(s: string) {
    forall k :: 0 <= k < |s| ==> White(s[k])
  }

  /** Nothing to trim. */
  predicate Tight(s: string) {
    s == [] || (!White(s[0]) && !White(s[|s| - 1]))
  }

  lemma TrimOf(before: string, s: string, after: string)
    requires AllWhite(before) && AllWhite(after) && s != [] && Tight(s)
    ensures Trim(before + s + after) == s
  {
    hide TrimStart, TrimEnd;
    var whole := before + s + after;
    TrimStartIs(whole);
    var n := |whole| - |TrimStart(whole)|;
    assert whole[|before|] == s[0];
    forall k | 0 <= k < |before|
      ensures White(whole[k])
    {
      assert whole[k] == before[k];
    }
    var rest := TrimStart(whole);
    assert rest == s + after;
    TrimEndIs(rest);
    var m := |TrimEnd(rest)|;
    assert rest[|s| - 1] == s[|s| - 1];
    forall k | |s| <= k < |rest|
      ensures White(rest[k])
    {
      assert rest[k] == after[k - |s|];
    }
  }

  lemma TrimTight(s: string)
    requires Tight(s)
    ensures Trim(s) == s
  {
  }

  /** `trim_end_matches`. */
  function DropEnd(s: string, c: char): string {
    if s != [] && s[|s| - 1] == c then DropEnd(s[..|s| - 1], c) else s
  }

  function DropStart(s: string, c: char): string {
    if s != [] && s[0] == c then DropStart(s[1..], c) else s
  }

  // ----- searching -----

  predicate Occurs(s: string, p: string, i: nat) {
    i + |p| <= |s| && s[i..i + |p|] == p
  }

  function FindFrom(s: string, p: string, i: nat): (r: Option<nat>)
    requires i <= |s|
    ensures r.Some? ==> i <= r.value && Occurs(s, p, r.value) && forall k :: i <= k < r.value ==> !Occurs(s, p, k)
    ensures r.None? ==> forall k :: i <= k ==> !Occurs(s, p, k)
    decreases |s| - i
  {
    if Occurs(s, p, i) then Some(i) else if i == |s| then None else FindFrom(s, p, i + 1)
  }

  function Find(s: string, p: string): Option<nat> {
    FindFrom(s, p, 0)
  }

  predicate Contains(s: string, p: string) {
    Find(s, p).Some?
  }

  /** `split(p).nth(1)`: what stands between the first two occurrences. */
  function SecondPiece(s: string, p: string): Option<string> {
    match Find(s, p)
    case None => None
    case Some(i) =>
      match FindFrom(s, p, i + |p|)
      case None => Some(s[i + |p|..])
      case Some(j) => Some(s[i + |p|..j])
  }

  lemma OccursChar(s: string, p: string, k: nat, j: nat)
    requires j < |p|
    ensures Occurs(s, p, k) ==> k + j < |s| && s[k + j] == p[j]
  {
    if Occurs(s, p, k) {
      assert s[k + j] == s[k..k + |p|][j];
    }
  }

  /** A pattern is found where it stands when one of its characters comes no earlier. */
  lemma FindAfter(a: string, p: string, b: string, j: nat)
    requires j < |p| && p[j] !in a && p[j] !in p[..j]
    ensures Find(a + p + b, p) == Some(|a|)
  {
    var s := a + p + b;
    assert Occurs(s, p, |a|);
    forall k | 0 <= k < |a|
      ensures !Occurs(s, p, k)
    {
      OccursChar(s, p, k, j);
      var c := if k + j < |a| then a[k + j] else p[..j][k + j - |a|];
      assert s[k + j] == c;
      assert c != p[j];
    }
  }

  /** A pattern with a character that does not come any more is not found. */
  lemma FindNone(s: string, p: string, j: nat, i: nat)
    requires j < |p| && i <= |s| && p[j] !in s[i..]
    ensures FindFrom(s, p, i) == None
  {
    forall k: nat | i <= k
      ensures !Occurs(s, p, k)
    {
      OccursChar(s, p, k, j);
      assert k + j < |s| ==> s[k + j] == s[i..][k + j - i];
    }
  }

  // ----- numbers -----

  predicate IsDigit(c: char) {
    '0' <= c <= '9'
  }

  predicate AllDigits(s: string) {
    forall k :: 0 <= k < |s| ==> IsDigit(s[k])
  }

  function Digit(n: nat): char
    requires n < 10
  {
    (n + 48) as char
  }

  function DigitValue(c: char): nat
    requires IsDigit(c)
  {
    c as int - 48
  }

  function Decimal(n: nat): (s: string)
    ensures s != [] && AllDigits(s)
  {
    if n < 10 then [Digit(n)] else Decimal(n / 10) + [Digit(n % 10)]
  }

  function Value(s: string): nat
    requires AllDigits(s)
  {
    if s == [] then 0 else 10 * Value(s[..|s| - 1]) + DigitValue(s[|s| - 1])
  }

  /** `str::parse::<u32>`, with the optional plus sign it allows. */
  function ParseU32(s: string): Option<nat> {
    var t := if |s| > 1 && s[0] == '+' then s[1..] else s;
    if t == [] || !AllDigits(t) then None
    else if Value(t) < TWO32 then Some(Value(t)) else None
  }

  lemma {:induction false} DecimalValue(n: nat)
    ensures Value(Decimal(n)) == n
  {
    if n >= 10 {
      DecimalValue(n / 10);
      assert Decimal(n)[..|Decimal(n)| - 1] == Decimal(n / 10);
    }
  }

  lemma DecimalParses(n: u32)
    ensures ParseU32(Decimal(n)) == Some(n)
  {
    DecimalValue(n);
    assert IsDigit(Decimal(n)[0]);
  }

  // ----- lines -----

  /** Every line with its newline. */
  function Unlines(lines: seq<string>): string {
    if lines == [] then [] else Unlines(lines[..|lines| - 1]) + lines[|lines| - 1] + "\n"
  }

  /** A line as `lines()` gives it: without a carriage return at its end. */
  function WithoutReturn(line: string): string {
    if line != [] && line[|line| - 1] == '\r' then line[..|line| - 1] else line
  }

  /** The finished lines of `text`, and what follows the last newline. */
  function SplitLines(text: string): (seq<string>, string) {
    if text == [] then ([], [])
    else
      var (done, current) := SplitLines(text[..|text| - 1]);
      if text[|text| - 1] == '\n' then (done + [WithoutReturn(current)], []) else (done, current + [text[|text| - 1]])
  }

  /** `lines()`; a carriage return is taken off only in front of a newline. */
  function Lines(text: string): seq<string> {
    var (done, current) := SplitLines(text);
    if current == [] then done else done + [current]
  }

  /** A text that is one line, and keeps its last character when it is read as one. */
  predicate OneLine(line: string) {
    '\n' !in line && (line == [] || line[|line| - 1] != '\r')
  }

  lemma {:induction false} SplitWithin(text: string, line: string)
    requires '\n' !in line
    ensures SplitLines(text + line) == (SplitLines(text).0, SplitLines(text).1 + line)
  {
    if line == [] {
      assert text + line == text;
      assert SplitLines(text).1 + [] == SplitLines(text).1;
    } else {
      var init, c := line[..|line| - 1], line[|line| - 1];
      SplitWithin(text, init);
      assert (text + line)[..|text + line| - 1] == text + init;
      assert SplitLines(text).1 + line == SplitLines(text).1 + init + [c];
    }
  }

  lemma SplitNewline(text: string)
    ensures SplitLines(text + "\n") == (SplitLines(text).0 + [WithoutReturn(SplitLines(text).1)], [])
  {
    assert (text + "\n")[..|text|] == text;
  }

  /** Lines joined with newlines are found again. */
  lemma {:induction false} LinesOfUnlines(lines: seq<string>)
    requires forall k :: 0 <= k < |lines| ==> OneLine(lines[k])
    ensures SplitLines(Unlines(lines)) == (lines, []) && Lines(Unlines(lines)) == lines
  {
    if lines == [] {
    } else {
      hide SplitLines;
      var init, last := lines[..|lines| - 1], lines[|lines| - 1];
      LinesOfUnlines(init);
      SplitWithin(Unlines(init), last);
      SplitNewline(Unlines(init) + last);
      assert OneLine(last);
      assert [] + last == last;
      assert init + [last] == lines;
    }
  }

  lemma UnlinesNone()
    ensures Unlines([]) == []
  {
  }

  lemma UnlinesPush(lines: seq<string>, line: string)
    ensures Unlines(lines + [line]) == Unlines(lines) + line + "\n"
  {
    assert (lines + [line])[..|lines|] == lines;
  }

  // ----- words -----

  /** Whether all characters are letters, digits or underscores. */
  predicate Wordy(s: string) {
    forall k :: 0 <= k < |s| ==> WordChar(s[k])
  }

  predicate WordChar(c: char) {
    'a' <= c <= 'z' || 'A' <= c <= 'Z' || '0' <= c <= '9' || c == '_'
  }

  /** The characters before the first white one. */
  function FirstWord(s: string): (w: string)
    ensures w <= s
  {
    if s == [] || White(s[0]) then [] else [s[0]] + FirstWord(s[1..])
  }

  lemma {:induction false} FirstWordOf(w: string, rest: string)
    requires (forall k :: 0 <= k < |w| ==> !White(w[k])) && (rest == [] || White(rest[0]))
    ensures FirstWord(w + rest) == w
  {
    if w == [] {
      assert w + rest == rest;
    } else {
      assert (w + rest)[0] == w[0] && (w + rest)[1..] == w[1..] + rest;
      FirstWordOf(w[1..], rest);
    }
  }

  function Spaces(n: nat): (s: string)
    ensures |s| == n && forall k :: 0 <= k < n ==> s[k] == ' '
  {
    seq(n, _ => ' ')
  }
}
