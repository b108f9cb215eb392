/**
 The fixer of copyright headers (tools/cr_checker/cr_checker.py): three functions that measure and rewrite a file
 in turn, and that have to agree on where its first lines end. Files are ASCII text with LF line ends, so that
 characters and bytes count the same. The regular expression is a parameter.
 */
module HeaderFixer {

  const BYTES_TO_READ := 4096

  class TextFile {
    var text: string

    constructor (text: string)
      ensures this.text == text
    {
      this.text := text;
    }
  }

  // ----- Reading -----

  /** readline(): up to and with the first line end. */
  function FirstLine(s: string): (line: string)
    ensures line <= s && (s != [] ==> line != [])
  {
    if s == [] then [] else if s[0] == '\n' then ['\n'] else [s[0]] + FirstLine(s[1..])
  }

  /** How many line ends stand at the front. */
  function LineEnds(s: string): (n: nat)
    ensures n <= |s| && (n < |s| ==> s[n] != '\n')
    ensures forall i :: 0 <= i < n ==> s[i] == '\n'
  {
    if s == [] || s[0] != '\n' then 0 else 1 + LineEnds(s[1..])
  }

  lemma {:induction false} LineEndsAt(s: string, n: nat)
    requires n <= |s| && (n < |s| ==> s[n] != '\n') && forall i :: 0 <= i < n ==> s[i] == '\n'
    ensures LineEnds(s) == n
  {
    if n > 0 {
      LineEndsAt(s[1..], n - 1);
    }
  }

  /** read(n): at most n characters. */
  function Take(s: string, n: nat): (t: string) {
    if n <= |s| then s[..n] else s
  }

  function Drop(s: string, n: nat): (t: string) {
    if n <= |s| then s[n..] else []
  }

  // ----- The three functions -----

  /** The shebang line and the empty lines behind it. */
  function ShebangOffset(s: string): (offset: nat)
    ensures offset <= |s|
  {
    if "#!" <= FirstLine(s) then |FirstLine(s)| + LineEnds(s[|FirstLine(s)|..]) else 0
  }

  /** detect_shebang_offset(). */
  method DetectShebangOffset(f: TextFile) returns (offset: nat)
    ensures offset == ShebangOffset(f.text)
  {
    var s := f.text;
    var line := FirstLine(s);
    if !("#!" <= line) {
      return 0;
    }
    offset := |line|;
    while offset < |s| && s[offset] == '\n'
      invariant |line| <= offset <= |s|
      invariant forall i :: |line| <= i < offset ==> s[i] == '\n'
    {
      offset := offset + 1;
    }
    LineEndsAt(s[|line|..], offset - |line|);
  }

  /** remove_old_header(): the characters behind the first `offset` are cut out. */
  method RemoveOldHeader(f: TextFile, n: nat, offset: nat)
    modifies f
    ensures f.text == Take(old(f.text), offset) + Drop(old(f.text), offset + n)
  {
    var preserved := Take(f.text, offset);
    var rest := Drop(Drop(f.text, offset), n);
    f.text := preserved + rest;
  }

  /** The prefix that fix_copyright() preserves: the first line, and empty lines until `offset` is reached. */
  function PrefixLength(s: string, offset: nat): (n: nat)
    ensures |FirstLine(s)| <= n <= |s|
  {
    var line := |FirstLine(s)|;
    var ends := LineEnds(s[line..]);
    if offset <= line then line else if offset - line < ends then offset else line + ends
  }

  /** fix_copyright(): writes the header behind the prefix; an offset that is not its length is refused. */
  method FixCopyright(f: TextFile, header: string, offset: nat) returns (ok: bool)
    modifies f
    ensures ok <==> offset == 0 || offset == PrefixLength(old(f.text), offset)
    ensures f.text == if ok then old(f.text)[..offset] + header + "\n" + old(f.text)[offset..] else old(f.text)
  {
    var s := f.text;
    var prefixLength := |FirstLine(s)|;
    var line := prefixLength;
    while prefixLength < offset && prefixLength < |s| && s[prefixLength] == '\n'
      invariant line <= prefixLength <= |s|
      invariant prefixLength <= offset || prefixLength == line
      invariant forall i :: line <= i < prefixLength ==> s[i] == '\n'
    {
      prefixLength := prefixLength + 1;
    }
    PrefixReached(s, offset, prefixLength);
    if offset > 0 && offset != prefixLength {
      return false;
    }
    f.text := (if offset > 0 then s[..prefixLength] else []) + header + "\n"
        + (if offset > 0 then s[prefixLength..] else s);
    ok := true;
  }

  lemma {:induction false} PrefixReached(s: string, offset: nat, n: nat)
    requires var line := |FirstLine(s)|;
      && line <= n <= |s| && (n <= offset || n == line) && (forall i :: line <= i < n ==> s[i] == '\n')
      && (n >= offset || n == |s| || s[n] != '\n')
    ensures n == PrefixLength(s, offset)
  {
    var line := |FirstLine(s)|;
    var rest := s[line..];
    if n < offset {
      LineEndsAt(rest, n - line);
    } else {
      LineEndsAtLeast(rest, n - line);
    }
  }

  lemma {:induction false} LineEndsAtLeast(s: string, n: nat)
    requires n <= |s| && forall i :: 0 <= i < n ==> s[i] == '\n'
    ensures LineEnds(s) >= n
  {
    if n > 0 {
      LineEndsAtLeast(s[1..], n - 1);
    }
  }

  // ----- The offsets agree -----

  /** A first line that is ended stays the first line, whatever follows it. */
  lemma {:induction false} FirstLineStays(line: string, u: string)
    requires line != [] && line <= u && line[|line| - 1] == '\n'
    requires forall i :: 0 <= i < |line| - 1 ==> line[i] != '\n'
    ensures FirstLine(u) == line
  {
    if |line| > 1 {
      FirstLineStays(line[1..], u[1..]);
      assert line == [line[0]] + line[1..];
    }
  }

  lemma {:induction false} FirstLineEndsOnce(s: string)
    ensures forall i :: 0 <= i < |FirstLine(s)| - 1 ==> s[i] != '\n'
  {
    if s != [] && s[0] != '\n' {
      FirstLineEndsOnce(s[1..]);
      var line := FirstLine(s);
      forall i | 0 <= i < |line| - 1 ensures s[i] != '\n' {
        if i > 0 {
          assert s[i] == s[1..][i - 1];
        }
      }
    }
  }

  lemma {:induction false} UnendedLineIsAll(s: string)
    requires s != [] && FirstLine(s)[|FirstLine(s)| - 1] != '\n'
    ensures FirstLine(s) == s
  {
    if |s| > 1 {
      assert FirstLine(s)[1..] == FirstLine(s[1..]);
      UnendedLineIsAll(s[1..]);
    }
  }

  /** What is preserved ends with the line ends behind the first line. */
  lemma {:induction false} LineEndsInPrefix(s: string, cut: string)
    requires ShebangOffset(s) > 0 && s[..ShebangOffset(s)] <= cut
    ensures |FirstLine(s)| <= ShebangOffset(s)
    ensures forall i :: |FirstLine(s)| <= i < ShebangOffset(s) ==> cut[i] == '\n'
  {
    var line, offset := |FirstLine(s)|, ShebangOffset(s);
    forall i | line <= i < offset ensures cut[i] == '\n' {
      assert cut[i] == s[..offset][i] == s[line..][i - line];
    }
  }

  /** The first line is the same after the cut. */
  lemma {:induction false} CutKeepsFirstLine(s: string, rest: string)
    requires ShebangOffset(s) > 0 && (ShebangOffset(s) == |s| ==> rest == [])
    ensures FirstLine(s[..ShebangOffset(s)] + rest) == FirstLine(s)
  {
    var offset := ShebangOffset(s);
    if FirstLine(s)[|FirstLine(s)| - 1] != '\n' {
      UnendedLineIsAll(s);
      assert s[..offset] + rest == s;
    } else {
      hide ShebangOffset;
      LineEndsInPrefix(s, s[..offset] + rest);
      FirstLineEndsOnce(s);
      FirstLineStays(FirstLine(s), s[..offset] + rest);
    }
  }

  /**
   The detected offset is the one that fix_copyright() expects, in the file itself and after any number of
   characters have been cut out behind it.
   */
  lemma {:induction false} DetectedOffsetAccepted(s: string, n: nat)
    ensures var offset := ShebangOffset(s);
      var cut := Take(s, offset) + Drop(s, offset + n);
      offset == 0 || offset == PrefixLength(cut, offset)
  {
    hide ShebangOffset, PrefixLength, FirstLine, LineEnds;
    var offset := ShebangOffset(s);
    if offset > 0 {
      var rest := Drop(s, offset + n);
      CutKeepsFirstLine(s, rest);
      LineEndsInPrefix(s, s[..offset] + rest);
      PrefixReached(s[..offset] + rest, offset, offset);
    }
  }

  // ----- What the offset is -----

  /** Position p is the end of the first line, which ends with its only line end or with the text. */
  predicate EndsFirstLine(s: string, p: nat) {
    && 0 < p <= |s| && (forall i :: 0 <= i < p - 1 ==> s[i] != '\n')
    && (s[p - 1] == '\n' || p == |s|)
  }

  /** Position p stands behind the first line, which ends at `line`, and all line ends that follow it. */
  predicate EndsShebang(s: string, line: nat, p: nat) {
    && EndsFirstLine(s, line) && line <= p <= |s|
    && (forall i :: line <= i < p ==> s[i] == '\n') && (p < |s| ==> s[p] != '\n')
  }

  lemma {:induction false} FirstLineExactly(s: string)
    requires s != []
    ensures EndsFirstLine(s, |FirstLine(s)|)
  {
    FirstLineEndsOnce(s);
    if FirstLine(s)[|FirstLine(s)| - 1] != '\n' {
      UnendedLineIsAll(s);
    }
  }

  /** Without "#!" in front, nothing is skipped; with it, the first line and the empty lines behind it. */
  lemma {:induction false} OffsetExactly(s: string)
    ensures !(|s| >= 2 && s[..2] == "#!") ==> ShebangOffset(s) == 0
    ensures |s| >= 2 && s[..2] == "#!" ==> EndsShebang(s, |FirstLine(s)|, ShebangOffset(s))
  {
    var n := |FirstLine(s)|;
    if s != [] {
      FirstLineExactly(s);
      var ends := LineEnds(s[n..]);
      assert forall i :: n <= i < n + ends ==> s[i] == s[n..][i - n];
      if |s| >= 2 && s[..2] == "#!" {
        assert s[0] == '#' && s[1] == '!';
        assert n >= 2;
      }
      assert "#!" <= FirstLine(s) ==> s[..2] == "#!";
    }
  }

  /** A comment that only starts with '#' is no shebang. */
  lemma {:induction false} CommentIsNoShebang(s: string)
    requires "# " <= s
    ensures ShebangOffset(s) == 0
  {
    OffsetExactly(s);
    assert s[1] == ' ';
  }

  // ----- Measuring the old header -----

  function Lines(s: string): (lines: seq<string>)
    ensures lines != []
  {
    if s == [] then [[]]
    else
      var rest := Lines(s[1..]);
      if s[0] == '\n' then [[]] + rest else [[s[0]] + rest[0]] + rest[1..]
  }

  /** The characters of the first k lines, counting one line end for each. */
  function Counted(lines: seq<string>, k: nat): (n: nat)
    requires k <= |lines|
  {
    if k == 0 then 0 else Counted(lines, k - 1) + |lines[k - 1]| + 1
  }

  predicate IsSpace(c: char) {
    '\t' <= c <= '\r' || 28 as char <= c <= ' '
  }

  /** not line.strip(). */
  predicate Blank(line: string) {
    forall i :: 0 <= i < |line| ==> IsSpace(line[i])
  }

  /** The number of blank lines from line j on, up to `last`. */
  function BlankRun(lines: seq<string>, j: nat, last: nat): (n: nat)
    requires j <= last <= |lines|
    ensures j + n <= last
    decreases last - j
  {
    if j == last || !Blank(lines[j]) then 0 else 1 + BlankRun(lines, j + 1, last)
  }

  /** The first of the leading 20 lines that matches, from line i on. */
  function FirstMatching(lines: seq<string>, matches: string -> bool, i: nat): (m: nat)
    requires i <= |lines|
    ensures i <= m <= |lines|
    decreases |lines| - i
  {
    if i == |lines| || i >= 20 then |lines| else if matches(lines[i]) then i else FirstMatching(lines, matches, i + 1)
  }

  /** The number of lines that make up the old header. */
  function HeaderLines(lines: seq<string>, matches: string -> bool): (k: nat)
    ensures k <= |lines|
  {
    var m := FirstMatching(lines, matches, 0);
    if m == |lines| then 0
    else
      var last := if m + 5 < |lines| then m + 5 else |lines|;
      m + 1 + BlankRun(lines, m + 1, last)
  }

  function OldHeaderLength(s: string, matches: string -> bool, offset: nat): (n: nat) {
    var lines := Lines(Drop(Take(s, BYTES_TO_READ), offset));
    Counted(lines, HeaderLines(lines, matches))
  }

  /** extract_copyright_info(): the character count. */
  method ExtractOldHeaderLength(f: TextFile, matches: string -> bool, offset: nat) returns (count: nat)
    ensures count == OldHeaderLength(f.text, matches, offset)
  {
    hide Lines, Take, Drop, Blank;
    var lines := Lines(Drop(Take(f.text, BYTES_TO_READ), offset));
    count := 0;
    var i := 0;
    while i < |lines| && i < 20 && !matches(lines[i])
      invariant i <= |lines| && FirstMatching(lines, matches, 0) == FirstMatching(lines, matches, i)
      decreases |lines| - i
    {
      i := i + 1;
    }
    if i == |lines| || i >= 20 {
      return 0;
    }
    for j := 0 to i + 1
      invariant count == Counted(lines, j)
    {
      count := count + |lines[j]| + 1;
    }
    var last := if i + 5 < |lines| then i + 5 else |lines|;
    var j := i + 1;
    while j < last && Blank(lines[j])
      invariant i + 1 <= j <= last && count == Counted(lines, j)
      invariant i + 1 + BlankRun(lines, i + 1, last) == j + BlankRun(lines, j, last)
    {
      count := count + |lines[j]| + 1;
      j := j + 1;
    }
  }

  // ----- What the old header is -----

  /** The lines joined by line ends. */
  function Joined(lines: seq<string>): (s: string)
    requires lines != []
  {
    if |lines| == 1 then lines[0] else lines[0] + "\n" + Joined(lines[1..])
  }

  /** split('\n'): lines without line ends that make up the text. */
  lemma {:induction false} LinesExactly(s: string)
    ensures Joined(Lines(s)) == s && forall i :: 0 <= i < |Lines(s)| ==> '\n' !in Lines(s)[i]
  {
    if s != [] {
      LinesExactly(s[1..]);
      var rest := Lines(s[1..]);
      if s[0] == '\n' {
        assert ([[]] + rest)[1..] == rest;
      } else {
        assert ([[s[0]] + rest[0]] + rest[1..])[1..] == rest[1..];
      }
      assert s == [s[0]] + s[1..];
    }
  }

  /** The white space that strip() removes, as far as it is ASCII, and nothing else. */
  predicate OnlyWhiteSpace(line: string) {
    forall c :: c in line ==> c as int in [0x09, 0x0A, 0x0B, 0x0C, 0x0D, 0x1C, 0x1D, 0x1E, 0x1F, 0x20]
  }

  lemma {:induction false} BlankExactly(line: string)
    ensures Blank(line) <==> OnlyWhiteSpace(line)
  {
    forall c: char ensures IsSpace(c) <==> c as int in [0x09, 0x0A, 0x0B, 0x0C, 0x0D, 0x1C, 0x1D, 0x1E, 0x1F, 0x20] {
    }
    if OnlyWhiteSpace(line) {
      forall i | 0 <= i < |line| ensures IsSpace(line[i]) {
        assert line[i] in line;
      }
    }
  }

  /** Line m is the first that matches. */
  ghost predicate MatchesFirst(lines: seq<string>, matches: string -> bool, m: nat) {
    m < |lines| && matches(lines[m]) && forall i :: 0 <= i < m ==> !matches(lines[i])
  }

  /**
   The old header ends behind the first matching line, which has to be among the first 20, and behind the blank lines
   that follow it, at most four; without a match there is none.
   */
  ghost predicate EndsHeader(lines: seq<string>, matches: string -> bool, k: nat) {
    if exists m: nat :: m < 20 && MatchesFirst(lines, matches, m) then
      exists m: nat :: m < 20 && MatchesFirst(lines, matches, m) && m + 1 <= k <= m + 5 && k <= |lines|
        && (forall j :: m + 1 <= j < k ==> OnlyWhiteSpace(lines[j]))
        && (k == m + 5 || k == |lines| || !OnlyWhiteSpace(lines[k]))
    else k == 0
  }

  lemma {:induction false} BlankRunExactly(lines: seq<string>, j: nat, last: nat)
    requires j <= last <= |lines|
    ensures var k := j + BlankRun(lines, j, last);
      (forall i :: j <= i < k ==> OnlyWhiteSpace(lines[i])) && (k == last || !OnlyWhiteSpace(lines[k]))
    decreases last - j
  {
    hide Blank, OnlyWhiteSpace;
    if j < last {
      BlankExactly(lines[j]);
    }
    if j < last && Blank(lines[j]) {
      BlankRunExactly(lines, j + 1, last);
    }
  }

  lemma {:induction false} FirstMatchingExactly(lines: seq<string>, matches: string -> bool, i: nat)
    requires i <= |lines| && forall j :: 0 <= j < i ==> !matches(lines[j])
    ensures var m := FirstMatching(lines, matches, i);
      if m < |lines| then m < 20 && MatchesFirst(lines, matches, m)
      else forall m': nat :: m' < 20 ==> !MatchesFirst(lines, matches, m')
    decreases |lines| - i
  {
    if i < |lines| && i < 20 && !matches(lines[i]) {
      FirstMatchingExactly(lines, matches, i + 1);
    }
  }

  lemma {:induction false} HeaderLinesExactly(lines: seq<string>, matches: string -> bool)
    ensures EndsHeader(lines, matches, HeaderLines(lines, matches))
  {
    hide Blank, OnlyWhiteSpace;
    FirstMatchingExactly(lines, matches, 0);
    var m := FirstMatching(lines, matches, 0);
    if m < |lines| {
      BlankRunExactly(lines, m + 1, if m + 5 < |lines| then m + 5 else |lines|);
    }
  }

  /** What is counted: the lines of the header among the first 4096 characters, each with a line end. */
  lemma {:induction false} OldHeaderExactly(s: string, matches: string -> bool, offset: nat)
    returns (lines: seq<string>, k: nat)
    ensures lines != [] && (forall i :: 0 <= i < |lines| ==> '\n' !in lines[i])
    ensures Joined(lines) == var read := if |s| <= 4096 then s else s[..4096];
                             if offset <= |read| then read[offset..] else []
    ensures EndsHeader(lines, matches, k) && k <= |lines|
    ensures OldHeaderLength(s, matches, offset) == if k == 0 then 0 else |Joined(lines[..k])| + 1
  {
    hide FirstMatching, EndsHeader, Blank, HeaderLines;
    lines := Lines(Drop(Take(s, BYTES_TO_READ), offset));
    k := HeaderLines(lines, matches);
    LinesExactly(Drop(Take(s, BYTES_TO_READ), offset));
    HeaderLinesExactly(lines, matches);
    if k > 0 {
      CountedIsJoined(lines, k);
    }
  }

  lemma {:induction false} CountedIsJoined(lines: seq<string>, k: nat)
    requires 0 < k <= |lines|
    ensures Counted(lines, k) == |Joined(lines[..k])| + 1
  {
    if k == 1 {
      assert Counted(lines, 0) == 0;
    } else {
      CountedIsJoined(lines, k - 1);
      JoinedMore(lines[..k - 1], lines[k - 1]);
      assert lines[..k] == lines[..k - 1] + [lines[k - 1]];
    }
  }

  lemma {:induction false} JoinedMore(lines: seq<string>, last: string)
    requires lines != []
    ensures Joined(lines + [last]) == Joined(lines) + "\n" + last
  {
    if |lines| > 1 {
      assert (lines + [last])[1..] == lines[1..] + [last];
      JoinedMore(lines[1..], last);
      assert lines[0] + "\n" + (Joined(lines[1..]) + "\n" + last) == lines[0] + "\n" + Joined(lines[1..]) + "\n" + last;
    } else {
      assert (lines + [last])[1..] == [last];
    }
  }

  // ----- The pipeline -----

  /** The text with the new header behind the first `offset` characters, in place of the old one. */
  predicate FixedAt(s: string, fixed: string, header: string, matches: string -> bool, offset: nat) {
    && offset <= |s|
    && fixed == s[..offset] + header + "\n" + Drop(s, offset + OldHeaderLength(s, matches, offset))
  }

  /** The new header stands in front, or behind the shebang line and the empty lines that follow it. */
  ghost predicate IsFixed(s: string, fixed: string, header: string, matches: string -> bool) {
    if |s| >= 2 && s[..2] == "#!" then
      exists line: nat, offset: nat :: EndsShebang(s, line, offset) && FixedAt(s, fixed, header, matches, offset)
    else FixedAt(s, fixed, header, matches, 0)
  }

  lemma {:induction false} FixedInBothCases(s: string, fixed: string, header: string, matches: string -> bool)
    requires FixedAt(s, fixed, header, matches, ShebangOffset(s))
    ensures IsFixed(s, fixed, header, matches)
  {
    hide FixedAt, EndsShebang, ShebangOffset;
    OffsetExactly(s);
  }

  /** The fixing branch of process_files(): measure, cut, insert; it always succeeds. */
  method FixFile(f: TextFile, header: string, matches: string -> bool) returns (ok: bool)
    modifies f
    ensures ok
    ensures FixedAt(old(f.text), f.text, header, matches, ShebangOffset(old(f.text)))
    ensures IsFixed(old(f.text), f.text, header, matches)
  {
    hide ShebangOffset, OldHeaderLength, PrefixLength, IsFixed;
    ghost var s := f.text;
    var offset := DetectShebangOffset(f);
    var count := ExtractOldHeaderLength(f, matches, offset);
    DetectedOffsetAccepted(s, 0);
    DetectedOffsetAccepted(s, count);
    if count > 0 {
      RemoveOldHeader(f, count, offset);
    } else {
      assert Take(s, offset) + Drop(s, offset) == s;
    }
    ok := FixCopyright(f, header, offset);
    FixedInBothCases(s, f.text, header, matches);
  }

  // ----- What is cut out -----

  /** Position p stands behind a line end, or at or behind the end of the text. */
  predicate AtLineStart(s: string, p: nat) {
    p >= |s| || p == 0 || s[p - 1] == '\n'
  }

  lemma {:induction false} CountedLines(s: string, k: nat)
    requires k <= |Lines(s)|
    ensures k < |Lines(s)| ==> Counted(Lines(s), k) <= |s| && (k > 0 ==> s[Counted(Lines(s), k) - 1] == '\n')
    ensures k == |Lines(s)| ==> Counted(Lines(s), k) == |s| + 1
    decreases |s|
  {
    if s == [] {
      assert k == 1 ==> Counted([[]], 1) == Counted([[]], 0) + 1;
    } else if k > 0 {
      var rest := Lines(s[1..]);
      if s[0] == '\n' {
        CountedCons(rest, [], k);
        CountedLines(s[1..], k - 1);
      } else {
        CountedLines(s[1..], k);
        CountedLonger(rest, s[0], k);
      }
    }
  }

  lemma {:induction false} CountedCons(rest: seq<string>, first: string, k: nat)
    requires 0 < k <= |rest| + 1
    ensures Counted([first] + rest, k) == |first| + 1 + Counted(rest, k - 1)
  {
    if k > 1 {
      CountedCons(rest, first, k - 1);
    } else {
      assert Counted([first] + rest, 0) == 0;
    }
  }

  lemma {:induction false} CountedLonger(rest: seq<string>, c: char, k: nat)
    requires rest != [] && 0 < k <= |rest|
    ensures Counted([[c] + rest[0]] + rest[1..], k) == Counted(rest, k) + 1
  {
    if k > 1 {
      CountedLonger(rest, c, k - 1);
    } else {
      assert Counted(rest, 0) == 0 && Counted([[c] + rest[0]] + rest[1..], 0) == 0;
    }
  }

  lemma {:induction false} OffsetAtLineStart(s: string)
    ensures AtLineStart(s, ShebangOffset(s))
  {
    var line, offset := |FirstLine(s)|, ShebangOffset(s);
    if offset > line {
      assert s[offset - 1] == s[line..][offset - 1 - line];
    } else if offset > 0 && FirstLine(s)[line - 1] != '\n' {
      UnendedLineIsAll(s);
    }
  }

  /**
   Only whole lines are cut out, if and only if the counted header does not run, in the middle of a line, into the
   limit of what is read.
   */
  lemma {:induction false} WholeLinesExactly(s: string, matches: string -> bool)
    ensures var offset := ShebangOffset(s);
      var lines := Lines(Drop(Take(s, BYTES_TO_READ), offset));
      var limit := if offset < BYTES_TO_READ then BYTES_TO_READ else offset;
      AtLineStart(s, offset + OldHeaderLength(s, matches, offset))
      <==> (HeaderLines(lines, matches) == |lines| && limit < |s| ==> AtLineStart(s, limit + 1))
  {
    OffsetAtLineStart(s);
    hide ShebangOffset, Lines, HeaderLines;
    var offset := ShebangOffset(s);
    var text := Drop(Take(s, BYTES_TO_READ), offset);
    var k := HeaderLines(Lines(text), matches);
    CountedLines(text, k);
    if 0 < k < |Lines(text)| {
      var p := Counted(Lines(text), k);
      assert text[p - 1] == s[offset + p - 1];
    }
  }

  lemma {:induction false} UnendedText(s: string)
    requires '\n' !in s
    ensures FirstLine(s) == s && Lines(s) == [s]
  {
    if s != [] {
      UnendedText(s[1..]);
      assert s == [s[0]] + s[1..];
    }
  }

  /** One long line that matches: it is cut in two. */
  lemma {:induction false} LongLineIsCutInTwo(s: string, matches: string -> bool)
    requires |s| > BYTES_TO_READ + 1 && '\n' !in s && s[0] != '#' && matches(s[..BYTES_TO_READ])
    ensures ShebangOffset(s) == 0 && OldHeaderLength(s, matches, 0) == BYTES_TO_READ + 1
    ensures !AtLineStart(s, BYTES_TO_READ + 1)
  {
    var text := s[..BYTES_TO_READ];
    UnendedText(s);
    UnendedText(text);
    assert Drop(Take(s, BYTES_TO_READ), 0) == text;
    assert FirstMatching([text], matches, 0) == 0;
    assert Counted([text], 1) == Counted([text], 0) + |text| + 1;
  }
}
