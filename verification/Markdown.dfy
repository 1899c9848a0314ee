/**
 The line tokenizer and the HTML escaper of server/lib/markdown.ts.

 One iteration of the tokenizer's outer loop is `StepAt`. It stalls on one kind of line,
 and the loop ends exactly for the inputs without such a line outside a fenced block; for
 those the blocks' line spans and the skipped blank lines partition the input in order.
 */
module Markdown {
  import opened Numerals
  import opened Splitting

  datatype Block =
    | Header(level: nat, text: string)
    | Paragraph(text: string)
    | Bullets(items: seq<string>)
    | Numbered(items: seq<string>)
    | Code(raw: string)

  type Lines = seq<string>

  // ---------------------------------------------------------------- lines

  function DropCarriageReturn(l: string): string {
    if l != "" && l[|l| - 1] == '\r' then l[..|l| - 1] else l
  }

  /** `input.split(/\r?\n/)`. */
  function LinesOf(input: string): (r: Lines)
    ensures |r| >= 1
  {
    var p := Split(input, '\n');
    seq(|p|, k requires 0 <= k < |p| => if k < |p| - 1 then DropCarriageReturn(p[k]) else p[k])
  }

  /** Lines with what ended them, put together again. */
  function Ended(lines: Lines, ends: seq<string>): string
    requires |lines| == |ends|
  {
    if lines == [] then "" else lines[0] + ends[0] + Ended(lines[1..], ends[1..])
  }

  /** Line ends: a line feed, or a carriage return and a line feed, which takes all it can; none after the last line. */
  predicate Ends(lines: Lines, ends: seq<string>) {
    && |lines| == |ends| >= 1 && ends[|ends| - 1] == ""
    && (forall k :: 0 <= k < |lines| ==> '\n' !in lines[k])
    && forall k :: 0 <= k < |lines| - 1 ==>
         ends[k] == "\r\n" || (ends[k] == "\n" && (lines[k] == "" || lines[k][|lines[k]| - 1] != '\r'))
  }

  /** Nothing gets lost when an input is split: it is its lines and their ends. */
  lemma LinesSpell(input: string) returns (ends: seq<string>)
    ensures Ends(LinesOf(input), ends) && Ended(LinesOf(input), ends) == input
  {
    var p := Split(input, '\n');
    JoinOfSplit(input, '\n');
    ends := EndsOf(p);
    Joined(p);
    assert LinesOf(input) == Stripped(p);
    EndsAre(p);
  }

  lemma EndsAre(p: seq<string>)
    requires |p| >= 1 && forall k :: 0 <= k < |p| ==> '\n' !in p[k]
    ensures Ends(Stripped(p), EndsOf(p))
  {
    forall k | 0 <= k < |p| ensures '\n' !in Stripped(p)[k] { assert forall c :: c in Stripped(p)[k] ==> c in p[k]; }
  }

  function EndsOf(p: seq<string>): (ends: seq<string>)
    ensures |ends| == |p|
  {
    seq(|p|, k requires 0 <= k < |p| =>
      if k == |p| - 1 then "" else if p[k] != "" && p[k][|p[k]| - 1] == '\r' then "\r\n" else "\n")
  }

  function Stripped(p: seq<string>): (lines: Lines)
    ensures |lines| == |p|
  {
    seq(|p|, k requires 0 <= k < |p| => if k < |p| - 1 then DropCarriageReturn(p[k]) else p[k])
  }

  lemma {:induction false} Joined(p: seq<string>)
    requires |p| >= 1
    ensures Ended(Stripped(p), EndsOf(p)) == Join(p, '\n')
  {
    assert Stripped(p)[1..] == Stripped(p[1..]) && EndsOf(p)[1..] == EndsOf(p[1..]);
    if |p| > 1 {
      Joined(p[1..]);
      Unstripped(p[0]);
    }
  }

  lemma Unstripped(l: string)
    ensures DropCarriageReturn(l) + (if l != "" && l[|l| - 1] == '\r' then "\r\n" else "\n") == l + "\n"
  {
  }

  /** What `\s` matches. */
  predicate IsSpace(c: char) {
    var u := c as int;
    || 9 <= u <= 13 || u == 32 || u == 0xA0 || u == 0x1680 || 0x2000 <= u <= 0x200A
    || u == 0x2028 || u == 0x2029 || u == 0x202F || u == 0x205F || u == 0x3000 || u == 0xFEFF
  }

  /** What `.` does not match. */
  predicate IsTerminator(c: char) {
    var u := c as int;
    u == 10 || u == 13 || u == 0x2028 || u == 0x2029
  }

  predicate IsHash(c: char) { c == '#' }

  /** How many characters from the front satisfy a test. */
  function RunLength(s: string, test: char -> bool): (n: nat)
    ensures n <= |s| && (forall k :: 0 <= k < n ==> test(s[k])) && (n < |s| ==> !test(s[n]))
  {
    if s == "" || !test(s[0]) then 0 else 1 + RunLength(s[1..], test)
  }

  function SkipSpaces(s: string): string { s[RunLength(s, IsSpace)..] }

  /** `/^\s*$/` */
  predicate Blank(l: string) { RunLength(l, IsSpace) == |l| }

  /** A line of three backticks and anything. */
  predicate Fence(l: string) { |l| >= 3 && l[0] == l[1] == l[2] == '`' }

  /** `/^#{1,6}\s+/` */
  predicate HeaderStart(l: string) {
    var h := RunLength(l, IsHash);
    1 <= h <= 6 && h < |l| && IsSpace(l[h])
  }

  function HeaderText(l: string): string { SkipSpaces(l[RunLength(l, IsHash)..]) }

  /** `/^(#{1,6})\s+(.*)$/` */
  predicate HeaderLine(l: string) {
    HeaderStart(l) && forall k :: 0 <= k < |HeaderText(l)| ==> !IsTerminator(HeaderText(l)[k])
  }

  /** `/^[-*]\s+/` */
  predicate BulletLine(l: string) { |l| >= 2 && (l[0] == '-' || l[0] == '*') && IsSpace(l[1]) }

  function BulletText(l: string): string
    requires BulletLine(l)
  {
    SkipSpaces(l[1..])
  }

  /** `/^\d+\.\s+/` */
  predicate NumberedLine(l: string) {
    var d := RunLength(l, IsDigit);
    1 <= d && d + 1 < |l| && l[d] == '.' && IsSpace(l[d + 1])
  }

  function NumberedText(l: string): string
    requires NumberedLine(l)
  {
    SkipSpaces(l[RunLength(l, IsDigit) + 1..])
  }

  /** What ends a paragraph. */
  predicate Breaks(l: string) { Blank(l) || Fence(l) || HeaderStart(l) || BulletLine(l) || NumberedLine(l) }

  predicate PlainLine(l: string) { !Breaks(l) }

  predicate NoFence(l: string) { !Fence(l) }

  /** Starts like a header but is none: it ends a paragraph and begins nothing. */
  predicate Stuck(l: string) { HeaderStart(l) && !HeaderLine(l) }

  lemma StuckIsNothingElse(l: string)
    requires Stuck(l)
    ensures !Blank(l) && !Fence(l) && !HeaderLine(l) && !BulletLine(l) && !NumberedLine(l) && Breaks(l)
  {
    assert l[0] == '#' && !IsSpace('#') && !IsDigit('#');
  }

  // ---------------------------------------------------------------- what lines are made of

  function Hashes(n: nat): (s: string)
    ensures |s| == n && forall k :: 0 <= k < n ==> s[k] == '#'
  {
    seq(n, _ => '#')
  }

  predicate Spaces(s: string) { s != "" && forall k :: 0 <= k < |s| ==> IsSpace(s[k]) }

  /** A mark, at least one space, and a text that does not start with one. */
  predicate MadeOf(l: string, mark: string, gap: string, text: string) {
    l == mark + gap + text && Spaces(gap) && (text != "" ==> !IsSpace(text[0]))
  }

  ghost predicate HeaderOf(l: string, level: nat, text: string) {
    1 <= level <= 6 && (exists gap :: MadeOf(l, Hashes(level), gap, text)) && forall k :: 0 <= k < |text| ==> !IsTerminator(text[k])
  }

  ghost predicate BulletOf(l: string, text: string) { exists gap :: MadeOf(l, "-", gap, text) || MadeOf(l, "*", gap, text) }

  ghost predicate NumberedOf(l: string, text: string) {
    exists number, gap :: number != "" && AllDigits(number) && MadeOf(l, number + ".", gap, text)
  }

  /** After the first `n` characters: spaces, and what is left of them. */
  lemma Rest(l: string, n: nat)
    requires n < |l| && IsSpace(l[n])
    ensures MadeOf(l, l[..n], l[n..][..RunLength(l[n..], IsSpace)], SkipSpaces(l[n..]))
  {
    var rest := l[n..];
    var m := RunLength(rest, IsSpace);
    assert l == l[..n] + rest && rest == rest[..m] + rest[m..];
    assert rest[0] == l[n];
  }

  /** Where the mark ends there is only one way to go on. */
  lemma OnlyRest(l: string, mark: string, gap: string, text: string)
    requires MadeOf(l, mark, gap, text)
    ensures |mark| < |l| && l[..|mark|] == mark && IsSpace(l[|mark|]) && text == SkipSpaces(l[|mark|..])
  {
    var rest := l[|mark|..];
    assert rest == gap + text && rest[0] == gap[0];
    RunIs(rest, |gap|, IsSpace);
  }

  lemma {:induction false} RunIs(s: string, n: nat, test: char -> bool)
    requires n <= |s| && (forall k :: 0 <= k < n ==> test(s[k])) && (n < |s| ==> !test(s[n]))
    ensures RunLength(s, test) == n
  {
    if n > 0 { RunIs(s[1..], n - 1, test); }
  }

  lemma HeaderIs(l: string, level: nat, text: string)
    ensures HeaderOf(l, level, text) <==> HeaderLine(l) && level == RunLength(l, IsHash) && text == HeaderText(l)
  {
    if HeaderLine(l) && level == RunLength(l, IsHash) && text == HeaderText(l) {
      Rest(l, level);
      assert l[..level] == Hashes(level);
    }
    if HeaderOf(l, level, text) {
      var gap :| MadeOf(l, Hashes(level), gap, text);
      OnlyRest(l, Hashes(level), gap, text);
      assert forall k :: 0 <= k < level ==> l[k] == l[..level][k];
      RunIs(l, level, IsHash);
    }
  }

  lemma BulletIs(l: string, text: string)
    ensures BulletOf(l, text) <==> BulletLine(l) && text == BulletText(l)
  {
    if BulletLine(l) && text == BulletText(l) {
      Rest(l, 1);
      assert l[..1] == "-" || l[..1] == "*";
    }
    if BulletOf(l, text) {
      var gap :| MadeOf(l, "-", gap, text) || MadeOf(l, "*", gap, text);
      var mark := if MadeOf(l, "-", gap, text) then "-" else "*";
      OnlyRest(l, mark, gap, text);
      assert l[0] == l[..1][0];
    }
  }

  lemma NumberedIs(l: string, text: string)
    ensures NumberedOf(l, text) <==> NumberedLine(l) && text == NumberedText(l)
  {
    if NumberedLine(l) && text == NumberedText(l) { NumberedMade(l); }
    if NumberedOf(l, text) {
      var number, gap :| number != "" && AllDigits(number) && MadeOf(l, number + ".", gap, text);
      NumberedRead(l, number, gap, text);
    }
  }

  lemma NumberedMade(l: string)
    requires NumberedLine(l)
    ensures NumberedOf(l, NumberedText(l))
  {
    var d := RunLength(l, IsDigit);
    var number := l[..d];
    Rest(l, d + 1);
    assert l[..d + 1] == number + ".";
    assert number != "" && AllDigits(number);
  }

  lemma NumberedRead(l: string, number: string, gap: string, text: string)
    requires number != "" && AllDigits(number) && MadeOf(l, number + ".", gap, text)
    ensures NumberedLine(l) && text == NumberedText(l)
  {
    OnlyRest(l, number + ".", gap, text);
    DigitsIn(l, number);
  }

  lemma DigitsIn(l: string, number: string)
    requires number != "" && AllDigits(number) && |number| < |l| && l[..|number| + 1] == number + "."
    ensures RunLength(l, IsDigit) == |number| && l[|number|] == '.'
  {
    assert forall k :: 0 <= k <= |number| ==> l[k] == (number + ".")[k];
    RunIs(l, |number|, IsDigit);
  }

  /** The kinds of lines, by what they are made of. */
  lemma LineKinds(l: string)
    ensures Blank(l) <==> forall k :: 0 <= k < |l| ==> IsSpace(l[k])
    ensures Fence(l) <==> "```" <= l
    ensures HeaderStart(l) <==> exists n :: 1 <= n <= 6 && n < |l| && l[..n] == Hashes(n) && IsSpace(l[n])
    ensures HeaderLine(l) <==> exists level, text :: HeaderOf(l, level, text)
    ensures BulletLine(l) <==> exists text :: BulletOf(l, text)
    ensures NumberedLine(l) <==> exists text :: NumberedOf(l, text)
    ensures PlainLine(l) <==> !Blank(l) && !Fence(l) && !HeaderStart(l) && !BulletLine(l) && !NumberedLine(l)
  {
    if forall k :: 0 <= k < |l| ==> IsSpace(l[k]) { RunIs(l, |l|, IsSpace); }
    StartKinds(l);
    if HeaderLine(l) { HeaderIs(l, RunLength(l, IsHash), HeaderText(l)); }
    if level, text :| HeaderOf(l, level, text) { HeaderIs(l, level, text); }
    if BulletLine(l) { BulletIs(l, BulletText(l)); }
    if text :| BulletOf(l, text) { BulletIs(l, text); }
    if NumberedLine(l) { NumberedIs(l, NumberedText(l)); }
    if text :| NumberedOf(l, text) { NumberedIs(l, text); }
  }

  lemma StartKinds(l: string)
    ensures Fence(l) <==> "```" <= l
    ensures HeaderStart(l) <==> exists n :: 1 <= n <= 6 && n < |l| && l[..n] == Hashes(n) && IsSpace(l[n])
  {
    if HeaderStart(l) {
      var h := RunLength(l, IsHash);
      assert l[..h] == Hashes(h);
    }
    if n :| 1 <= n <= 6 && n < |l| && l[..n] == Hashes(n) && IsSpace(l[n]) {
      assert forall k :: 0 <= k < n ==> l[k] == l[..n][k];
      RunIs(l, n, IsHash);
    }
  }

  // ---------------------------------------------------------------- one iteration

  /** The first line from `i` on that fails a test, or the end. */
  function RunEnd(lines: Lines, i: nat, test: string -> bool): (j: nat)
    requires i <= |lines|
    ensures i <= j <= |lines| && (forall k :: i <= k < j ==> test(lines[k])) && (j < |lines| ==> !test(lines[j]))
    decreases |lines| - i
  {
    if i == |lines| || !test(lines[i]) then i else RunEnd(lines, i + 1, test)
  }

  function BulletTexts(lines: Lines): (r: seq<string>)
    requires forall k :: 0 <= k < |lines| ==> BulletLine(lines[k])
    ensures |r| == |lines| && forall k :: 0 <= k < |lines| ==> r[k] == BulletText(lines[k])
  {
    if lines == [] then [] else [BulletText(lines[0])] + BulletTexts(lines[1..])
  }

  function NumberedTexts(lines: Lines): (r: seq<string>)
    requires forall k :: 0 <= k < |lines| ==> NumberedLine(lines[k])
    ensures |r| == |lines| && forall k :: 0 <= k < |lines| ==> r[k] == NumberedText(lines[k])
  {
    if lines == [] then [] else [NumberedText(lines[0])] + NumberedTexts(lines[1..])
  }

  datatype Span = Span(block: Block, from: nat, to: nat)

  /** The line after the last one an iteration at line `i` takes. */
  function StepEnd(lines: Lines, i: nat): (j: nat)
    requires i < |lines|
    ensures i <= j <= |lines|
  {
    var line := lines[i];
    if Blank(line) then i + 1
    else if Fence(line) then
      var close := RunEnd(lines, i + 1, NoFence);
      if close < |lines| then close + 1 else close
    else if HeaderLine(line) then i + 1
    else if BulletLine(line) then RunEnd(lines, i, BulletLine)
    else if NumberedLine(line) then RunEnd(lines, i, NumberedLine)
    else RunEnd(lines, i, PlainLine)
  }

  /** The block an iteration at a line that is not blank makes. */
  function BlockAt(lines: Lines, i: nat): Block
    requires i < |lines| && !Blank(lines[i])
  {
    var line := lines[i];
    if Fence(line) then Code(Join(lines[i + 1..RunEnd(lines, i + 1, NoFence)], '\n'))
    else if HeaderLine(line) then Header(RunLength(line, IsHash), HeaderText(line))
    else if BulletLine(line) then Bullets(BulletTexts(lines[i..StepEnd(lines, i)]))
    else if NumberedLine(line) then Numbered(NumberedTexts(lines[i..StepEnd(lines, i)]))
    else Paragraph(Join(lines[i..StepEnd(lines, i)], ' '))
  }

  lemma StallsIffStuck(lines: Lines, i: nat)
    requires i < |lines|
    ensures StepEnd(lines, i) == i <==> Stuck(lines[i])
  {
    if Stuck(lines[i]) { StuckIsNothingElse(lines[i]); }
  }

  // ---------------------------------------------------------------- fences

  /** Whether line `i` lies inside a fenced block: every fence line opens or closes one. */
  predicate InFence(lines: Lines, i: nat)
    requires i <= |lines|
  {
    i > 0 && if Fence(lines[i - 1]) then !InFence(lines, i - 1) else InFence(lines, i - 1)
  }

  /** No stuck line outside fenced blocks. */
  predicate Clean(lines: Lines) {
    forall i :: 0 <= i < |lines| && !InFence(lines, i) ==> !Stuck(lines[i])
  }

  lemma {:induction false} InFenceAlong(lines: Lines, i: nat, j: nat)
    requires i <= j <= |lines| && forall k :: i <= k < j ==> !Fence(lines[k])
    ensures InFence(lines, j) == InFence(lines, i)
    decreases j
  {
    if i < j { InFenceAlong(lines, i, j - 1); }
  }

  /** An iteration that starts outside fenced blocks ends outside them. */
  lemma StepLeavesFences(lines: Lines, i: nat)
    requires i < |lines| && !InFence(lines, i)
    ensures StepEnd(lines, i) < |lines| ==> !InFence(lines, StepEnd(lines, i))
  {
    var line, j := lines[i], StepEnd(lines, i);
    if !Blank(line) && Fence(line) {
      var close := RunEnd(lines, i + 1, NoFence);
      InFenceAlong(lines, i + 1, close);
    } else {
      NotFenceUpTo(lines, i);
      InFenceAlong(lines, i, j);
    }
  }

  lemma NotFenceUpTo(lines: Lines, i: nat)
    requires i < |lines| && (Blank(lines[i]) || !Fence(lines[i]))
    ensures forall k :: i <= k < StepEnd(lines, i) ==> !Fence(lines[k])
  {
    assert !IsSpace('`') && !IsHash('`') && !IsDigit('`');
    assert forall l: string :: Blank(l) && l != "" ==> IsSpace(l[0]);
  }

  // ---------------------------------------------------------------- termination

  /** The line index after `n` iterations; at the end it stays. */
  function Position(lines: Lines, n: nat): (i: nat)
    ensures i <= |lines|
  {
    if n == 0 then 0
    else
      var i := Position(lines, n - 1);
      if i == |lines| then i else StepEnd(lines, i)
  }

  ghost predicate Terminates(lines: Lines) { exists n :: Position(lines, n) == |lines| }

  /** A line index at which the outer loop can be: the end, or outside fenced blocks. */
  predicate Outside(lines: Lines, i: nat) { i == |lines| || (i < |lines| && !InFence(lines, i)) }

  lemma StepStaysOutside(lines: Lines, i: nat)
    requires i < |lines| && Outside(lines, i)
    ensures Outside(lines, StepEnd(lines, i))
    ensures Clean(lines) ==> StepEnd(lines, i) > i
  {
    StepLeavesFences(lines, i);
    StallsIffStuck(lines, i);
  }

  /** No iteration jumps over a stuck line outside fenced blocks. */
  lemma StepStopsAtStuck(lines: Lines, i: nat, k: nat)
    requires i <= k < |lines| && Outside(lines, i) && Outside(lines, k) && Stuck(lines[k])
    ensures StepEnd(lines, i) <= k
  {
    StuckIsNothingElse(lines[k]);
    if !Blank(lines[i]) && Fence(lines[i]) {
      var close := RunEnd(lines, i + 1, NoFence);
      if i < k && k <= close { InFenceAlong(lines, i + 1, k); }
    }
  }

  lemma NextPosition(lines: Lines, n: nat)
    requires n > 0 && Outside(lines, Position(lines, n - 1))
    ensures Outside(lines, Position(lines, n))
    ensures Clean(lines) ==> Position(lines, n) == |lines| || Position(lines, n) > Position(lines, n - 1)
  {
    var i := Position(lines, n - 1);
    if i < |lines| { StepStaysOutside(lines, i); }
  }

  lemma {:induction false} PositionOutside(lines: Lines, n: nat) returns (i: nat)
    ensures i == Position(lines, n) && Outside(lines, i)
    ensures Clean(lines) && n <= |lines| ==> i >= n
  {
    i := 0;
    if n > 0 {
      i := PositionOutside(lines, n - 1);
      NextPosition(lines, n);
      i := Position(lines, n);
    }
  }

  lemma StuckStep(lines: Lines, i: nat, k: nat)
    requires i <= k < |lines| && Outside(lines, i) && Outside(lines, k) && Stuck(lines[k])
    ensures StepEnd(lines, i) <= k && Outside(lines, StepEnd(lines, i))
  {
    StepStaysOutside(lines, i);
    StepStopsAtStuck(lines, i, k);
  }

  /** What holds at line 0 and is kept by every iteration holds wherever the loop gets. */
  lemma {:induction false} Always(lines: Lines, inv: nat -> bool, n: nat)
    requires inv(0) && forall i: nat :: i < |lines| && inv(i) ==> inv(StepEnd(lines, i))
    ensures inv(Position(lines, n))
  {
    if n > 0 { Always(lines, inv, n - 1); }
  }

  lemma NeverPastStuck(lines: Lines, k: nat, n: nat)
    requires k < |lines| && Outside(lines, k) && Stuck(lines[k])
    ensures Position(lines, n) <= k
  {
    var inv := (i: nat) => i <= k && Outside(lines, i);
    forall i: nat | i < |lines| && inv(i) ensures inv(StepEnd(lines, i)) { StuckStep(lines, i, k); }
    Always(lines, inv, n);
  }

  /** The outer loop ends exactly when no line outside fenced blocks is stuck. */
  lemma TerminatesIffClean(lines: Lines)
    ensures Terminates(lines) <==> Clean(lines)
  {
    if Clean(lines) {
      var i := PositionOutside(lines, |lines|);
    } else {
      var k :| 0 <= k < |lines| && !InFence(lines, k) && Stuck(lines[k]);
      forall n ensures Position(lines, n) < |lines| { NeverPastStuck(lines, k, n); }
    }
  }

  /** Lines without a bare carriage return, U+2028 or U+2029 are never stuck. */
  lemma PlainTextIsClean(lines: Lines)
    requires forall i, k :: 0 <= i < |lines| && 0 <= k < |lines[i]| ==> !IsTerminator(lines[i][k])
    ensures Clean(lines)
  {
    forall i | 0 <= i < |lines| ensures !Stuck(lines[i]) { NotStuck(lines[i]); }
  }

  lemma NotStuck(l: string)
    requires forall k :: 0 <= k < |l| ==> !IsTerminator(l[k])
    ensures !Stuck(l)
  {
    if HeaderStart(l) {
      var h := RunLength(l, IsHash);
      var s := RunLength(l[h..], IsSpace);
      assert HeaderText(l) == l[h + s..];
    }
  }

  /** The line `# a` followed by a bare carriage return stalls the loop. */
  lemma BareReturnStalls()
    ensures !Terminates(LinesOf("# a\r"))
  {
    var l := "# a\r";
    SplitWithout(l, '\n');
    assert LinesOf(l) == [l];
    assert RunLength(l, IsHash) == 1;
    assert l[1..] == " a\r" && RunLength(" a\r", IsSpace) == 1 && " a\r"[1..] == "a\r";
    assert HeaderText(l) == "a\r" && IsTerminator("a\r"[1]);
    assert !InFence([l], 0) && Stuck([l][0]);
    TerminatesIffClean([l]);
  }

  // ---------------------------------------------------------------- the tokenizer

  /** The blocks from line `i` on, with their line spans. */
  function SpansFrom(lines: Lines, i: nat): seq<Span>
    requires i <= |lines| && Clean(lines) && Outside(lines, i)
    decreases |lines| - i
  {
    if i == |lines| then []
    else
      StepStaysOutside(lines, i);
      var j := StepEnd(lines, i);
      if Blank(lines[i]) then SpansFrom(lines, j) else [Span(BlockAt(lines, i), i, j)] + SpansFrom(lines, j)
  }

  function BlocksOf(spans: seq<Span>): seq<Block> {
    if spans == [] then [] else [spans[0].block] + BlocksOf(spans[1..])
  }

  lemma BlocksOfSpan(s: Span, spans: seq<Span>)
    ensures BlocksOf([s] + spans) == [s.block] + BlocksOf(spans)
  {
    assert ([s] + spans)[1..] == spans;
  }

  method Tokenize(input: string) returns (blocks: seq<Block>)
    requires Clean(LinesOf(input))
    ensures blocks == BlocksOf(SpansFrom(LinesOf(input), 0))
  {
    var lines := LinesOf(input);
    blocks := [];
    var i := 0;
    ConcatFacts(BlocksOf(SpansFrom(lines, 0)), [], []);
    while i < |lines|
      invariant Outside(lines, i)
      invariant blocks + BlocksOf(SpansFrom(lines, i)) == BlocksOf(SpansFrom(lines, 0))
      decreases |lines| - i
    {
      StepStaysOutside(lines, i);
      var start := i;
      if Blank(lines[i]) {
        i := i + 1;
        continue;
      }
      var block;
      block, i := NextBlock(lines, start);
      BlocksOfSpan(Span(block, start, i), SpansFrom(lines, i));
      ConcatFacts(blocks, [block], BlocksOf(SpansFrom(lines, i)));
      blocks := blocks + [block];
    }
    ConcatFacts(blocks, [], []);
  }

  /** The rest of the outer loop's body, lines 101-161 of the source. */
  method NextBlock(lines: Lines, start: nat) returns (block: Block, i: nat)
    requires start < |lines| && !Blank(lines[start])
    ensures block == BlockAt(lines, start) && i == StepEnd(lines, start)
  {
    i := start;
    var line := lines[i];
    if Fence(line) {
      i := SkipWhile(lines, start + 1, NoFence);
      block := Code(Join(lines[start + 1..i], '\n'));
      if i < |lines| { i := i + 1; }
    } else if HeaderLine(line) {
      block := Header(RunLength(line, IsHash), HeaderText(line));
      i := i + 1;
    } else if BulletLine(line) {
      i := SkipWhile(lines, start, BulletLine);
      block := Bullets(BulletTexts(lines[start..i]));
    } else if NumberedLine(line) {
      i := SkipWhile(lines, start, NumberedLine);
      block := Numbered(NumberedTexts(lines[start..i]));
    } else {
      i := SkipWhile(lines, start, PlainLine);
      block := Paragraph(Join(lines[start..i], ' '));
    }
  }

  /** The inner loops: forward while the lines pass a test. */
  method SkipWhile(lines: Lines, start: nat, test: string -> bool) returns (i: nat)
    requires start <= |lines|
    ensures i == RunEnd(lines, start, test)
  {
    i := start;
    while i < |lines| && test(lines[i])
      invariant start <= i <= |lines| && RunEnd(lines, i, test) == RunEnd(lines, start, test)
    {
      i := i + 1;
    }
  }

  // ---------------------------------------------------------------- what the blocks say

  /** A block tells what its lines hold, and its span could not be longer. */
  ghost predicate Describes(b: Block, lines: Lines, from: nat, to: nat)
    requires from < to <= |lines|
  {
    var here := lines[from..to];
    match b
    case Header(level, text) =>
      to == from + 1 && HeaderOf(here[0], level, text)
    case Paragraph(text) =>
      && (forall l | l in here :: PlainLine(l)) && (to < |lines| ==> !PlainLine(lines[to]))
      && text == Join(here, ' ')
    case Bullets(items) =>
      && (forall l | l in here :: BulletLine(l)) && (to < |lines| ==> !BulletLine(lines[to]))
      && |items| == |here| && forall k :: 0 <= k < |here| ==> BulletOf(here[k], items[k])
    case Numbered(items) =>
      && (forall l | l in here :: NumberedLine(l)) && (to < |lines| ==> !NumberedLine(lines[to]))
      && |items| == |here| && forall k :: 0 <= k < |here| ==> NumberedOf(here[k], items[k])
    case Code(raw) =>
      var close := if |here| >= 2 && Fence(here[|here| - 1]) then |here| - 1 else |here|;
      && Fence(here[0]) && (close == |here| ==> to == |lines|)
      && (forall l | l in here[1..close] :: !Fence(l)) && raw == Join(here[1..close], '\n')
  }

  /** Spans in order, apart from blank lines touching each other, each described by its block. */
  ghost predicate Partition(lines: Lines, i: nat, spans: seq<Span>)
    requires i <= |lines|
    decreases spans
  {
    if spans == [] then forall l | l in lines[i..] :: Blank(l)
    else
      var s := spans[0];
      && i <= s.from < s.to <= |lines|
      && (forall l | l in lines[i..s.from] :: Blank(l))
      && Describes(s.block, lines, s.from, s.to)
      && Partition(lines, s.to, spans[1..])
  }

  lemma StepDescribes(lines: Lines, i: nat)
    requires i < |lines| && !Blank(lines[i]) && !Stuck(lines[i])
    ensures i < StepEnd(lines, i) && Describes(BlockAt(lines, i), lines, i, StepEnd(lines, i))
  {
    StallsIffStuck(lines, i);
    if Fence(lines[i]) { FenceDescribes(lines, i); } else { TextsDescribe(lines, i); }
  }

  lemma TextsDescribe(lines: Lines, i: nat)
    requires i < |lines| && !Blank(lines[i]) && !Fence(lines[i]) && !Stuck(lines[i]) && i < StepEnd(lines, i)
    ensures Describes(BlockAt(lines, i), lines, i, StepEnd(lines, i))
  {
    var l := lines[i];
    if HeaderLine(l) {
      HeaderIs(l, RunLength(l, IsHash), HeaderText(l));
    } else if BulletLine(l) {
      BulletsDescribe(lines, i);
    } else if NumberedLine(l) {
      NumbersDescribe(lines, i);
    }
  }

  lemma BulletsDescribe(lines: Lines, i: nat)
    requires i < |lines| && !Blank(lines[i]) && !Fence(lines[i]) && !HeaderLine(lines[i]) && BulletLine(lines[i])
    requires i < StepEnd(lines, i)
    ensures Describes(BlockAt(lines, i), lines, i, StepEnd(lines, i))
  {
    var here := lines[i..StepEnd(lines, i)];
    forall k | 0 <= k < |here| ensures BulletOf(here[k], BulletTexts(here)[k]) { BulletIs(here[k], BulletTexts(here)[k]); }
  }

  lemma NumbersDescribe(lines: Lines, i: nat)
    requires i < |lines| && !Blank(lines[i]) && !Fence(lines[i]) && !HeaderLine(lines[i]) && !BulletLine(lines[i]) && NumberedLine(lines[i])
    requires i < StepEnd(lines, i)
    ensures Describes(BlockAt(lines, i), lines, i, StepEnd(lines, i))
  {
    var here := lines[i..StepEnd(lines, i)];
    forall k | 0 <= k < |here| ensures NumberedOf(here[k], NumberedTexts(here)[k]) { NumberedIs(here[k], NumberedTexts(here)[k]); }
  }

  lemma FenceDescribes(lines: Lines, i: nat)
    requires i < |lines| && Fence(lines[i]) && !Blank(lines[i])
    ensures Describes(BlockAt(lines, i), lines, i, StepEnd(lines, i))
  {
    var close, j := RunEnd(lines, i + 1, NoFence), StepEnd(lines, i);
    var here := lines[i..j];
    assert here[1..close - i] == lines[i + 1..close];
    if close < |lines| { assert here[|here| - 1] == lines[close]; }
    else if |here| >= 2 { assert here[|here| - 1] == lines[close - 1]; }
  }

  lemma {:induction false} SpansPartition(lines: Lines, i: nat)
    requires i <= |lines| && Clean(lines) && Outside(lines, i)
    ensures Partition(lines, i, SpansFrom(lines, i))
    decreases |lines| - i
  {
    if i < |lines| {
      StepStaysOutside(lines, i);
      var j := StepEnd(lines, i);
      SpansPartition(lines, j);
      if Blank(lines[i]) {
        BlankInFront(lines, i, SpansFrom(lines, j));
      } else {
        StepDescribes(lines, i);
        SpanInFront(lines, Span(BlockAt(lines, i), i, j), SpansFrom(lines, j));
      }
    }
  }

  lemma SpanInFront(lines: Lines, s: Span, spans: seq<Span>)
    requires s.from < s.to <= |lines| && Describes(s.block, lines, s.from, s.to) && Partition(lines, s.to, spans)
    ensures Partition(lines, s.from, [s] + spans)
  {
    assert ([s] + spans)[1..] == spans && lines[s.from..s.from] == [];
  }

  lemma BlankInFront(lines: Lines, i: nat, spans: seq<Span>)
    requires i < |lines| && Blank(lines[i]) && Partition(lines, i + 1, spans)
    ensures Partition(lines, i, spans)
  {
    var end := if spans == [] then |lines| else spans[0].from;
    assert lines[i..end] == [lines[i]] + lines[i + 1..end];
    assert lines[i..] == [lines[i]] + lines[i + 1..];
  }

  /** The blocks of a clean input cover its lines in order, up to blank lines. */
  lemma TokensPartitionInput(input: string)
    requires Clean(LinesOf(input))
    ensures Partition(LinesOf(input), 0, SpansFrom(LinesOf(input), 0))
  {
    SpansPartition(LinesOf(input), 0);
  }

  // ---------------------------------------------------------------- escapeHtml

  /** `s.replace(/c/g, with)`. */
  function ReplaceAll(s: string, c: char, with: string): string {
    if s == "" then "" else (if s[0] == c then with else [s[0]]) + ReplaceAll(s[1..], c, with)
  }

  function EscapeHtml(s: string): string {
    ReplaceAll(ReplaceAll(ReplaceAll(ReplaceAll(ReplaceAll(s,
      '&', "&amp;"), '<', "&lt;"), '>', "&gt;"), '"', "&quot;"), '\'', "&#39;")
  }

  /** What one character becomes. */
  function Entity(c: char): string {
    if c == '&' then "&amp;" else if c == '<' then "&lt;" else if c == '>' then "&gt;"
    else if c == '"' then "&quot;" else if c == '\'' then "&#39;" else [c]
  }

  function Entities(s: string): string { if s == "" then "" else Entity(s[0]) + Entities(s[1..]) }

  /** The text an HTML reader sees. */
  function Shown(s: string): string {
    if s == "" then ""
    else if "&amp;" <= s then "&" + Shown(s[5..])
    else if "&lt;" <= s then "<" + Shown(s[4..])
    else if "&gt;" <= s then ">" + Shown(s[4..])
    else if "&quot;" <= s then "\"" + Shown(s[6..])
    else if "&#39;" <= s then "'" + Shown(s[5..])
    else [s[0]] + Shown(s[1..])
  }

  lemma {:induction false} ReplaceConcat(a: string, b: string, c: char, with: string)
    ensures ReplaceAll(a + b, c, with) == ReplaceAll(a, c, with) + ReplaceAll(b, c, with)
  {
    if a == "" {
      assert a + b == b;
    } else {
      ReplaceConcat(a[1..], b, c, with);
      assert (a + b)[1..] == a[1..] + b;
      ConcatFacts(if a[0] == c then with else [a[0]], ReplaceAll(a[1..], c, with), ReplaceAll(b, c, with));
    }
  }

  lemma {:induction false} ReplaceNothing(s: string, c: char, with: string)
    requires c !in s
    ensures ReplaceAll(s, c, with) == s
  {
    if s != "" {
      ReplaceNothing(s[1..], c, with);
      assert [s[0]] + s[1..] == s;
    }
  }

  lemma {:induction false} EscapeConcat(a: string, b: string)
    ensures EscapeHtml(a + b) == EscapeHtml(a) + EscapeHtml(b)
  {
    ReplaceConcat(a, b, '&', "&amp;");
    var a1, b1 := ReplaceAll(a, '&', "&amp;"), ReplaceAll(b, '&', "&amp;");
    ReplaceConcat(a1, b1, '<', "&lt;");
    var a2, b2 := ReplaceAll(a1, '<', "&lt;"), ReplaceAll(b1, '<', "&lt;");
    ReplaceConcat(a2, b2, '>', "&gt;");
    var a3, b3 := ReplaceAll(a2, '>', "&gt;"), ReplaceAll(b2, '>', "&gt;");
    ReplaceConcat(a3, b3, '"', "&quot;");
    var a4, b4 := ReplaceAll(a3, '"', "&quot;"), ReplaceAll(b3, '"', "&quot;");
    ReplaceConcat(a4, b4, '\'', "&#39;");
  }

  lemma ReplaceOne(x: char, c: char, with: string)
    ensures ReplaceAll([x], c, with) == if x == c then with else [x]
  {
    assert [x][1..] == "" && ReplaceAll("", c, with) == "";
  }

  /** Text without the four last characters passes the four last replacements. */
  lemma PassesRest(s: string)
    requires '<' !in s && '>' !in s && '"' !in s && '\'' !in s
    ensures ReplaceAll(s, '<', "&lt;") == ReplaceAll(s, '>', "&gt;") == s
    ensures ReplaceAll(s, '"', "&quot;") == ReplaceAll(s, '\'', "&#39;") == s
  {
    ReplaceNothing(s, '<', "&lt;");
    ReplaceNothing(s, '>', "&gt;");
    ReplaceNothing(s, '"', "&quot;");
    ReplaceNothing(s, '\'', "&#39;");
  }

  lemma EscapeOne(x: char)
    ensures EscapeHtml([x]) == Entity(x)
  {
    PassesRest(Entity(x));
    ReplaceOne(x, '&', "&amp;");
    ReplaceOne(x, '<', "&lt;");
    ReplaceOne(x, '>', "&gt;");
    ReplaceOne(x, '"', "&quot;");
    ReplaceOne(x, '\'', "&#39;");
  }

  lemma {:induction false} EscapeIsCharwise(s: string)
    ensures EscapeHtml(s) == Entities(s)
  {
    if s != "" {
      EscapeIsCharwise(s[1..]);
      EscapeConcat([s[0]], s[1..]);
      EscapeOne(s[0]);
      assert [s[0]] + s[1..] == s;
    }
  }

  lemma ShownEntity(c: char, t: string)
    ensures Shown(Entity(c) + t) == [c] + Shown(t)
  {
    var e := Entity(c);
    var s := e + t;
    assert s[|e|..] == t && s[..|e|] == e;
    assert s[0] == e[0];
    if |e| > 1 { assert s[1] == e[1]; }
    if c == '&' { assert "&amp;" <= s; }
    else if c == '<' { assert "&lt;" <= s; }
    else if c == '>' { assert "&gt;" <= s; }
    else if c == '"' { assert "&quot;" <= s; }
    else if c == '\'' { assert "&#39;" <= s; }
  }

  predicate NoMarkup(s: string) { forall c :: c in s ==> c != '<' && c != '>' && c != '"' && c != '\'' }

  lemma {:induction false} EntitiesHaveNoMarkup(s: string)
    ensures NoMarkup(Entities(s))
  {
    if s != "" {
      EntitiesHaveNoMarkup(s[1..]);
      assert NoMarkup(Entity(s[0]));
    }
  }

  lemma {:induction false} ShownEntities(s: string)
    ensures Shown(Entities(s)) == s
  {
    if s != "" {
      ShownEntities(s[1..]);
      ShownEntity(s[0], Entities(s[1..]));
      assert [s[0]] + s[1..] == s;
    }
  }

  /** Escaped text shows as the original and holds no character that could open or close markup. */
  lemma EscapeIsFaithful(s: string)
    ensures Shown(EscapeHtml(s)) == s && NoMarkup(EscapeHtml(s))
  {
    EscapeIsCharwise(s);
    ShownEntities(s);
    EntitiesHaveNoMarkup(s);
  }
}
