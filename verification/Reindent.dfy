// Reindenter of reindent-pox.py: how lines are normalised and shifted to two
// spaces per level, given the tokenizer's table of statements and comment lines.

/** The string helpers: _rstrip, str.expandtabs and getlspace. */
module IndentText {
  predicate Junk(c: char) {
    c == '\n' || c == ' ' || c == '\t'
  }

  function RStrip(line: string): string {
    if line != [] && Junk(line[|line| - 1]) then RStrip(line[..|line| - 1]) else line
  }

  method RStripLine(line: string) returns (r: string)
    ensures r == RStrip(line)
  {
    var i := |line|;
    assert line[..i] == line;
    while i > 0 && Junk(line[i - 1])
      invariant 0 <= i <= |line|
      invariant RStrip(line) == RStrip(line[..i])
    {
      assert line[..i][..i - 1] == line[..i - 1];
      i := i - 1;
    }
    r := line[..i];
  }

  function Spaces(n: nat): (r: string)
    ensures |r| == n && forall i :: 0 <= i < n ==> r[i] == ' '
  {
    seq(n, _ => ' ')
  }

  // str.expandtabs() with tab stops every 8 columns; line breaks restart the column.
  function ExpandTabs(s: string, col: nat): string {
    if s == [] then []
    else if s[0] == '\t' then
      var n := 8 - col % 8; Spaces(n) + ExpandTabs(s[1..], col + n)
    else if s[0] == '\n' || s[0] == '\r' then [s[0]] + ExpandTabs(s[1..], 0)
    else [s[0]] + ExpandTabs(s[1..], col + 1)
  }

  // A raw file line as the reindenter works on it.
  function Normalize(raw: string): string {
    ExpandTabs(RStrip(raw), 0) + "\n"
  }

  // A line that normalising leaves alone: no tabs, one line end, nothing trailing.
  predicate Clean(line: string) {
    && |line| > 0 && line[|line| - 1] == '\n'
    && '\t' !in line
    && (|line| > 1 ==> !Junk(line[|line| - 2]))
  }

  // No line break before the last character.
  predicate OneLine(line: string) {
    forall i :: 0 <= i < |line| - 1 ==> line[i] != '\n'
  }

  function LSpace(line: string): (n: nat)
    ensures n <= |line|
    ensures forall i :: 0 <= i < n ==> line[i] == ' '
    ensures n < |line| ==> line[n] != ' '
  {
    if line != [] && line[0] == ' ' then 1 + LSpace(line[1..]) else 0
  }

  method GetLSpace(line: string) returns (i: nat)
    ensures i == LSpace(line)
  {
    i := 0;
    while i < |line| && line[i] == ' '
      invariant i <= |line| && LSpace(line) == i + LSpace(line[i..])
    {
      i := i + 1;
    }
  }

  // The text of a line without its leading blanks.
  function Body(line: string): string {
    line[LSpace(line)..]
  }

  lemma LSpaceIs(line: string, n: nat)
    requires n <= |line| && (forall i :: 0 <= i < n ==> line[i] == ' ') && (n < |line| ==> line[n] != ' ')
    ensures LSpace(line) == n
  {
  }

  lemma {:induction false} ExpandTabsClean(s: string, col: nat)
    requires s != [] ==> !Junk(s[|s| - 1])
    ensures var r := ExpandTabs(s, col);
      '\t' !in r && (s == [] <==> r == []) && (r != [] ==> r[|r| - 1] == s[|s| - 1])
    ensures '\n' !in s ==> '\n' !in ExpandTabs(s, col)
    decreases |s|
  {
    if s != [] {
      var c := if s[0] == '\t' then col + (8 - col % 8) else if s[0] == '\n' || s[0] == '\r' then 0 else col + 1;
      ExpandTabsClean(s[1..], c);
    }
  }

  lemma {:induction false} ExpandTabsFixed(s: string, col: nat)
    requires '\t' !in s
    ensures ExpandTabs(s, col) == s
    decreases |s|
  {
    if s != [] {
      assert s == [s[0]] + s[1..];
      ExpandTabsFixed(s[1..], if s[0] == '\n' || s[0] == '\r' then 0 else col + 1);
    }
  }

  // The column that follows s, a text without tabs, when s starts at column col.
  function ColumnAfter(s: string, col: nat): nat {
    if s == [] then col
    else ColumnAfter(s[1..], if s[0] == '\n' || s[0] == '\r' then 0 else col + 1)
  }

  lemma {:induction false} ColumnAfterConcat(a: string, b: string, col: nat)
    ensures ColumnAfter(a + b, col) == ColumnAfter(b, ColumnAfter(a, col))
    decreases |a|
  {
    if a == [] {
      assert a + b == b;
    } else {
      assert (a + b)[1..] == a[1..] + b;
      ColumnAfterConcat(a[1..], b, if a[0] == '\n' || a[0] == '\r' then 0 else col + 1);
    }
  }

  lemma {:induction false} ColumnAfterSpaces(n: nat, col: nat)
    ensures ColumnAfter(Spaces(n), col) == col + n
  {
    if n > 0 {
      assert Spaces(n)[1..] == Spaces(n - 1);
      ColumnAfterSpaces(n - 1, col + 1);
    }
  }

  // What a character at column col becomes.
  function Expanded(c: char, col: nat): string {
    if c == '\t' then Spaces(8 - col % 8) else [c]
  }

  lemma ExpandTabsStep(s: string, col: nat)
    requires s != []
    ensures var x := Expanded(s[0], col); ExpandTabs(s, col) == x + ExpandTabs(s[1..], ColumnAfter(x, col))
  {
    ColumnAfterSpaces(8 - col % 8, col);
  }

  lemma {:induction false} ExpandTabsConcat(a: string, b: string, col: nat)
    ensures ExpandTabs(a + b, col) == ExpandTabs(a, col) + ExpandTabs(b, ColumnAfter(ExpandTabs(a, col), col))
    decreases |a|
  {
    hide ExpandTabs, ColumnAfter, Expanded;
    if a == [] {
      assert a + b == b;
      ExpandTabsNothing(col);
    } else {
      assert (a + b)[1..] == a[1..] + b;
      var x := Expanded(a[0], col);
      var c := ColumnAfter(x, col);
      ExpandTabsStep(a, col);
      ExpandTabsStep(a + b, col);
      ExpandTabsConcat(a[1..], b, c);
      ColumnAfterConcat(x, ExpandTabs(a[1..], c), col);
    }
  }

  lemma ExpandTabsNothing(col: nat)
    ensures ExpandTabs([], col) == [] && ColumnAfter([], col) == col
  {
  }

  /** Character i of a line is written behind what its predecessors became: itself, or for a tab
      one to eight blanks that end at a column divisible by eight. */
  lemma TabStops(s: string, i: nat)
    requires i < |s|
    ensures var before, upTo := ExpandTabs(s[..i], 0), ExpandTabs(s[..i + 1], 0);
      && before <= upTo <= ExpandTabs(s, 0)
      && (s[i] != '\t' ==> upTo == before + [s[i]])
      && (s[i] == '\t' ==>
            && 1 <= |upTo| - |before| <= 8 && upTo == before + Spaces(|upTo| - |before|)
            && ColumnAfter(upTo, 0) % 8 == 0)
  {
    var before := ExpandTabs(s[..i], 0);
    var col := ColumnAfter(before, 0);
    assert s[..i + 1] == s[..i] + [s[i]] && s == s[..i + 1] + s[i + 1..];
    ExpandTabsConcat(s[..i], [s[i]], 0);
    ExpandTabsConcat(s[..i + 1], s[i + 1..], 0);
    if s[i] == '\t' {
      var n := 8 - col % 8;
      assert ExpandTabs([s[i]], col) == Spaces(n);
      ColumnAfterConcat(before, Spaces(n), 0);
      ColumnAfterSpaces(n, col);
    }
  }

  lemma {:induction false} RStripPrefix(s: string)
    ensures RStrip(s) <= s && (RStrip(s) != [] ==> !Junk(RStrip(s)[|RStrip(s)| - 1]))
    ensures forall i :: |RStrip(s)| <= i < |s| ==> Junk(s[i])
    ensures OneLine(s) ==> '\n' !in RStrip(s)
    decreases |s|
  {
    if s != [] && Junk(s[|s| - 1]) {
      RStripPrefix(s[..|s| - 1]);
    }
  }

  /** Normalising gives clean lines, and clean lines are exactly those it leaves alone. */
  lemma NormalizeCleans(raw: string)
    ensures Clean(Normalize(raw))
    ensures Clean(raw) <==> Normalize(raw) == raw
    ensures OneLine(raw) ==> OneLine(Normalize(raw))
  {
    RStripPrefix(raw);
    ExpandTabsClean(RStrip(raw), 0);
    if Clean(raw) {
      var c := raw[..|raw| - 1];
      assert RStrip(raw) == RStrip(c) == c;
      ExpandTabsFixed(c, 0);
    }
  }
}

/** Reindenter.run as a pass over the statement table. */
module Reindent {
  import opened IndentText

  // A statement (level >= 0) or comment line (level < 0) at 1-based line `line`.
  datatype Stat = Stat(line: nat, level: int)

  function NormalizeAll(raw: seq<string>): (r: seq<string>)
    ensures |r| == |raw| && forall n :: 0 <= n < |r| ==> r[n] == Normalize(raw[n])
  {
    seq(|raw|, n requires 0 <= n < |raw| => Normalize(raw[n]))
  }

  // Lines that are empty at the end of the program go.
  function Trim(lines: seq<string>): seq<string> {
    if lines != [] && lines[|lines| - 1] == "\n" then Trim(lines[..|lines| - 1]) else lines
  }

  // The tokenizer's table: strictly increasing line numbers within the program.
  ghost predicate TableFor(table: seq<Stat>, lines: seq<string>) {
    && (forall i :: 0 <= i < |table| ==> 1 <= table[i].line <= |lines|)
    && (forall i, j :: 0 <= i < j < |table| ==> table[i].line < table[j].line)
  }

  // The line before which statement i ends; the last statement runs to the end.
  function EndOf(table: seq<Stat>, lines: seq<string>, i: nat): nat
    requires i < |table|
  {
    if i + 1 < |table| then table[i + 1].line else |lines| + 1
  }

  // after, and have2want
  datatype State = State(after: seq<string>, have2want: map<nat, int>)

  // A comment indented like the statement that follows it is taken to belong to that one.
  function NextStmtWant(table: seq<Stat>, lines: seq<string>, j: nat, have: nat): int
    requires TableFor(table, lines)
    decreases |table| - j
  {
    if j >= |table| then -1
    else if table[j].level >= 0 then
      if have == LSpace(lines[table[j].line - 1]) then table[j].level * 2 else -1
    else NextStmtWant(table, lines, j + 1, have)
  }

  // Otherwise it moves by as much as the last real statement before j did.
  function BaseLineWant(table: seq<Stat>, lines: seq<string>, after: seq<string>, j: nat, have: nat): int
    requires TableFor(table, lines) && j <= |table|
    requires forall i :: 0 <= i < j ==> table[i].line <= |after|
  {
    if j == 0 then -1
    else if table[j - 1].level >= 0 then
      have + LSpace(after[table[j - 1].line - 1]) - LSpace(lines[table[j - 1].line - 1])
    else BaseLineWant(table, lines, after, j - 1, have)
  }

  function CommentWant(table: seq<Stat>, lines: seq<string>, st: State, i: nat, have: nat): int
    requires TableFor(table, lines) && i < |table|
    requires forall k :: 0 <= k < i ==> table[k].line <= |st.after|
  {
    if have == 0 then 0
    else
      var seen := if have in st.have2want then st.have2want[have] else -1;
      var next := if seen < 0 then NextStmtWant(table, lines, i + 1, have) else seen;
      var base := if next < 0 then BaseLineWant(table, lines, st.after, i, have) else next;
      if base < 0 then have else base
  }

  function Want(table: seq<Stat>, lines: seq<string>, st: State, i: nat): int
    requires TableFor(table, lines) && i < |table|
    requires forall k :: 0 <= k < i ==> table[k].line <= |st.after|
  {
    if table[i].level * 2 >= 0 then table[i].level * 2
    else CommentWant(table, lines, st, i, LSpace(lines[table[i].line - 1]))
  }

  // One line of a statement shifted by diff columns.
  function Shift(line: string, diff: int): string {
    if diff > 0 then
      if line == "\n" then line else Spaces(diff) + line
    else
      var remove := if LSpace(line) < -diff then LSpace(line) else -diff;
      line[remove..]
  }

  function ShiftAll(lines: seq<string>, diff: int): (r: seq<string>)
    ensures |r| == |lines| && forall n :: 0 <= n < |r| ==> r[n] == Shift(lines[n], diff)
  {
    seq(|lines|, n requires 0 <= n < |lines| => Shift(lines[n], diff))
  }

  // The lines of statement i.
  function Segment(table: seq<Stat>, lines: seq<string>, i: nat): (r: seq<string>)
    requires TableFor(table, lines) && i < |table|
    ensures |r| == EndOf(table, lines, i) - table[i].line
    ensures forall k :: 0 <= k < |r| ==> r[k] == lines[table[i].line - 1 + k]
  {
    lines[table[i].line - 1..EndOf(table, lines, i) - 1]
  }

  // How far statement i is moved: a line that starts at column 0 stays.
  function Move(have: nat, want: int): int {
    if have == 0 then 0 else want - have
  }

  function StatStep(table: seq<Stat>, lines: seq<string>, st: State, i: nat): State
    requires TableFor(table, lines) && i < |table| && |st.after| + 1 == table[i].line
  {
    var have := LSpace(lines[table[i].line - 1]);
    var want := Want(table, lines, st, i);
    State(st.after + ShiftAll(Segment(table, lines, i), Move(have, want)), st.have2want[have := want])
  }

  // The state after the first n statements.
  function Pass(table: seq<Stat>, lines: seq<string>, n: nat): (st: State)
    requires TableFor(table, lines) && n <= |table|
    ensures |st.after| == if n < |table| then table[n].line - 1 else |lines|
  {
    if n == 0 then State(lines[..if |table| > 0 then table[0].line - 1 else |lines|], map[])
    else StatStep(table, lines, Pass(table, lines, n - 1), n - 1)
  }

  // The whole run: normalise, trim, shift.
  function Reindented(raw: seq<string>, table: seq<Stat>): seq<string>
    requires TableFor(table, Trim(NormalizeAll(raw)))
  {
    Pass(table, Trim(NormalizeAll(raw)), |table|).after
  }

  // --- what one pass does ---

  ghost predicate SameText(a: string, b: string) {
    Body(a) == Body(b) && (Clean(a) ==> Clean(b)) && (OneLine(a) ==> OneLine(b))
  }

  lemma {:induction false} IndentedMore(line: string, n: nat)
    ensures LSpace(Spaces(n) + line) == LSpace(line) + n
    ensures Body(Spaces(n) + line) == Body(line)
  {
    if n == 0 {
      assert Spaces(0) + line == line;
    } else {
      IndentedMore(line, n - 1);
      var shorter := Spaces(n - 1) + line;
      assert Spaces(n) + line == [' '] + shorter;
      assert ([' '] + shorter)[1..] == shorter;
    }
  }

  lemma IndentedLess(line: string, n: nat)
    requires n <= LSpace(line)
    ensures LSpace(line[n..]) == LSpace(line) - n
    ensures Body(line[n..]) == Body(line)
  {
    LSpaceIs(line[n..], LSpace(line) - n);
  }

  lemma CleanMore(line: string, n: nat)
    requires Clean(line) && line != "\n"
    ensures Clean(Spaces(n) + line) && (OneLine(line) ==> OneLine(Spaces(n) + line))
  {
    var r := Spaces(n) + line;
    assert |line| > 1 && r[|r| - 1] == line[|line| - 1] && r[|r| - 2] == line[|line| - 2];
  }

  lemma CleanLess(line: string, n: nat)
    requires Clean(line) && n <= LSpace(line)
    ensures Clean(line[n..]) && (OneLine(line) ==> OneLine(line[n..]))
  {
  }

  lemma ShiftKeepsText(line: string, diff: int)
    requires Clean(line)
    ensures SameText(line, Shift(line, diff))
    ensures line != "\n" && 0 <= LSpace(line) + diff ==> LSpace(Shift(line, diff)) == LSpace(line) + diff
  {
    if diff > 0 {
      if line != "\n" {
        IndentedMore(line, diff);
        CleanMore(line, diff);
      }
    } else {
      var remove := if LSpace(line) < -diff then LSpace(line) else -diff;
      IndentedLess(line, remove);
      CleanLess(line, remove);
    }
  }

  // Any line moves by diff, an empty one never and none beyond column 0.
  lemma ShiftMoves(line: string, diff: int)
    requires Clean(line)
    ensures if line == "\n" then Shift(line, diff) == line
            else LSpace(Shift(line, diff)) == if LSpace(line) + diff < 0 then 0 else LSpace(line) + diff
  {
    ShiftKeepsText(line, diff);
    if LSpace(line) + diff < 0 {
      IndentedLess(line, LSpace(line));
    }
  }

  // How far the pass moves statement n.
  function Diff(table: seq<Stat>, lines: seq<string>, n: nat): int
    requires TableFor(table, lines) && n < |table|
  {
    Move(LSpace(lines[table[n].line - 1]), Want(table, lines, Pass(table, lines, n), n))
  }

  lemma StepShifts(table: seq<Stat>, lines: seq<string>, n: nat, k: nat)
    requires TableFor(table, lines) && n < |table| && table[n].line - 1 <= k < EndOf(table, lines, n) - 1
    ensures Pass(table, lines, n + 1).after[k] == Shift(lines[k], Diff(table, lines, n))
  {
    hide Want, Shift, LSpace;
    var st, start := Pass(table, lines, n), table[n].line - 1;
    assert Pass(table, lines, n + 1) == StatStep(table, lines, st, n);
    assert Segment(table, lines, n)[k - start] == lines[k];
    var diff := Diff(table, lines, n);
    assert ShiftAll(Segment(table, lines, n), diff)[k - start] == Shift(lines[k], diff);
  }

  lemma StepGrows(table: seq<Stat>, lines: seq<string>, n: nat)
    requires TableFor(table, lines) && n < |table|
    ensures Pass(table, lines, n).after <= Pass(table, lines, n + 1).after
  {
    var st := Pass(table, lines, n);
    assert Pass(table, lines, n + 1) == StatStep(table, lines, st, n);
  }

  // What statement m - 1 and its predecessors wrote stays as it is.
  lemma {:induction false} PassGrows(table: seq<Stat>, lines: seq<string>, m: nat, n: nat, k: nat)
    requires TableFor(table, lines) && m <= n <= |table| && k < |Pass(table, lines, m).after|
    ensures k < |Pass(table, lines, n).after| && Pass(table, lines, n).after[k] == Pass(table, lines, m).after[k]
    decreases n - m
  {
    if m < n {
      StepGrows(table, lines, m);
      PassGrows(table, lines, m + 1, n, k);
    }
  }

  // Statement i was at column 0 and still is, or is now at two spaces per level.
  ghost predicate IndentedTo(table: seq<Stat>, lines: seq<string>, after: seq<string>, i: nat)
    requires i < |table| && 1 <= table[i].line <= |lines| && table[i].line <= |after|
  {
    LSpace(after[table[i].line - 1]) == if LSpace(lines[table[i].line - 1]) == 0 then 0 else 2 * table[i].level
  }

  /** Every real statement that was indented ends up at exactly two spaces per level. */
  lemma PassIndents(table: seq<Stat>, lines: seq<string>, i: nat)
    requires TableFor(table, lines) && i < |table| && table[i].level >= 0 && Clean(lines[table[i].line - 1])
    ensures IndentedTo(table, lines, Pass(table, lines, |table|).after, i)
  {
    var n, line := table[i].line - 1, lines[table[i].line - 1];
    PassGrows(table, lines, i + 1, |table|, n);
    assert Pass(table, lines, |table|).after[n] == Pass(table, lines, i + 1).after[n];
    StepShifts(table, lines, i, n);
    ShiftKeepsText(line, Diff(table, lines, i));
    assert line == "\n" ==> LSpace(line) == 0;
  }

  lemma SameTextSelf(line: string)
    ensures SameText(line, line)
  {
  }

  lemma StepKeepsText(table: seq<Stat>, lines: seq<string>, n: nat, k: nat)
    requires TableFor(table, lines) && n < |table| && table[n].line - 1 <= k < EndOf(table, lines, n) - 1
    requires Clean(lines[k])
    ensures SameText(lines[k], Pass(table, lines, n + 1).after[k])
  {
    StepShifts(table, lines, n, k);
    ShiftKeepsText(lines[k], Diff(table, lines, n));
  }

  /** Whatever the table, a pass changes only leading blanks: line k of the output has the text
      of line k of the program. */
  lemma {:induction false} PassKeepsText(table: seq<Stat>, lines: seq<string>, n: nat)
    requires TableFor(table, lines) && n <= |table| && forall l :: l in lines ==> Clean(l)
    ensures var after := Pass(table, lines, n).after;
      forall k :: 0 <= k < |after| ==> SameText(lines[k], after[k])
  {
    hide SameText, Clean, StatStep;
    if n == 0 {
      forall k | 0 <= k < |lines| ensures SameText(lines[k], lines[k]) {
        SameTextSelf(lines[k]);
      }
    } else {
      PassKeepsText(table, lines, n - 1);
      StepGrows(table, lines, n - 1);
      var before, after := Pass(table, lines, n - 1).after, Pass(table, lines, n).after;
      forall k | |before| <= k < |after| ensures SameText(lines[k], after[k]) {
        StepKeepsText(table, lines, n - 1, k);
      }
    }
  }

  // --- where comments go ---

  // The column at which statement i starts in s.
  function Column(table: seq<Stat>, s: seq<string>, i: nat): nat
    requires i < |table| && 1 <= table[i].line <= |s|
  {
    LSpace(s[table[i].line - 1])
  }

  // Statement k is the last one before i at column h.
  ghost predicate LatestAt(table: seq<Stat>, lines: seq<string>, h: nat, k: nat, i: nat)
    requires TableFor(table, lines) && i <= |table|
  {
    && k < i && Column(table, lines, k) == h
    && forall m :: k < m < i ==> Column(table, lines, m) != h
  }

  // No statement before i is at column h.
  ghost predicate NewColumn(table: seq<Stat>, lines: seq<string>, h: nat, i: nat)
    requires TableFor(table, lines) && i <= |table|
  {
    forall m :: 0 <= m < i ==> Column(table, lines, m) != h
  }

  // Statements a to b - 1 are comments.
  ghost predicate Comments(table: seq<Stat>, a: nat, b: nat) {
    forall m :: a <= m < b && m < |table| ==> table[m].level < 0
  }

  // Statement j is the first real one from i on.
  ghost predicate NextReal(table: seq<Stat>, i: nat, j: nat) {
    i <= j < |table| && table[j].level >= 0 && Comments(table, i, j)
  }

  // Statement b is the last real one before i.
  ghost predicate LastReal(table: seq<Stat>, b: nat, i: nat) {
    b < i <= |table| && table[b].level >= 0 && Comments(table, b + 1, i)
  }

  // The next real statement from i on starts at column h.
  ghost predicate LeadsTo(table: seq<Stat>, lines: seq<string>, h: nat, i: nat)
    requires TableFor(table, lines)
  {
    exists j :: NextReal(table, i, j) && Column(table, lines, j) == h
  }

  /** Where the pass that turns lines into out puts comment i, which is not at column 0. */
  ghost predicate CommentPlaced(table: seq<Stat>, lines: seq<string>, out: seq<string>, i: nat)
    requires TableFor(table, lines) && |out| == |lines| && i < |table|
  {
    var have, to := Column(table, lines, i), Column(table, out, i);
    // With the last statement that was at its column, if there is one.
    && (forall k :: LatestAt(table, lines, have, k, i) ==> to == Column(table, out, k))
    && (NewColumn(table, lines, have, i) ==>
      // Else with the next real statement, if that is at its column.
      && (forall j: nat :: NextReal(table, i + 1, j) && Column(table, lines, j) == have ==> to == 2 * table[j].level)
      && (!LeadsTo(table, lines, have, i + 1) ==>
        // Else as far as the last real statement was moved, if there is one and the line has room.
        && (forall b :: LastReal(table, b, i) ==>
              var target := have + Column(table, out, b) - Column(table, lines, b);
              to == if target < 0 then have else target)
        && (Comments(table, 0, i) ==> to == have)))
  }

  lemma {:induction false} NextStmtFinds(table: seq<Stat>, lines: seq<string>, i: nat, j: nat, have: nat)
    requires TableFor(table, lines) && NextReal(table, i, j)
    ensures NextStmtWant(table, lines, i, have) == if Column(table, lines, j) == have then 2 * table[j].level else -1
    decreases j - i
  {
    if i < j {
      NextStmtFinds(table, lines, i + 1, j, have);
    }
  }

  // Without a real statement at column `have` next, the forward search finds nothing.
  lemma {:induction false} NextStmtFails(table: seq<Stat>, lines: seq<string>, i: nat, start: nat, have: nat)
    requires TableFor(table, lines) && start <= i && Comments(table, start, i)
    requires !LeadsTo(table, lines, have, start)
    ensures NextStmtWant(table, lines, i, have) == -1
    decreases |table| - i
  {
    if i < |table| {
      if table[i].level < 0 {
        NextStmtFails(table, lines, i + 1, start, have);
      } else {
        assert NextReal(table, start, i);
      }
    }
  }

  lemma {:induction false} BaseLineFinds(table: seq<Stat>, lines: seq<string>, after: seq<string>, b: nat, i: nat,
                                         have: nat)
    requires TableFor(table, lines) && LastReal(table, b, i)
    requires forall k :: 0 <= k < i ==> table[k].line <= |after|
    ensures BaseLineWant(table, lines, after, i, have)
         == have + Column(table, after, b) - Column(table, lines, b)
  {
    if b < i - 1 {
      BaseLineFinds(table, lines, after, b, i - 1, have);
    }
  }

  lemma {:induction false} BaseLineFails(table: seq<Stat>, lines: seq<string>, after: seq<string>, i: nat, have: nat)
    requires TableFor(table, lines) && i <= |table| && Comments(table, 0, i)
    requires forall k :: 0 <= k < i ==> table[k].line <= |after|
    ensures BaseLineWant(table, lines, after, i, have) == -1
  {
    if i > 0 {
      BaseLineFails(table, lines, after, i - 1, have);
    }
  }

  // The target of statement i in the pass.
  function Target(table: seq<Stat>, lines: seq<string>, i: nat): int
    requires TableFor(table, lines) && i < |table|
  {
    Want(table, lines, Pass(table, lines, i), i)
  }

  lemma StepRecords(table: seq<Stat>, lines: seq<string>, n: nat)
    requires TableFor(table, lines) && n < |table|
    ensures Pass(table, lines, n + 1).have2want
         == Pass(table, lines, n).have2want[Column(table, lines, n) := Target(table, lines, n)]
  {
    hide Want, LSpace;
    assert Pass(table, lines, n + 1) == StatStep(table, lines, Pass(table, lines, n), n);
  }

  lemma {:induction false} Remembered(table: seq<Stat>, lines: seq<string>, h: nat, k: nat, n: nat)
    requires TableFor(table, lines) && n <= |table| && LatestAt(table, lines, h, k, n)
    ensures var seen := Pass(table, lines, n).have2want; h in seen && seen[h] == Target(table, lines, k)
    decreases n
  {
    hide Pass, Target, Column;
    StepRecords(table, lines, n - 1);
    if k < n - 1 {
      assert Column(table, lines, n - 1) != h;
      Remembered(table, lines, h, k, n - 1);
    }
  }

  lemma NothingSeenYet(table: seq<Stat>, lines: seq<string>)
    requires TableFor(table, lines)
    ensures Pass(table, lines, 0).have2want == map[]
  {
  }

  lemma {:induction false} Forgotten(table: seq<Stat>, lines: seq<string>, h: nat, n: nat)
    requires TableFor(table, lines) && n <= |table| && NewColumn(table, lines, h, n)
    ensures h !in Pass(table, lines, n).have2want
  {
    hide Pass, Target, Column;
    if n == 0 {
      NothingSeenYet(table, lines);
    } else {
      StepRecords(table, lines, n - 1);
      assert Column(table, lines, n - 1) != h;
      Forgotten(table, lines, h, n - 1);
    }
  }

  lemma WantNotNegative(table: seq<Stat>, lines: seq<string>, st: State, i: nat)
    requires TableFor(table, lines) && i < |table|
    requires forall k :: 0 <= k < i ==> table[k].line <= |st.after|
    ensures Want(table, lines, st, i) >= 0
  {
  }

  // The first line of statement i moves by Diff.
  lemma FirstLineMoves(table: seq<Stat>, lines: seq<string>, i: nat)
    requires TableFor(table, lines) && i < |table| && Clean(lines[table[i].line - 1])
    ensures Column(table, Pass(table, lines, |table|).after, i) == Column(table, lines, i) + Diff(table, lines, i)
  {
    hide Want, Shift, LSpace, StatStep;
    var n, line := table[i].line - 1, lines[table[i].line - 1];
    PassGrows(table, lines, i + 1, |table|, n);
    assert Pass(table, lines, |table|).after[n] == Pass(table, lines, i + 1).after[n];
    StepShifts(table, lines, i, n);
    WantNotNegative(table, lines, Pass(table, lines, i), i);
    ShiftMoves(line, Diff(table, lines, i));
    assert line == "\n" ==> LSpace(line) == 0 by {
      LSpaceIs("\n", 0);
    }
  }

  lemma TargetIsColumn(table: seq<Stat>, lines: seq<string>, i: nat)
    requires TableFor(table, lines) && i < |table| && Clean(lines[table[i].line - 1])
    requires Column(table, lines, i) > 0
    ensures Target(table, lines, i) == Column(table, Pass(table, lines, |table|).after, i) >= 0
  {
    hide Want, LSpace, Clean;
    FirstLineMoves(table, lines, i);
    WantNotNegative(table, lines, Pass(table, lines, i), i);
  }

  // What earlier statements wrote is what the output holds.
  lemma OutputSoFar(table: seq<Stat>, lines: seq<string>, b: nat, i: nat)
    requires TableFor(table, lines) && b < i < |table|
    ensures Column(table, Pass(table, lines, i).after, b) == Column(table, Pass(table, lines, |table|).after, b)
  {
    PassGrows(table, lines, i, |table|, table[b].line - 1);
  }

  lemma CommentWithEarlier(table: seq<Stat>, lines: seq<string>, i: nat, k: nat)
    requires TableFor(table, lines) && i < |table| && table[i].level < 0 && Column(table, lines, i) > 0
    requires LatestAt(table, lines, Column(table, lines, i), k, i)
    ensures Target(table, lines, i) == Target(table, lines, k)
  {
    Remembered(table, lines, Column(table, lines, i), k, i);
  }

  lemma CommentWithNext(table: seq<Stat>, lines: seq<string>, i: nat, j: nat)
    requires TableFor(table, lines) && i < |table| && table[i].level < 0 && Column(table, lines, i) > 0
    requires NewColumn(table, lines, Column(table, lines, i), i)
    requires NextReal(table, i + 1, j) && Column(table, lines, j) == Column(table, lines, i)
    ensures Target(table, lines, i) == 2 * table[j].level
  {
    Forgotten(table, lines, Column(table, lines, i), i);
    NextStmtFinds(table, lines, i + 1, j, Column(table, lines, i));
  }

  lemma CommentWithBase(table: seq<Stat>, lines: seq<string>, i: nat, b: nat)
    requires TableFor(table, lines) && i < |table| && table[i].level < 0 && Column(table, lines, i) > 0
    requires NewColumn(table, lines, Column(table, lines, i), i)
    requires !LeadsTo(table, lines, Column(table, lines, i), i + 1) && LastReal(table, b, i)
    ensures var have := Column(table, lines, i);
      var target := have + Column(table, Pass(table, lines, |table|).after, b) - Column(table, lines, b);
      Target(table, lines, i) == if target < 0 then have else target
  {
    var have := Column(table, lines, i);
    Forgotten(table, lines, have, i);
    NextStmtFails(table, lines, i + 1, i + 1, have);
    BaseLineFinds(table, lines, Pass(table, lines, i).after, b, i, have);
    OutputSoFar(table, lines, b, i);
  }

  lemma CommentAlone(table: seq<Stat>, lines: seq<string>, i: nat)
    requires TableFor(table, lines) && i < |table| && table[i].level < 0 && Column(table, lines, i) > 0
    requires NewColumn(table, lines, Column(table, lines, i), i)
    requires !LeadsTo(table, lines, Column(table, lines, i), i + 1) && Comments(table, 0, i)
    ensures Target(table, lines, i) == Column(table, lines, i)
  {
    var have := Column(table, lines, i);
    Forgotten(table, lines, have, i);
    NextStmtFails(table, lines, i + 1, i + 1, have);
    BaseLineFails(table, lines, Pass(table, lines, i).after, i, have);
  }

  /** A comment that is not at column 0 goes with the last statement that was at its column, else
      with the next real statement if that is at its column, else as far as the last real statement
      was moved; it stays if nothing decides. */
  lemma PassPlacesComments(table: seq<Stat>, lines: seq<string>, i: nat)
    requires TableFor(table, lines) && (forall l :: l in lines ==> Clean(l))
    requires i < |table| && table[i].level < 0 && Column(table, lines, i) > 0
    ensures CommentPlaced(table, lines, Pass(table, lines, |table|).after, i)
  {
    hide Pass, Want, LSpace, Clean;
    var have, out := Column(table, lines, i), Pass(table, lines, |table|).after;
    TargetIsColumn(table, lines, i);
    forall k | LatestAt(table, lines, have, k, i)
      ensures Column(table, out, i) == Column(table, out, k)
    {
      CommentWithEarlier(table, lines, i, k);
      TargetIsColumn(table, lines, k);
    }
    if NewColumn(table, lines, have, i) {
      forall j: nat | NextReal(table, i + 1, j) && Column(table, lines, j) == have
        ensures Column(table, out, i) == 2 * table[j].level
      {
        CommentWithNext(table, lines, i, j);
      }
      if !LeadsTo(table, lines, have, i + 1) {
        forall b | LastReal(table, b, i)
          ensures var target := have + Column(table, out, b) - Column(table, lines, b);
            Column(table, out, i) == if target < 0 then have else target
        {
          CommentWithBase(table, lines, i, b);
        }
        if Comments(table, 0, i) {
          CommentAlone(table, lines, i);
        }
      }
    }
  }

  // Line k keeps its distance from the first line of its statement i, as far as there is room.
  ghost predicate MovedAlong(table: seq<Stat>, lines: seq<string>, out: seq<string>, i: nat, k: nat)
    requires TableFor(table, lines) && |out| == |lines| && i < |table| && k < |lines|
  {
    var to := LSpace(lines[k]) + Column(table, out, i) - Column(table, lines, i);
    if lines[k] == "\n" then out[k] == "\n" else LSpace(out[k]) == if to < 0 then 0 else to
  }

  /** All lines of a statement move together; empty lines and those before the first statement stay. */
  lemma PassMovesTogether(table: seq<Stat>, lines: seq<string>, i: nat, k: nat)
    requires TableFor(table, lines) && (forall l :: l in lines ==> Clean(l))
    requires i < |table| && table[i].line - 1 <= k < EndOf(table, lines, i) - 1
    ensures MovedAlong(table, lines, Pass(table, lines, |table|).after, i, k)
  {
    PassGrows(table, lines, i + 1, |table|, k);
    assert Pass(table, lines, |table|).after[k] == Pass(table, lines, i + 1).after[k];
    StepShifts(table, lines, i, k);
    FirstLineMoves(table, lines, i);
    ShiftMoves(lines[k], Diff(table, lines, i));
  }

  lemma PassKeepsHead(table: seq<Stat>, lines: seq<string>, k: nat)
    requires TableFor(table, lines) && k < HeadSize(table, lines)
    ensures Pass(table, lines, |table|).after[k] == lines[k]
  {
    PassGrows(table, lines, 0, |table|, k);
  }

  /** Where every line of the program stands in the output of a pass. */
  ghost predicate WellPlaced(table: seq<Stat>, lines: seq<string>, out: seq<string>)
    requires TableFor(table, lines) && |out| == |lines|
  {
    && (forall i :: 0 <= i < |table| && table[i].level >= 0 ==> IndentedTo(table, lines, out, i))
    && (forall i :: 0 <= i < |table| && Column(table, lines, i) == 0 ==> Column(table, out, i) == 0)
    && (forall i :: 0 <= i < |table| && table[i].level < 0 && Column(table, lines, i) > 0 ==>
          CommentPlaced(table, lines, out, i))
    && (forall i, k :: 0 <= i < |table| && table[i].line - 1 <= k < EndOf(table, lines, i) - 1 ==>
          MovedAlong(table, lines, out, i, k))
    && (forall k :: 0 <= k < HeadSize(table, lines) ==> out[k] == lines[k])
  }

  // The number of lines before the first statement.
  function HeadSize(table: seq<Stat>, lines: seq<string>): nat
    requires TableFor(table, lines)
  {
    if |table| > 0 then table[0].line - 1 else |lines|
  }

  lemma PassPlaces(table: seq<Stat>, lines: seq<string>)
    requires TableFor(table, lines) && forall l :: l in lines ==> Clean(l)
    ensures WellPlaced(table, lines, Pass(table, lines, |table|).after)
  {
    hide Pass, Clean, LSpace, MovedAlong, CommentPlaced;
    var out := Pass(table, lines, |table|).after;
    forall i | 0 <= i < |table| && table[i].level >= 0 ensures IndentedTo(table, lines, out, i) {
      PassIndents(table, lines, i);
    }
    forall i | 0 <= i < |table| && Column(table, lines, i) == 0 ensures Column(table, out, i) == 0 {
      FirstLineMoves(table, lines, i);
    }
    forall i | 0 <= i < |table| && table[i].level < 0 && Column(table, lines, i) > 0
      ensures CommentPlaced(table, lines, out, i)
    {
      PassPlacesComments(table, lines, i);
    }
    forall i, k | 0 <= i < |table| && table[i].line - 1 <= k < EndOf(table, lines, i) - 1
      ensures MovedAlong(table, lines, out, i, k)
    {
      PassMovesTogether(table, lines, i, k);
    }
    forall k | 0 <= k < HeadSize(table, lines) ensures out[k] == lines[k] {
      PassKeepsHead(table, lines, k);
    }
  }

  // --- the fixed point ---

  // What a second pass may rely on: clean lines, no empty lines at the end, and every
  // real statement at column 0 or at two spaces per level.
  ghost predicate Settled(table: seq<Stat>, lines: seq<string>) {
    && TableFor(table, lines)
    && (forall l :: l in lines ==> Clean(l))
    && (lines != [] ==> lines[|lines| - 1] != "\n")
    && forall i :: 0 <= i < |table| && table[i].level >= 0 ==>
         var have := LSpace(lines[table[i].line - 1]); have == 0 || have == 2 * table[i].level
  }

  // Every indentation seen so far was mapped to itself.
  ghost predicate Identity(have2want: map<nat, int>) {
    forall v :: v in have2want && v > 0 ==> have2want[v] == v
  }

  lemma {:induction false} NextStmtSettled(table: seq<Stat>, lines: seq<string>, j: nat, have: nat)
    requires Settled(table, lines) && have > 0
    ensures NextStmtWant(table, lines, j, have) in {-1, have as int}
    decreases |table| - j
  {
    if j < |table| && table[j].level < 0 {
      NextStmtSettled(table, lines, j + 1, have);
    }
  }

  lemma {:induction false} BaseLineSettled(table: seq<Stat>, lines: seq<string>, after: seq<string>, j: nat, have: nat)
    requires Settled(table, lines) && j <= |table| && after <= lines
    requires forall i :: 0 <= i < j ==> table[i].line <= |after|
    ensures BaseLineWant(table, lines, after, j, have) in {-1, have as int}
  {
    if j > 0 && table[j - 1].level < 0 {
      BaseLineSettled(table, lines, after, j - 1, have);
    }
  }

  lemma WantSettled(table: seq<Stat>, lines: seq<string>, st: State, i: nat)
    requires Settled(table, lines) && i < |table| && |st.after| + 1 == table[i].line
    requires st.after <= lines && Identity(st.have2want)
    ensures LSpace(lines[table[i].line - 1]) in {0, Want(table, lines, st, i)}
  {
    var have := LSpace(lines[table[i].line - 1]);
    if table[i].level < 0 && have > 0 {
      NextStmtSettled(table, lines, i + 1, have);
      BaseLineSettled(table, lines, st.after, i, have);
    }
  }

  lemma StepSettled(table: seq<Stat>, lines: seq<string>, st: State, i: nat)
    requires Settled(table, lines) && i < |table| && |st.after| + 1 == table[i].line
    requires st.after <= lines && Identity(st.have2want)
    ensures StatStep(table, lines, st, i).after <= lines && Identity(StatStep(table, lines, st, i).have2want)
  {
    WantSettled(table, lines, st, i);
    var segment := Segment(table, lines, i);
    assert ShiftAll(segment, 0) == segment;
    assert st.after + segment <= lines;
  }

  lemma PassStepSettled(table: seq<Stat>, lines: seq<string>, n: nat)
    requires Settled(table, lines) && n < |table|
    requires Pass(table, lines, n).after <= lines && Identity(Pass(table, lines, n).have2want)
    ensures Pass(table, lines, n + 1).after <= lines && Identity(Pass(table, lines, n + 1).have2want)
  {
    hide StatStep;
    StepSettled(table, lines, Pass(table, lines, n), n);
    assert Pass(table, lines, n + 1) == StatStep(table, lines, Pass(table, lines, n), n);
  }

  lemma PassStart(table: seq<Stat>, lines: seq<string>)
    requires TableFor(table, lines)
    ensures Pass(table, lines, 0).after <= lines && Identity(Pass(table, lines, 0).have2want)
  {
  }

  /** A pass over settled lines changes nothing, comment lines included. */
  lemma {:induction false} SettledIsFixed(table: seq<Stat>, lines: seq<string>, n: nat)
    requires Settled(table, lines) && n <= |table|
    ensures Pass(table, lines, n).after <= lines && Identity(Pass(table, lines, n).have2want)
  {
    hide StatStep, Identity;
    if n == 0 {
      PassStart(table, lines);
    } else {
      SettledIsFixed(table, lines, n - 1);
      PassStepSettled(table, lines, n - 1);
    }
  }

  lemma {:induction false} TrimKeepsPrefix(lines: seq<string>)
    ensures Trim(lines) <= lines && (Trim(lines) != [] ==> Trim(lines)[|Trim(lines)| - 1] != "\n")
    ensures forall k :: |Trim(lines)| <= k < |lines| ==> lines[k] == "\n"
  {
    if lines != [] && lines[|lines| - 1] == "\n" {
      TrimKeepsPrefix(lines[..|lines| - 1]);
    }
  }

  // The program run on raw: what the tokenizer sees, less its trailing empty lines.
  function Program(raw: seq<string>): seq<string> {
    Trim(NormalizeAll(raw))
  }

  lemma ProgramIsClean(raw: seq<string>)
    ensures forall l :: l in Program(raw) ==> Clean(l)
    ensures Program(raw) != [] ==> Program(raw)[|Program(raw)| - 1] != "\n"
    ensures (forall l :: l in raw ==> OneLine(l)) ==> forall l :: l in Program(raw) ==> OneLine(l)
  {
    TrimKeepsPrefix(NormalizeAll(raw));
    forall k | 0 <= k < |Program(raw)|
      ensures Clean(Program(raw)[k]) && (OneLine(raw[k]) ==> OneLine(Program(raw)[k]))
    {
      NormalizeCleans(raw[k]);
      assert Program(raw)[k] == NormalizeAll(raw)[k];
    }
  }

  lemma PlacedProgram(raw: seq<string>, table: seq<Stat>)
    requires TableFor(table, Program(raw))
    ensures |Reindented(raw, table)| == |Program(raw)|
    ensures WellPlaced(table, Program(raw), Reindented(raw, table))
  {
    ProgramIsClean(raw);
    PassPlaces(table, Program(raw));
  }

  lemma NotBlank(a: string, b: string)
    requires SameText(a, b) && Clean(a) && a != "\n"
    ensures b != "\n"
  {
  }

  lemma OutputIsClean(raw: seq<string>, table: seq<Stat>)
    requires TableFor(table, Program(raw))
    ensures var after := Reindented(raw, table);
      && (forall l :: l in after ==> Clean(l))
      && (after != [] ==> after[|after| - 1] != "\n")
      && ((forall l :: l in raw ==> OneLine(l)) ==> forall l :: l in after ==> OneLine(l))
  {
    var lines, after := Program(raw), Reindented(raw, table);
    ProgramIsClean(raw);
    PassKeepsText(table, lines, |table|);
    forall k | 0 <= k < |after|
      ensures Clean(after[k]) && (OneLine(lines[k]) ==> OneLine(after[k])) && (lines[k] != "\n" ==> after[k] != "\n")
    {
      var a, b := lines[k], after[k];
      assert SameText(a, b);
      if a != "\n" {
        NotBlank(a, b);
      }
    }
  }

  /** One run leaves settled lines. */
  lemma OutputIsSettled(raw: seq<string>, table: seq<Stat>)
    requires TableFor(table, Program(raw))
    ensures Settled(table, Reindented(raw, table))
  {
    var lines, after := Program(raw), Reindented(raw, table);
    OutputIsClean(raw, table);
    ProgramIsClean(raw);
    forall i | 0 <= i < |table| && table[i].level >= 0
      ensures var have := LSpace(after[table[i].line - 1]); have == 0 || have == 2 * table[i].level
    {
      PassIndents(table, lines, i);
    }
  }

  lemma SettledProgram(raw: seq<string>, table: seq<Stat>)
    requires Settled(table, raw)
    ensures Program(raw) == raw && Reindented(raw, table) == raw
  {
    forall k | 0 <= k < |raw| ensures Normalize(raw[k]) == raw[k] {
      NormalizeCleans(raw[k]);
    }
    assert NormalizeAll(raw) == raw;
    SettledIsFixed(table, raw, |table|);
  }

  /** Reindenting is idempotent: with the same statement table, a second run reproduces the
      output of the first exactly. */
  lemma Idempotent(raw: seq<string>, table: seq<Stat>)
    requires TableFor(table, Program(raw))
    ensures TableFor(table, Program(Reindented(raw, table)))
    ensures Reindented(Reindented(raw, table), table) == Reindented(raw, table)
  {
    OutputIsSettled(raw, table);
    SettledProgram(Reindented(raw, table), table);
  }

  /** A file is left alone exactly when it is already settled. */
  lemma UnchangedIffSettled(raw: seq<string>, table: seq<Stat>)
    requires TableFor(table, Program(raw))
    ensures Reindented(raw, table) == raw <==> Settled(table, raw)
  {
    OutputIsSettled(raw, table);
    if Settled(table, raw) {
      SettledProgram(raw, table);
    }
  }

  // --- the class ---

  class Reindenter {
    const raw: seq<string>
    // The normalised program lines; line 1 of the source is lines[0].
    var lines: seq<string>
    var after: seq<string>

    constructor (raw: seq<string>)
      ensures this.raw == raw && lines == NormalizeAll(raw) && after == []
    {
      this.raw := raw;
      after := [];
      lines := [];
      new;
      for n := 0 to |raw|
        invariant lines == NormalizeAll(raw)[..n] && after == []
      {
        var line := RStripLine(raw[n]);
        lines := lines + [ExpandTabs(line, 0) + "\n"];
        assert NormalizeAll(raw)[..n + 1] == NormalizeAll(raw)[..n] + [NormalizeAll(raw)[n]];
      }
      assert NormalizeAll(raw)[..|raw|] == NormalizeAll(raw);
    }

    // Where a comment goes that does not start at column 0.
    method CommentIndent(table: seq<Stat>, have2want: map<nat, int>, i: nat, have: nat) returns (want: int)
      requires TableFor(table, lines) && i < |table| && have > 0
      requires forall k :: 0 <= k < i ==> table[k].line <= |after|
      ensures want == CommentWant(table, lines, State(after, have2want), i, have)
    {
      // The latest target of this indentation, if it occurred already.
      want := if have in have2want then have2want[have] else -1;
      if want < 0 {
        want := -1;
        var j := i + 1;
        while j < |table|
          invariant i < j <= |table| && want == -1
          invariant NextStmtWant(table, lines, i + 1, have) == NextStmtWant(table, lines, j, have)
        {
          if table[j].level >= 0 {
            var l := GetLSpace(lines[table[j].line - 1]);
            if have == l {
              want := table[j].level * 2;
            }
            break;
          }
          j := j + 1;
        }
        assert want == NextStmtWant(table, lines, i + 1, have);
      }
      if want < 0 {
        want := -1;
        var j: nat := i;
        while j > 0
          invariant j <= i && want == -1
          invariant BaseLineWant(table, lines, after, i, have) == BaseLineWant(table, lines, after, j, have)
        {
          j := j - 1;
          if table[j].level >= 0 {
            var shifted := GetLSpace(after[table[j].line - 1]);
            var l := GetLSpace(lines[table[j].line - 1]);
            want := have + shifted - l;
            break;
          }
        }
        assert want == BaseLineWant(table, lines, after, i, have);
      }
      if want < 0 {
        // No statement decides: the comment stays where it is.
        want := have;
      }
    }

    // The indentation of statement i, now at column have.
    method Indent(table: seq<Stat>, have2want: map<nat, int>, i: nat, have: nat) returns (want: int)
      requires TableFor(table, lines) && i < |table| && have == LSpace(lines[table[i].line - 1])
      requires forall k :: 0 <= k < i ==> table[k].line <= |after|
      ensures want == Want(table, lines, State(after, have2want), i)
    {
      want := table[i].level * 2;
      if want < 0 {
        // Comments carry a negative level.
        if have != 0 {
          want := CommentIndent(table, have2want, i, have);
        } else {
          want := 0;
        }
      }
    }

    // Append the lines of one statement, moved from column have to column want.
    method EmitSegment(segment: seq<string>, have: nat, want: int)
      modifies this`after
      ensures after == old(after) + ShiftAll(segment, Move(have, want))
    {
      var diff := want - have;
      if diff == 0 || have == 0 {
        assert ShiftAll(segment, 0) == segment;
        after := after + segment;
      } else {
        for n := 0 to |segment|
          invariant after == old(after) + ShiftAll(segment, diff)[..n]
        {
          var line := segment[n];
          if diff > 0 {
            if line == "\n" {
              after := after + [line];
            } else {
              after := after + [Spaces(diff) + line];
            }
          } else {
            var l := GetLSpace(line);
            var remove := if l < -diff then l else -diff;
            after := after + [line[remove..]];
          }
          assert ShiftAll(segment, diff)[..n + 1] == ShiftAll(segment, diff)[..n] + [Shift(line, diff)];
        }
        assert ShiftAll(segment, diff)[..|segment|] == ShiftAll(segment, diff);
      }
    }

    // Append statement i, from thisstmt up to nextstmt, at its new indentation.
    method Reshape(table: seq<Stat>, have2want: map<nat, int>, i: nat, thisstmt: nat, nextstmt: nat)
      returns (have2want': map<nat, int>)
      requires TableFor(table, lines) && i < |table| && |after| + 1 == table[i].line
      requires thisstmt == table[i].line && nextstmt == EndOf(table, lines, i)
      modifies this`after
      ensures State(after, have2want') == StatStep(table, lines, State(old(after), have2want), i)
    {
      var have := GetLSpace(lines[thisstmt - 1]);
      var want := Indent(table, have2want, i, have);
      have2want' := have2want[have := want];
      EmitSegment(lines[thisstmt - 1..nextstmt - 1], have, want);
    }

    // Reindent; the result says whether the file has to be rewritten.
    method Run(table: seq<Stat>) returns (changed: bool)
      requires lines == NormalizeAll(raw) && TableFor(table, Program(raw))
      modifies this
      ensures lines == Program(raw) && after == Reindented(raw, table)
      ensures |after| == |lines| && WellPlaced(table, lines, after)
      ensures changed <==> raw != after
    {
      while lines != [] && lines[|lines| - 1] == "\n"
        invariant Trim(lines) == Program(raw)
        decreases |lines|
      {
        lines := lines[..|lines| - 1];
      }
      var stats := table + [Stat(|lines| + 1, 0)];
      var have2want: map<nat, int> := map[];
      after := lines[..stats[0].line - 1];
      for i := 0 to |stats| - 1
        invariant lines == Program(raw)
        invariant State(after, have2want) == Pass(table, lines, i)
      {
        have2want := Reshape(table, have2want, i, stats[i].line, stats[i + 1].line);
      }
      changed := raw != after;
      PlacedProgram(raw, table);
    }
  }

  /** Running a second reindenter on the output of a first one reports no change. */
  method RunTwice(raw: seq<string>, table: seq<Stat>) returns (first: seq<string>, changedAgain: bool)
    requires TableFor(table, Program(raw))
    ensures first == Reindented(raw, table) && !changedAgain
  {
    var r := new Reindenter(raw);
    var changed := r.Run(table);
    first := r.after;
    Idempotent(raw, table);
    var again := new Reindenter(first);
    changedAgain := again.Run(table);
  }

  // --- whole files ---

  // file.readlines(): split after every line break.
  function ReadLines(text: string): seq<string> {
    if text == [] then [] else [FirstLine(text)] + ReadLines(text[|FirstLine(text)|..])
  }

  function FirstLine(text: string): (r: string)
    requires text != []
    ensures 0 < |r| <= |text| && r <= text && OneLine(r)
  {
    if text[0] == '\n' || |text| == 1 then text[..1] else [text[0]] + FirstLine(text[1..])
  }

  // file.writelines
  function WriteLines(lines: seq<string>): string {
    if lines == [] then [] else lines[0] + WriteLines(lines[1..])
  }

  lemma {:induction false} FirstLineOf(line: string, rest: string)
    requires |line| > 0 && line[|line| - 1] == '\n' && OneLine(line)
    ensures FirstLine(line + rest) == line
  {
    if |line| > 1 {
      assert (line + rest)[1..] == line[1..] + rest;
      FirstLineOf(line[1..], rest);
    }
  }

  lemma {:induction false} ReadBack(lines: seq<string>)
    requires forall l :: l in lines ==> |l| > 0 && l[|l| - 1] == '\n' && OneLine(l)
    ensures ReadLines(WriteLines(lines)) == lines
  {
    if lines != [] {
      FirstLineOf(lines[0], WriteLines(lines[1..]));
      ReadBack(lines[1..]);
      assert WriteLines(lines)[|lines[0]|..] == WriteLines(lines[1..]);
    }
  }

  lemma {:induction false} ReadLinesAreLines(text: string)
    ensures forall l :: l in ReadLines(text) ==> l != [] && OneLine(l)
    ensures WriteLines(ReadLines(text)) == text
    decreases |text|
  {
    if text != [] {
      assert text == FirstLine(text) + text[|FirstLine(text)|..];
      ReadLinesAreLines(text[|FirstLine(text)|..]);
    }
  }

  function ReindentFile(text: string, table: seq<Stat>): string
    requires TableFor(table, Program(ReadLines(text)))
  {
    WriteLines(Reindented(ReadLines(text), table))
  }

  /** On whole files: reading back the text one run has written and running again, with the same
      statement table, writes that text once more. */
  lemma FileFixedPoint(text: string, table: seq<Stat>)
    requires TableFor(table, Program(ReadLines(text)))
    ensures var out := ReindentFile(text, table);
      TableFor(table, Program(ReadLines(out))) && ReindentFile(out, table) == out
  {
    var raw := ReadLines(text);
    ReadLinesAreLines(text);
    OutputIsClean(raw, table);
    ReadBack(Reindented(raw, table));
    Idempotent(raw, table);
  }
}
