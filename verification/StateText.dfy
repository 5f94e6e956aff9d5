/** The text form of routing state (ObjectToText.cs): printers that write line by line, and readers
    driven by the last section heading seen. */
module StateText {
  import opened Wrappers
  import opened Text
  import opened MD = MiniDestination
  import Decimal

  const INT_MAX := 0x7fff_ffff
  const UINT_MAX := 0xffff_ffff
  const BYTE_MAX := 255

  // ---- Lines

  predicate IsBreak(c: char) {
    c == '\n' || c == '\r'
  }

  predicate IsOneLine(s: string) {
    forall k | 0 <= k < |s| :: !IsBreak(s[k])
  }

  function LineEnd(s: string): (k: nat)
    ensures k <= |s|
  {
    if s == "" || IsBreak(s[0]) then 0 else 1 + LineEnd(s[1..])
  }

  /** Where the line after the one that ends at `k` starts. */
  function NextLine(s: string, k: nat): (n: nat)
    requires k <= |s|
    ensures k <= n <= |s| && (k < |s| ==> k < n)
  {
    if k == |s| then k
    else if s[k] == '\r' && k + 1 < |s| && s[k + 1] == '\n' then k + 2
    else k + 1
  }

  /** What successive calls of ReadLine return. */
  function LinesOf(s: string): seq<string> {
    if s == "" then []
    else
      var k := LineEnd(s);
      [s[..k]] + LinesOf(s[NextLine(s, k)..])
  }

  /** Headings are written with WriteLine, everything else ends in a bare line feed. */
  function Ending(line: string, newline: string): string {
    if line != "" && line[0] == '#' then newline else "\n"
  }

  function TextOf(lines: seq<string>, newline: string): string {
    if lines == [] then ""
    else
      var last := lines[|lines| - 1];
      TextOf(lines[..|lines| - 1], newline) + (last + Ending(last, newline))
  }

  predicate IsNewline(newline: string) {
    newline == "\n" || newline == "\r\n"
  }

  lemma {:induction false} TextFront(lines: seq<string>, newline: string)
    requires lines != []
    ensures TextOf(lines, newline) == lines[0] + Ending(lines[0], newline) + TextOf(lines[1..], newline)
  {
    if |lines| > 1 {
      var n := |lines| - 1;
      TextFront(lines[..n], newline);
      assert lines[..n][1..] == lines[1..][..n - 1];
    }
  }

  lemma {:induction false} LineEndAt(line: string, rest: string)
    requires IsOneLine(line) && rest != "" && IsBreak(rest[0])
    ensures LineEnd(line + rest) == |line|
  {
    if line == "" {
      assert line + rest == rest;
    } else {
      assert (line + rest)[1..] == line[1..] + rest;
      LineEndAt(line[1..], rest);
    }
  }

  lemma FirstLineReads(line: string, eol: string, rest: string)
    requires IsOneLine(line) && IsNewline(eol)
    ensures LinesOf(line + eol + rest) == [line] + LinesOf(rest)
  {
    hide LineEnd;
    var s := line + (eol + rest);
    assert s == line + eol + rest;
    LineEndAt(line, eol + rest);
    assert s[..|line|] == line;
    assert s[|line|] == eol[0] && (|eol| == 2 ==> s[|line| + 1] == eol[1]);
    assert s[|line|..] == eol + rest;
    assert s[NextLine(s, |line|)..] == rest;
  }

  /** What is written line by line is read line by line. */
  lemma {:induction false} LinesReadBack(lines: seq<string>, newline: string)
    requires IsNewline(newline) && forall k | 0 <= k < |lines| :: IsOneLine(lines[k])
    ensures LinesOf(TextOf(lines, newline)) == lines
  {
    hide IsOneLine;
    if lines != [] {
      TextFront(lines, newline);
      LinesReadBack(lines[1..], newline);
      FirstLineReads(lines[0], Ending(lines[0], newline), TextOf(lines[1..], newline));
      assert lines == [lines[0]] + lines[1..];
    }
  }

  // ---- Pieces

  function WordEnd(s: string): (k: nat)
    ensures k <= |s|
  {
    if s == "" || s[0] == ' ' then 0 else 1 + WordEnd(s[1..])
  }

  /** Split on spaces, empty pieces removed. */
  function Split(s: string): seq<string> {
    if s == "" then []
    else if s[0] == ' ' then Split(s[1..])
    else
      var k := WordEnd(s);
      [s[..k]] + Split(s[k..])
  }

  predicate IsWord(s: string) {
    s != "" && forall k | 0 <= k < |s| :: s[k] != ' '
  }

  /** Every piece followed by a space. */
  function Row(pieces: seq<string>): string {
    if pieces == [] then "" else Row(pieces[..|pieces| - 1]) + (pieces[|pieces| - 1] + " ")
  }

  lemma {:induction false} WordEndAt(a: string, b: string)
    requires a != "" && a[|a| - 1] == ' '
    ensures WordEnd(a + b) == WordEnd(a) < |a|
  {
    if a[0] != ' ' {
      assert (a + b)[1..] == a[1..] + b;
      WordEndAt(a[1..], b);
    }
  }

  lemma {:induction false} SplitJoins(a: string, b: string)
    requires a == "" || a[|a| - 1] == ' '
    ensures Split(a + b) == Split(a) + Split(b)
    decreases |a|
  {
    if a == "" {
      assert a + b == b;
    } else if a[0] == ' ' {
      assert (a + b)[1..] == a[1..] + b;
      SplitJoins(a[1..], b);
    } else {
      WordEndAt(a, b);
      var k := WordEnd(a);
      assert k > 0;
      assert (a + b)[k..] == a[k..] + b && (a + b)[..k] == a[..k];
      SplitJoins(a[k..], b);
    }
  }

  lemma {:induction false} WordEndIsAll(w: string)
    requires forall k | 0 <= k < |w| :: w[k] != ' '
    ensures WordEnd(w) == |w| && WordEnd(w + " ") == |w|
  {
    if w != "" {
      assert (w + " ")[1..] == w[1..] + " ";
      WordEndIsAll(w[1..]);
    } else {
      assert w + " " == " ";
    }
  }

  lemma SplitWord(w: string)
    requires IsWord(w)
    ensures Split(w) == [w] && Split(w + " ") == [w]
  {
    WordEndIsAll(w);
    assert w[..|w|] == w && w[|w|..] == "";
    assert (w + " ")[..|w|] == w && (w + " ")[|w|..] == " ";
    assert Split(" ") == [] by { assert " "[1..] == ""; }
  }

  /** A row of words splits back into them, whatever word still follows. */
  lemma {:induction false} SplitRow(pieces: seq<string>)
    requires forall p | p in pieces :: IsWord(p)
    ensures Split(Row(pieces)) == pieces
    ensures Row(pieces) == "" || Row(pieces)[|Row(pieces)| - 1] == ' '
  {
    if pieces != [] {
      var n := |pieces| - 1;
      SplitRow(pieces[..n]);
      SplitJoins(Row(pieces[..n]), pieces[n] + " ");
      SplitWord(pieces[n]);
    }
  }

  // ---- Numbers

  function Words(ns: seq<nat>): (ws: seq<string>)
    ensures |ws| == |ns|
  {
    seq(|ns|, k requires 0 <= k < |ns| => Decimal.Print(ns[k]))
  }

  /** The ASCII characters that count as white space around a number. */
  predicate IsBlank(c: char) {
    c == ' ' || '\t' <= c <= '\r'
  }

  function SkipBlanks(s: string): string {
    if s != "" && IsBlank(s[0]) then SkipBlanks(s[1..]) else s
  }

  function DigitsEnd(s: string): (k: nat)
    ensures k <= |s| && Decimal.IsNumeral(s[..k])
  {
    if s == "" || !Decimal.IsDigit(s[0]) then 0
    else
      var k := DigitsEnd(s[1..]);
      assert s[..k + 1] == [s[0]] + s[1..][..k];
      k + 1
  }

  /** White space, then NULs. */
  predicate IsPadding(s: string) {
    s == "" || (if IsBlank(s[0]) then IsPadding(s[1..]) else forall k | 0 <= k < |s| :: s[k] == '\0')
  }

  /** int.Parse, UInt32.Parse and byte.Parse where the result is used as a size, an index or an AS
      number: a sign and padding are allowed, but nothing below zero survives. */
  function ParseNumber(s: string, max: nat): Option<nat> {
    var t := SkipBlanks(s);
    var signed := t != "" && (t[0] == '-' || t[0] == '+');
    var u := if signed then t[1..] else t;
    var k := DigitsEnd(u);
    if k == 0 || !IsPadding(u[k..]) then None
    else
      var value := Decimal.Value(u[..k]);
      if value > max || (signed && t[0] == '-' && value > 0) then None else Some(value)
  }

  function ParseNumbers(pieces: seq<string>, max: nat): (r: Option<seq<nat>>)
    ensures r.Some? ==> |r.value| == |pieces|
  {
    if pieces == [] then Some([])
    else
      var n := |pieces| - 1;
      match (ParseNumbers(pieces[..n], max), ParseNumber(pieces[n], max))
      case (Some(before), Some(last)) => Some(before + [last])
      case _ => None
  }

  lemma NumberReads(n: nat, max: nat)
    requires n <= max
    ensures ParseNumber(Decimal.Print(n), max) == Some(n)
  {
    Decimal.PrintReadsBack(n);
    var s := Decimal.Print(n);
    assert Decimal.IsDigit(s[0]);
    DigitsToTheEnd(s);
    assert s[..|s|] == s;
  }

  lemma {:induction false} DigitsToTheEnd(s: string)
    requires Decimal.IsNumeral(s)
    ensures DigitsEnd(s) == |s|
  {
    if s != "" { DigitsToTheEnd(s[1..]); }
  }

  lemma NumeralIsPlain(n: nat)
    ensures var s := Decimal.Print(n); IsWord(s) && IsOneLine(s) && LowerAll(s) == s && NoLetters(s) && s[0] != '#'
  {
    Decimal.PrintReadsBack(n);
    var s := Decimal.Print(n);
    assert forall k | 0 <= k < |s| :: Decimal.IsDigit(s[k]);
  }

  lemma {:induction false} NumbersRead(ns: seq<nat>, max: nat)
    requires forall k | 0 <= k < |ns| :: ns[k] <= max
    ensures ParseNumbers(Words(ns), max) == Some(ns)
  {
    hide ParseNumber, Decimal.Print;
    if ns != [] {
      var n := |ns| - 1;
      NumbersRead(ns[..n], max);
      assert Words(ns)[..n] == Words(ns[..n]);
      NumberReads(ns[n], max);
      assert ns == ns[..n] + [ns[n]];
    }
  }

  // ---- Rows

  function Lowered(pieces: seq<string>): (r: seq<string>)
    ensures |r| == |pieces|
  {
    seq(|pieces|, k requires 0 <= k < |pieces| => LowerAll(pieces[k]))
  }

  lemma {:induction false} RowLowered(pieces: seq<string>)
    ensures LowerAll(Row(pieces)) == Row(Lowered(pieces))
  {
    if pieces != [] {
      var n := |pieces| - 1;
      RowLowered(pieces[..n]);
      assert Lowered(pieces)[..n] == Lowered(pieces[..n]);
      assert LowerAll(" ") == " ";
      LowerJoins(pieces[n], " ");
      LowerJoins(Row(pieces[..n]), pieces[n] + " ");
    }
  }

  lemma {:induction false} RowIsOneLine(pieces: seq<string>)
    requires forall k | 0 <= k < |pieces| :: IsOneLine(pieces[k])
    ensures IsOneLine(Row(pieces))
  {
    if pieces != [] {
      var n := |pieces| - 1;
      RowIsOneLine(pieces[..n]);
    }
  }

  lemma {:induction false} RowStarts(pieces: seq<string>)
    requires pieces != [] && pieces[0] != ""
    ensures Row(pieces) != "" && Row(pieces)[0] == pieces[0][0]
  {
    if |pieces| > 1 {
      RowStarts(pieces[..|pieces| - 1]);
    }
  }

  /** A row of numbers is one line in small letters whose pieces are the numbers. */
  lemma NumberRow(ns: seq<nat>)
    ensures var s := Row(Words(ns)); IsOneLine(s) && LowerAll(s) == s && Split(s) == Words(ns)
    ensures ns != [] ==> Row(Words(ns)) != "" && Row(Words(ns))[0] != '#'
  {
    hide Row, Split;
    var ws := Words(ns);
    forall k | 0 <= k < |ws| ensures IsWord(ws[k]) && IsOneLine(ws[k]) && LowerAll(ws[k]) == ws[k] {
      NumeralIsPlain(ns[k]);
    }
    RowIsOneLine(ws);
    RowLowered(ws);
    assert Lowered(ws) == ws;
    SplitRow(ws);
    if ns != [] {
      NumeralIsPlain(ns[0]);
      RowStarts(ws);
    }
  }

  // ---- Headings

  predicate StartsAt(s: string, sub: string, p: nat) {
    p + |sub| <= |s| && s[p..p + |sub|] == sub
  }

  /** IndexOf(sub) >= 0 */
  predicate Contains(s: string, sub: string) {
    exists p: nat | p <= |s| :: StartsAt(s, sub, p)
  }

  /** A name and numbers, separated by single spaces. */
  function Heading(name: string, ns: seq<nat>): string
    requires ns != []
  {
    Row([name] + Words(ns[..|ns| - 1])) + Decimal.Print(ns[|ns| - 1])
  }

  predicate IsLetters(s: string) {
    forall k | 0 <= k < |s| :: 'a' <= s[k] <= 'z'
  }

  predicate NoLetters(s: string) {
    forall k | 0 <= k < |s| :: !('a' <= s[k] <= 'z')
  }

  lemma TailHasNoLetters(name: string, tail: string, sub: string)
    requires NoLetters(tail) && IsLetters(sub) && sub != ""
    ensures Contains(name + tail, sub) <==> Contains(name, sub)
  {
    var s := name + tail;
    forall p: nat | p <= |s| && StartsAt(s, sub, p) ensures StartsAt(name, sub, p) {
      var last := |sub| - 1;
      assert s[p..p + |sub|][last] == sub[last];
      assert s[p + last] == sub[last];
      assert s[p..p + |sub|] == name[p..p + |sub|];
    }
    forall p: nat | p <= |name| && StartsAt(name, sub, p) ensures StartsAt(s, sub, p) {
      assert s[p..p + |sub|] == name[p..p + |sub|];
    }
  }

  lemma RowEnds(pieces: seq<string>)
    requires pieces != []
    ensures Row(pieces) == Row(pieces[..|pieces| - 1]) + (pieces[|pieces| - 1] + " ")
  {
  }

  lemma PlainJoins(before: string, s: string)
    requires NoLetters(before) && NoLetters(s) && IsOneLine(before) && IsOneLine(s)
    ensures NoLetters(before + (s + " ")) && IsOneLine(before + (s + " "))
  {
  }

  lemma {:induction false} RowTail(name: string, ns: seq<nat>) returns (tail: string)
    ensures Row([name] + Words(ns)) == name + tail && NoLetters(tail) && IsOneLine(tail)
  {
    hide Row, NoLetters, IsOneLine, LowerAll, IsWord, Decimal.Print;
    var ws := [name] + Words(ns);
    RowEnds(ws);
    if ns == [] {
      tail := " ";
      assert ws[..0] == [];
      SpaceIsPlain();
    } else {
      var n := |ns| - 1;
      var before := RowTail(name, ns[..n]);
      assert ws[..n + 1] == [name] + Words(ns[..n]);
      NumeralIsPlain(ns[n]);
      var s := Decimal.Print(ns[n]);
      tail := before + (s + " ");
      PlainJoins(before, s);
      assert (name + before) + (s + " ") == name + tail;
    }
  }

  lemma SpaceIsPlain()
    ensures Row([]) == "" && NoLetters(" ") && IsOneLine(" ")
  {
  }

  /** A heading read back: its pieces are the name in small letters and the numbers, and it contains
      exactly the words its name contains. */
  lemma HeadingReads(name: string, ns: seq<nat>)
    requires ns != [] && IsWord(name) && IsOneLine(name) && name[0] == '#'
    ensures var s := Heading(name, ns);
            && IsOneLine(s) && s != "" && s[0] == '#' && LowerAll(s) == Heading(LowerAll(name), ns)
  {
    hide Row, Contains;
    var n := |ns| - 1;
    var ws := [name] + Words(ns[..n]);
    var last := Decimal.Print(ns[n]);
    forall k | 0 <= k < |ws| ensures IsOneLine(ws[k]) && Lowered(ws)[k] == ([LowerAll(name)] + Words(ns[..n]))[k] {
      if k > 0 { NumeralIsPlain(ns[..n][k - 1]); }
    }
    assert Lowered(ws) == [LowerAll(name)] + Words(ns[..n]);
    RowIsOneLine(ws);
    RowLowered(ws);
    RowStarts(ws);
    NumeralIsPlain(ns[n]);
    LowerJoins(Row(ws), last);
  }

  lemma HeadingSplits(name: string, ns: seq<nat>)
    requires ns != [] && IsWord(name)
    ensures Split(Heading(name, ns)) == [name] + Words(ns)
  {
    hide Row, Split;
    var n := |ns| - 1;
    var ws := [name] + Words(ns[..n]);
    forall p | p in ws ensures IsWord(p) {
      if p != name {
        var k :| 0 <= k < n && p == Words(ns[..n])[k];
        NumeralIsPlain(ns[k]);
      }
    }
    SplitRow(ws);
    SplitJoins(Row(ws), Decimal.Print(ns[n]));
    NumeralIsPlain(ns[n]);
    SplitWord(Decimal.Print(ns[n]));
    assert Words(ns[..n]) + [Decimal.Print(ns[n])] == Words(ns);
  }

  lemma HeadingContains(name: string, ns: seq<nat>, sub: string)
    requires ns != [] && IsLetters(sub) && sub != ""
    ensures Contains(Heading(name, ns), sub) <==> Contains(name, sub)
  {
    hide Row, Contains;
    var n := |ns| - 1;
    var tail := RowTail(name, ns[..n]);
    var s := Decimal.Print(ns[n]);
    NumeralIsPlain(ns[n]);
    assert Heading(name, ns) == name + (tail + s);
    TailHasNoLetters(name, tail + s, sub);
  }

  // ---- Reading a destination

  datatype Section = Nothing | BucketTable | Best | BestRelation | L

  /** The half-built destination and the section being read. */
  datatype Reading = Reading(currently: Section, d: MiniDestination)

  type Cell = Option<seq<nat>>

  function Nulls(n: nat): (r: seq<Cell>)
    ensures |r| == n
  {
    seq(n, _ => None)
  }

  function NewTable(rows: nat, cols: nat): (r: seq<seq<Cell>>)
    ensures |r| == rows
  {
    seq(rows, _ => Nulls(cols))
  }

  /** Values over the front of an array; None for an index past its end. */
  function Over<T>(values: Option<seq<T>>, a: seq<T>): Option<seq<T>> {
    if values.Some? && |values.value| <= |a| then Some(values.value + a[|values.value|..]) else None
  }

  function Size(pieces: seq<string>, k: nat): Option<nat> {
    if k < |pieces| then ParseNumber(pieces[k], INT_MAX) else None
  }

  function ReadHeading(st: Reading, line: string, pieces: seq<string>): Option<Reading> {
    if Contains(line, "buckettable") then
      match (Size(pieces, 1), Size(pieces, 2))
      case (Some(rows), Some(cols)) => Some(Reading(BucketTable, st.d.(bucketTable := NewTable(rows, cols))))
      case _ => None
    else if Contains(line, "bestrelation") then
      match Size(pieces, 1)
      case Some(n) => Some(Reading(BestRelation, st.d.(bestRelation := seq(n, _ => 0))))
      case None => None
    else if Contains(line, "destination") then
      if |pieces| < 2 then None
      else match ParseNumber(pieces[1], UINT_MAX)
        case Some(n) => Some(st.(d := st.d.(destination := n)))
        case None => None
    else if Contains(line, "best") then
      match Size(pieces, 1)
      case Some(n) => Some(Reading(Best, st.d.(best := Nulls(n))))
      case None => None
    else if Contains(line, "l") then
      match Size(pieces, 1)
      case Some(n) => Some(Reading(L, st.d.(l := seq(n, _ => 0))))
      case None => None
    else Some(st)
  }

  function ReadCell(table: seq<seq<Cell>>, pieces: seq<string>): Option<seq<seq<Cell>>> {
    match (Size(pieces, 0), Size(pieces, 1))
    case (Some(row), Some(col)) =>
      if row < |table| && col < |table[row]| then
        match ParseNumbers(pieces[2..], UINT_MAX)
        case Some(list) => Some(table[row := table[row][col := Some(list)]])
        case None => None
      else None
    case _ => None
  }

  function ReadList(best: seq<Cell>, pieces: seq<string>): Option<seq<Cell>> {
    match Size(pieces, 0)
    case Some(row) =>
      if row < |best| then
        match ParseNumbers(pieces[1..], UINT_MAX)
        case Some(list) => Some(best[row := Some(list)])
        case None => None
      else None
    case None => None
  }

  function ReadData(st: Reading, pieces: seq<string>): Option<Reading> {
    match st.currently
    case Nothing => Some(st)
    case BucketTable =>
      (match ReadCell(st.d.bucketTable, pieces)
       case Some(table) => Some(st.(d := st.d.(bucketTable := table)))
       case None => None)
    case Best =>
      (match ReadList(st.d.best, pieces)
       case Some(best) => Some(st.(d := st.d.(best := best)))
       case None => None)
    case BestRelation =>
      (match Over(ParseNumbers(pieces, BYTE_MAX), st.d.bestRelation)
       case Some(a) => Some(st.(d := st.d.(bestRelation := a)))
       case None => None)
    case L =>
      (match Over(ParseNumbers(pieces, BYTE_MAX), st.d.l)
       case Some(a) => Some(st.(d := st.d.(l := a)))
       case None => None)
  }

  /** One turn of the reader; None is an exception, as for the first character of an empty line. */
  function Step(st: Reading, raw: string): Option<Reading> {
    var line := LowerAll(raw);
    if line == "" then None
    else if line[0] == '#' then ReadHeading(st, line, Split(line))
    else ReadData(st, Split(line))
  }

  function Steps(st: Reading, lines: seq<string>): Option<Reading> {
    if lines == [] then Some(st)
    else
      match Steps(st, lines[..|lines| - 1])
      case Some(mid) => Step(mid, lines[|lines| - 1])
      case None => None
  }

  const EMPTY := Reading(Nothing, MD.MiniDestination.MiniDestination([], [], [], [], 0))

  /** What reading a whole text gives. */
  function Parse(text: string): Option<MiniDestination> {
    match Steps(EMPTY, LinesOf(text))
    case Some(st) => Some(st.d)
    case None => None
  }

  lemma {:induction false} StepsJoin(st: Reading, a: seq<string>, b: seq<string>)
    ensures Steps(st, a + b) == match Steps(st, a) case Some(mid) => Steps(mid, b) case None => None
  {
    hide Step;
    if b == [] {
      assert a + b == a;
    } else {
      var n := |b| - 1;
      assert (a + b)[..|a| + n] == a + b[..n] && (a + b)[|a| + n] == b[n];
      StepsJoin(st, a, b[..n]);
    }
  }

  // ---- Printing a destination

  function CellLine(i: nat, j: nat, list: seq<nat>): string {
    Row(Words([i, j] + list))
  }

  /** The lines of the first `n` cells of row `i`. */
  function RowLines(i: nat, row: seq<Cell>, n: nat): seq<string>
    requires n <= |row|
  {
    if n == 0 then []
    else RowLines(i, row, n - 1) + match row[n - 1] case Some(list) => [CellLine(i, n - 1, list)] case None => []
  }

  /** The lines of the first `n` rows, `cols` cells of each. */
  function TableLines(table: seq<seq<Cell>>, cols: nat, n: nat): seq<string>
    requires n <= |table| && forall i | 0 <= i < n :: cols <= |table[i]|
  {
    if n == 0 then [] else TableLines(table, cols, n - 1) + RowLines(n - 1, table[n - 1], cols)
  }

  function ListLines(best: seq<Cell>, n: nat): seq<string>
    requires n <= |best|
  {
    if n == 0 then []
    else ListLines(best, n - 1) + match best[n - 1] case Some(list) => [Row(Words([n - 1] + list))] case None => []
  }

  /** The printer indexes the first row and looks for that many cells in each. */
  ghost predicate Printable(d: MiniDestination) {
    d.bucketTable != [] && forall i | 0 <= i < |d.bucketTable| :: |d.bucketTable[0]| <= |d.bucketTable[i]|
  }

  /** The sections up to the parent lists, and the two arrays. */
  ghost function FrontLines(d: MiniDestination): seq<string>
    requires Printable(d)
  {
    var cols := |d.bucketTable[0]|;
    [Heading("#destination", [d.destination]), Heading("#buckettable", [|d.bucketTable|, cols])]
    + TableLines(d.bucketTable, cols, |d.bucketTable|)
    + [Heading("#best", [|d.best|])]
    + ListLines(d.best, |d.best|)
  }

  ghost function ArrayLines(relation: seq<nat>, depth: seq<nat>): seq<string> {
    [Heading("#bestrelation", [|relation|]), Row(Words(relation))] + [Heading("#L", [|depth|]), Row(Words(depth))]
  }

  ghost function Lines(d: MiniDestination): seq<string>
    requires Printable(d)
  {
    FrontLines(d) + ArrayLines(d.bestRelation, d.l)
  }

  // ---- Each section reads back

  ghost predicate ListFits(c: Cell) {
    c.Some? ==> forall k | 0 <= k < |c.value| :: c.value[k] <= UINT_MAX
  }

  lemma CellReads(st: Reading, i: nat, j: nat, list: seq<nat>)
    requires st.currently == BucketTable && i < |st.d.bucketTable| <= INT_MAX && j < |st.d.bucketTable[i]| <= INT_MAX
    requires ListFits(Some(list))
    ensures Step(st, CellLine(i, j, list))
         == Some(st.(d := st.d.(bucketTable := st.d.bucketTable[i := st.d.bucketTable[i][j := Some(list)]])))
  {
    hide Row, Split, ParseNumbers, ParseNumber;
    var ns := [i, j] + list;
    NumberRow(ns);
    NumberReads(i, INT_MAX);
    NumberReads(j, INT_MAX);
    NumbersRead(list, UINT_MAX);
    assert Words(ns)[2..] == Words(list);
  }

  lemma ListReads(st: Reading, i: nat, list: seq<nat>)
    requires st.currently == Best && i < |st.d.best| <= INT_MAX && ListFits(Some(list))
    ensures Step(st, Row(Words([i] + list))) == Some(st.(d := st.d.(best := st.d.best[i := Some(list)])))
  {
    hide Row, Split, ParseNumbers, ParseNumber;
    var ns := [i] + list;
    NumberRow(ns);
    NumberReads(i, INT_MAX);
    NumbersRead(list, UINT_MAX);
    assert Words(ns)[1..] == Words(list);
  }

  lemma NextCell(row: seq<Cell>, n: nat)
    requires 0 < n <= |row|
    ensures var part, next := row[..n - 1] + Nulls(|row| - (n - 1)), row[..n] + Nulls(|row| - n);
            part[n - 1 := row[n - 1]] == next && (row[n - 1] == None ==> part == next)
  {
  }

  lemma Twice<T>(s: seq<T>, i: nat, x: T, y: T)
    requires i < |s|
    ensures s[i := x][i := y] == s[i := y]
  {
  }

  /** Reading the first `n` lines of a row fills its first `n` cells and leaves null ones null. */
  lemma {:induction false} RowReads(st: Reading, i: nat, row: seq<Cell>, n: nat)
    requires st.currently == BucketTable && i < |st.d.bucketTable| <= INT_MAX
    requires n <= |row| <= INT_MAX && st.d.bucketTable[i] == Nulls(|row|)
    requires forall j | 0 <= j < n :: ListFits(row[j])
    ensures Steps(st, RowLines(i, row, n))
         == Some(st.(d := st.d.(bucketTable := st.d.bucketTable[i := row[..n] + Nulls(|row| - n)])))
  {
    hide Step, Nulls, CellLine;
    var t := st.d.bucketTable;
    if n == 0 {
      assert t[i := row[..0] + Nulls(|row|)] == t by { assert row[..0] + Nulls(|row|) == t[i]; }
    } else {
      RowReads(st, i, row, n - 1);
      var lines := RowLines(i, row, n - 1);
      var part := row[..n - 1] + Nulls(|row| - (n - 1));
      var mid := st.(d := st.d.(bucketTable := t[i := part]));
      var next := row[..n] + Nulls(|row| - n);
      NextCell(row, n);
      match row[n - 1]
      case None =>
        assert lines + [] == lines;
      case Some(list) =>
        CellReads(mid, i, n - 1, list);
        Twice(t, i, part, next);
        assert (lines + [CellLine(i, n - 1, list)])[..|lines|] == lines;
    }
  }

  lemma NextRow(table: seq<seq<Cell>>, cols: nat, n: nat)
    requires 0 < n <= |table| && |table[n - 1]| == cols
    ensures (table[..n - 1] + NewTable(|table| - (n - 1), cols))[n - 1] == Nulls(cols)
    ensures table[n - 1][..cols] + Nulls(0) == table[n - 1]
    ensures (table[..n - 1] + NewTable(|table| - (n - 1), cols))[n - 1 := table[n - 1]]
         == table[..n] + NewTable(|table| - n, cols)
  {
    var m := |table| - n;
    assert NewTable(m + 1, cols) == [Nulls(cols)] + NewTable(m, cols);
    assert table[..n] == table[..n - 1] + [table[n - 1]];
  }

  lemma {:induction false} TableReads(st: Reading, table: seq<seq<Cell>>, cols: nat, n: nat)
    requires st.currently == BucketTable && st.d.bucketTable == NewTable(|table|, cols)
    requires n <= |table| <= INT_MAX && cols <= INT_MAX && forall i | 0 <= i < |table| :: |table[i]| == cols
    requires forall i, j | 0 <= i < |table| && 0 <= j < cols :: ListFits(table[i][j])
    ensures Steps(st, TableLines(table, cols, n))
         == Some(st.(d := st.d.(bucketTable := table[..n] + NewTable(|table| - n, cols))))
  {
    hide Step, NewTable, Nulls, RowLines;
    if n == 0 {
      assert table[..0] + NewTable(|table|, cols) == NewTable(|table|, cols);
    } else {
      TableReads(st, table, cols, n - 1);
      var part := table[..n - 1] + NewTable(|table| - (n - 1), cols);
      var mid := st.(d := st.d.(bucketTable := part));
      var row := table[n - 1];
      NextRow(table, cols, n);
      RowReads(mid, n - 1, row, cols);
      StepsJoin(st, TableLines(table, cols, n - 1), RowLines(n - 1, row, cols));
    }
  }

  lemma {:induction false} ListsRead(st: Reading, best: seq<Cell>, n: nat)
    requires st.currently == Best && st.d.best == Nulls(|best|) && n <= |best| <= INT_MAX
    requires forall i | 0 <= i < |best| :: ListFits(best[i])
    ensures Steps(st, ListLines(best, n)) == Some(st.(d := st.d.(best := best[..n] + Nulls(|best| - n))))
  {
    hide Step;
    if n == 0 {
      assert best[..0] + Nulls(|best|) == Nulls(|best|);
    } else {
      ListsRead(st, best, n - 1);
      var lines := ListLines(best, n - 1);
      var part := best[..n - 1] + Nulls(|best| - (n - 1));
      var mid := st.(d := st.d.(best := part));
      var next := best[..n] + Nulls(|best| - n);
      match best[n - 1]
      case None =>
        assert part == next;
        assert lines + [] == lines;
      case Some(list) =>
        ListReads(mid, n - 1, list);
        assert part[n - 1 := Some(list)] == next;
        assert (lines + [Row(Words([n - 1] + list))])[..|lines|] == lines;
    }
  }

  /** Which section words each heading contains. */
  lemma SectionNames()
    ensures Contains("#buckettable", "buckettable")
    ensures Contains("#bestrelation", "bestrelation") && !Contains("#bestrelation", "buckettable")
    ensures Contains("#destination", "destination")
    ensures !Contains("#destination", "buckettable") && !Contains("#destination", "bestrelation")
    ensures Contains("#best", "best") && !Contains("#best", "buckettable")
    ensures !Contains("#best", "bestrelation") && !Contains("#best", "destination")
    ensures Contains("#l", "l") && !Contains("#l", "buckettable") && !Contains("#l", "bestrelation")
    ensures !Contains("#l", "destination") && !Contains("#l", "best")
  {
    assert StartsAt("#buckettable", "buckettable", 1) && StartsAt("#bestrelation", "bestrelation", 1);
    assert StartsAt("#destination", "destination", 1) && StartsAt("#best", "best", 1) && StartsAt("#l", "l", 1);
    NameLacks("#bestrelation", "buckettable");
    NameLacks("#destination", "buckettable");
    NameLacks("#destination", "bestrelation");
  }

  /** A name at most two characters longer, with no room for the word at its first three places. */
  lemma NameLacks(name: string, sub: string)
    requires 3 <= |sub| <= |name| <= |sub| + 2
    requires name[0] != sub[0] && name[2] != sub[0] && (name[1] != sub[0] || name[2] != sub[1])
    ensures !Contains(name, sub)
  {
    forall p: nat | p <= |name| ensures !StartsAt(name, sub, p) {
      if p + |sub| <= |name| {
        var cut := name[p..p + |sub|];
        assert cut[0] == name[p] && cut[1] == name[p + 1];
      }
    }
  }

  lemma HeadingStep(st: Reading, name: string, ns: seq<nat>)
    requires ns != [] && IsWord(name) && IsWord(LowerAll(name)) && IsOneLine(name) && name[0] == '#'
    ensures IsOneLine(Heading(name, ns))
    ensures var low := Heading(LowerAll(name), ns);
            && Step(st, Heading(name, ns)) == ReadHeading(st, low, [LowerAll(name)] + Words(ns))
            && forall sub | IsLetters(sub) && sub != "" :: Contains(low, sub) <==> Contains(LowerAll(name), sub)
  {
    hide Heading, ReadHeading, Contains, Split;
    HeadingReads(name, ns);
    HeadingSplits(LowerAll(name), ns);
    forall sub | IsLetters(sub) && sub != ""
      ensures Contains(Heading(LowerAll(name), ns), sub) <==> Contains(LowerAll(name), sub)
    {
      HeadingContains(LowerAll(name), ns, sub);
    }
  }

  predicate IsPlain(s: string) {
    IsWord(s) && IsOneLine(s)
  }

  lemma LowerNames()
    ensures LowerAll("#buckettable") == "#buckettable" && LowerAll("#best") == "#best" && LowerAll("#bestrelation") == "#bestrelation"
    ensures LowerAll("#L") == "#l" && LowerAll("#destination") == "#destination"
  {
  }

  lemma PlainNames()
    ensures IsPlain("#buckettable") && IsPlain("#best") && IsPlain("#bestrelation")
    ensures IsPlain("#L") && IsPlain("#l") && IsPlain("#destination")
  {
  }

  // Each heading selects its section and makes room for it.

  lemma TableHeadingReads(st: Reading, rows: nat, cols: nat)
    requires rows <= INT_MAX && cols <= INT_MAX
    ensures Step(st, Heading("#buckettable", [rows, cols])) == Some(Reading(BucketTable, st.d.(bucketTable := NewTable(rows, cols))))
  {
    hide Heading, Contains, Split, Step, ParseNumber, LowerAll, IsWord, IsOneLine;
    SectionNames();
    LowerNames();
    PlainNames();
    NumberReads(rows, INT_MAX);
    NumberReads(cols, INT_MAX);
    HeadingStep(st, "#buckettable", [rows, cols]);
  }

  lemma BestHeadingReads(st: Reading, n: nat)
    requires n <= INT_MAX
    ensures Step(st, Heading("#best", [n])) == Some(Reading(Best, st.d.(best := Nulls(n))))
  {
    hide Heading, Contains, Split, Step, ParseNumber, LowerAll, IsWord, IsOneLine;
    SectionNames();
    LowerNames();
    PlainNames();
    NumberReads(n, INT_MAX);
    HeadingStep(st, "#best", [n]);
  }

  lemma RelationHeadingReads(st: Reading, n: nat)
    requires n <= INT_MAX
    ensures Step(st, Heading("#bestrelation", [n])) == Some(Reading(BestRelation, st.d.(bestRelation := seq(n, _ => 0))))
  {
    hide Heading, Contains, Split, Step, ParseNumber, LowerAll, IsWord, IsOneLine;
    SectionNames();
    LowerNames();
    PlainNames();
    NumberReads(n, INT_MAX);
    HeadingStep(st, "#bestrelation", [n]);
  }

  lemma DepthHeadingReads(st: Reading, n: nat)
    requires n <= INT_MAX
    ensures Step(st, Heading("#L", [n])) == Some(Reading(L, st.d.(l := seq(n, _ => 0))))
  {
    hide Heading, Contains, Split, Step, ParseNumber, LowerAll, IsWord, IsOneLine;
    SectionNames();
    LowerNames();
    PlainNames();
    NumberReads(n, INT_MAX);
    HeadingStep(st, "#L", [n]);
  }

  lemma DestinationHeadingReads(st: Reading, n: nat)
    requires n <= UINT_MAX
    ensures Step(st, Heading("#destination", [n])) == Some(st.(d := st.d.(destination := n)))
  {
    hide Heading, Contains, Split, Step, ParseNumber, LowerAll, IsWord, IsOneLine;
    SectionNames();
    LowerNames();
    PlainNames();
    NumberReads(n, UINT_MAX);
    HeadingStep(st, "#destination", [n]);
  }

  // ---- The whole text

  /** Every number fits the type the reader parses it as. */
  ghost predicate Fits(d: MiniDestination) {
    && d.destination <= UINT_MAX
    && |d.bucketTable| <= INT_MAX && |d.best| <= INT_MAX && |d.bestRelation| <= INT_MAX && |d.l| <= INT_MAX
    && (d.bucketTable != [] ==> |d.bucketTable[0]| <= INT_MAX)
    && (forall i, j | 0 <= i < |d.bucketTable| && 0 <= j < |d.bucketTable[i]| :: ListFits(d.bucketTable[i][j]))
    && (forall i | 0 <= i < |d.best| :: ListFits(d.best[i]))
    && (forall k | 0 <= k < |d.bestRelation| :: d.bestRelation[k] <= BYTE_MAX)
    && (forall k | 0 <= k < |d.l| :: d.l[k] <= BYTE_MAX)
  }

  /** The table as far as the printer looks: every row cut to the width of the first. */
  ghost function Cut(table: seq<seq<Cell>>): (r: seq<seq<Cell>>)
    requires table != [] && forall i | 0 <= i < |table| :: |table[0]| <= |table[i]|
    ensures |r| == |table|
  {
    seq(|table|, i requires 0 <= i < |table| => table[i][..|table[0]|])
  }

  ghost predicate Rectangular(table: seq<seq<Cell>>) {
    forall i | 0 <= i < |table| :: |table[i]| == |table[0]|
  }

  lemma {:induction false} RowLinesCut(i: nat, row: seq<Cell>, m: nat, n: nat)
    requires n <= m <= |row|
    ensures RowLines(i, row, n) == RowLines(i, row[..m], n)
  {
    if n > 0 {
      RowLinesCut(i, row, m, n - 1);
    }
  }

  lemma {:induction false} TableLinesCut(table: seq<seq<Cell>>, n: nat)
    requires table != [] && n <= |table| && forall i | 0 <= i < |table| :: |table[0]| <= |table[i]|
    ensures TableLines(table, |table[0]|, n) == TableLines(Cut(table), |table[0]|, n)
  {
    hide RowLines;
    if n > 0 {
      TableLinesCut(table, n - 1);
      RowLinesCut(n - 1, table[n - 1], |table[0]|, |table[0]|);
    }
  }

  lemma ValuesRead(st: Reading, values: seq<nat>)
    requires forall k | 0 <= k < |values| :: values[k] <= BYTE_MAX
    requires st.currently == BestRelation || st.currently == L
    requires |if st.currently == L then st.d.l else st.d.bestRelation| == |values|
    ensures Step(st, Row(Words(values)))
         == if values == [] then None
            else if st.currently == L then Some(st.(d := st.d.(l := values)))
            else Some(st.(d := st.d.(bestRelation := values)))
  {
    hide Row, Split, ParseNumbers;
    NumberRow(values);
    NumbersRead(values, BYTE_MAX);
    RowOfNothing();
    var a := if st.currently == L then st.d.l else st.d.bestRelation;
    assert values + a[|values|..] == values;
  }

  lemma RowOfNothing()
    ensures Row(Words([])) == "" && LowerAll("") == ""
  {
  }

  /** A heading and one row of values. */
  lemma ArraysRead(st: Reading, relation: seq<nat>, depth: seq<nat>)
    requires |relation| <= INT_MAX && |depth| <= INT_MAX
    requires forall k | 0 <= k < |relation| :: relation[k] <= BYTE_MAX
    requires forall k | 0 <= k < |depth| :: depth[k] <= BYTE_MAX
    ensures Steps(st, ArrayLines(relation, depth))
         == if relation == [] || depth == [] then None
            else Some(Reading(L, st.d.(bestRelation := relation, l := depth)))
  {
    hide Heading, Row, Step;
    var h1, r1, h2, r2 := Heading("#bestrelation", [|relation|]), Row(Words(relation)), Heading("#L", [|depth|]), Row(Words(depth));
    var st1 := Reading(BestRelation, st.d.(bestRelation := seq(|relation|, _ => 0)));
    var st2 := st1.(d := st1.d.(bestRelation := relation));
    var st3 := Reading(L, st2.d.(l := seq(|depth|, _ => 0)));
    RelationHeadingReads(st, |relation|);
    ValuesRead(st1, relation);
    DepthHeadingReads(st2, |depth|);
    ValuesRead(st3, depth);
    TwoSteps(st, h1, r1);
    TwoSteps(st2, h2, r2);
    StepsJoin(st, [h1, r1], [h2, r2]);
  }

  lemma TwoSteps(st: Reading, a: string, b: string)
    ensures Steps(st, [a]) == Step(st, a)
    ensures Steps(st, [a, b]) == match Step(st, a) case Some(mid) => Step(mid, b) case None => None
  {
    hide Step;
    assert [a][..0] == [] && [a, b][..1] == [a];
  }

  lemma TablesRead(d: MiniDestination)
    requires Printable(d) && Fits(d)
    ensures Steps(EMPTY, FrontLines(d))
         == Some(Reading(Best, MD.MiniDestination.MiniDestination(Cut(d.bucketTable), d.best, [], [], d.destination)))
  {
    hide Heading, Step;
    var rows, cols, n := |d.bucketTable|, |d.bucketTable[0]|, |d.best|;
    var h1, h2, h3 := Heading("#destination", [d.destination]), Heading("#buckettable", [rows, cols]), Heading("#best", [n]);
    var t, b := TableLines(d.bucketTable, cols, rows), ListLines(d.best, n);
    var cut := Cut(d.bucketTable);
    var st1 := EMPTY.(d := EMPTY.d.(destination := d.destination));
    var st2 := Reading(BucketTable, st1.d.(bucketTable := NewTable(rows, cols)));
    var st3 := st2.(d := st2.d.(bucketTable := cut));
    var st4 := Reading(Best, st3.d.(best := Nulls(n)));
    DestinationHeadingReads(EMPTY, d.destination);
    TableHeadingReads(st1, rows, cols);
    TwoSteps(EMPTY, h1, h2);
    TableLinesCut(d.bucketTable, rows);
    TableReads(st2, cut, cols, rows);
    assert cut[..rows] + NewTable(0, cols) == cut;
    StepsJoin(EMPTY, [h1, h2], t);
    BestHeadingReads(st3, n);
    TwoSteps(st3, h3, h3);
    StepsJoin(EMPTY, [h1, h2] + t, [h3]);
    ListsRead(st4, d.best, n);
    assert d.best[..n] + Nulls(0) == d.best;
    StepsJoin(EMPTY, [h1, h2] + t + [h3], b);
  }

  lemma {:induction false} TableLinesAreLines(table: seq<seq<Cell>>, cols: nat, n: nat, k: nat)
    requires n <= |table| && forall i | 0 <= i < n :: cols <= |table[i]|
    requires k < |TableLines(table, cols, n)|
    ensures IsOneLine(TableLines(table, cols, n)[k])
  {
    hide IsOneLine, RowLines;
    var before := |TableLines(table, cols, n - 1)|;
    if k < before {
      TableLinesAreLines(table, cols, n - 1, k);
    } else {
      RowLinesAreLines(n - 1, table[n - 1], cols, k - before);
    }
  }

  lemma {:induction false} RowLinesAreLines(i: nat, row: seq<Cell>, n: nat, k: nat)
    requires n <= |row| && k < |RowLines(i, row, n)|
    ensures IsOneLine(RowLines(i, row, n)[k])
  {
    hide IsOneLine, Row;
    if k < |RowLines(i, row, n - 1)| {
      RowLinesAreLines(i, row, n - 1, k);
    } else {
      NumberRow([i, n - 1] + row[n - 1].value);
    }
  }

  lemma {:induction false} ListLinesAreLines(best: seq<Cell>, n: nat, k: nat)
    requires n <= |best| && k < |ListLines(best, n)|
    ensures IsOneLine(ListLines(best, n)[k])
  {
    hide IsOneLine, Row;
    if k < |ListLines(best, n - 1)| {
      ListLinesAreLines(best, n - 1, k);
    } else {
      NumberRow([n - 1] + best[n - 1].value);
    }
  }

  lemma HeadingIsLine(name: string, ns: seq<nat>)
    requires ns != [] && IsWord(name) && IsOneLine(name) && name[0] == '#'
    ensures IsOneLine(Heading(name, ns))
  {
    HeadingReads(name, ns);
  }

  lemma LinesAreLines(d: MiniDestination, k: nat)
    requires Printable(d) && k < |Lines(d)|
    ensures IsOneLine(Lines(d)[k])
  {
    hide Heading, Row, TableLines, ListLines;
    var cols, rows := |d.bucketTable[0]|, |d.bucketTable|;
    var t, b := TableLines(d.bucketTable, cols, rows), ListLines(d.best, |d.best|);
    HeadingIsLine("#destination", [d.destination]);
    HeadingIsLine("#buckettable", [rows, cols]);
    HeadingIsLine("#best", [|d.best|]);
    HeadingIsLine("#bestrelation", [|d.bestRelation|]);
    HeadingIsLine("#L", [|d.l|]);
    NumberRow(d.bestRelation);
    NumberRow(d.l);
    if 2 <= k < 2 + |t| {
      TableLinesAreLines(d.bucketTable, cols, rows, k - 2);
    } else if 3 + |t| <= k < 3 + |t| + |b| {
      ListLinesAreLines(d.best, |d.best|, k - 3 - |t|);
    }
  }

  /** Reading a printed destination: exact, whatever the line ending of headings. */
  lemma PrintedReads(d: MiniDestination, newline: string)
    requires Printable(d) && Fits(d) && IsNewline(newline)
    ensures Parse(TextOf(Lines(d), newline))
         == if d.bestRelation == [] || d.l == [] then None
            else Some(d.(bucketTable := Cut(d.bucketTable)))
  {
    hide IsOneLine, FrontLines, ArrayLines, LinesOf, TextOf, Cut;
    var lines := Lines(d);
    forall k | 0 <= k < |lines| ensures IsOneLine(lines[k]) {
      LinesAreLines(d, k);
    }
    LinesReadBack(lines, newline);
    TablesRead(d);
    var st := Reading(Best, MD.MiniDestination.MiniDestination(Cut(d.bucketTable), d.best, [], [], d.destination));
    ArraysRead(st, d.bestRelation, d.l);
    StepsJoin(EMPTY, FrontLines(d), ArrayLines(d.bestRelation, d.l));
  }

  /** Printing and reading undo each other exactly for rectangular tables and non-empty arrays;
      null lists and empty lists are kept apart. */
  lemma PrintedReadsBack(d: MiniDestination, newline: string)
    requires Printable(d) && Fits(d) && IsNewline(newline)
    ensures Parse(TextOf(Lines(d), newline)) == Some(d)
       <==> Rectangular(d.bucketTable) && d.bestRelation != [] && d.l != []
  {
    hide Lines, TextOf, Parse;
    PrintedReads(d, newline);
    var t := d.bucketTable;
    if Rectangular(t) {
      forall i | 0 <= i < |t| ensures Cut(t)[i] == t[i] {
        assert t[i][..|t[0]|] == t[i];
      }
      assert Cut(t) == t;
    } else {
      var i :| 0 <= i < |t| && |t[i]| != |t[0]|;
      assert |Cut(t)[i]| == |t[0]|;
    }
  }

  /** Every routing DAG the simulator builds survives being written and read. */
  lemma ValidReadsBack(d: MiniDestination, newline: string)
    requires d.Valid() && Fits(d) && IsNewline(newline)
    ensures Printable(d) && Parse(TextOf(Lines(d), newline)) == Some(d)
  {
    hide Lines, TextOf, Parse;
    PrintedReadsBack(d, newline);
  }

  // ---- The writer

  class StreamWriter {
    var text: string
    const newline: string

    constructor (newline: string)
      ensures text == "" && this.newline == newline
    {
      text := "";
      this.newline := newline;
    }

    method Write(s: string)
      modifies `text
      ensures text == old(text) + s
    {
      text := text + s;
    }

    method WriteLine(s: string)
      modifies `text
      ensures text == old(text) + s + newline
    {
      text := text + s + newline;
    }
  }

  lemma {:induction false} RowJoins(a: seq<nat>, b: seq<nat>)
    ensures Row(Words(a + b)) == Row(Words(a)) + Row(Words(b))
  {
    hide Row;
    if b == [] {
      assert a + b == a;
      RowOfNothing();
    } else {
      var n := |b| - 1;
      assert Words(a + b)[..|a| + n] == Words(a + b[..n]) && Words(b)[..n] == Words(b[..n]);
      RowEnds(Words(a + b));
      RowEnds(Words(b));
      RowJoins(a, b[..n]);
    }
  }

  lemma ShortRows(i: nat, j: nat)
    ensures Row(Words([i])) == Decimal.Print(i) + " "
    ensures Row(Words([i, j])) == Decimal.Print(i) + " " + Decimal.Print(j) + " "
  {
    assert Words([i])[..0] == [] && Words([i, j])[..1] == Words([i]);
  }

  lemma HeadingText(name: string, m: nat, n: nat)
    ensures Heading(name, [n]) == name + " " + Decimal.Print(n)
    ensures Heading(name, [m, n]) == name + " " + Decimal.Print(m) + " " + Decimal.Print(n)
  {
    hide Row;
    RowEnds([name]);
    RowOfNothing();
    assert [name][..0] == Words([]);
    assert [name] + Words([n][..0]) == [name];
    var two := [name] + Words([m, n][..1]);
    assert two[..1] == [name] && two[1] == Decimal.Print(m);
    RowEnds(two);
  }

  lemma NoText(newline: string)
    ensures TextOf([], newline) == ""
  {
  }

  lemma TextGrows(lines: seq<string>, line: string, newline: string)
    ensures TextOf(lines + [line], newline) == TextOf(lines, newline) + line + Ending(line, newline)
  {
    assert (lines + [line])[..|lines|] == lines;
  }

  lemma NumberLineGrows(lines: seq<string>, ns: seq<nat>, newline: string)
    ensures TextOf(lines + [Row(Words(ns))], newline) == TextOf(lines, newline) + Row(Words(ns)) + "\n"
  {
    TextGrows(lines, Row(Words(ns)), newline);
    NumberRow(ns);
    RowOfNothing();
  }

  lemma HeadingGrows(lines: seq<string>, name: string, ns: seq<nat>, newline: string)
    requires ns != [] && IsWord(name) && IsOneLine(name) && name[0] == '#'
    ensures TextOf(lines + [Heading(name, ns)], newline) == TextOf(lines, newline) + Heading(name, ns) + newline
  {
    TextGrows(lines, Heading(name, ns), newline);
    HeadingReads(name, ns);
  }

  /** Every number followed by a space, then a line feed. */
  method WriteList(list: seq<nat>, output: StreamWriter)
    modifies output`text
    ensures output.text == old(output.text) + Row(Words(list)) + "\n"
  {
    hide Row;
    ghost var start := output.text;
    var k := 0;
    RowOfNothing();
    assert Words(list[..0]) == Words([]);
    while k < |list|
      invariant 0 <= k <= |list|
      invariant output.text == start + Row(Words(list[..k]))
    {
      output.Write(Decimal.Print(list[k]) + " ");
      RowJoins(list[..k], [list[k]]);
      ShortRows(list[k], 0);
      assert list[..k] + [list[k]] == list[..k + 1];
      k := k + 1;
    }
    output.Write("\n");
    assert list[..k] == list;
  }

  /** The rows of the bucket table that hold a list. */
  method WriteTable(table: seq<seq<Cell>>, output: StreamWriter, ghost before: seq<string>)
    requires table != [] && forall i | 0 <= i < |table| :: |table[0]| <= |table[i]|
    requires output.text == TextOf(before, output.newline)
    modifies output`text
    ensures output.text == TextOf(before + TableLines(table, |table[0]|, |table|), output.newline)
  {
    hide TextOf, Row;
    var cols := |table[0]|;
    var i := 0;
    assert before + TableLines(table, cols, 0) == before;
    while i < |table|
      invariant 0 <= i <= |table|
      invariant output.text == TextOf(before + TableLines(table, cols, i), output.newline)
    {
      ghost var sofar := before + TableLines(table, cols, i);
      WriteTableRow(i, table[i], cols, output, sofar);
      assert sofar + RowLines(i, table[i], cols) == before + TableLines(table, cols, i + 1);
      i := i + 1;
    }
  }

  method WriteTableRow(i: nat, row: seq<Cell>, cols: nat, output: StreamWriter, ghost before: seq<string>)
    requires cols <= |row| && output.text == TextOf(before, output.newline)
    modifies output`text
    ensures output.text == TextOf(before + RowLines(i, row, cols), output.newline)
  {
    hide TextOf, Row;
    var j := 0;
    assert before + RowLines(i, row, 0) == before;
    while j < cols
      invariant 0 <= j <= cols
      invariant output.text == TextOf(before + RowLines(i, row, j), output.newline)
    {
      ghost var sofar := before + RowLines(i, row, j);
      if row[j] != None {
        var list := row[j].value;
        output.Write(Decimal.Print(i) + " " + Decimal.Print(j) + " ");
        WriteList(list, output);
        ShortRows(i, j);
        RowJoins([i, j], list);
        NumberLineGrows(sofar, [i, j] + list, output.newline);
        assert sofar + [CellLine(i, j, list)] == before + RowLines(i, row, j + 1);
      } else {
        assert sofar == before + RowLines(i, row, j + 1);
      }
      j := j + 1;
    }
  }

  /** The parent lists that are there. */
  method WriteLists(best: seq<Cell>, output: StreamWriter, ghost before: seq<string>)
    requires output.text == TextOf(before, output.newline)
    modifies output`text
    ensures output.text == TextOf(before + ListLines(best, |best|), output.newline)
  {
    hide TextOf, Row;
    var i := 0;
    assert before + ListLines(best, 0) == before;
    while i < |best|
      invariant 0 <= i <= |best|
      invariant output.text == TextOf(before + ListLines(best, i), output.newline)
    {
      ghost var sofar := before + ListLines(best, i);
      if best[i] != None {
        var list := best[i].value;
        output.Write(Decimal.Print(i) + " ");
        WriteList(list, output);
        ShortRows(i, 0);
        RowJoins([i], list);
        NumberLineGrows(sofar, [i] + list, output.newline);
        assert sofar + [Row(Words([i] + list))] == before + ListLines(best, i + 1);
      } else {
        assert sofar == before + ListLines(best, i + 1);
      }
      i := i + 1;
    }
  }

  /** miniDestinationToStream, on a fresh stream. */
  method MiniDestinationToStream(d: MiniDestination, output: StreamWriter)
    requires Printable(d) && output.text == ""
    modifies output`text
    ensures output.text == TextOf(Lines(d), output.newline)
  {
    hide TextOf, Row, Heading;
    var rows, cols := |d.bucketTable|, |d.bucketTable[0]|;
    NoText(output.newline);
    WriteHeading("#destination", d.destination, output, []);
    ghost var h := [] + [Heading("#destination", [d.destination])];
    output.WriteLine("#buckettable" + " " + Decimal.Print(rows) + " " + Decimal.Print(cols));
    HeadingText("#buckettable", rows, cols);
    HeadingGrows(h, "#buckettable", [rows, cols], output.newline);
    h := h + [Heading("#buckettable", [rows, cols])];
    WriteTable(d.bucketTable, output, h);
    h := h + TableLines(d.bucketTable, cols, rows);
    WriteHeading("#best", |d.best|, output, h);
    h := h + [Heading("#best", [|d.best|])];
    WriteLists(d.best, output, h);
    h := h + ListLines(d.best, |d.best|);
    assert h == FrontLines(d);
    WriteArray("#bestrelation", d.bestRelation, output, h);
    h := h + [Heading("#bestrelation", [|d.bestRelation|]), Row(Words(d.bestRelation))];
    WriteArray("#L", d.l, output, h);
    assert h + [Heading("#L", [|d.l|]), Row(Words(d.l))] == Lines(d);
  }

  method WriteHeading(name: string, n: nat, output: StreamWriter, ghost before: seq<string>)
    requires IsWord(name) && IsOneLine(name) && name[0] == '#'
    requires output.text == TextOf(before, output.newline)
    modifies output`text
    ensures output.text == TextOf(before + [Heading(name, [n])], output.newline)
  {
    hide TextOf, Heading;
    output.WriteLine(name + " " + Decimal.Print(n));
    HeadingText(name, 0, n);
    HeadingGrows(before, name, [n], output.newline);
  }

  /** A heading with the length, then the values on one line. */
  method WriteArray(name: string, values: seq<nat>, output: StreamWriter, ghost before: seq<string>)
    requires IsWord(name) && IsOneLine(name) && name[0] == '#'
    requires output.text == TextOf(before, output.newline)
    modifies output`text
    ensures output.text == TextOf(before + [Heading(name, [|values|]), Row(Words(values))], output.newline)
  {
    hide TextOf, Row, Heading;
    ghost var h := before + [Heading(name, [|values|])];
    WriteHeading(name, |values|, output, before);
    WriteList(values, output);
    NumberLineGrows(h, values, output.newline);
    assert h + [Row(Words(values))] == before + [Heading(name, [|values|]), Row(Words(values))];
  }

  // ---- The reader

  class StreamReader {
    var rest: string

    constructor (text: string)
      ensures rest == text
    {
      rest := text;
    }

    method ReadLine() returns (line: string)
      requires rest != ""
      modifies this
      ensures LinesOf(old(rest)) == [line] + LinesOf(rest) && |rest| < |old(rest)|
    {
      var k := LineEnd(rest);
      line := rest[..k];
      rest := rest[NextLine(rest, k)..];
    }
  }

  lemma NothingReads(max: nat)
    ensures ParseNumbers([], max) == Some([])
  {
  }

  /** One piece more. */
  lemma PieceNext(pieces: seq<string>, i: nat, max: nat)
    requires i < |pieces|
    ensures ParseNumbers(pieces[..i + 1], max) ==
            match (ParseNumbers(pieces[..i], max), ParseNumber(pieces[i], max))
            case (Some(before), Some(last)) => Some(before + [last])
            case _ => None
  {
    assert pieces[..i + 1][..i] == pieces[..i] && pieces[..i + 1][i] == pieces[i];
  }

  lemma {:induction false} BadPrefix(pieces: seq<string>, k: nat, max: nat)
    requires k <= |pieces| && ParseNumbers(pieces[..k], max) == None
    ensures ParseNumbers(pieces, max) == None
  {
    hide ParseNumber;
    if k == |pieces| {
      assert pieces[..k] == pieces;
    } else {
      var n := |pieces| - 1;
      assert pieces[..n][..k] == pieces[..k];
      BadPrefix(pieces[..n], k, max);
    }
  }

  /** The numbers of a new list, from piece `from` on; None is an exception. */
  method ReadNumbers(pieces: seq<string>, from: nat, max: nat) returns (r: Option<seq<nat>>)
    requires from <= |pieces|
    ensures r == ParseNumbers(pieces[from..], max)
  {
    hide ParseNumber, ParseNumbers;
    assert ParseNumbers(pieces[from..][..0], max) == Some([]) by { NothingReads(max); }
    var list := [];
    var i := from;
    while i < |pieces|
      invariant from <= i <= |pieces|
      invariant ParseNumbers(pieces[from..][..i - from], max) == Some(list)
    {
      var n := ParseNumber(pieces[i], max);
      PieceNext(pieces[from..], i - from, max);
      if n == None {
        BadPrefix(pieces[from..], i - from + 1, max);
        return None;
      }
      list := list + [n.value];
      i := i + 1;
    }
    assert pieces[from..][..i - from] == pieces[from..];
    r := Some(list);
  }

  /** The values of one line, written over the front of an array. */
  method ReadValues(a: seq<nat>, pieces: seq<string>, max: nat) returns (r: Option<seq<nat>>)
    ensures r == Over(ParseNumbers(pieces, max), a)
  {
    hide ParseNumber, ParseNumbers;
    assert ParseNumbers(pieces[..0], max) == Some([]) by { NothingReads(max); }
    var b := a;
    ghost var values := [];
    var i := 0;
    while i < |pieces|
      invariant 0 <= i <= |pieces| && i <= |a| && |values| == i
      invariant ParseNumbers(pieces[..i], max) == Some(values)
      invariant b == values + a[i..]
    {
      var n := ParseNumber(pieces[i], max);
      PieceNext(pieces, i, max);
      if n == None {
        BadPrefix(pieces, i + 1, max);
        return None;
      }
      if i == |a| {
        return None;
      }
      b := b[i := n.value];
      values := values + [n.value];
      i := i + 1;
    }
    assert pieces[..i] == pieces;
    r := Some(b);
  }

  /** A heading line: choose the section and make room for it. */
  method NextSection(currently: Section, d: MiniDestination, line: string, pieces: seq<string>)
      returns (next: Section, r: Option<MiniDestination>)
    ensures match ReadHeading(Reading(currently, d), line, pieces)
            case Some(st) => next == st.currently && r == Some(st.d)
            case None => r == None
  {
    next := currently;
    if Contains(line, "buckettable") {
      next := BucketTable;
      var numRows, numCols := Size(pieces, 1), Size(pieces, 2);
      if numRows == None || numCols == None { return next, None; }
      r := Some(d.(bucketTable := NewTable(numRows.value, numCols.value)));
    } else if Contains(line, "bestrelation") {
      next := BestRelation;
      var numRows := Size(pieces, 1);
      if numRows == None { return next, None; }
      r := Some(d.(bestRelation := seq(numRows.value, _ => 0)));
    } else if Contains(line, "destination") {
      if |pieces| < 2 { return next, None; }
      var destNum := ParseNumber(pieces[1], UINT_MAX);
      if destNum == None { return next, None; }
      r := Some(d.(destination := destNum.value));
    } else if Contains(line, "best") {
      next := Best;
      var numRows := Size(pieces, 1);
      if numRows == None { return next, None; }
      r := Some(d.(best := Nulls(numRows.value)));
    } else if Contains(line, "l") {
      next := L;
      var numRows := Size(pieces, 1);
      if numRows == None { return next, None; }
      r := Some(d.(l := seq(numRows.value, _ => 0)));
    } else {
      r := Some(d);
    }
  }

  /** A line inside a section. */
  method FillSection(currently: Section, d: MiniDestination, pieces: seq<string>) returns (r: Option<MiniDestination>)
    ensures match ReadData(Reading(currently, d), pieces)
            case Some(st) => st.currently == currently && r == Some(st.d)
            case None => r == None
  {
    hide ParseNumber, ParseNumbers;
    match currently
    case Nothing => r := Some(d);
    case BucketTable =>
      var row, col := Size(pieces, 0), Size(pieces, 1);
      if row == None || col == None || row.value >= |d.bucketTable| || col.value >= |d.bucketTable[row.value]| {
        return None;
      }
      var list := ReadNumbers(pieces, 2, UINT_MAX);
      if list == None { return None; }
      var cells := d.bucketTable[row.value][col.value := list];
      r := Some(d.(bucketTable := d.bucketTable[row.value := cells]));
    case Best =>
      var row := Size(pieces, 0);
      if row == None || row.value >= |d.best| { return None; }
      var list := ReadNumbers(pieces, 1, UINT_MAX);
      if list == None { return None; }
      r := Some(d.(best := d.best[row.value := list]));
    case BestRelation =>
      var a := ReadValues(d.bestRelation, pieces, BYTE_MAX);
      if a == None { return None; }
      r := Some(d.(bestRelation := a.value));
    case L =>
      var a := ReadValues(d.l, pieces, BYTE_MAX);
      if a == None { return None; }
      r := Some(d.(l := a.value));
  }

  lemma OneMore(st: Reading, before: seq<string>, raw: string, rest: seq<string>)
    requires Steps(EMPTY, before) == Some(st)
    ensures before + ([raw] + rest) == before + [raw] + rest
    ensures Steps(EMPTY, before + [raw]) == Step(st, raw)
    ensures Step(st, raw) == None ==> Steps(EMPTY, before + [raw] + rest) == None
  {
    hide Step;
    StepsJoin(EMPTY, before, [raw]);
    TwoSteps(st, raw, raw);
    StepsJoin(EMPTY, before + [raw], rest);
  }

  /** miniDestinationFromStream; None is an exception. */
  method MiniDestinationFromStream(input: StreamReader) returns (r: Option<MiniDestination>)
    modifies input
    ensures r == Parse(old(input.rest))
  {
    hide ReadHeading, ReadData, LinesOf, Split, Steps;
    ghost var text := input.rest;
    ghost var read := [];
    NoMoreLines();
    var currently := Nothing;
    var toreturn := EMPTY.d;
    while input.rest != ""
      invariant LinesOf(text) == read + LinesOf(input.rest)
      invariant Steps(EMPTY, read) == Some(Reading(currently, toreturn))
      decreases |input.rest|
    {
      var raw := input.ReadLine();
      ghost var before := read;
      read := before + [raw];
      OneMore(Reading(currently, toreturn), before, raw, LinesOf(input.rest));
      var line := LowerAll(raw);
      var pieces := Split(line);
      if line == "" { return None; }
      var next := None;
      if line[0] == '#' {
        currently, next := NextSection(currently, toreturn, line, pieces);
      } else {
        next := FillSection(currently, toreturn, pieces);
      }
      if next == None { return None; }
      toreturn := next.value;
    }
    NoMoreLines();
    assert read + [] == read;
    r := Some(toreturn);
  }

  lemma NoMoreLines()
    ensures LinesOf("") == [] && Steps(EMPTY, []) == Some(EMPTY)
  {
  }
}
