/** The text form of the global state (ObjectToText.cs): secure flags, weights and non-stubs. */
module GlobalStateText {
  import opened Wrappers
  import opened Text
  import opened StateText

  const USHORT_MAX := 0xffff

  datatype GlobalState = GlobalState(s: seq<bool>, w: seq<nat>, nonStubs: seq<nat>)

  datatype Part = Nowhere | Flags | Weights | NonStubs

  datatype Half = Half(currently: Part, g: GlobalState)

  // ---- Flags

  function PrintBool(b: bool): string {
    if b then "True" else "False"
  }

  function TrimFront(s: string): string {
    if s != "" && (IsBlank(s[0]) || s[0] == '\0') then TrimFront(s[1..]) else s
  }

  function TrimBack(s: string): string {
    if s != "" && (IsBlank(s[|s| - 1]) || s[|s| - 1] == '\0') then TrimBack(s[..|s| - 1]) else s
  }

  /** bool.Parse: in any case, with white space and NULs on either side. */
  function ParseBool(s: string): Option<bool> {
    var t := LowerAll(TrimBack(TrimFront(s)));
    if t == "true" then Some(true) else if t == "false" then Some(false) else None
  }

  function BoolWords(bs: seq<bool>): (ws: seq<string>)
    ensures |ws| == |bs|
  {
    seq(|bs|, k requires 0 <= k < |bs| => PrintBool(bs[k]))
  }

  function ParseBools(pieces: seq<string>): (r: Option<seq<bool>>)
    ensures r.Some? ==> |r.value| == |pieces|
  {
    if pieces == [] then Some([])
    else
      var n := |pieces| - 1;
      match (ParseBools(pieces[..n]), ParseBool(pieces[n]))
      case (Some(before), Some(last)) => Some(before + [last])
      case _ => None
  }

  lemma BoolIsPlain(b: bool)
    ensures var s := LowerAll(PrintBool(b)); IsWord(s) && s[0] != '#' && ParseBool(s) == Some(b)
    ensures IsOneLine(PrintBool(b))
  {
    assert LowerAll("True") == "true" && LowerAll("False") == "false";
    assert LowerAll("true") == "true" && LowerAll("false") == "false";
  }

  lemma {:induction false} BoolsRead(bs: seq<bool>)
    ensures ParseBools(Lowered(BoolWords(bs))) == Some(bs)
  {
    if bs != [] {
      var n := |bs| - 1;
      BoolsRead(bs[..n]);
      assert Lowered(BoolWords(bs))[..n] == Lowered(BoolWords(bs[..n]));
      BoolIsPlain(bs[n]);
      assert bs == bs[..n] + [bs[n]];
    }
  }

  lemma BoolRow(bs: seq<bool>)
    ensures var s := Row(BoolWords(bs));
            IsOneLine(s) && LowerAll(s) == Row(Lowered(BoolWords(bs))) && Split(LowerAll(s)) == Lowered(BoolWords(bs))
    ensures bs != [] ==> LowerAll(Row(BoolWords(bs))) != "" && LowerAll(Row(BoolWords(bs)))[0] != '#'
    ensures bs == [] ==> Row(BoolWords(bs)) == ""
  {
    hide Row, Split, PrintBool;
    var ws := BoolWords(bs);
    var low := Lowered(ws);
    forall k | 0 <= k < |ws| ensures IsOneLine(ws[k]) && IsWord(low[k]) {
      BoolIsPlain(bs[k]);
    }
    RowIsOneLine(ws);
    RowLowered(ws);
    SplitRow(low);
    if bs != [] {
      BoolIsPlain(bs[0]);
      RowStarts(low);
    } else {
      RowOfNothing();
      assert ws == Words([]);
    }
  }

  // ---- Reading

  function ReadHeading(st: Half, line: string, pieces: seq<string>): Option<Half> {
    if Contains(line, "nonstubs") then Some(Half(NonStubs, st.g.(nonStubs := [])))
    else if Contains(line, "s") then
      match Size(pieces, 1)
      case Some(n) => Some(Half(Flags, st.g.(s := seq(n, _ => false))))
      case None => None
    else if Contains(line, "w") then
      match Size(pieces, 1)
      case Some(n) => Some(Half(Weights, st.g.(w := seq(n, _ => 0))))
      case None => None
    else Some(st)
  }

  function ReadData(st: Half, pieces: seq<string>): Option<Half> {
    match st.currently
    case Nowhere => Some(st)
    case Flags =>
      (match Over(ParseBools(pieces), st.g.s)
       case Some(a) => Some(st.(g := st.g.(s := a)))
       case None => None)
    case Weights =>
      (match Over(ParseNumbers(pieces, USHORT_MAX), st.g.w)
       case Some(a) => Some(st.(g := st.g.(w := a)))
       case None => None)
    case NonStubs =>
      (match ParseNumbers(pieces, UINT_MAX)
       case Some(list) => Some(st.(g := st.g.(nonStubs := st.g.nonStubs + list)))
       case None => None)
  }

  function Step(st: Half, raw: string): Option<Half> {
    var line := LowerAll(raw);
    if line == "" then None
    else if line[0] == '#' then ReadHeading(st, line, Split(line))
    else ReadData(st, Split(line))
  }

  function Steps(st: Half, lines: seq<string>): Option<Half>
    decreases |lines|
  {
    if lines == [] then Some(st)
    else
      match Step(st, lines[0])
      case Some(next) => Steps(next, lines[1..])
      case None => None
  }

  const BLANK := Half(Nowhere, GlobalState([], [], []))

  function Parse(text: string): Option<GlobalState> {
    match Steps(BLANK, LinesOf(text))
    case Some(st) => Some(st.g)
    case None => None
  }

  // ---- Printing

  ghost function Lines(g: GlobalState): seq<string> {
    [Heading("#S", [|g.s|]), Row(BoolWords(g.s)), Heading("#W", [|g.w|]), Row(Words(g.w)),
     Heading("#Nonstubs", [|g.nonStubs|]), Row(Words(g.nonStubs))]
  }

  ghost predicate Fits(g: GlobalState) {
    && |g.s| <= INT_MAX && |g.w| <= INT_MAX && |g.nonStubs| <= INT_MAX
    && (forall k | 0 <= k < |g.w| :: g.w[k] <= USHORT_MAX)
    && (forall k | 0 <= k < |g.nonStubs| :: g.nonStubs[k] <= UINT_MAX)
  }

  lemma PartNames()
    ensures Contains("#nonstubs", "nonstubs")
    ensures Contains("#s", "s") && !Contains("#s", "nonstubs")
    ensures Contains("#w", "w") && !Contains("#w", "nonstubs") && !Contains("#w", "s")
  {
    assert StartsAt("#nonstubs", "nonstubs", 1) && StartsAt("#s", "s", 1) && StartsAt("#w", "w", 1);
    forall p: nat | p <= 2 ensures !StartsAt("#w", "s", p) {
      if p + 1 <= 2 {
        assert "#w"[p..p + 1][0] == "#w"[p];
      }
    }
  }

  lemma HeadingStep(st: Half, name: string, n: nat)
    requires IsWord(name) && IsWord(LowerAll(name)) && IsOneLine(name) && name[0] == '#'
    ensures var low := Heading(LowerAll(name), [n]);
            && Step(st, Heading(name, [n])) == ReadHeading(st, low, [LowerAll(name)] + Words([n]))
            && forall sub | IsLetters(sub) && sub != "" :: Contains(low, sub) <==> Contains(LowerAll(name), sub)
  {
    hide Heading, ReadHeading, Contains, Split;
    HeadingReads(name, [n]);
    HeadingSplits(LowerAll(name), [n]);
    forall sub | IsLetters(sub) && sub != ""
      ensures Contains(Heading(LowerAll(name), [n]), sub) <==> Contains(LowerAll(name), sub)
    {
      HeadingContains(LowerAll(name), [n], sub);
    }
  }

  lemma FlagsHeadingReads(st: Half, n: nat)
    requires n <= INT_MAX
    ensures Step(st, Heading("#S", [n])) == Some(Half(Flags, st.g.(s := seq(n, _ => false))))
  {
    hide Heading, Contains, Split, Step, ParseNumber;
    PartNames();
    NumberReads(n, INT_MAX);
    HeadingStep(st, "#S", n);
    assert LowerAll("#S") == "#s";
  }

  lemma WeightsHeadingReads(st: Half, n: nat)
    requires n <= INT_MAX
    ensures Step(st, Heading("#W", [n])) == Some(Half(Weights, st.g.(w := seq(n, _ => 0))))
  {
    hide Heading, Contains, Split, Step, ParseNumber;
    PartNames();
    NumberReads(n, INT_MAX);
    HeadingStep(st, "#W", n);
    assert LowerAll("#W") == "#w";
  }

  lemma NonStubsHeadingReads(st: Half, n: nat)
    ensures Step(st, Heading("#Nonstubs", [n])) == Some(Half(NonStubs, st.g.(nonStubs := [])))
  {
    hide Heading, Contains, Split, Step, ParseNumber;
    PartNames();
    HeadingStep(st, "#Nonstubs", n);
    assert LowerAll("#Nonstubs") == "#nonstubs";
  }

  lemma FlagsRead(st: Half, bs: seq<bool>)
    requires st.currently == Flags && |st.g.s| == |bs|
    ensures Step(st, Row(BoolWords(bs))) == if bs == [] then None else Some(st.(g := st.g.(s := bs)))
  {
    hide Row, Split, ParseBools, BoolWords;
    BoolRow(bs);
    BoolsRead(bs);
    RowOfNothing();
    assert bs + st.g.s[|bs|..] == bs;
  }

  lemma WeightsRead(st: Half, ns: seq<nat>)
    requires st.currently == Weights && |st.g.w| == |ns| && forall k | 0 <= k < |ns| :: ns[k] <= USHORT_MAX
    ensures Step(st, Row(Words(ns))) == if ns == [] then None else Some(st.(g := st.g.(w := ns)))
  {
    hide Row, Split, ParseNumbers;
    NumberRow(ns);
    NumbersRead(ns, USHORT_MAX);
    RowOfNothing();
    assert ns + st.g.w[|ns|..] == ns;
  }

  lemma NonStubsRead(st: Half, ns: seq<nat>)
    requires st.currently == NonStubs && st.g.nonStubs == [] && forall k | 0 <= k < |ns| :: ns[k] <= UINT_MAX
    ensures Step(st, Row(Words(ns))) == if ns == [] then None else Some(st.(g := st.g.(nonStubs := ns)))
  {
    hide Row, Split, ParseNumbers;
    NumberRow(ns);
    NumbersRead(ns, UINT_MAX);
    RowOfNothing();
    assert st.g.nonStubs + ns == ns;
  }

  lemma NextStep(st: Half, line: string, rest: seq<string>)
    ensures Steps(st, [line] + rest) == match Step(st, line) case Some(next) => Steps(next, rest) case None => None
  {
    assert ([line] + rest)[1..] == rest;
  }

  /** Printing and reading undo each other exactly for non-empty flags, weights and non-stubs. */
  lemma PrintedReads(g: GlobalState, newline: string)
    requires Fits(g) && IsNewline(newline)
    ensures Parse(TextOf(Lines(g), newline))
         == if g.s == [] || g.w == [] || g.nonStubs == [] then None else Some(g)
  {
    hide Heading, Row, Step, Steps, LinesOf, TextOf;
    var l0, l1 := Heading("#S", [|g.s|]), Row(BoolWords(g.s));
    var l2, l3 := Heading("#W", [|g.w|]), Row(Words(g.w));
    var l4, l5 := Heading("#Nonstubs", [|g.nonStubs|]), Row(Words(g.nonStubs));
    assert IsOneLine(l0) && IsOneLine(l1) && IsOneLine(l2) && IsOneLine(l3) && IsOneLine(l4) && IsOneLine(l5) by {
      HeadingIsLine("#S", [|g.s|]);
      HeadingIsLine("#W", [|g.w|]);
      HeadingIsLine("#Nonstubs", [|g.nonStubs|]);
      BoolRow(g.s);
      NumberRow(g.w);
      NumberRow(g.nonStubs);
    }
    hide IsOneLine;
    LinesReadBack(Lines(g), newline);
    var st1 := Half(Flags, BLANK.g.(s := seq(|g.s|, _ => false)));
    var st2 := st1.(g := st1.g.(s := g.s));
    var st3 := Half(Weights, st2.g.(w := seq(|g.w|, _ => 0)));
    var st4 := st3.(g := st3.g.(w := g.w));
    var st5 := Half(NonStubs, st4.g.(nonStubs := []));
    var st6 := st5.(g := st5.g.(nonStubs := g.nonStubs));
    FlagsHeadingReads(BLANK, |g.s|);
    FlagsRead(st1, g.s);
    WeightsHeadingReads(st2, |g.w|);
    WeightsRead(st3, g.w);
    NonStubsHeadingReads(st4, |g.nonStubs|);
    NonStubsRead(st5, g.nonStubs);
    NextStep(BLANK, l0, [l1, l2, l3, l4, l5]);
    NextStep(st1, l1, [l2, l3, l4, l5]);
    NextStep(st2, l2, [l3, l4, l5]);
    NextStep(st3, l3, [l4, l5]);
    NextStep(st4, l4, [l5]);
    NextStep(st5, l5, []);
    NoSteps(st6);
    assert Lines(g) == [l0] + [l1, l2, l3, l4, l5];
    assert [l1, l2, l3, l4, l5] == [l1] + [l2, l3, l4, l5];
    assert [l2, l3, l4, l5] == [l2] + [l3, l4, l5];
    assert [l3, l4, l5] == [l3] + [l4, l5] && [l4, l5] == [l4] + [l5] && [l5] == [l5] + [];
  }

  lemma NoSteps(st: Half)
    ensures Steps(st, []) == Some(st)
  {
  }

  // ---- The writer and the reader

  method WriteFlags(s: seq<bool>, output: StreamWriter)
    modifies output`text
    ensures output.text == old(output.text) + Row(BoolWords(s)) + "\n"
  {
    hide Row;
    ghost var start := output.text;
    var k := 0;
    BoolRow(s[..0]);
    while k < |s|
      invariant 0 <= k <= |s|
      invariant output.text == start + Row(BoolWords(s[..k]))
    {
      output.Write(PrintBool(s[k]) + " ");
      RowEnds(BoolWords(s[..k + 1]));
      assert BoolWords(s[..k + 1])[..k] == BoolWords(s[..k]);
      k := k + 1;
    }
    output.Write("\n");
    assert s[..k] == s;
  }

  /** GlobalStateToBlob, on a fresh stream. */
  method GlobalStateToBlob(g: GlobalState, output: StreamWriter)
    requires output.text == ""
    modifies output`text
    ensures output.text == TextOf(Lines(g), output.newline)
  {
    hide TextOf, Row, Heading;
    NoText(output.newline);
    WriteHeading("#S", |g.s|, output, []);
    ghost var h := [] + [Heading("#S", [|g.s|])];
    WriteFlags(g.s, output);
    FlagLineGrows(h, g.s, output.newline);
    h := h + [Row(BoolWords(g.s))];
    WriteArray("#W", g.w, output, h);
    h := h + [Heading("#W", [|g.w|]), Row(Words(g.w))];
    WriteArray("#Nonstubs", g.nonStubs, output, h);
    assert h + [Heading("#Nonstubs", [|g.nonStubs|]), Row(Words(g.nonStubs))] == Lines(g);
  }

  lemma FlagLineGrows(lines: seq<string>, bs: seq<bool>, newline: string)
    ensures TextOf(lines + [Row(BoolWords(bs))], newline) == TextOf(lines, newline) + Row(BoolWords(bs)) + "\n"
  {
    hide Row;
    var s := Row(BoolWords(bs));
    TextGrows(lines, s, newline);
    BoolRow(bs);
    assert s != "" ==> LowerAll(s)[0] == Lower(s[0]);
  }

  lemma NoFlags()
    ensures ParseBools([]) == Some([])
  {
  }

  /** One flag more. */
  lemma FlagNext(pieces: seq<string>, i: nat)
    requires i < |pieces|
    ensures ParseBools(pieces[..i + 1]) ==
            match (ParseBools(pieces[..i]), ParseBool(pieces[i]))
            case (Some(before), Some(last)) => Some(before + [last])
            case _ => None
  {
    assert pieces[..i + 1][..i] == pieces[..i] && pieces[..i + 1][i] == pieces[i];
  }

  lemma {:induction false} BadFlag(pieces: seq<string>, k: nat)
    requires k <= |pieces| && ParseBools(pieces[..k]) == None
    ensures ParseBools(pieces) == None
  {
    if k == |pieces| {
      assert pieces[..k] == pieces;
    } else {
      var n := |pieces| - 1;
      assert pieces[..n][..k] == pieces[..k];
      BadFlag(pieces[..n], k);
    }
  }

  method ReadFlags(a: seq<bool>, pieces: seq<string>) returns (r: Option<seq<bool>>)
    ensures r == Over(ParseBools(pieces), a)
  {
    hide ParseBool, ParseBools;
    assert ParseBools(pieces[..0]) == Some([]) by { NoFlags(); }
    var b := a;
    ghost var values := [];
    var i := 0;
    while i < |pieces|
      invariant 0 <= i <= |pieces| && i <= |a| && |values| == i
      invariant ParseBools(pieces[..i]) == Some(values)
      invariant b == values + a[i..]
    {
      var v := ParseBool(pieces[i]);
      FlagNext(pieces, i);
      if v == None {
        BadFlag(pieces, i + 1);
        return None;
      }
      if i == |a| {
        return None;
      }
      b := b[i := v.value];
      values := values + [v.value];
      i := i + 1;
    }
    assert pieces[..i] == pieces;
    r := Some(b);
  }

  /** GlobalStateFromBlob; None is an exception. */
  method GlobalStateFromBlob(input: StreamReader) returns (r: Option<GlobalState>)
    modifies input
    ensures r == Parse(old(input.rest))
  {
    hide LinesOf, Split, Contains, ParseNumber, ParseNumbers, ParseBools;
    ghost var text := input.rest;
    NoMoreLines();
    var currently := Nowhere;
    var g := BLANK.g;
    while input.rest != ""
      invariant Steps(BLANK, LinesOf(text)) == Steps(Half(currently, g), LinesOf(input.rest))
      decreases |input.rest|
    {
      var raw := input.ReadLine();
      NextStep(Half(currently, g), raw, LinesOf(input.rest));
      var line := LowerAll(raw);
      var pieces := Split(line);
      if line == "" { return None; }
      if line[0] == '#' {
        if Contains(line, "nonstubs") {
          g := g.(nonStubs := []);
          currently := NonStubs;
        } else if Contains(line, "s") {
          var len := Size(pieces, 1);
          if len == None { return None; }
          g := g.(s := seq(len.value, _ => false));
          currently := Flags;
        } else if Contains(line, "w") {
          var len := Size(pieces, 1);
          if len == None { return None; }
          g := g.(w := seq(len.value, _ => 0));
          currently := Weights;
        }
      } else {
        match currently
        case Nowhere =>
        case Flags =>
          var a := ReadFlags(g.s, pieces);
          if a == None { return None; }
          g := g.(s := a.value);
        case Weights =>
          var a := ReadValues(g.w, pieces, USHORT_MAX);
          if a == None { return None; }
          g := g.(w := a.value);
        case NonStubs =>
          var list := ReadNumbers(pieces, 0, UINT_MAX);
          assert pieces[0..] == pieces;
          if list == None { return None; }
          g := g.(nonStubs := g.nonStubs + list.value);
      }
    }
    NoSteps(Half(currently, g));
    r := Some(g);
  }
}
