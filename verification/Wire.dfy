/** The text of requests, numbered messages and reports, and the parsers that read them. */
module Wire {
  import opened Text
  import opened FlatStore

  // ----- parse_line

  /** At most `args` pieces, cut at the first commas; the last piece keeps its commas. */
  function ParseLine(s: string, args: nat): seq<string>
    requires args >= 1
    decreases args
  {
    var i := IndexOf(s, ',');
    if args == 1 || i == |s| then [s] else [s[..i]] + ParseLine(s[i + 1..], args - 1)
  }

  /** `parse_line`, with the counter starting at 0. */
  method ParseLineLoop(text: string, numOfArgs: nat) returns (arguments: seq<string>)
    requires numOfArgs >= 1
    ensures arguments == ParseLine(text, numOfArgs)
  {
    hide IndexOf;
    var s, counter := text, 0;
    arguments := [];
    while IndexOf(s, ',') < |s| && counter != numOfArgs - 1
      invariant 0 <= counter <= numOfArgs - 1
      invariant ParseLine(text, numOfArgs) == arguments + ParseLine(s, numOfArgs - counter)
      decreases |s|
    {
      var pos := IndexOf(s, ',');
      ghost var tail := ParseLine(s[pos + 1..], numOfArgs - counter - 1);
      assert arguments + ([s[..pos]] + tail) == (arguments + [s[..pos]]) + tail;
      arguments := arguments + [s[..pos]];
      s := s[pos + 1..];
      counter := counter + 1;
    }
    arguments := arguments + [s];
  }

  lemma ParseLineStep(t: string, r: string, args: nat)
    requires args >= 2 && ',' !in t
    ensures ParseLine(t + [','] + r, args) == [t] + ParseLine(r, args - 1)
  {
    IndexOfFirst(t, ',', r);
    hide IndexOf;
    var s := t + [','] + r;
    assert s[..|t|] == t && s[|t| + 1..] == r;
  }

  /** Every piece but the last is free of commas. */
  lemma {:induction false} ParseLineFree(s: string, args: nat)
    requires args >= 1
    ensures var ps := ParseLine(s, args);
      1 <= |ps| <= args && forall i :: 0 <= i < |ps| - 1 ==> ',' !in ps[i]
    decreases args
  {
    var i := IndexOf(s, ',');
    if args > 1 && i < |s| { ParseLineFree(s[i + 1..], args - 1); }
  }

  // ----- requests

  const CRLF: string := "\r\n"

  /** A line without its last two characters. */
  function Chop(s: string): string { if |s| < 2 then s else s[..|s| - 2] }

  /** The line a client sends for an operation; values bring their own line end. */
  function Render(op: Op): string {
    match op
    case Put(u, f, v) => "put " + (u + [','] + (f + [','] + v))
    case Get(u, f) => "get " + (u + [','] + (f + CRLF))
    case Cput(u, f, o, n) => "cput " + (u + [','] + (f + [','] + (Chop(o) + [','] + n)))
    case Dele(u, f) => "dele " + (u + [','] + (f + CRLF))
    case Rename(u, f, t) => "rename " + (u + [','] + (f + [','] + (t + CRLF)))
  }

  /** The operation the handler of a request line carries out, if the pieces are there. */
  function ParseRequest(line: string): Option<Op> {
    if "put " <= line then
      var a := ParseLine(line[4..], 3);
      if |a| == 3 then Some(Put(a[0], a[1], a[2])) else None
    else if "get " <= line then
      var a := ParseLine(line[4..], 2);
      if |a| == 2 then Some(Get(a[0], Chop(a[1]))) else None
    else if "cput " <= line then
      var a := ParseLine(line[5..], 4);
      if |a| == 4 then Some(Cput(a[0], a[1], a[2] + CRLF, a[3])) else None
    else if "dele " <= line then
      var a := ParseLine(line[5..], 2);
      if |a| == 2 then Some(Dele(a[0], Chop(a[1]))) else None
    else if "rename " <= line then
      var a := ParseLine(line[7..], 3);
      if |a| == 3 then Some(Rename(a[0], a[1], Chop(a[2]))) else None
    else None
  }

  /** What a request line can carry. */
  ghost predicate Expressible(op: Op) {
    && ',' !in op.user
    && (op.Put? || op.Cput? || op.Rename? ==> ',' !in op.file)
    && (op.Cput? ==> |op.old_| >= 2 && op.old_ == Chop(op.old_) + CRLF && ',' !in Chop(op.old_))
  }

  lemma ChopOk(s: string)
    ensures Chop(s + CRLF) == s
  {
  }

  lemma TwoPieces(u: string, r: string)
    requires ',' !in u
    ensures ParseLine(u + [','] + r, 2) == [u, r]
  {
    ParseLineStep(u, r, 2);
    assert ParseLine(r, 1) == [r];
  }

  lemma ThreePieces(u: string, f: string, r: string)
    requires ',' !in u && ',' !in f
    ensures ParseLine(u + [','] + (f + [','] + r), 3) == [u, f, r]
  {
    ParseLineStep(u, f + [','] + r, 3);
    TwoPieces(f, r);
  }

  lemma FourPieces(u: string, f: string, o: string, r: string)
    requires ',' !in u && ',' !in f && ',' !in o
    ensures ParseLine(u + [','] + (f + [','] + (o + [','] + r)), 4) == [u, f, o, r]
  {
    ParseLineStep(u, f + [','] + (o + [','] + r), 4);
    ThreePieces(f, o, r);
  }

  lemma ExpressibleParses(op: Op)
    requires Expressible(op)
    ensures ParseRequest(Render(op)) == Some(op)
  {
    hide ParseLine, Chop;
    var line := Render(op);
    match op {
      case Put(u, f, v) =>
        ThreePieces(u, f, v);
        assert line[4..] == u + [','] + (f + [','] + v);
      case Get(u, f) =>
        TwoPieces(u, f + CRLF);
        ChopOk(f);
        assert line[0] == 'g' && line[4..] == u + [','] + (f + CRLF);
      case Cput(u, f, o, n) =>
        FourPieces(u, f, Chop(o), n);
        assert line[0] == 'c' && line[5..] == u + [','] + (f + [','] + (Chop(o) + [','] + n));
      case Dele(u, f) =>
        TwoPieces(u, f + CRLF);
        ChopOk(f);
        assert line[0] == 'd' && line[5..] == u + [','] + (f + CRLF);
      case Rename(u, f, t) =>
        ThreePieces(u, f, t + CRLF);
        ChopOk(t);
        assert line[0] == 'r' && line[7..] == u + [','] + (f + [','] + (t + CRLF));
    }
  }

  lemma ParsedIsExpressible(line: string)
    ensures ParseRequest(line).Some? ==> Expressible(ParseRequest(line).value)
  {
    hide ParseLine;
    if |line| >= 4 { ParseLineFree(line[4..], 3); ParseLineFree(line[4..], 2); }
    if |line| >= 5 { ParseLineFree(line[5..], 4); ParseLineFree(line[5..], 2); }
    if |line| >= 7 { ParseLineFree(line[7..], 3); }
    if "cput " <= line && |ParseLine(line[5..], 4)| == 4 { ChopOk(ParseLine(line[5..], 4)[2]); }
  }

  /** A request line parses back to its own parts exactly when the user, and for put, cput and
      rename the file, contain no comma, and an expected old value ends its line and contains
      none either. The last part may contain anything. */
  lemma RequestRoundTripIff(op: Op)
    ensures ParseRequest(Render(op)) == Some(op) <==> Expressible(op)
  {
    hide ParseRequest, Expressible, Render;
    if Expressible(op) { ExpressibleParses(op); }
    ParsedIsExpressible(Render(op));
  }

  /** The pieces with the commas put back. */
  function Glue(ps: seq<string>): string
    requires ps != []
  {
    if |ps| == 1 then ps[0] else ps[0] + [','] + Glue(ps[1..])
  }

  /** Cutting loses nothing, and yields as many pieces as there are commas and arguments for. */
  lemma {:induction false} ParseLineGlues(s: string, args: nat)
    requires args >= 1
    ensures var ps := ParseLine(s, args);
      && ps != [] && Glue(ps) == s
      && |ps| == if args <= |Tokens(s, ',')| then args else |Tokens(s, ',')| + 1
    decreases args
  {
    hide IndexOf, Tokens, Remainder;
    var i := IndexOf(s, ',');
    if i == |s| {
      ScanEnd(s, ',');
    } else {
      CutAt(s, ',');
      ScanTurn(s, ',');
      if args > 1 {
        ParseLineGlues(s[i + 1..], args - 1);
        assert ([s[..i]] + ParseLine(s[i + 1..], args - 1))[1..] == ParseLine(s[i + 1..], args - 1);
      }
    }
  }

  lemma GlueTwo(ps: seq<string>)
    requires |ps| == 2
    ensures Glue(ps) == ps[0] + [','] + ps[1]
  {
    assert Glue(ps[1..]) == ps[1];
  }

  lemma GlueThree(ps: seq<string>)
    requires |ps| == 3
    ensures Glue(ps) == ps[0] + [','] + (ps[1] + [','] + ps[2])
  {
    GlueTwo(ps[1..]);
    hide Glue;
    assert Glue(ps) == ps[0] + [','] + Glue(ps[1..]) by { GlueMore(ps); }
  }

  lemma GlueFour(ps: seq<string>)
    requires |ps| == 4
    ensures Glue(ps) == ps[0] + [','] + (ps[1] + [','] + (ps[2] + [','] + ps[3]))
  {
    GlueThree(ps[1..]);
    hide Glue;
    GlueMore(ps);
  }

  lemma GlueMore(ps: seq<string>)
    requires |ps| > 1
    ensures Glue(ps) == ps[0] + [','] + Glue(ps[1..])
  {
  }

  /** The commas of the arguments, which begin after a command of `n` characters. */
  function CommasAfter(line: string, n: nat): nat
    requires n <= |line|
  {
    |Tokens(line[n..], ',')|
  }

  /** For every line: it is taken exactly when it begins with one of the five commands and a space, and
      has the commas that separate the arguments of that command. */
  lemma ParsesIff(line: string)
    ensures ParseRequest(line).Some? <==>
      || ("put " <= line && CommasAfter(line, 4) >= 2)
      || ("get " <= line && CommasAfter(line, 4) >= 1)
      || ("cput " <= line && CommasAfter(line, 5) >= 3)
      || ("dele " <= line && CommasAfter(line, 5) >= 1)
      || ("rename " <= line && CommasAfter(line, 7) >= 2)
  {
    hide ParseLine, Tokens, Glue;
    assert "put " <= line ==> line[0] == 'p';
    assert "get " <= line ==> line[0] == 'g';
    assert "cput " <= line ==> line[0] == 'c';
    assert "dele " <= line ==> line[0] == 'd';
    assert "rename " <= line ==> line[0] == 'r';
    if "put " <= line { ParseLineGlues(line[4..], 3); }
    if "get " <= line { ParseLineGlues(line[4..], 2); }
    if "cput " <= line { ParseLineGlues(line[5..], 4); }
    if "dele " <= line { ParseLineGlues(line[5..], 2); }
    if "rename " <= line { ParseLineGlues(line[7..], 3); }
  }

  predicate EndsLine(line: string) { |line| >= 2 && line[|line| - 2..] == CRLF }

  /** `line` is `body` up to the two characters at its end, or without them. */
  predicate SameLine(line: string, body: string) {
    && (EndsLine(line) ==> body == line)
    && |body| >= 2 && body[..|body| - 2] <= line && (|line| == |body| || line == body[..|body| - 2])
  }

  /** A last piece that loses two characters when it is read and gets a line end when it is written. */
  lemma LastPiece(head: string, s: string)
    ensures SameLine(head + [','] + s, head + [','] + (Chop(s) + CRLF))
  {
    var line, body := head + [','] + s, head + [','] + (Chop(s) + CRLF);
    assert line[|head|] == ',' && line[|head| + 1..] == s;
    if EndsLine(line) {
      assert line[|line| - 2] == '\r' && line[|line| - 1] == '\n';
      assert |s| >= 2 && s == s[..|s| - 2] + CRLF;
    }
    assert body[..|body| - 2] == head + [','] + Chop(s);
  }

  lemma PutRenders(line: string)
    requires "put " <= line && |ParseLine(line[4..], 3)| == 3
    ensures var a := ParseLine(line[4..], 3); Render(Put(a[0], a[1], a[2])) == line
  {
    hide ParseLine, Glue;
    ParseLineGlues(line[4..], 3);
    GlueThree(ParseLine(line[4..], 3));
    assert line == "put " + line[4..];
  }

  lemma CputRenders(line: string)
    requires "cput " <= line && |ParseLine(line[5..], 4)| == 4
    ensures var a := ParseLine(line[5..], 4); Render(Cput(a[0], a[1], a[2] + CRLF, a[3])) == line
  {
    hide ParseLine, Glue, Chop;
    ParseLineGlues(line[5..], 4);
    GlueFour(ParseLine(line[5..], 4));
    ChopOk(ParseLine(line[5..], 4)[2]);
    assert line == "cput " + line[5..];
  }

  lemma GetRenders(line: string)
    requires "get " <= line && |ParseLine(line[4..], 2)| == 2
    ensures var a := ParseLine(line[4..], 2); SameLine(line, Render(Get(a[0], Chop(a[1]))))
  {
    hide ParseLine, Glue, Chop, SameLine;
    var a := ParseLine(line[4..], 2);
    ParseLineGlues(line[4..], 2);
    GlueTwo(a);
    LastPiece("get " + a[0], a[1]);
    assert line == "get " + line[4..];
    RegroupedTwo("get ", a[0], a[1]);
    RegroupedTwo("get ", a[0], Chop(a[1]) + CRLF);
  }

  lemma DeleRenders(line: string)
    requires "dele " <= line && |ParseLine(line[5..], 2)| == 2
    ensures var a := ParseLine(line[5..], 2); SameLine(line, Render(Dele(a[0], Chop(a[1]))))
  {
    hide ParseLine, Glue, Chop, SameLine;
    var a := ParseLine(line[5..], 2);
    ParseLineGlues(line[5..], 2);
    GlueTwo(a);
    LastPiece("dele " + a[0], a[1]);
    assert line == "dele " + line[5..];
    RegroupedTwo("dele ", a[0], a[1]);
    RegroupedTwo("dele ", a[0], Chop(a[1]) + CRLF);
  }

  lemma RenameRenders(line: string)
    requires "rename " <= line && |ParseLine(line[7..], 3)| == 3
    ensures var a := ParseLine(line[7..], 3); SameLine(line, Render(Rename(a[0], a[1], Chop(a[2]))))
  {
    hide ParseLine, Glue, Chop, SameLine;
    var a := ParseLine(line[7..], 3);
    ParseLineGlues(line[7..], 3);
    GlueThree(a);
    var head := "rename " + a[0] + [','] + a[1];
    LastPiece(head, a[2]);
    assert line == "rename " + line[7..];
    Regrouped("rename ", a[0], a[1], a[2]);
    Regrouped("rename ", a[0], a[1], Chop(a[2]) + CRLF);
  }

  lemma RegroupedTwo(x: string, u: string, s: string)
    ensures x + (u + [','] + s) == x + u + [','] + s
  {
  }

  lemma Regrouped(x: string, u: string, f: string, s: string)
    ensures x + (u + [','] + (f + [','] + s)) == (x + u + [','] + f) + [','] + s
  {
  }

  /** Whatever is read from a line is what the line says: rendered again it is the line. For get, dele
      and rename, whose handlers drop the last two characters, it is the line up to those, and the
      whole line when that ends as it should. */
  lemma ParsedRenders(line: string)
    requires ParseRequest(line).Some?
    ensures var op := ParseRequest(line).value;
      && (op.Put? || op.Cput? || EndsLine(line) ==> Render(op) == line)
      && (op.Get? || op.Dele? || op.Rename? ==> SameLine(line, Render(op)))
  {
    hide ParseLine, Chop, Render;
    assert "put " <= line ==> line[0] == 'p';
    assert "get " <= line ==> line[0] == 'g';
    assert "cput " <= line ==> line[0] == 'c';
    assert "dele " <= line ==> line[0] == 'd';
    assert "rename " <= line ==> line[0] == 'r';
    if "put " <= line { PutRenders(line); }
    if "get " <= line { GetRenders(line); }
    if "cput " <= line { CputRenders(line); }
    if "dele " <= line { DeleRenders(line); }
    if "rename " <= line { RenameRenders(line); }
  }

  lemma CommaCounts(u: string, r: string)
    ensures |Tokens(u + [','] + r, ',')| >= 1 + |Tokens(r, ',')|
    decreases |u|
  {
    hide IndexOf, Tokens, Remainder;
    var s := u + [','] + r;
    assert s[|u|] == ',';
    IndexOfNone(s, ',');
    ScanTurn(s, ',');
    var i := IndexOf(s, ',');
    if i < |u| {
      assert s[i + 1..] == u[i + 1..] + [','] + r;
      CommaCounts(u[i + 1..], r);
    } else {
      IndexBefore(s, ',', |u|);
      assert s[|u| + 1..] == r;
    }
  }

  lemma IndexBefore(s: string, c: char, k: nat)
    requires k < |s| && s[k] == c
    ensures IndexOf(s, c) <= k
  {
  }

  /** A request whose parts hold commas is still taken, only cut elsewhere. */
  lemma RenderedParses(op: Op)
    ensures ParseRequest(Render(op)).Some?
  {
    hide ParseRequest, Tokens, Chop;
    var line := Render(op);
    ParsesIff(line);
    match op {
      case Put(u, f, v) =>
        CommaCounts(u, f + [','] + v);
        CommaCounts(f, v);
        assert line[4..] == u + [','] + (f + [','] + v);
      case Get(u, f) =>
        CommaCounts(u, f + CRLF);
        assert line[4..] == u + [','] + (f + CRLF);
      case Cput(u, f, o, n) =>
        CommaCounts(u, f + [','] + (Chop(o) + [','] + n));
        CommaCounts(f, Chop(o) + [','] + n);
        CommaCounts(Chop(o), n);
        assert line[5..] == u + [','] + (f + [','] + (Chop(o) + [','] + n));
      case Dele(u, f) =>
        CommaCounts(u, f + CRLF);
        assert line[5..] == u + [','] + (f + CRLF);
      case Rename(u, f, t) =>
        CommaCounts(u, f + [','] + (t + CRLF));
        CommaCounts(f, t + CRLF);
        assert line[7..] == u + [','] + (f + [','] + (t + CRLF));
    }
  }

  /** A line that ends as it should is refused exactly when no request is written like this. */
  lemma RefusedIff(line: string)
    requires EndsLine(line)
    ensures ParseRequest(line) == None <==> forall op :: Render(op) != line
  {
    hide ParseRequest, Render;
    if ParseRequest(line).Some? { ParsedRenders(line); }
    forall op | Render(op) == line ensures ParseRequest(line).Some? { RenderedParses(op); }
  }

  // ----- the log file

  function AllText(lines: seq<string>): string { if lines == [] then "" else lines[0] + AllText(lines[1..]) }

  function WithEnds(toks: seq<string>): seq<string> {
    seq(|toks|, i requires 0 <= i < |toks| => toks[i] + ['\n'])
  }

  /** The lines `getline` yields, each with its end put back. */
  function LinesOf(text: string): seq<string> {
    var rest := Remainder(text, '\n');
    WithEnds(Tokens(text, '\n') + (if rest == "" then [] else [rest]))
  }

  function Renders(ops: seq<Op>): seq<string> {
    seq(|ops|, i requires 0 <= i < |ops| => Render(ops[i]))
  }

  function LogText(ops: seq<Op>): string { AllText(Renders(ops)) }

  ghost predicate OneLine(line: string) {
    line != "" && line[|line| - 1] == '\n' && '\n' !in line[..|line| - 1]
  }

  lemma LineFirst(line: string, rest: string)
    requires OneLine(line)
    ensures Tokens(line + rest, '\n') == [line[..|line| - 1]] + Tokens(rest, '\n')
    ensures Remainder(line + rest, '\n') == Remainder(rest, '\n')
  {
    var t := line[..|line| - 1];
    assert line == t + ['\n'];
    TokensStep(t, '\n', rest);
  }

  lemma {:induction false} TextTokens(lines: seq<string>)
    requires forall i :: 0 <= i < |lines| ==> OneLine(lines[i])
    ensures WithEnds(Tokens(AllText(lines), '\n')) == lines && Remainder(AllText(lines), '\n') == ""
    decreases |lines|
  {
    hide Tokens, Remainder;
    if lines == [] {
      TokensOfFree("", '\n');
    } else {
      var line, rest := lines[0], AllText(lines[1..]);
      LineFirst(line, rest);
      TextTokens(lines[1..]);
      assert line == line[..|line| - 1] + ['\n'];
      var t, toks := line[..|line| - 1], Tokens(rest, '\n');
      assert WithEnds([t] + toks) == [line] + WithEnds(toks);
    }
  }

  lemma TextLines(lines: seq<string>)
    requires forall i :: 0 <= i < |lines| ==> OneLine(lines[i])
    ensures LinesOf(AllText(lines)) == lines
  {
    hide AllText, WithEnds, OneLine;
    TextTokens(lines);
    assert Tokens(AllText(lines), '\n') + [] == Tokens(AllText(lines), '\n');
  }

  /** Text after the last line end is one more line, which gets an end. */
  lemma {:induction false} LastLine(lines: seq<string>, t: string)
    requires (forall i :: 0 <= i < |lines| ==> OneLine(lines[i])) && t != "" && '\n' !in t
    ensures LinesOf(AllText(lines) + t) == lines + [t + ['\n']]
    decreases |lines|
  {
    hide Tokens, Remainder;
    if lines == [] {
      TokensOfFree(t, '\n');
      assert "" + t == t && [] + [t] == [t];
    } else {
      var line, rest := lines[0], AllText(lines[1..]) + t;
      LastLine(lines[1..], t);
      LineFirst(line, rest);
      assert line + AllText(lines[1..]) + t == line + rest;
      assert line == line[..|line| - 1] + ['\n'];
      var last := if Remainder(rest, '\n') == "" then [] else [Remainder(rest, '\n')];
      var first := line[..|line| - 1];
      assert [first] + Tokens(rest, '\n') + last == [first] + (Tokens(rest, '\n') + last);
      assert WithEnds([first] + (Tokens(rest, '\n') + last)) == [line] + LinesOf(rest);
    }
  }

  lemma LinesAreLines(text: string)
    ensures forall i :: 0 <= i < |LinesOf(text)| ==> OneLine(LinesOf(text)[i])
  {
    TokensRebuild(text, '\n');
    hide Tokens, Remainder;
    forall i | 0 <= i < |LinesOf(text)| ensures OneLine(LinesOf(text)[i]) {
      var line := LinesOf(text)[i];
      var toks := Tokens(text, '\n') + (if Remainder(text, '\n') == "" then [] else [Remainder(text, '\n')]);
      assert line == toks[i] + ['\n'] && line[..|line| - 1] == toks[i];
    }
  }

  /** The log splits back into the requests written to it exactly when every one of them is a
      single line. */
  lemma LogRoundTripIff(ops: seq<Op>)
    ensures LinesOf(LogText(ops)) == Renders(ops) <==> forall i :: 0 <= i < |ops| ==> OneLine(Render(ops[i]))
  {
    hide Render, AllText, OneLine, LinesOf;
    if forall i :: 0 <= i < |ops| ==> OneLine(Render(ops[i])) { TextLines(Renders(ops)); }
    LinesAreLines(LogText(ops));
    assert forall i :: 0 <= i < |ops| ==> Renders(ops)[i] == Render(ops[i]);
  }

  // ----- numbered messages and reports

  function PrintMessage(number: nat, line: string): string { ToDec(number) + [','] + line }

  /** The secondary cuts a message at its first comma. */
  function ParseMessage(text: string): (Option<nat>, string) {
    var i := IndexOf(text, ',');
    (Stoi(text[..i]), if i < |text| then text[i + 1..] else "")
  }

  lemma MessageRoundTrip(number: nat, line: string)
    ensures ParseMessage(PrintMessage(number, line)) == (Some(number), line)
  {
    DecFree(number, ',');
    IndexOfFirst(ToDec(number), ',', line);
    StoiOfToDec(number);
    hide IndexOf, ToDec, Stoi;
    var text := PrintMessage(number, line);
    assert text[..|ToDec(number)|] == ToDec(number) && text[|ToDec(number)| + 1..] == line;
  }

  function PrintReport(user: string, number: nat): string {
    "DONE " + (user + [','] + (ToDec(number) + CRLF))
  }

  datatype ReportParts = ReportParts(user: string, number: nat)

  /** `handle_secondary_report`: the last piece before a comma is the user; the number is read
      from what follows and stops at the line end. */
  function ParseReport(line: string): Option<ReportParts>
    requires |line| >= 5
  {
    var s := line[5..];
    var toks := Tokens(s, ',');
    match Stoi(Remainder(s, ','))
    case None => None
    case Some(n) => Some(ReportParts(if toks == [] then "" else toks[|toks| - 1], n))
  }

  lemma StoiBeforeEnd(n: nat)
    ensures Stoi(ToDec(n) + CRLF) == Some(n)
  {
    var d := ToDec(n);
    var s := d + CRLF;
    var k := DigitPrefix(s);
    assert forall i :: 0 <= i < |d| ==> s[i] == d[i] && IsDigit(s[i]);
    assert s[|d|] == '\r' && !IsDigit('\r');
    assert k == |d|;
    assert s[..k] == d;
    DigitsValueOfToDec(n);
  }

  /** A report parses back to its user and number exactly when the user contains no comma. */
  lemma ReportRoundTripIff(user: string, number: nat)
    ensures ParseReport(PrintReport(user, number)) == Some(ReportParts(user, number)) <==> ',' !in user
  {
    var line := PrintReport(user, number);
    var d := ToDec(number) + CRLF;
    var s := user + [','] + d;
    assert line[5..] == s;
    DecFree(number, ',');
    TokensRebuild(s, ',');
    if ',' !in user {
      TokensStep(user, ',', d);
      TokensOfFree(d, ',');
      StoiBeforeEnd(number);
    }
    hide Tokens, Remainder, Stoi, ToDec;
    assert s[|user|] == ',';
    assert Tokens(s, ',') == [] ==> Terminated([], ',') + Remainder(s, ',') == Remainder(s, ',');
  }

  /** A message is cut at its first comma only. */
  lemma MessageReads(t: string, line: string)
    requires ',' !in t
    ensures ParseMessage(t + [','] + line) == (Stoi(t), line)
  {
    IndexOfFirst(t, ',', line);
    hide IndexOf, Stoi;
    var text := t + [','] + line;
    assert text[..|t|] == t && text[|t| + 1..] == line;
  }

  /** What is read from a report: the piece between the last two commas, or from the command to the
      only one, and the number after the last. */
  lemma ReportReads(pieces: seq<string>, user: string, rest: string)
    requires AllFree(pieces, ',') && ',' !in user && ',' !in rest
    ensures ParseReport("DONE " + (Terminated(pieces + [user], ',') + rest))
         == match Stoi(rest) case None => None case Some(n) => Some(ReportParts(user, n))
  {
    hide Stoi, Terminated, Tokens, Remainder;
    var toks := pieces + [user];
    var s := Terminated(toks, ',') + rest;
    assert ("DONE " + s)[5..] == s;
    TokensRoundTrip(toks, ',', rest);
    TokensOfFree(rest, ',');
    assert toks + [] == toks && toks[|toks| - 1] == user;
  }

  /** The texts themselves, by example. */
  lemma SampleRequests()
    ensures Render(Put("a", "f", "v\r\n")) == "put a,f,v\r\n" && Render(Get("a", "f")) == "get a,f\r\n"
    ensures Render(Cput("a", "f", "v\r\n", "w\r\n")) == "cput a,f,v,w\r\n"
    ensures Render(Dele("a", "f")) == "dele a,f\r\n" && Render(Rename("a", "f", "g")) == "rename a,f,g\r\n"
  {
    assert Chop("v\r\n") == "v";
  }

  lemma SampleMessages()
    ensures PrintMessage(12, "dele a,f\r\n") == "12,dele a,f\r\n" && PrintReport("a", 12) == "DONE a,12\r\n"
  {
    assert ToDec(12) == ToDec(1) + [Digit(2)] == "12";
    hide ToDec;
  }
}
