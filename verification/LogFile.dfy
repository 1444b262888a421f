/** The log as the text file it is: what replay reads from it, and recovery from that text. */
module LogFile {
  import opened Text
  import opened FlatStore
  import opened TieredStore
  import opened Refinement
  import opened Recovery
  import opened Replication
  import opened Wire

  function ParseOne(line: string): seq<Op> {
    match ParseRequest(line)
    case Some(op) => [op]
    case None => []
  }

  /** The operations of the lines that parse; the others are reported and skipped. */
  function ParseLines(lines: seq<string>): seq<Op> {
    if lines == [] then [] else ParseOne(lines[0]) + ParseLines(lines[1..])
  }

  lemma ParseFirst(line: string, lines: seq<string>)
    ensures ParseLines([line] + lines) == ParseOne(line) + ParseLines(lines)
  {
    assert ([line] + lines)[1..] == lines;
  }

  /** The `getline` loop of `replay_log`: each line gets its end back and is parsed. */
  method ReadLog(text: string) returns (ops: seq<Op>)
    ensures ops == ParseLines(LinesOf(text))
  {
    hide ParseRequest, ParseOne, ParseLines, LinesOf, IndexOf;
    var s := text;
    ops := [];
    assert [] + ParseLines(LinesOf(text)) == ParseLines(LinesOf(text));
    while IndexOf(s, '\n') < |s|
      invariant ops + ParseLines(LinesOf(s)) == ParseLines(LinesOf(text))
      decreases |s|
    {
      var pos := IndexOf(s, '\n');
      var line, rest := s[..pos] + "\n", s[pos + 1..];
      LinesTurn(s);
      ParseFirst(line, LinesOf(rest));
      assert ops + (ParseOne(line) + ParseLines(LinesOf(rest))) == (ops + ParseOne(line)) + ParseLines(LinesOf(rest));
      ops := ops + ParseOne(line);
      s := rest;
    }
    LinesEnd(s);
    if s != "" {
      ParseFirst(s + "\n", []);
      assert [s + "\n"] + [] == [s + "\n"];
      NoLines();
      ops := ops + ParseOne(s + "\n");
    } else {
      NoLines();
    }
  }

  lemma NoLines()
    ensures ParseLines([]) == []
  {
  }

  lemma LinesTurn(s: string)
    requires IndexOf(s, '\n') < |s|
    ensures var pos := IndexOf(s, '\n'); LinesOf(s) == [s[..pos] + "\n"] + LinesOf(s[pos + 1..])
  {
    hide Tokens, Remainder, IndexOf, WithEnds, LinesOf;
    ScanTurn(s, '\n');
    var t, rest := s[..IndexOf(s, '\n')], s[IndexOf(s, '\n') + 1..];
    LinesAre(s);
    LinesAre(rest);
    Regroup(t, Tokens(rest, '\n'), Last(rest));
    WithEndsFirst(t, Tokens(rest, '\n') + Last(rest));
  }

  /** A last line without an end. */
  function Last(s: string): seq<string> { if Remainder(s, '\n') == "" then [] else [Remainder(s, '\n')] }

  lemma LinesAre(s: string)
    ensures LinesOf(s) == WithEnds(Tokens(s, '\n') + Last(s))
  {
    hide Tokens, Remainder, WithEnds;
  }

  lemma Regroup(t: string, toks: seq<string>, last: seq<string>)
    ensures [t] + toks + last == [t] + (toks + last)
  {
  }

  lemma WithEndsFirst(t: string, toks: seq<string>)
    ensures WithEnds([t] + toks) == [t + "\n"] + WithEnds(toks)
  {
  }

  lemma LinesEnd(s: string)
    requires IndexOf(s, '\n') == |s|
    ensures LinesOf(s) == if s == "" then [] else [s + "\n"]
  {
    ScanEnd(s, '\n');
    hide Tokens, Remainder, IndexOf;
    assert [] + [s] == [s] && WithEnds([] + []) == [];
  }

  // ----- the command word, as the client typed it

  datatype Entry = Entry(word: string, op: Op)

  function LowerChar(c: char): char { if 'A' <= c <= 'Z' then c - 'A' + 'a' else c }

  function Lower(s: string): string { seq(|s|, i requires 0 <= i < |s| => LowerChar(s[i])) }

  function Name(op: Op): string {
    match op
    case Put(_, _, _) => "put"
    case Get(_, _) => "get"
    case Cput(_, _, _, _) => "cput"
    case Dele(_, _) => "dele"
    case Rename(_, _, _) => "rename"
  }

  function Arguments(op: Op): string
    ensures Render(op) == Name(op) + " " + Arguments(op)
  {
    assert Render(op)[..|Name(op)| + 1] == Name(op) + " ";
    Render(op)[|Name(op)| + 1..]
  }

  function Typed(e: Entry): string { e.word + " " + Arguments(e.op) }

  /** `parse_command` on a live request: the word before the first space, in lower case, decides. */
  function ParseLive(line: string): Option<Op> {
    var i := IndexOf(line, ' ');
    ParseRequest(Lower(line[..i]) + line[i..])
  }

  lemma NoSpaceIn(word: string, op: Op)
    requires Lower(word) == Name(op)
    ensures ' ' !in word && '\n' !in word && |word| == |Name(op)|
  {
    forall i | 0 <= i < |word| ensures word[i] != ' ' && word[i] != '\n' { assert LowerChar(word[i]) == Name(op)[i]; }
  }

  /** Which words those are: the command's letters, each as it is or 32 below. */
  lemma LowerIff(word: string, op: Op)
    ensures Lower(word) == Name(op) <==>
      && |word| == |Name(op)|
      && forall i :: 0 <= i < |word| ==> word[i] == Name(op)[i] || word[i] as int + 32 == Name(op)[i] as int
  {
    assert forall i :: 0 <= i < |Name(op)| ==> 'a' <= Name(op)[i] <= 'z';
    assert forall i :: 0 <= i < |Lower(word)| ==> Lower(word)[i] == LowerChar(word[i]);
    hide Name;
    if |word| == |Name(op)| {
      forall i | 0 <= i < |word|
        ensures LowerChar(word[i]) == Name(op)[i]
           <==> (word[i] == Name(op)[i] || word[i] as int + 32 == Name(op)[i] as int)
      {
        LowerCharIff(word[i], Name(op)[i]);
      }
    }
  }

  lemma LowerCharIff(c: char, n: char)
    requires 'a' <= n <= 'z'
    ensures LowerChar(c) == n <==> (c == n || c as int + 32 == n as int)
  {
  }

  lemma LowerNames()
    ensures Lower("put") == "put" && Lower("get") == "get" && Lower("cput") == "cput"
    ensures Lower("dele") == "dele" && Lower("rename") == "rename"
  {
  }

  /** A live node takes every spelling of the command word. */
  lemma LiveTakes(e: Entry)
    requires Lower(e.word) == Name(e.op)
    ensures ParseLive(Typed(e)) == Some(e.op) <==> Expressible(e.op)
  {
    hide ParseRequest, Expressible, Render, Arguments;
    NoSpaceIn(e.word, e.op);
    var rest := Arguments(e.op);
    assert Typed(e) == e.word + [' '] + rest;
    IndexOfFirst(e.word, ' ', rest);
    hide IndexOf, Lower;
    assert Typed(e)[..|e.word|] == e.word && Typed(e)[|e.word|..] == " " + rest;
    assert Name(e.op) + (" " + rest) == Name(e.op) + " " + rest;
    RequestRoundTripIff(e.op);
  }

  lemma ParsedName(line: string)
    ensures ParseRequest(line).Some? ==> Name(ParseRequest(line).value) + " " <= line
  {
    hide ParseLine, Chop;
  }

  /** ... and no other word: what is carried out is what the word names. */
  lemma LiveOnly(word: string, rest: string)
    requires ' ' !in word && ParseLive(word + [' '] + rest).Some?
    ensures Lower(word) == Name(ParseLive(word + [' '] + rest).value)
  {
    hide ParseRequest, IndexOf, Name;
    var line := word + [' '] + rest;
    IndexOfFirst(word, ' ', rest);
    assert line[..|word|] == word && line[|word|..] == [' '] + rest;
    var low := Lower(word);
    ParsedName(low + ([' '] + rest));
    var name := Name(ParseLive(line).value);
    assert ' ' !in name by { NoSpaceInName(ParseLive(line).value); }
    assert ' ' !in low by { forall i | 0 <= i < |low| ensures low[i] != ' ' { assert low[i] == LowerChar(word[i]); } }
    FirstWords(low, rest, name);
  }

  lemma NoSpaceInName(op: Op)
    ensures ' ' !in Name(op)
  {
  }

  lemma FirstWords(word: string, rest: string, name: string)
    requires ' ' !in word && ' ' !in name && name + " " <= word + ([' '] + rest)
    ensures word == name
  {
    hide IndexOf;
    var line := word + ([' '] + rest);
    var tail := line[|name| + 1..];
    assert line == word + [' '] + rest && line == name + [' '] + tail;
    IndexOfFirst(word, ' ', rest);
    IndexOfFirst(name, ' ', tail);
    assert line[..IndexOf(line, ' ')] == name && line[..IndexOf(line, ' ')] == word;
  }

  lemma WordOfLine(e: Entry, name: string)
    requires ' ' !in e.word && ' ' !in name && name + " " <= Typed(e)
    ensures e.word == name
  {
    hide Arguments;
    assert Typed(e) == e.word + ([' '] + Arguments(e.op));
    FirstWords(e.word, Arguments(e.op), name);
  }

  lemma NotPrefix(e: Entry, name: string)
    requires Lower(e.word) == Name(e.op) && e.word != Name(e.op) && ' ' !in name && Lower(name) == name
    ensures !(name + " " <= Typed(e))
  {
    hide Typed, Lower, Name;
    NoSpaceIn(e.word, e.op);
    if name + " " <= Typed(e) { WordOfLine(e, name); }
  }

  /** Replay compares the word as it was typed. */
  lemma ReplayTakes(e: Entry)
    requires Lower(e.word) == Name(e.op)
    ensures e.word != Name(e.op) ==> ParseRequest(Typed(e)) == None
    ensures ParseRequest(Typed(e)) == Some(e.op) <==> (Expressible(e.op) && e.word == Name(e.op))
  {
    if e.word == Name(e.op) {
      hide ParseRequest, Expressible, Render, Arguments;
      RequestRoundTripIff(e.op);
    } else {
      hide ParseLine, Expressible, Typed, Name, Lower;
      LowerNames();
      NotPrefix(e, "put");
      NotPrefix(e, "get");
      NotPrefix(e, "cput");
      NotPrefix(e, "dele");
      NotPrefix(e, "rename");
      assert "put" + " " == "put " && "get" + " " == "get " && "cput" + " " == "cput ";
      assert "dele" + " " == "dele " && "rename" + " " == "rename ";
    }
  }

  lemma UpperWord()
    ensures Lower("PUT") == "put"
  {
  }

  lemma UpperText()
    ensures Typed(Entry("PUT", Put("a", "f", "v\r\n"))) == "PUT a,f,v\r\n"
  {
    SampleRequests();
    hide Render;
    var op := Put("a", "f", "v\r\n");
    assert Arguments(op) == Render(op)[4..] == "a,f,v\r\n";
  }

  /** The smallest case: stored while the node is up, skipped by replay. */
  lemma UpperCasePut()
    ensures ParseLive("PUT a,f,v\r\n") == Some(Put("a", "f", "v\r\n")) && ParseRequest("PUT a,f,v\r\n") == None
  {
    hide ParseRequest, ParseLive;
    var e := Entry("PUT", Put("a", "f", "v\r\n"));
    UpperWord();
    UpperText();
    hide Typed, Lower, Render, Arguments;
    LiveTakes(e);
    ReplayTakes(e);
  }

  // ----- the lines written and the operations read back

  /** A request that a live node carries out and that fits on one line of the log. */
  ghost predicate Loggable(e: Entry) {
    Lower(e.word) == Name(e.op) && Expressible(e.op) && OneLine(Typed(e))
  }

  /** Every request but `get` is logged as it was typed. */
  function Logged(es: seq<Entry>): seq<string> {
    if es == [] then [] else (if es[0].op.Get? then [] else [Typed(es[0])]) + Logged(es[1..])
  }

  function OpsIn(es: seq<Entry>): seq<Op> { seq(|es|, i requires 0 <= i < |es| => es[i].op) }

  function KeptOf(e: Entry): seq<Op> { if e.op.Get? || e.word != Name(e.op) then [] else [e.op] }

  /** The operations whose lines replay recognises. */
  function Kept(es: seq<Entry>): seq<Op> { if es == [] then [] else KeptOf(es[0]) + Kept(es[1..]) }

  /** The log text of such requests is read back as those with a lower-case command word. */
  lemma {:induction false} TextIsLog(es: seq<Entry>)
    requires forall i :: 0 <= i < |es| ==> es[i].op.Get? || Loggable(es[i])
    ensures ParseLines(LinesOf(AllText(Logged(es)))) == Kept(es)
  {
    hide Typed, Expressible, OneLine, LinesOf, AllText, ParseLines, Lower, Name;
    LoggedOneLine(es);
    TextLines(Logged(es));
    LoggedParse(es);
  }

  lemma {:induction false} LoggedOneLine(es: seq<Entry>)
    requires forall i :: 0 <= i < |es| ==> es[i].op.Get? || Loggable(es[i])
    ensures forall i :: 0 <= i < |Logged(es)| ==> OneLine(Logged(es)[i])
  {
    hide Typed, Expressible, OneLine, Lower, Name;
    if es != [] { LoggedOneLine(es[1..]); }
  }

  lemma {:induction false} LoggedParse(es: seq<Entry>)
    requires forall i :: 0 <= i < |es| ==> es[i].op.Get? || Loggable(es[i])
    ensures ParseLines(Logged(es)) == Kept(es)
  {
    hide Typed, ParseRequest, Expressible, OneLine, Lower, Name;
    if es != [] {
      LoggedParse(es[1..]);
      if es[0].op.Get? {
        assert [] + Logged(es[1..]) == Logged(es[1..]) && [] + Kept(es[1..]) == Kept(es[1..]);
      } else {
        ReplayTakes(es[0]);
        ParseFirst(Typed(es[0]), Logged(es[1..]));
      }
    }
  }

  // ----- what replay brings back

  /** Requests that replay passes over. */
  predicate Skipped(e: Entry) { e.op.Get? || e.op.Rename? || e.word != Name(e.op) }

  /** Every request that replay passes over changed nothing when it was served. */
  ghost predicate Harmless(cap: nat, a: Flat, es: seq<Entry>) {
    forall i :: 0 <= i < |es| && Skipped(es[i]) ==> IdleAt(cap, Run(cap, a, OpsIn(es[..i])), es[i].op)
  }

  predicate IdleAt(cap: nat, a: Flat, op: Op) { Idle(cap, Proj(a, op.user), op) }

  function Back(cap: nat, a: Flat, es: seq<Entry>): Flat { Run(cap, a, NoRenames(Kept(es))) }

  lemma {:induction false} NoRenamesBoth(xs: seq<Op>, ys: seq<Op>)
    ensures NoRenames(xs + ys) == NoRenames(xs) + NoRenames(ys)
  {
    if xs == [] {
      assert xs + ys == ys;
    } else {
      assert (xs + ys)[1..] == xs[1..] + ys;
      NoRenamesBoth(xs[1..], ys);
    }
  }

  lemma {:induction false} KeptLast(es: seq<Entry>, e: Entry)
    ensures Kept(es + [e]) == Kept(es) + KeptOf(e)
  {
    hide KeptOf;
    if es == [] {
      assert es + [e] == [e] && [e][1..] == [];
    } else {
      assert (es + [e])[1..] == es[1..] + [e];
      KeptLast(es[1..], e);
    }
  }

  lemma BackLast(cap: nat, a: Flat, es: seq<Entry>, e: Entry)
    ensures Back(cap, a, es + [e]) == if Skipped(e) then Back(cap, a, es) else Next(cap, Back(cap, a, es), e.op)
    ensures Run(cap, a, OpsIn(es + [e])) == Next(cap, Run(cap, a, OpsIn(es)), e.op)
  {
    hide Next, Kept, NoRenames, Run;
    KeptLast(es, e);
    NoRenamesBoth(Kept(es), KeptOf(e));
    assert NoRenames([]) == [] && NoRenames([e.op]) == if e.op.Rename? then [] else [e.op] by { OneRename(e.op); }
    assert NoRenames(Kept(es)) + [] == NoRenames(Kept(es));
    RunLast(cap, a, NoRenames(Kept(es)), e.op);
    assert OpsIn(es + [e]) == OpsIn(es) + [e.op];
    RunLast(cap, a, OpsIn(es), e.op);
  }

  lemma OneRename(op: Op)
    ensures NoRenames([]) == [] && NoRenames([op]) == if op.Rename? then [] else [op]
  {
    assert [op][1..] == [];
  }

  /** One more request after a run that replay brings back. */
  lemma LastIff(cap: nat, a: Flat, es: seq<Entry>, e: Entry)
    requires Peopled(a) && Back(cap, a, es) == Run(cap, a, OpsIn(es))
    ensures Back(cap, a, es + [e]) == Run(cap, a, OpsIn(es + [e]))
       <==> (Skipped(e) ==> IdleAt(cap, Run(cap, a, OpsIn(es)), e.op))
  {
    hide Next, Back, Run, Skipped, Idle, Proj;
    BackLast(cap, a, es, e);
    RunProj(cap, a, OpsIn(es), e.op.user);
    FlatIdleIff(cap, Run(cap, a, OpsIn(es)), e.op);
  }

  ghost predicate BackThroughout(cap: nat, a: Flat, es: seq<Entry>) {
    forall i :: 0 <= i <= |es| ==> Back(cap, a, es[..i]) == Run(cap, a, OpsIn(es[..i]))
  }

  lemma {:induction false} ThroughoutIff(cap: nat, a: Flat, es: seq<Entry>)
    requires Peopled(a)
    ensures BackThroughout(cap, a, es) <==> Harmless(cap, a, es)
  {
    hide Peopled, Skipped, IdleAt, Back, Run, OpsIn;
    if es == [] {
      assert es[..0] == [];
      NothingBack(cap, a);
    } else {
      var init, e := es[..|es| - 1], es[|es| - 1];
      ThroughoutIff(cap, a, init);
      assert es == init + [e];
      Prefixes(init, e);
      assert init[..|init|] == init && es[..|es|] == es;
      if Back(cap, a, init) == Run(cap, a, OpsIn(init)) { LastIff(cap, a, init, e); }
      if BackThroughout(cap, a, es) {
        assert forall i :: 0 <= i <= |init| ==> Back(cap, a, es[..i]) == Run(cap, a, OpsIn(es[..i]));
      }
    }
  }

  lemma Prefixes(init: seq<Entry>, e: Entry)
    ensures forall i :: 0 <= i <= |init| ==> (init + [e])[..i] == init[..i]
    ensures forall i :: 0 <= i < |init| ==> (init + [e])[i] == init[i]
  {
  }

  lemma NothingBack(cap: nat, a: Flat)
    ensures Back(cap, a, []) == a && Run(cap, a, OpsIn([])) == a
  {
    assert OpsIn([]) == [];
  }

  /** Checkpoint, requests, crash: restart and replay of the log text. */
  function Recover(s: Cache, es: seq<Entry>, junk: map<nat, string>): Option<Cache> {
    match Restart(Take(s), s.capacity, s.vm.size, junk)
    case Some(t) => Some(Replay(t, ParseLines(LinesOf(AllText(Logged(es))))))
    case None => None
  }

  /** A run of requests whose log replay can read. */
  ghost predicate Legal(es: seq<Entry>) {
    forall i :: 0 <= i < |es| ==> CleanOp(es[i].op) && (es[i].op.Get? || Loggable(es[i]))
  }

  lemma {:induction false} KeptClean(es: seq<Entry>)
    requires Legal(es)
    ensures forall i :: 0 <= i < |Kept(es)| ==> CleanOp(Kept(es)[i])
    ensures LogOf(Kept(es)) == Kept(es)
  {
    hide Loggable, CleanOp;
    if es != [] {
      KeptClean(es[1..]);
      if KeptOf(es[0]) == [] {
        assert [] + Kept(es[1..]) == Kept(es[1..]);
      } else {
        assert Kept(es)[0] == es[0].op && Kept(es)[1..] == Kept(es[1..]);
      }
    }
  }

  lemma RecoverIs(s: Cache, es: seq<Entry>, junk: map<nat, string>)
    requires Inv(s) && NamesOk(s) && s.used <= s.capacity && Legal(es)
    ensures Recover(s, es, junk).Some?
    ensures View(Recover(s, es, junk).value) == Back(s.capacity, View(s), es)
    ensures View(Execute(s, OpsIn(es))) == Run(s.capacity, View(s), OpsIn(es))
  {
    hide Inv, View, Take, Restart, NamesOk, Loggable, LinesOf, AllText, ParseLines, Logged, LogOf, Replay, Run, Kept,
      NoRenames, CleanOp, Execute;
    KeptClean(es);
    TextIsLog(es);
    RecoveryYields(s, Kept(es), junk);
    RunRefines(s, OpsIn(es));
  }

  /** Wherever the run is cut by a crash, what comes back from the checkpoint and the log text is
      the store as it was. */
  ghost predicate RecoversThroughout(s: Cache, es: seq<Entry>, junk: map<nat, string>) {
    forall i :: 0 <= i <= |es| ==>
      Recover(s, es[..i], junk).Some? && View(Recover(s, es[..i], junk).value) == View(Execute(s, OpsIn(es[..i])))
  }

  /** This is so exactly when every request that replay passes over (a rename, or a command word not
      in lower case) had changed nothing. */
  lemma RecoversThroughoutIff(s: Cache, es: seq<Entry>, junk: map<nat, string>)
    requires Inv(s) && NamesOk(s) && s.used <= s.capacity && Legal(es)
    ensures RecoversThroughout(s, es, junk) <==> Harmless(s.capacity, View(s), es)
  {
    hide Inv, View, Recover, NamesOk, Legal, Back, Run, Execute, OpsIn, Harmless, Peopled, FlatOk;
    InvFlat(s);
    FlatPeopled(s.capacity, View(s));
    ThroughoutIff(s.capacity, View(s), es);
    forall i | 0 <= i <= |es|
      ensures Recover(s, es[..i], junk).Some?
        && View(Recover(s, es[..i], junk).value) == Back(s.capacity, View(s), es[..i])
        && View(Execute(s, OpsIn(es[..i]))) == Run(s.capacity, View(s), OpsIn(es[..i]))
    {
      LegalPart(es, i);
      RecoverIs(s, es[..i], junk);
    }
  }

  lemma LegalPart(es: seq<Entry>, i: nat)
    requires Legal(es) && i <= |es|
    ensures Legal(es[..i])
  {
    hide CleanOp, Loggable;
  }

  /** Crash recovery from the files alone: the checkpoint and the text of the log. */
  lemma CrashRecoveryFromText(s: Cache, es: seq<Entry>, junk: map<nat, string>)
    requires Inv(s) && NamesOk(s) && s.used <= s.capacity && Legal(es) && Harmless(s.capacity, View(s), es)
    ensures Recover(s, es, junk).Some? && View(Recover(s, es, junk).value) == View(Execute(s, OpsIn(es)))
  {
    hide Inv, View, Recover, NamesOk, Legal, Execute, OpsIn, Harmless;
    RecoversThroughoutIff(s, es, junk);
    assert es[..|es|] == es;
  }
}
