/** The text files of a checkpoint: printers and hand-written parsers for the chunk metadata,
    the user sizes and the chunk information. */
module MetaCodec {
  import opened Text
  import opened KeyOrder
  import opened Chunks

  type Meta = map<string, seq<Extent>>

  /** `read_file` reads line by line and drops the line ends. */
  function ReadFile(text: string): string {
    if text == "" then ""
    else if text[0] == '\n' then ReadFile(text[1..])
    else [text[0]] + ReadFile(text[1..])
  }

  lemma {:induction false} ReadFileOk(text: string)
    ensures '\n' !in ReadFile(text)
    ensures '\n' !in text ==> ReadFile(text) == text
  {
    if text != "" {
      ReadFileOk(text[1..]);
      assert text == [text[0]] + text[1..];
    }
  }

  // ----- one record

  function RecordText(e: Extent): string {
    ToDec(e.chunk) + [','] + (ToDec(e.start) + [','] + ToDec(e.length))
  }

  function ParseNumbers(toks: seq<string>): Option<seq<nat>> {
    if toks == [] then Some([])
    else
      match Stoi(toks[0])
      case None => None
      case Some(n) =>
        match ParseNumbers(toks[1..])
        case None => None
        case Some(ns) => Some([n] + ns)
  }

  /** `rebuild_vector`; a record that is not a triple is rejected here, where the original
      fails when it is used. */
  function ParseRecord(s: string): Option<Extent> {
    match ParseNumbers(Tokens(s, ',') + [Remainder(s, ',')])
    case None => None
    case Some(ns) => if |ns| == 3 then Some(Extent(ns[0], ns[1], ns[2])) else None
  }

  lemma RecordRoundTrip(e: Extent)
    ensures ParseRecord(RecordText(e)) == Some(e)
  {
    var c, s, l := ToDec(e.chunk), ToDec(e.start), ToDec(e.length);
    DecFree(e.chunk, ',');
    DecFree(e.start, ',');
    DecFree(e.length, ',');
    TokensStep(c, ',', s + [','] + l);
    TokensStep(s, ',', l);
    TokensOfFree(l, ',');
    StoiOfToDec(e.chunk);
    StoiOfToDec(e.start);
    StoiOfToDec(e.length);
    hide Stoi, ToDec, Tokens, Remainder;
    ParseThree(c, s, l, e.chunk, e.start, e.length);
    assert Tokens(RecordText(e), ',') + [Remainder(RecordText(e), ',')] == [c, s, l];
  }

  lemma ParseThree(a: string, b: string, c: string, x: nat, y: nat, z: nat)
    requires Stoi(a) == Some(x) && Stoi(b) == Some(y) && Stoi(c) == Some(z)
    ensures ParseNumbers([a, b, c]) == Some([x, y, z])
  {
    hide Stoi;
    assert [a, b, c][1..] == [b, c] && [b, c][1..] == [c] && [c][1..] == [];
    assert [z] + [] == [z] && [y] + [z] == [y, z];
    assert ParseNumbers([]) == Some([]);
    assert ParseNumbers([c]) == Some([z]);
    assert ParseNumbers([b, c]) == Some([y, z]);
    assert [x] + [y, z] == [x, y, z];
  }

  lemma RecordFree(e: Extent, c: char)
    requires !IsDigit(c) && c != ','
    ensures c !in RecordText(e)
  {
    DecFree(e.chunk, c);
    DecFree(e.start, c);
    DecFree(e.length, c);
  }

  function RecordTexts(es: seq<Extent>): seq<string> {
    seq(|es|, i requires 0 <= i < |es| => RecordText(es[i]))
  }

  // ----- one user's block

  function Block(u: string, es: seq<Extent>): string {
    Terminated([u] + RecordTexts(es), ';')
  }

  /** The pushes of `parse_meta` after the user name. */
  function AddRecords(m: Meta, u: string, toks: seq<string>): Option<Meta>
    decreases |toks|
  {
    if toks == [] then Some(m)
    else
      match ParseRecord(toks[0])
      case None => None
      case Some(e) => AddRecords(m[u := (if u in m then m[u] else []) + [e]], u, toks[1..])
  }

  /** `parse_meta`. */
  function ParseBlock(m: Meta, s: string): Option<Meta> {
    var toks := Tokens(s, ';');
    if toks == [] then Some(m) else AddRecords(m, toks[0], toks[1..])
  }

  lemma {:induction false} AddRecordsOk(m: Meta, u: string, done: seq<Extent>, es: seq<Extent>)
    requires if done == [] then u !in m && es != [] else u in m && m[u] == done
    ensures AddRecords(m, u, RecordTexts(es)) == Some(m[u := done + es])
    decreases |es|
  {
    hide ParseRecord, RecordText;
    if es == [] {
      assert done + es == done;
      assert m[u := done + es] == m;
    } else {
      var next := m[u := done + [es[0]]];
      assert (if u in m then m[u] else []) + [es[0]] == done + [es[0]];
      RecordRoundTrip(es[0]);
      assert RecordTexts(es)[1..] == RecordTexts(es[1..]);
      AddRecordsOk(next, u, done + [es[0]], es[1..]);
      assert done + [es[0]] + es[1..] == done + es;
      assert next[u := done + es] == m[u := done + es];
    }
  }

  lemma BlockTokens(u: string, es: seq<Extent>)
    requires ';' !in u
    ensures Tokens(Block(u, es), ';') == [u] + RecordTexts(es)
  {
    var toks := [u] + RecordTexts(es);
    forall i | 0 <= i < |toks| ensures ';' !in toks[i] {
      if i > 0 { RecordFree(es[i - 1], ';'); }
    }
    TokensRoundTrip(toks, ';', "");
    TokensOfFree("", ';');
    assert Terminated(toks, ';') + "" == Terminated(toks, ';');
  }

  lemma BlockOk(m: Meta, u: string, es: seq<Extent>)
    requires ';' !in u && u !in m && es != []
    ensures ParseBlock(m, Block(u, es)) == Some(m[u := es])
  {
    hide Block, RecordTexts, AddRecords;
    BlockTokens(u, es);
    AddRecordsOk(m, u, [], es);
    assert ([u] + RecordTexts(es))[1..] == RecordTexts(es);
    assert [] + es == es;
  }

  lemma {:induction false} TerminatedFree(toks: seq<string>, c: char, d: char)
    requires c != d && AllFree(toks, d)
    ensures d !in Terminated(toks, c)
  {
    if toks != [] { TerminatedFree(toks[1..], c, d); }
  }

  lemma BlockFree(u: string, es: seq<Extent>, c: char)
    requires c !in u && !IsDigit(c) && c != ',' && c != ';'
    ensures c !in Block(u, es)
  {
    var toks := [u] + RecordTexts(es);
    forall i | 0 <= i < |toks| ensures c !in toks[i] {
      if i > 0 { RecordFree(es[i - 1], c); }
    }
    TerminatedFree(toks, ';', c);
  }

  // ----- the whole file

  function PrintBlocks(blocks: seq<string>): string {
    if blocks == [] then "" else ['@'] + blocks[0] + PrintBlocks(blocks[1..])
  }

  function BlockList(meta: Meta, ks: seq<string>): seq<string>
    requires forall k :: k in ks ==> k in meta
  {
    seq(|ks|, i requires 0 <= i < |ks| => Block(ks[i], meta[ks[i]]))
  }

  /** `write_cp_meta`, `write_virmem_meta`. */
  function Print(meta: Meta): string { PrintBlocks(BlockList(meta, SortedKeys(meta.Keys))) }

  function ParseBlocks(m: Meta, blocks: seq<string>): Option<Meta>
    decreases |blocks|
  {
    if blocks == [] then Some(m)
    else
      match ParseBlock(m, blocks[0])
      case None => None
      case Some(n) => ParseBlocks(n, blocks[1..])
  }

  /** What `load_cp_vm_meta` hands to `parse_meta`: every '@' token but the first, and what
      is left after the last. */
  function BlocksOf(text: string): seq<string> {
    var toks := Tokens(text, '@');
    (if toks == [] then [] else toks[1..]) + [Remainder(text, '@')]
  }

  /** `load_cp_vm_meta` into an empty map. */
  function Load(text: string): Option<Meta> {
    ParseBlocks(map[], BlocksOf(ReadFile(text)))
  }

  ghost predicate CleanName(u: string) { '@' !in u && ';' !in u && '\n' !in u }

  ghost predicate CleanMeta(meta: Meta) {
    forall u :: u in meta ==> CleanName(u) && meta[u] != []
  }

  lemma {:induction false} PrintShape(blocks: seq<string>)
    requires blocks != []
    ensures PrintBlocks(blocks) == Terminated([""] + blocks[..|blocks| - 1], '@') + blocks[|blocks| - 1]
    decreases |blocks|
  {
    var n := |blocks| - 1;
    EmptyFirst(blocks[..n]);
    if n == 0 {
      assert blocks[..n] == [];
    } else {
      var rest := blocks[1..];
      PrintShape(rest);
      EmptyFirst(rest[..n - 1]);
      var t := Terminated(rest[..n - 1], '@');
      assert blocks[..n] == [blocks[0]] + rest[..n - 1];
      TerminatedFirst(blocks[0], rest[..n - 1], '@');
      hide Terminated;
      assert ['@'] + (blocks[0] + ['@'] + t) + rest[n - 1] == ['@'] + blocks[0] + (['@'] + t + rest[n - 1]);
    }
  }

  lemma EmptyFirst(toks: seq<string>)
    ensures Terminated([""] + toks, '@') == ['@'] + Terminated(toks, '@')
  {
    TerminatedFirst("", toks, '@');
    assert "" + ['@'] == ['@'];
  }

  lemma PrintBlocksOf(blocks: seq<string>)
    requires blocks != [] && AllFree(blocks, '@')
    ensures BlocksOf(PrintBlocks(blocks)) == blocks
  {
    var n := |blocks| - 1;
    PrintShape(blocks);
    var toks := [""] + blocks[..n];
    TokensRoundTrip(toks, '@', blocks[n]);
    TokensOfFree(blocks[n], '@');
    assert toks + [] == toks && toks[1..] == blocks[..n];
    assert blocks[..n] + [blocks[n]] == blocks;
  }

  lemma {:induction false} PrintBlocksFree(blocks: seq<string>, c: char)
    requires AllFree(blocks, c) && c != '@'
    ensures c !in PrintBlocks(blocks)
  {
    if blocks != [] { PrintBlocksFree(blocks[1..], c); }
  }

  function Slice<T>(m: map<string, T>, ks: seq<string>): map<string, T>
    requires forall k :: k in ks ==> k in m
  {
    map k | k in ks :: m[k]
  }

  lemma {:induction false} ParseBlocksOk(meta: Meta, ks: seq<string>, m: Meta)
    requires CleanMeta(meta) && NoDup(ks) && forall k :: k in ks ==> k in meta && k !in m
    ensures ParseBlocks(m, BlockList(meta, ks)) == Some(m + Slice(meta, ks))
    decreases |ks|
  {
    hide Block, ParseBlock;
    if ks == [] {
      assert m + Slice(meta, ks) == m;
    } else {
      assert ks[0] in ks;
      BlockOk(m, ks[0], meta[ks[0]]);
      SliceStep(m, meta, ks);
      hide CleanMeta, NoDup, Slice;
      ParseBlocksOk(meta, ks[1..], m[ks[0] := meta[ks[0]]]);
      assert BlockList(meta, ks)[1..] == BlockList(meta, ks[1..]);
    }
  }

  lemma SliceStep<T>(m: map<string, T>, all: map<string, T>, ks: seq<string>)
    requires ks != [] && NoDup(ks) && forall k :: k in ks ==> k in all && k !in m
    ensures var next := m[ks[0] := all[ks[0]]];
      && NoDup(ks[1..]) && (forall k :: k in ks[1..] ==> k in all && k !in next)
      && next + Slice(all, ks[1..]) == m + Slice(all, ks)
  {
    assert ks[0] in ks && forall k :: k in ks <==> k == ks[0] || k in ks[1..];
    assert ks[0] !in ks[1..];
  }

  lemma BlocksFree(meta: Meta, ks: seq<string>, c: char)
    requires c == '@' || c == '\n'
    requires forall k :: k in ks ==> k in meta && c !in k
    ensures AllFree(BlockList(meta, ks), c)
  {
    forall i | 0 <= i < |ks| ensures c !in BlockList(meta, ks)[i] {
      assert ks[i] in ks;
      BlockFree(ks[i], meta[ks[i]], c);
    }
  }

  lemma LoadPrinted(meta: Meta)
    requires CleanMeta(meta)
    ensures Load(Print(meta)) == Some(meta)
  {
    var ks := SortedKeys(meta.Keys);
    var blocks := BlockList(meta, ks);
    SortedKeysNoDup(meta.Keys);
    BlocksFree(meta, ks, '@');
    BlocksFree(meta, ks, '\n');
    PrintBlocksFree(blocks, '\n');
    ReadFileOk(Print(meta));
    hide BlockList, Block, ReadFile, SortedKeys;
    if ks == [] {
      assert meta == map[] by { assert forall k :: k in meta ==> k in ks; }
      NothingPrinted();
    } else {
      PrintBlocksOf(blocks);
      ParseBlocksOk(meta, ks, map[]);
      AllKeys(meta);
    }
  }

  lemma NothingPrinted()
    ensures Load(Print(map[])) == Some(map[])
  {
    TokensOfFree("", '@');
    TokensOfFree("", ';');
    assert PrintBlocks([]) == "";
  }

  // ----- the other direction: what a parse can produce

  lemma {:induction false} AddRecordsClean(m: Meta, u: string, toks: seq<string>)
    requires CleanMeta(m) && CleanName(u)
    ensures AddRecords(m, u, toks).Some? ==> CleanMeta(AddRecords(m, u, toks).value)
    decreases |toks|
  {
    hide ParseRecord;
    if toks != [] {
      match ParseRecord(toks[0])
      case None =>
      case Some(e) =>
        AddRecordsClean(m[u := (if u in m then m[u] else []) + [e]], u, toks[1..]);
    }
  }

  lemma ParseBlockClean(m: Meta, s: string)
    requires CleanMeta(m) && '@' !in s && '\n' !in s
    ensures ParseBlock(m, s).Some? ==> CleanMeta(ParseBlock(m, s).value)
  {
    var toks := Tokens(s, ';');
    TokensRebuild(s, ';');
    TokensKeepFree(s, ';', '@');
    TokensKeepFree(s, ';', '\n');
    if toks != [] { AddRecordsClean(m, toks[0], toks[1..]); }
  }

  lemma {:induction false} ParseBlocksClean(m: Meta, blocks: seq<string>)
    requires CleanMeta(m) && AllFree(blocks, '@') && AllFree(blocks, '\n')
    ensures ParseBlocks(m, blocks).Some? ==> CleanMeta(ParseBlocks(m, blocks).value)
    decreases |blocks|
  {
    hide ParseBlock, CleanMeta;
    if blocks != [] {
      ParseBlockClean(m, blocks[0]);
      match ParseBlock(m, blocks[0])
      case None =>
      case Some(n) => ParseBlocksClean(n, blocks[1..]);
    }
  }

  lemma BlocksStayFree(s: string, c: char)
    requires AllFree(Tokens(s, '@'), c) && c !in Remainder(s, '@')
    ensures AllFree(BlocksOf(s), c)
  {
    hide Tokens, Remainder;
  }

  lemma LoadClean(text: string)
    ensures Load(text).Some? ==> CleanMeta(Load(text).value)
  {
    var s := ReadFile(text);
    ReadFileOk(text);
    TokensRebuild(s, '@');
    TokensKeepFree(s, '@', '\n');
    hide ReadFile, Tokens, Remainder, Terminated;
    BlocksStayFree(s, '@');
    BlocksStayFree(s, '\n');
    hide BlocksOf, ParseBlocks;
    ParseBlocksClean(map[], BlocksOf(s));
  }

  /** The metadata file reads back as the map that was printed exactly when no user name
      contains '@', ';' or a line end and no user has an empty list of records. */
  lemma MetaRoundTripIff(meta: Meta)
    ensures Load(Print(meta)) == Some(meta) <==> CleanMeta(meta)
  {
    hide Load, Print, CleanMeta;
    if CleanMeta(meta) { LoadPrinted(meta); }
    LoadClean(Print(meta));
  }

  // ----- the loops

  /** One turn of `write_cp_meta` and of `write_virmem_meta`: a user and its records. */
  method WriteBlock(user: string, temp: seq<Extent>) returns (text: string)
    ensures text == ['@'] + Block(user, temp)
  {
    hide ToDec;
    text := "@" + user + ";";
    BlockHead(user);
    for i := 0 to |temp|
      invariant text == ['@'] + Block(user, temp[..i])
    {
      var e := temp[i];
      var s := ToDec(e.chunk) + "," + ToDec(e.start) + "," + ToDec(e.length) + ";";
      BlockMore(user, temp, i);
      assert s == RecordText(e) + [';'];
      hide Block, RecordText;
      assert ['@'] + (Block(user, temp[..i]) + (RecordText(e) + [';'])) == (['@'] + Block(user, temp[..i])) + s;
      text := text + s;
    }
    assert temp[..|temp|] == temp;
  }

  lemma BlockHead(u: string)
    ensures Block(u, []) == u + [';']
  {
    assert RecordTexts([]) == [] && [u] + [] == [u];
    TerminatedFirst(u, [], ';');
  }

  lemma BlockMore(u: string, es: seq<Extent>, i: nat)
    requires i < |es|
    ensures Block(u, es[..i + 1]) == Block(u, es[..i]) + (RecordText(es[i]) + [';'])
  {
    hide RecordText, Terminated;
    assert [u] + RecordTexts(es[..i + 1]) == ([u] + RecordTexts(es[..i])) + [RecordText(es[i])];
    TerminatedConcat([u] + RecordTexts(es[..i]), [RecordText(es[i])], ';');
    OneTerminated(RecordText(es[i]), ';');
  }

  lemma OneTerminated(t: string, c: char)
    ensures Terminated([t], c) == t + [c]
  {
    TerminatedFirst(t, [], c);
    assert [t] + [] == [t] && Terminated([], c) == "";
  }

  /** `write_cp_meta`, `write_virmem_meta`: the map in user order. */
  method WriteMeta(meta: Meta) returns (text: string)
    ensures text == Print(meta)
  {
    hide Block, PrintBlocks, SortedKeys, Least;
    text := "";
    var todo := meta.Keys;
    ghost var goal := Print(meta);
    assert "" + goal == goal;
    while todo != {}
      invariant todo <= meta.Keys && text + PrintBlocks(BlockList(meta, SortedKeys(todo))) == goal
      decreases |todo|
    {
      var user := Least(todo);
      PrintTurn(meta, todo);
      var block := WriteBlock(user, meta[user]);
      ghost var later := PrintBlocks(BlockList(meta, SortedKeys(todo - {user})));
      assert text + (block + later) == (text + block) + later;
      text := text + block;
      todo := todo - {user};
    }
    NothingLeft(meta);
    assert text + "" == text;
  }

  lemma PrintTurn(meta: Meta, todo: set<string>)
    requires todo != {} && todo <= meta.Keys
    ensures var u := Least(todo);
      PrintBlocks(BlockList(meta, SortedKeys(todo)))
        == (['@'] + Block(u, meta[u])) + PrintBlocks(BlockList(meta, SortedKeys(todo - {u})))
  {
    hide Block;
    var ks := SortedKeys(todo);
    assert ks[1..] == SortedKeys(todo - {Least(todo)});
    assert BlockList(meta, ks)[1..] == BlockList(meta, ks[1..]);
  }

  lemma NothingLeft(meta: Meta)
    ensures PrintBlocks(BlockList(meta, SortedKeys({}))) == ""
  {
  }

  /** The numbers still to be read, after `v`. */
  function Continue(v: seq<nat>, rest: Option<seq<nat>>): Option<seq<nat>> {
    if rest.None? then None else Some(v + rest.value)
  }

  lemma NumbersTurn(v: seq<nat>, tok: string, toks: seq<string>)
    ensures match Stoi(tok)
      case None => Continue(v, ParseNumbers([tok] + toks)) == None
      case Some(n) => Continue(v, ParseNumbers([tok] + toks)) == Continue(v + [n], ParseNumbers(toks))
  {
    hide Stoi;
    assert ([tok] + toks)[1..] == toks;
    if Stoi(tok).Some? && ParseNumbers(toks).Some? {
      assert v + ([Stoi(tok).value] + ParseNumbers(toks).value) == (v + [Stoi(tok).value]) + ParseNumbers(toks).value;
    }
  }

  /** `rebuild_vector`. */
  method RebuildVector(text: string) returns (r: Option<seq<nat>>)
    ensures r == ParseNumbers(Tokens(text, ',') + [Remainder(text, ',')])
  {
    hide Stoi, ParseNumbers, Tokens, Remainder, IndexOf;
    var s := text;
    var v := [];
    ghost var goal := ParseNumbers(Tokens(text, ',') + [Remainder(text, ',')]);
    assert goal.Some? ==> [] + goal.value == goal.value;
    while IndexOf(s, ',') < |s|
      invariant goal == Continue(v, ParseNumbers(Tokens(s, ',') + [Remainder(s, ',')]))
      decreases |s|
    {
      var pos := IndexOf(s, ',');
      ScanTurn(s, ',');
      ghost var toks := Tokens(s[pos + 1..], ',') + [Remainder(s[pos + 1..], ',')];
      assert Tokens(s, ',') + [Remainder(s, ',')] == [s[..pos]] + toks;
      NumbersTurn(v, s[..pos], toks);
      match Stoi(s[..pos])
      case None => return None;
      case Some(n) => v := v + [n];
      s := s[pos + 1..];
    }
    ScanEnd(s, ',');
    NumbersTurn(v, s, []);
    assert Tokens(s, ',') + [Remainder(s, ',')] == [s] + [];
    NumbersEnd();
    match Stoi(s)
    case None => return None;
    case Some(n) => return Some(v + [n] + []);
  }

  lemma NumbersEnd()
    ensures ParseNumbers([]) == Some([])
  {
  }

  lemma RecordIs(s: string, ns: Option<seq<nat>>)
    requires ns == ParseNumbers(Tokens(s, ',') + [Remainder(s, ',')])
    ensures ParseRecord(s)
      == if ns.None? || |ns.value| != 3 then None else Some(Extent(ns.value[0], ns.value[1], ns.value[2]))
  {
    hide ParseNumbers, Tokens, Remainder;
  }

  /** `parse_meta`: the first token is the user, the others are records. */
  method ParseMeta(meta: Meta, text: string) returns (r: Option<Meta>)
    ensures r == ParseBlock(meta, text)
  {
    hide ParseRecord, ParseNumbers, Tokens, Remainder, IndexOf;
    var s, counter, user, m := text, 0, "", meta;
    while IndexOf(s, ';') < |s|
      invariant counter == 0 ==> s == text && m == meta
      invariant counter > 0 ==> ParseBlock(meta, text) == AddRecords(m, user, Tokens(s, ';'))
      invariant counter >= 0
      decreases |s|
    {
      var pos := IndexOf(s, ';');
      ScanTurn(s, ';');
      if counter == 0 {
        user := s[..pos];
      } else {
        var record := RebuildVector(s[..pos]);
        RecordIs(s[..pos], record);
        if record.None? || |record.value| != 3 {
          return None;
        }
        var e := Extent(record.value[0], record.value[1], record.value[2]);
        m := m[user := (if user in m then m[user] else []) + [e]];
      }
      s := s[pos + 1..];
      counter := counter + 1;
    }
    ScanEnd(s, ';');
    r := Some(m);
  }

  /** `load_cp_vm_meta`: what precedes the first '@' is skipped. */
  method LoadMeta(file: string) returns (r: Option<Meta>)
    ensures r == Load(file)
  {
    hide ParseBlock, Tokens, Remainder, IndexOf, ReadFile;
    var text := ReadFile(file);
    var s, counter, m := text, 0, map[];
    while IndexOf(s, '@') < |s|
      invariant counter >= 0
      invariant counter == 0 ==> s == text && m == map[]
      invariant counter > 0 ==> Load(file) == ParseBlocks(m, Tokens(s, '@') + [Remainder(s, '@')])
      decreases |s|
    {
      var pos := IndexOf(s, '@');
      ScanTurn(s, '@');
      ghost var more := Tokens(s[pos + 1..], '@') + [Remainder(s[pos + 1..], '@')];
      if counter != 0 {
        assert Tokens(s, '@') + [Remainder(s, '@')] == [s[..pos]] + more;
        assert ([s[..pos]] + more)[1..] == more;
        var parsed := ParseMeta(m, s[..pos]);
        match parsed
        case None => return None;
        case Some(n) => m := n;
      } else {
        assert BlocksOf(text) == more;
      }
      s := s[pos + 1..];
      counter := counter + 1;
    }
    ScanEnd(s, '@');
    LastBlock(m, s);
    assert counter == 0 ==> BlocksOf(text) == [s];
    assert [] + [s] == [s];
    r := ParseMeta(m, s);
  }

  lemma LastBlock(m: Meta, s: string)
    ensures ParseBlocks(m, [s]) == ParseBlock(m, s)
  {
    hide ParseBlock;
    assert [s][1..] == [];
  }

  // ----- user sizes

  type SizeRecord = map<string, nat>

  function SizeTokens(sizes: SizeRecord, ks: seq<string>): seq<string>
    requires forall k :: k in ks ==> k in sizes
  {
    if ks == [] then [] else [ks[0], ToDec(sizes[ks[0]])] + SizeTokens(sizes, ks[1..])
  }

  /** `write_user_size`. */
  function PrintSizes(sizes: SizeRecord): string {
    Terminated(SizeTokens(sizes, SortedKeys(sizes.Keys)), ',')
  }

  /** The assignments of `load_user_size`, one for each (user, number) pair of tokens. */
  function ParseSizes(sizes: SizeRecord, toks: seq<string>): Option<SizeRecord>
    decreases |toks|
  {
    if |toks| < 2 then Some(sizes)
    else
      match Stoi(toks[1])
      case None => None
      case Some(n) => ParseSizes(sizes[toks[0] := n], toks[2..])
  }

  function LoadSizes(text: string): Option<SizeRecord> { ParseSizes(map[], Tokens(ReadFile(text), ',')) }

  ghost predicate CleanSizes(sizes: SizeRecord) {
    forall u :: u in sizes ==> ',' !in u && '\n' !in u
  }

  lemma {:induction false} SizeTokensFree(sizes: SizeRecord, ks: seq<string>, c: char)
    requires c == ',' || c == '\n'
    requires forall k :: k in ks ==> k in sizes && c !in k
    ensures AllFree(SizeTokens(sizes, ks), c)
  {
    if ks != [] {
      DecFree(sizes[ks[0]], c);
      SizeTokensFree(sizes, ks[1..], c);
    }
  }

  lemma {:induction false} ParseSizesOk(sizes: SizeRecord, ks: seq<string>, acc: SizeRecord)
    requires NoDup(ks) && forall k :: k in ks ==> k in sizes && k !in acc
    ensures ParseSizes(acc, SizeTokens(sizes, ks)) == Some(acc + Slice(sizes, ks))
    decreases |ks|
  {
    hide ToDec, Stoi;
    if ks == [] {
      assert acc + Slice(sizes, ks) == acc;
    } else {
      assert ks[0] in ks;
      StoiOfToDec(sizes[ks[0]]);
      SliceStep(acc, sizes, ks);
      hide NoDup, Slice;
      assert SizeTokens(sizes, ks)[2..] == SizeTokens(sizes, ks[1..]);
      ParseSizesOk(sizes, ks[1..], acc[ks[0] := sizes[ks[0]]]);
    }
  }

  lemma LoadPrintedSizes(sizes: SizeRecord)
    requires CleanSizes(sizes)
    ensures LoadSizes(PrintSizes(sizes)) == Some(sizes)
  {
    hide Terminated, Tokens, ReadFile, ToDec, ParseSizes;
    var ks := SortedKeys(sizes.Keys);
    var toks := SizeTokens(sizes, ks);
    SortedKeysNoDup(sizes.Keys);
    SizeTokensFree(sizes, ks, ',');
    SizeTokensFree(sizes, ks, '\n');
    TerminatedFree(toks, ',', '\n');
    ReadFileOk(PrintSizes(sizes));
    SizesText(toks);
    ParseSizesOk(sizes, ks, map[]);
    AllKeys(sizes);
  }

  lemma AllKeys<T>(m: map<string, T>)
    ensures map[] + Slice(m, SortedKeys(m.Keys)) == m
  {
  }

  lemma SizesText(toks: seq<string>)
    requires AllFree(toks, ',')
    ensures Tokens(Terminated(toks, ','), ',') == toks
  {
    TokensRoundTrip(toks, ',', "");
    TokensOfFree("", ',');
    assert Terminated(toks, ',') + "" == Terminated(toks, ',');
  }

  lemma {:induction false} ParseSizesClean(sizes: SizeRecord, toks: seq<string>)
    requires CleanSizes(sizes) && AllFree(toks, ',') && AllFree(toks, '\n')
    ensures ParseSizes(sizes, toks).Some? ==> CleanSizes(ParseSizes(sizes, toks).value)
    decreases |toks|
  {
    hide Stoi;
    if |toks| >= 2 && Stoi(toks[1]).Some? {
      ParseSizesClean(sizes[toks[0] := Stoi(toks[1]).value], toks[2..]);
    }
  }

  lemma LoadSizesClean(text: string)
    ensures LoadSizes(text).Some? ==> CleanSizes(LoadSizes(text).value)
  {
    hide Tokens, ReadFile, CleanSizes;
    var s := ReadFile(text);
    ReadFileOk(text);
    TokensRebuild(s, ',');
    TokensKeepFree(s, ',', '\n');
    EmptyClean();
    ParseSizesClean(map[], Tokens(s, ','));
  }

  /** The size file reads back as the map that was printed exactly when no user name contains
      a comma or a line end. */
  lemma SizesRoundTripIff(sizes: SizeRecord)
    ensures LoadSizes(PrintSizes(sizes)) == Some(sizes) <==> CleanSizes(sizes)
  {
    hide PrintSizes, LoadSizes, CleanSizes;
    if CleanSizes(sizes) { LoadPrintedSizes(sizes); }
    LoadSizesClean(PrintSizes(sizes));
  }

  lemma EmptyClean()
    ensures CleanSizes(map[])
  {
  }

  /** `write_user_size`. */
  method WriteUserSize(sizes: SizeRecord) returns (text: string)
    ensures text == PrintSizes(sizes)
  {
    hide ToDec, SortedKeys, Least, Terminated, SizeTokens;
    text := "";
    var todo := sizes.Keys;
    ghost var goal := PrintSizes(sizes);
    assert "" + goal == goal;
    while todo != {}
      invariant todo <= sizes.Keys && text + Terminated(SizeTokens(sizes, SortedKeys(todo)), ',') == goal
      decreases |todo|
    {
      var user := Least(todo);
      SizesTurn(sizes, todo);
      var s := user + "," + ToDec(sizes[user]) + ",";
      ghost var later := Terminated(SizeTokens(sizes, SortedKeys(todo - {user})), ',');
      assert text + (s + later) == (text + s) + later;
      text := text + s;
      todo := todo - {user};
    }
    NoSizesLeft(sizes);
    assert text + "" == text;
  }

  lemma SizesTurn(sizes: SizeRecord, todo: set<string>)
    requires todo != {} && todo <= sizes.Keys
    ensures var u := Least(todo);
      Terminated(SizeTokens(sizes, SortedKeys(todo)), ',')
        == (u + "," + ToDec(sizes[u]) + ",") + Terminated(SizeTokens(sizes, SortedKeys(todo - {u})), ',')
  {
    hide ToDec, Terminated;
    var ks := SortedKeys(todo);
    assert ks[1..] == SortedKeys(todo - {Least(todo)});
    PairText(ks[0], ToDec(sizes[ks[0]]), SizeTokens(sizes, ks[1..]));
  }

  lemma PairText(u: string, d: string, more: seq<string>)
    ensures Terminated([u, d] + more, ',') == (u + "," + d + ",") + Terminated(more, ',')
  {
    assert [u, d] + more == [u] + ([d] + more);
    TerminatedFirst(u, [d] + more, ',');
    TerminatedFirst(d, more, ',');
    hide Terminated;
    assert u + [','] + (d + [','] + Terminated(more, ',')) == (u + [','] + d + [',']) + Terminated(more, ',');
  }

  lemma NoSizesLeft(sizes: SizeRecord)
    ensures Terminated(SizeTokens(sizes, SortedKeys({})), ',') == ""
  {
  }

  /** `load_user_size`: names and numbers alternate. */
  method LoadUserSize(file: string) returns (r: Option<SizeRecord>)
    ensures r == LoadSizes(file)
  {
    hide Tokens, Remainder, IndexOf, ReadFile, Stoi;
    var s, counter, user := ReadFile(file), 0, "";
    var sizes: SizeRecord := map[];
    assert [] + Tokens(s, ',') == Tokens(s, ',');
    while IndexOf(s, ',') < |s|
      invariant counter >= 0
      invariant LoadSizes(file) == ParseSizes(sizes, (if counter % 2 == 0 then [] else [user]) + Tokens(s, ','))
      decreases |s|
    {
      var pos := IndexOf(s, ',');
      ScanTurn(s, ',');
      ghost var more := Tokens(s[pos + 1..], ',');
      counter := counter + 1;
      if counter % 2 != 0 {
        user := s[..pos];
        assert [] + ([user] + more) == [user] + more;
      } else {
        ghost var toks := [user] + ([s[..pos]] + more);
        assert toks[0] == user && toks[1] == s[..pos] && toks[2..] == [] + more;
        match Stoi(s[..pos])
        case None => return None;
        case Some(n) => sizes := sizes[user := n];
      }
      s := s[pos + 1..];
    }
    ScanEnd(s, ',');
    r := Some(sizes);
  }

  // ----- chunk information

  /** `write_chunk_info`: both areas' numbers, then `memory_used`. */
  function PrintInfo(cpChunk: nat, cpOffset: nat, vmChunk: nat, vmOffset: nat, used: nat): string {
    Terminated([ToDec(cpChunk), ToDec(cpOffset), ToDec(vmChunk), ToDec(vmOffset)], ',') + ToDec(used)
  }

  /** `load_chunk_info`: the first four numbers; the fifth is never terminated, hence not read. */
  function LoadInfo(text: string): Option<seq<nat>> {
    var toks := Tokens(ReadFile(text), ',');
    ParseNumbers(if |toks| > 4 then toks[..4] else toks)
  }

  lemma InfoRoundTrip(cpChunk: nat, cpOffset: nat, vmChunk: nat, vmOffset: nat, used: nat)
    ensures LoadInfo(PrintInfo(cpChunk, cpOffset, vmChunk, vmOffset, used))
         == Some([cpChunk, cpOffset, vmChunk, vmOffset])
  {
    hide ToDec, Stoi, Tokens, Remainder, ReadFile, Terminated, IndexOf;
    var ns := [cpChunk, cpOffset, vmChunk, vmOffset];
    var toks := [ToDec(cpChunk), ToDec(cpOffset), ToDec(vmChunk), ToDec(vmOffset)];
    forall i | 0 <= i < 4 ensures ',' !in toks[i] && '\n' !in toks[i] {
      DecFree(ns[i], ',');
      DecFree(ns[i], '\n');
    }
    DecFree(used, ',');
    DecFree(used, '\n');
    TerminatedFree(toks, ',', '\n');
    ReadFileOk(PrintInfo(cpChunk, cpOffset, vmChunk, vmOffset, used));
    TokensRoundTrip(toks, ',', ToDec(used));
    TokensOfFree(ToDec(used), ',');
    StoiOfToDec(cpChunk);
    StoiOfToDec(cpOffset);
    StoiOfToDec(vmChunk);
    StoiOfToDec(vmOffset);
    hide ToDec, Stoi, Tokens, ReadFile, Terminated;
    assert toks + [] == toks;
    ParseThree(toks[1], toks[2], toks[3], cpOffset, vmChunk, vmOffset);
    assert toks[1..] == [toks[1], toks[2], toks[3]];
    assert [cpChunk] + [cpOffset, vmChunk, vmOffset] == ns;
  }

  // ----- what any text is read as

  /** All line ends are dropped, and nothing else. */
  lemma {:induction false} ReadFileLines(a: string, b: string)
    requires '\n' !in a
    ensures ReadFile(a + b) == a + ReadFile(b) && ReadFile(['\n'] + b) == ReadFile(b)
  {
    assert (['\n'] + b)[1..] == b;
    if a == "" {
      assert "" + b == b;
    } else {
      assert (a + b)[1..] == a[1..] + b;
      ReadFileLines(a[1..], b);
      assert [a[0]] + (a[1..] + ReadFile(b)) == a + ReadFile(b);
    }
  }

  /** Numbers are read if and only if `stoi` reads every one. */
  lemma {:induction false} NumbersIff(toks: seq<string>, ns: seq<nat>)
    ensures ParseNumbers(toks) == Some(ns) <==>
      |ns| == |toks| && forall i :: 0 <= i < |toks| ==> Stoi(toks[i]) == Some(ns[i])
  {
    hide Stoi;
    if toks == [] {
      assert |ns| == 0 ==> ns == [];
    } else if ns != [] {
      NumbersIff(toks[1..], ns[1..]);
      assert ns == [ns[0]] + ns[1..];
      if ParseNumbers(toks) == Some(ns) {
        forall i | 0 <= i < |toks| ensures Stoi(toks[i]) == Some(ns[i]) {
          if i > 0 { assert toks[i] == toks[1..][i - 1] && ns[i] == ns[1..][i - 1]; }
        }
      }
      if |ns| == |toks| && forall i :: 0 <= i < |toks| ==> Stoi(toks[i]) == Some(ns[i]) {
        forall i | 0 <= i < |toks[1..]| ensures Stoi(toks[1..][i]) == Some(ns[1..][i]) {
          assert toks[1..][i] == toks[i + 1] && ns[1..][i] == ns[i + 1];
        }
      }
    }
  }

  /** A record is three numbers between commas. */
  lemma RecordIff(s: string, e: Extent)
    ensures ParseRecord(s) == Some(e) <==>
      var toks := Tokens(s, ',') + [Remainder(s, ',')];
      |toks| == 3 && Stoi(toks[0]) == Some(e.chunk) && Stoi(toks[1]) == Some(e.start) && Stoi(toks[2]) == Some(e.length)
  {
    hide Tokens, Remainder, Stoi, ParseNumbers;
    var toks := Tokens(s, ',') + [Remainder(s, ',')];
    NumbersIff(toks, [e.chunk, e.start, e.length]);
    if ParseNumbers(toks).Some? { NumbersIff(toks, ParseNumbers(toks).value); }
  }

  /** Two more pieces assign one more size; a last piece alone is ignored. */
  lemma {:induction false} SizesMore(sizes: SizeRecord, toks: seq<string>, u: string, d: string)
    requires |toks| % 2 == 0
    ensures ParseSizes(sizes, toks + [u]) == ParseSizes(sizes, toks)
    ensures ParseSizes(sizes, toks + [u, d])
         == if ParseSizes(sizes, toks).None? || Stoi(d).None? then None
            else Some(ParseSizes(sizes, toks).value[u := Stoi(d).value])
    decreases |toks|
  {
    hide Stoi;
    var one, two := toks + [u], toks + [u, d];
    if toks == [] {
      assert two[2..] == [];
    } else {
      assert one[2..] == toks[2..] + [u] && two[2..] == toks[2..] + [u, d];
      if Stoi(toks[1]).Some? { SizesMore(sizes[toks[0] := Stoi(toks[1]).value], toks[2..], u, d); }
    }
  }

  /** The chunk numbers: the first four that end in a comma. */
  lemma InfoIff(text: string, ns: seq<nat>)
    ensures LoadInfo(text) == Some(ns) <==>
      var toks := Tokens(ReadFile(text), ',');
      && |ns| == (if |toks| < 4 then |toks| else 4)
      && forall i :: 0 <= i < |ns| ==> Stoi(toks[i]) == Some(ns[i])
  {
    hide Tokens, ReadFile, Stoi, ParseNumbers;
    var toks := Tokens(ReadFile(text), ',');
    NumbersIff(if |toks| > 4 then toks[..4] else toks, ns);
  }

  // ----- the files by example

  lemma SomeNumbers()
    ensures ToDec(0) == "0" && ToDec(1) == "1" && ToDec(2) == "2" && ToDec(3) == "3" && ToDec(4) == "4"
    ensures ToDec(5) == "5" && ToDec(12) == "12" && ToDec(15) == "15"
  {
    assert ToDec(12) == ToDec(1) + [Digit(2)] && ToDec(15) == ToDec(1) + [Digit(5)];
  }

  lemma TwoSizes(sizes: SizeRecord, a: string, b: string)
    requires a in sizes && b in sizes
    ensures SizeTokens(sizes, [a, b]) == [a, ToDec(sizes[a]), b, ToDec(sizes[b])]
  {
    hide ToDec;
    assert SizeTokens(sizes, []) == [] && [b][1..] == [] && [a, b][1..] == [b];
    assert SizeTokens(sizes, [b]) == [b, ToDec(sizes[b])];
  }

  lemma SampleSizes()
    ensures PrintSizes(map["b" := 12, "a" := 3]) == "a,3,b,12,"
  {
    hide ToDec, SortedKeys, Terminated, SizeTokens;
    var sizes: SizeRecord := map["b" := 12, "a" := 3];
    SomeNumbers();
    TwoKeys("a", "b");
    assert sizes.Keys == {"a", "b"};
    TwoSizes(sizes, "a", "b");
    Four("a", "3", "b", "12", ',');
  }

  lemma SampleInfo()
    ensures PrintInfo(1, 2, 3, 4, 15) == "1,2,3,4,15"
  {
    SomeNumbers();
    hide ToDec, Terminated;
    Four("1", "2", "3", "4", ',');
  }

  lemma Four(a: string, b: string, d: string, e: string, c: char)
    ensures Terminated([a, b, d, e], c) == a + [c] + (b + [c] + (d + [c] + (e + [c])))
  {
    hide Terminated;
    Three(b, d, e, c);
    TerminatedFirst(a, [b, d, e], c);
    assert [a] + [b, d, e] == [a, b, d, e];
  }

  lemma Three(b: string, d: string, e: string, c: char)
    ensures Terminated([b, d, e], c) == b + [c] + (d + [c] + (e + [c]))
    ensures Terminated([d, e], c) == d + [c] + (e + [c])
  {
    hide Terminated;
    TerminatedFirst(e, [], c);
    TerminatedFirst(d, [e], c);
    TerminatedFirst(b, [d, e], c);
    NothingTerminated(c);
    assert [e] + [] == [e] && [d] + [e] == [d, e] && [b] + [d, e] == [b, d, e];
  }

  lemma SampleBlocks()
    ensures Block("a", [Extent(0, 4, 5), Extent(1, 0, 2)]) == "a;0,4,5;1,0,2;"
    ensures Block("b", [Extent(1, 2, 3)]) == "b;1,2,3;"
  {
    SomeNumbers();
    assert RecordText(Extent(0, 4, 5)) == "0,4,5" && RecordText(Extent(1, 0, 2)) == "1,0,2";
    assert RecordText(Extent(1, 2, 3)) == "1,2,3";
    hide ToDec, Terminated, RecordText;
    assert ["a"] + RecordTexts([Extent(0, 4, 5), Extent(1, 0, 2)]) == ["a", "0,4,5", "1,0,2"];
    assert ["b"] + RecordTexts([Extent(1, 2, 3)]) == ["b", "1,2,3"];
    Three("a", "0,4,5", "1,0,2", ';');
    Three("a", "b", "1,2,3", ';');
  }

  lemma SampleMeta()
    ensures Print(map["b" := [Extent(1, 2, 3)], "a" := [Extent(0, 4, 5), Extent(1, 0, 2)]])
         == "@a;0,4,5;1,0,2;@b;1,2,3;"
  {
    hide SortedKeys, Block, PrintBlocks;
    var meta: Meta := map["b" := [Extent(1, 2, 3)], "a" := [Extent(0, 4, 5), Extent(1, 0, 2)]];
    SampleBlocks();
    TwoKeys("a", "b");
    assert meta.Keys == {"a", "b"};
    var blocks := BlockList(meta, ["a", "b"]);
    assert blocks == [blocks[0], blocks[1]];
    TwoBlocks(blocks[0], blocks[1]);
  }

  lemma TwoBlocks(a: string, b: string)
    ensures PrintBlocks([a, b]) == ['@'] + a + (['@'] + b)
  {
    assert [a, b][1..] == [b] && [b][1..] == [];
    assert PrintBlocks([]) == "" && PrintBlocks([b]) == ['@'] + b + "" == ['@'] + b;
  }
}
