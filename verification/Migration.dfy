/** Moving users between nodes: the source sends every file of a user as a put line and then
    deletes it; the requester executes the lines it receives. */
module Migration {
  import opened Text
  import opened KeyOrder
  import opened RowCodec
  import opened Chunks
  import opened FlatStore
  import opened TieredStore
  import opened Refinement
  import opened Recovery
  import opened Replication
  import opened Wire

  /** The first loop of `migrate_data`: one put line for each file that is found. */
  function Ship(cap: nat, a: Flat, u: string, ks: seq<string>): seq<Op> {
    if ks == [] then []
    else
      var r := ReplyOf(cap, a, Get(u, ks[0]));
      (if r.Value? then [Put(u, ks[0], r.value)] else []) + Ship(cap, a, u, ks[1..])
  }

  /** The second loop: what is left of the store, ... */
  function Drain(cap: nat, a: Flat, u: string, ks: seq<string>): Flat
    decreases |ks|
  {
    if ks == [] then a
    else Drain(cap, if ReplyOf(cap, a, Get(u, ks[0])).Value? then Next(cap, a, Dele(u, ks[0])) else a, u, ks[1..])
  }

  /** ... and the requests that are logged and passed on to the secondary. */
  function Drops(cap: nat, a: Flat, u: string, ks: seq<string>): seq<Op>
    decreases |ks|
  {
    if ks == [] then []
    else if ReplyOf(cap, a, Get(u, ks[0])).Value? then
      [Dele(u, ks[0])] + Drops(cap, Next(cap, a, Dele(u, ks[0])), u, ks[1..])
    else Drops(cap, a, u, ks[1..])
  }

  function FileNames(a: Flat, u: string): seq<string> { SortedKeys(FilesAt(a.files, u).Keys) }

  /** What is left of the store, the lines sent, and the deletions logged. */
  type Migrated = (Flat, seq<Op>, seq<Op>)

  /** `migrate_data` for one user, over a copy of its file names. */
  function MigrateUser(cap: nat, a: Flat, u: string): Migrated {
    var ks := FileNames(a, u);
    (Drain(cap, a, u, ks), Ship(cap, a, u, ks), Drops(cap, a, u, ks))
  }

  /** `data_migration`: the users in list order. */
  function MigrateList(cap: nat, a: Flat, us: seq<string>): Migrated
    decreases |us|
  {
    if us == [] then (a, [], [])
    else
      var (b, lines, drops) := MigrateUser(cap, a, us[0]);
      var (c, moreLines, moreDrops) := MigrateList(cap, b, us[1..]);
      (c, lines + moreLines, drops + moreDrops)
  }

  // ----- what the loops do

  function Puts(u: string, m: Files, ks: seq<string>): seq<Op>
    requires forall k :: k in ks ==> k in m
  {
    seq(|ks|, i requires 0 <= i < |ks| => assert ks[i] in ks; Put(u, ks[i], m[ks[i]]))
  }

  function Deles(u: string, ks: seq<string>): seq<Op> {
    seq(|ks|, i requires 0 <= i < |ks| => Dele(u, ks[i]))
  }

  lemma {:induction false} ShipIs(cap: nat, a: Flat, u: string, ks: seq<string>)
    requires forall k :: k in ks ==> k in FilesAt(a.files, u)
    ensures Ship(cap, a, u, ks) == Puts(u, FilesAt(a.files, u), ks)
  {
    if ks != [] {
      var k, m := ks[0], FilesAt(a.files, u);
      assert k in ks;
      assert ReplyOf(cap, a, Get(u, k)) == Value(m[k]);
      ShipIs(cap, a, u, ks[1..]);
      assert Puts(u, m, ks) == [Put(u, k, m[k])] + Puts(u, m, ks[1..]);
    }
  }

  function Emptied(a: Flat, u: string): Flat {
    if u in a.files then Flat(a.files - {u}, a.size[u := 0]) else a
  }

  lemma UserCounted(cap: nat, a: Flat, u: string)
    requires FlatOk(cap, a)
    ensures u in a.files <==> FilesAt(a.files, u) != map[]
    ensures SizeAt(a.size, u) == SizeOf(FilesAt(a.files, u)) && (u in a.files ==> u in a.size)
    ensures u in a.files ==> SizeOf(a.files[u]) < cap
  {
    hide SizeOf;
    assert UserOk(cap, a, u);
  }

  lemma DeleStep(cap: nat, a: Flat, u: string, k: string)
    requires FlatOk(cap, a) && k in FilesAt(a.files, u)
    ensures ReplyOf(cap, a, Get(u, k)).Value?
    ensures var b := Next(cap, a, Dele(u, k));
      FilesAt(b.files, u) == FilesAt(a.files, u) - {k} && Emptied(b, u) == Emptied(a, u)
  {
    assert UserOk(cap, a, u);
    SizeOfRemove(FilesAt(a.files, u), k);
    SizeOfNone();
    hide SizeOf;
    assert u !in a.files - {u};
  }

  /** After the second loop the source holds nothing of the user, and nothing else changed. */
  lemma {:induction false} DrainIs(cap: nat, a: Flat, u: string, ks: seq<string>)
    requires FlatOk(cap, a) && NoDup(ks) && forall k :: k in ks <==> k in FilesAt(a.files, u)
    ensures Drain(cap, a, u, ks) == Emptied(a, u) && Drops(cap, a, u, ks) == Deles(u, ks)
    decreases |ks|
  {
    hide Next, ReplyOf, FlatOk;
    if ks == [] {
      UserCounted(cap, a, u);
      assert FilesAt(a.files, u) == map[];
    } else {
      var k := ks[0];
      assert k in ks;
      DeleStep(cap, a, u, k);
      NextOk(cap, a, Dele(u, k));
      var b := Next(cap, a, Dele(u, k));
      forall x ensures x in ks[1..] <==> x in FilesAt(b.files, u) {
        assert x in ks <==> x == k || x in ks[1..];
      }
      hide Emptied;
      DrainIs(cap, b, u, ks[1..]);
      assert Deles(u, ks) == [Dele(u, k)] + Deles(u, ks[1..]);
    }
  }

  /** Values are appended file by file. */
  function Merged(g: Files, m: Files): Files {
    map f | f in g.Keys + m.Keys :: ValueOf(g, f) + ValueOf(m, f)
  }

  function Received(b: Flat, u: string, m: Files): Flat {
    if m == map[] then b
    else Flat(b.files[u := Merged(FilesAt(b.files, u), m)], b.size[u := SizeAt(b.size, u) + SizeOf(m)])
  }

  lemma PutNext(cap: nat, b: Flat, u: string, k: string, v: string)
    requires SizeAt(b.size, u) >= 0 && SizeAt(b.size, u) + |v| < cap
    ensures ReplyOf(cap, b, Put(u, k, v)) == Stored
    ensures Next(cap, b, Put(u, k, v))
      == Flat(b.files[u := AppendTo(FilesAt(b.files, u), k, v)], b.size[u := SizeAt(b.size, u) + |v|])
  {
    assert k in AppendTo(FilesAt(b.files, u), k, v);
  }

  lemma ReceivedPut(b: Flat, u: string, k: string, v: string, rest: Files)
    requires k !in rest
    ensures var c := Flat(b.files[u := AppendTo(FilesAt(b.files, u), k, v)], b.size[u := SizeAt(b.size, u) + |v|]);
      Received(c, u, rest) == Received(b, u, rest[k := v])
  {
    var g := FilesAt(b.files, u);
    SizeOfUpdate(rest, k, v);
    SizeOfNone();
    MergedStep(g, k, v, rest);
    MergedNone(AppendTo(g, k, v));
    assert k in rest[k := v];
    hide SizeOf, AppendTo, Merged, Received, FilesAt, SizeAt;
    ReceivedSame(b, u, AppendTo(g, k, v), |v|, rest, rest[k := v]);
  }

  lemma ReceivedSame(b: Flat, u: string, part: Files, n: nat, rest: Files, all: Files)
    requires all != map[] && Merged(part, rest) == Merged(FilesAt(b.files, u), all) && SizeOf(all) == n + SizeOf(rest)
    requires rest == map[] ==> Merged(part, rest) == part && SizeOf(rest) == 0
    ensures Received(Flat(b.files[u := part], b.size[u := SizeAt(b.size, u) + n]), u, rest) == Received(b, u, all)
  {
    hide SizeOf, Merged;
    SetAgain(b.files, u, part, Merged(part, rest));
    SetAgain(b.size, u, SizeAt(b.size, u) + n, SizeAt(b.size, u) + n + SizeOf(rest));
  }

  lemma PutStep(cap: nat, b: Flat, u: string, k: string, v: string, rest: Files)
    requires FlatOk(cap, b) && k !in rest && SizeAt(b.size, u) + |v| + SizeOf(rest) < cap
    ensures var c := Next(cap, b, Put(u, k, v));
      && ReplyOf(cap, b, Put(u, k, v)) == Stored && FlatOk(cap, c)
      && SizeAt(c.size, u) == SizeAt(b.size, u) + |v|
      && Received(c, u, rest) == Received(b, u, rest[k := v])
  {
    hide SizeOf, FlatOk, Next, ReplyOf, Received;
    NextOk(cap, b, Put(u, k, v));
    UserCounted(cap, b, u);
    PutNext(cap, b, u, k, v);
    ReceivedPut(b, u, k, v, rest);
  }

  lemma MergedNone(g: Files)
    ensures Merged(g, map[]) == g
  {
    assert forall x: string :: x + "" == x;
  }

  lemma MergedStep(g: Files, k: string, v: string, rest: Files)
    requires k !in rest
    ensures Merged(AppendTo(g, k, v), rest) == Merged(g, rest[k := v])
  {
    assert ValueOf(g, k) + v + "" == ValueOf(g, k) + v;
  }

  predicate AllStored(rs: seq<Reply>) { rs == [] || (rs[0] == Stored && AllStored(rs[1..])) }

  /** The requester executes the lines: while the total fits, every one is stored and the user's
      files are appended to what is there. */
  lemma {:induction false} PutsAre(cap: nat, b: Flat, u: string, m: Files, ks: seq<string>)
    requires NoDup(ks) && forall k :: k in ks ==> k in m
    requires FlatOk(cap, b) && SizeAt(b.size, u) + SizeOf(Restrict(m, ks)) < cap
    ensures var ops := Puts(u, m, ks);
      && Run(cap, b, ops) == Received(b, u, Restrict(m, ks))
      && AllStored(FlatReplies(cap, b, ops))
    decreases |ks|
  {
    if ks == [] {
      assert Puts(u, m, ks) == [];
    } else {
      var k := ks[0];
      assert k in ks;
      RestrictFirst(m, ks);
      hide SizeOf, FlatOk, Next, ReplyOf, Received, Restrict;
      var rest := Restrict(m, ks[1..]);
      PutStep(cap, b, u, k, m[k], rest);
      PutsAre(cap, Next(cap, b, Put(u, k, m[k])), u, m, ks[1..]);
      PutsFirst(u, m, ks);
      hide Puts;
      RunFirst(cap, b, Put(u, k, m[k]), Puts(u, m, ks[1..]));
      hide Run, FlatReplies, AllStored;
      StoredFirst(FlatReplies(cap, Next(cap, b, Put(u, k, m[k])), Puts(u, m, ks[1..])));
    }
  }

  lemma StoredFirst(rs: seq<Reply>)
    ensures AllStored(rs) ==> AllStored([Stored] + rs)
  {
    assert ([Stored] + rs)[1..] == rs;
  }

  lemma PutsFirst(u: string, m: Files, ks: seq<string>)
    requires ks != [] && forall k :: k in ks ==> k in m
    ensures Puts(u, m, ks) == [Put(u, ks[0], m[ks[0]])] + Puts(u, m, ks[1..])
  {
  }

  lemma RunFirst(cap: nat, b: Flat, op: Op, ops: seq<Op>)
    ensures Run(cap, b, [op] + ops) == Run(cap, Next(cap, b, op), ops)
    ensures FlatReplies(cap, b, [op] + ops) == [ReplyOf(cap, b, op)] + FlatReplies(cap, Next(cap, b, op), ops)
  {
    hide Next, ReplyOf;
    assert ([op] + ops)[1..] == ops;
  }

  // ----- the source and the requester together

  lemma AllNames(a: Flat, u: string)
    ensures NoDup(FileNames(a, u)) && forall k :: k in FileNames(a, u) <==> k in FilesAt(a.files, u)
    ensures Restrict(FilesAt(a.files, u), FileNames(a, u)) == FilesAt(a.files, u)
  {
    SortedKeysNoDup(FilesAt(a.files, u).Keys);
  }

  /** One user: nothing is left at the source, every line is stored, and the requester has the
      source's former files appended to its own. */
  lemma OneUser(cap: nat, a: Flat, b: Flat, u: string)
    requires FlatOk(cap, a) && FlatOk(cap, b)
    requires SizeAt(b.size, u) + SizeOf(FilesAt(a.files, u)) < cap
    ensures var (left, lines, drops) := MigrateUser(cap, a, u);
      && left == Emptied(a, u) && drops == Deles(u, FileNames(a, u))
      && lines == Puts(u, FilesAt(a.files, u), FileNames(a, u))
      && Run(cap, b, lines) == Received(b, u, FilesAt(a.files, u))
      && AllStored(FlatReplies(cap, b, lines))
  {
    hide Drain, Drops, Ship, FlatOk, Received, Emptied, FileNames, SizeOf, Next, ReplyOf;
    AllNames(a, u);
    DrainIs(cap, a, u, FileNames(a, u));
    ShipIs(cap, a, u, FileNames(a, u));
    PutsAre(cap, b, u, FilesAt(a.files, u), FileNames(a, u));
  }

  /** The requester ends up with exactly the source's files of a user if and only if its own
      files of that user were empty ones that the source has too. */
  lemma ExactIff(cap: nat, a: Flat, b: Flat, u: string)
    requires FlatOk(cap, a) && FlatOk(cap, b) && u in a.files
    requires SizeAt(b.size, u) + SizeOf(a.files[u]) < cap
    ensures FilesAt(Run(cap, b, MigrateUser(cap, a, u).1).files, u) == a.files[u]
      <==> forall f :: f in FilesAt(b.files, u) ==> f in a.files[u] && FilesAt(b.files, u)[f] == ""
  {
    OneUser(cap, a, b, u);
    UserCounted(cap, a, u);
    hide MigrateUser, FlatOk, SizeOf, Run;
    MergedIff(FilesAt(b.files, u), a.files[u]);
  }

  lemma MergedIff(g: Files, m: Files)
    ensures Merged(g, m) == m <==> forall f :: f in g ==> f in m && g[f] == ""
  {
    var both := Merged(g, m);
    forall f | f in g && (f !in m || g[f] != "") ensures both != m {
      assert f in both && |both[f]| == |g[f]| + |ValueOf(m, f)|;
    }
    assert forall x: string :: "" + x == x;
  }

  /** The listed users the source has. */
  function Listed(a: Flat, us: seq<string>): map<string, Files> {
    map u | u in a.files && u in us :: a.files[u]
  }

  /** Migrating a user the requester does not have. */
  lemma NewUser(cap: nat, a: Flat, b: Flat, u: string)
    requires cap > 0 && FlatOk(cap, a) && FlatOk(cap, b) && (u in a.files ==> u !in b.files)
    ensures var (left, lines, _) := MigrateUser(cap, a, u); var got := Run(cap, b, lines);
      && FlatOk(cap, left) && FlatOk(cap, got)
      && left.files == a.files - {u}
      && got.files == (if u in a.files then b.files[u := a.files[u]] else b.files)
      && AllStored(FlatReplies(cap, b, lines))
  {
    UserCounted(cap, a, u);
    UserCounted(cap, b, u);
    SizeOfNone();
    hide FlatOk, SizeOf, MigrateUser, Merged;
    OneUser(cap, a, b, u);
    MergedFromNone(FilesAt(a.files, u));
    EmptiedOk(cap, a, u);
    RunOk(cap, b, MigrateUser(cap, a, u).1);
  }

  lemma MergedFromNone(m: Files)
    ensures Merged(map[], m) == m
  {
    assert forall x: string :: "" + x == x;
  }

  lemma EmptiedOk(cap: nat, a: Flat, u: string)
    requires FlatOk(cap, a)
    ensures FlatOk(cap, Emptied(a, u)) && Emptied(a, u).files == a.files - {u}
  {
    SizeOfNone();
    hide SizeOf;
    forall x ensures UserOk(cap, Emptied(a, u), x) { assert UserOk(cap, a, x); }
  }

  lemma {:induction false} RepliesBoth(cap: nat, b: Flat, xs: seq<Op>, ys: seq<Op>)
    ensures FlatReplies(cap, b, xs + ys) == FlatReplies(cap, b, xs) + FlatReplies(cap, Run(cap, b, xs), ys)
    decreases |xs|
  {
    hide Next, ReplyOf;
    if xs == [] {
      assert xs + ys == ys;
    } else {
      assert (xs + ys)[1..] == xs[1..] + ys;
      RepliesBoth(cap, Next(cap, b, xs[0]), xs[1..], ys);
    }
  }

  lemma {:induction false} StoredBoth(xs: seq<Reply>, ys: seq<Reply>)
    requires AllStored(xs) && AllStored(ys)
    ensures AllStored(xs + ys)
  {
    if xs == [] {
      assert xs + ys == ys;
    } else {
      assert (xs + ys)[1..] == xs[1..] + ys;
      StoredBoth(xs[1..], ys);
    }
  }

  /** Migration conserves data: the requester has exactly the source's former files of every
      listed user, the source has none of them left, and all other users of both nodes, and
      the size records, are as they should be. A user listed twice, or unknown, is harmless. */
  lemma {:induction false} MigrationConserves(cap: nat, a: Flat, b: Flat, us: seq<string>)
    requires cap > 0 && FlatOk(cap, a) && FlatOk(cap, b)
    requires forall u :: u in us && u in a.files ==> u !in b.files
    ensures var (left, lines, _) := MigrateList(cap, a, us); var got := Run(cap, b, lines);
      && FlatOk(cap, left) && FlatOk(cap, got)
      && left.files == a.files - Listed(a, us).Keys
      && got.files == b.files + Listed(a, us)
      && AllStored(FlatReplies(cap, b, lines))
    decreases |us|
  {
    hide FlatOk, MigrateUser, Run, FlatReplies;
    if us == [] {
      RunNone(cap, b);
    } else {
      var u := us[0];
      assert u in us && forall x :: x in us <==> x == u || x in us[1..];
      var (a1, lines, _) := MigrateUser(cap, a, u);
      NewUser(cap, a, b, u);
      var b1 := Run(cap, b, lines);
      MigrationConserves(cap, a1, b1, us[1..]);
      var more := MigrateList(cap, a1, us[1..]).1;
      ListedStep(a, a1, b, b1, us);
      RunBoth(cap, b, lines, more);
      RepliesBoth(cap, b, lines, more);
      hide Listed, AllStored;
      StoredBoth(FlatReplies(cap, b, lines), FlatReplies(cap, b1, more));
    }
  }

  lemma ListedStep(a: Flat, a1: Flat, b: Flat, b1: Flat, us: seq<string>)
    requires us != [] && a1.files == a.files - {us[0]}
    requires b1.files == if us[0] in a.files then b.files[us[0] := a.files[us[0]]] else b.files
    ensures a1.files - Listed(a1, us[1..]).Keys == a.files - Listed(a, us).Keys
    ensures b1.files + Listed(a1, us[1..]) == b.files + Listed(a, us)
  {
    var u := us[0];
    assert u in us && forall x :: x in us <==> x == u || x in us[1..];
    var l := Listed(a, us);
    assert Listed(a1, us[1..]) == l - {u};
    assert (u in a.files <==> u in l) && (u in l ==> l[u] == a.files[u]);
    hide Listed;
    if u in l {
      assert b.files[u := l[u]] + (l - {u}) == b.files + l;
    } else {
      assert l - {u} == l;
    }
  }

  /** What a line sent, or a logged deletion, may name: a file of a listed user of the source. */
  ghost predicate OfListed(a: Flat, us: seq<string>, op: Op) {
    && op.user in Listed(a, us)
    && (op.Put? || op.Dele?) && op.file in a.files[op.user]
    && (op.Put? ==> op.value == a.files[op.user][op.file])
  }

  /** Every line sent and every deletion logged is about a file that a listed user had. */
  lemma {:induction false} OnlyListed(cap: nat, a: Flat, us: seq<string>)
    requires FlatOk(cap, a)
    ensures forall op :: op in MigrateList(cap, a, us).1 ==> OfListed(a, us, op) && op.Put?
    ensures forall op :: op in MigrateList(cap, a, us).2 ==> OfListed(a, us, op) && op.Dele?
    decreases |us|
  {
    hide FlatOk, MigrateUser, Listed;
    if us != [] {
      var (left, lines, drops) := MigrateUser(cap, a, us[0]);
      UserLines(cap, a, us);
      OnlyListed(cap, left, us[1..]);
      var more := MigrateList(cap, left, us[1..]);
      forall op | op in more.1 || op in more.2 ensures OfListed(a, us, op) { LaterListed(cap, a, left, us, op); }
    }
  }

  lemma LaterListed(cap: nat, a: Flat, left: Flat, us: seq<string>, op: Op)
    requires us != [] && left == Emptied(a, us[0]) && OfListed(left, us[1..], op)
    ensures OfListed(a, us, op)
  {
  }

  lemma UserLines(cap: nat, a: Flat, us: seq<string>)
    requires FlatOk(cap, a) && us != []
    ensures var (left, lines, drops) := MigrateUser(cap, a, us[0]);
      && FlatOk(cap, left) && left == Emptied(a, us[0])
      && (forall op :: op in lines ==> OfListed(a, us, op) && op.Put?)
      && (forall op :: op in drops ==> OfListed(a, us, op) && op.Dele?)
  {
    var u := us[0];
    assert u in us;
    AllNames(a, u);
    DrainIs(cap, a, u, FileNames(a, u));
    ShipIs(cap, a, u, FileNames(a, u));
    EmptiedOk(cap, a, u);
    hide FlatOk, Drain, Drops, Ship, FileNames, Emptied;
  }

  ghost predicate Legible(a: Flat) { forall u :: u in a.files ==> CommaFree(a.files[u]) }

  /** The lines sent carry no comma inside a name or a value. */
  lemma LinesClean(cap: nat, a: Flat, us: seq<string>)
    requires FlatOk(cap, a) && Legible(a)
    ensures forall op :: op in MigrateList(cap, a, us).1 ==> CleanOp(op)
  {
    hide FlatOk, MigrateList;
    OnlyListed(cap, a, us);
  }

  /** For user names without commas the requester reads from every line the put that was sent, and
      replay and the secondary read from every logged deletion the deletion that was made. */
  lemma LinesParse(cap: nat, a: Flat, us: seq<string>)
    requires FlatOk(cap, a) && Legible(a) && forall u :: u in us && u in a.files ==> ',' !in u
    ensures forall op | op in MigrateList(cap, a, us).1 || op in MigrateList(cap, a, us).2 ::
              ParseRequest(Render(op)) == Some(op)
  {
    hide FlatOk, MigrateList, ParseRequest, Render, Legible;
    OnlyListed(cap, a, us);
    forall op | op in MigrateList(cap, a, us).1 || op in MigrateList(cap, a, us).2
      ensures ParseRequest(Render(op)) == Some(op)
    {
      ListedParses(a, us, op);
    }
  }

  lemma ListedParses(a: Flat, us: seq<string>, op: Op)
    requires OfListed(a, us, op) && Legible(a) && forall u :: u in us && u in a.files ==> ',' !in u
    ensures ParseRequest(Render(op)) == Some(op)
  {
    RequestRoundTripIff(op);
    hide ParseRequest, Render;
  }

  lemma RunNone(cap: nat, b: Flat)
    ensures Run(cap, b, []) == b && FlatReplies(cap, b, []) == [] && b.files + map[] == b.files
  {
  }

  /** The same between two-tier stores: whatever the requester evicts and reloads on the way,
      its two tiers joined are its own users and the listed ones. */
  lemma MigrationIntoTiers(source: Cache, s: Cache, us: seq<string>)
    requires Inv(source) && Inv(s) && source.capacity == s.capacity
    requires forall u :: u in us && u in FlatFiles(source) ==> u !in FlatFiles(s)
    ensures var t := Execute(s, MigrateList(s.capacity, View(source), us).1);
      Inv(t) && FlatFiles(t) == FlatFiles(s) + Listed(View(source), us)
  {
    InvLegible(source);
    InvLegible(s);
    hide Inv, FlatOk, MigrateList, FlatFiles, Legible;
    LinesClean(s.capacity, View(source), us);
    RunRefines(s, MigrateList(s.capacity, View(source), us).1);
    MigrationConserves(s.capacity, View(source), View(s), us);
  }

  lemma InvLegible(s: Cache)
    requires Inv(s)
    ensures s.capacity > 0 && FlatOk(s.capacity, View(s)) && Legible(View(s))
  {
    hide Decode, ReadRow, FormatNode, SizeOf;
    forall u | u in FlatFiles(s) ensures CommaFree(FlatFiles(s)[u]) {
      assert u in s.tablets || u in s.vm.meta;
    }
  }

  // ----- the requester does not log what it receives

  lemma {:induction false} NotAmong(ops: seq<Op>, u: string)
    requires forall op :: op in ops ==> op.user != u
    ensures OpsOf(ops, u) == []
  {
    if ops != [] { NotAmong(ops[1..], u); }
  }

  /** Lines about other users make no difference to what later requests do to a user. */
  lemma LinesAside(cap: nat, m: Flat, lines: seq<Op>, later: seq<Op>, u: string)
    requires Peopled(m) && forall op :: op in lines ==> op.user != u
    ensures Proj(Run(cap, Run(cap, m, lines), later), u) == Proj(Run(cap, m, later), u)
  {
    hide Run, Peopled, OpsOf, Act, Proj;
    RunProj(cap, m, lines, u);
    RunProj(cap, m, later, u);
    RunProj(cap, Run(cap, m, lines), later, u);
    NotAmong(lines, u);
  }

  lemma LaterAside(cap: nat, a: Flat, later: seq<Op>, u: string)
    requires Peopled(a) && forall op :: op in later ==> op.user != u
    ensures Proj(Run(cap, a, later), u) == Proj(a, u) && Peopled(Run(cap, a, later))
  {
    hide Run, Peopled, OpsOf, Act, Proj;
    RunProj(cap, a, later, u);
    NotAmong(later, u);
  }

  lemma FilesByUser(live: Flat, back: Flat, moved: map<string, Files>)
    requires Peopled(live) && Peopled(back)
    requires forall u :: FilesAt(back.files, u) == if u in moved then map[] else FilesAt(live.files, u)
    requires forall u :: u in moved ==> u in live.files
    ensures back.files == live.files - moved.Keys && (back.files == live.files <==> moved == map[])
  {
    forall u ensures u in back.files <==> u in live.files && u !in moved {
      assert FilesAt(back.files, u) == if u in moved then map[] else FilesAt(live.files, u);
    }
    forall u | u in back.files ensures back.files[u] == live.files[u] {
      assert FilesAt(back.files, u) == FilesAt(live.files, u);
    }
    if moved != map[] {
      var u :| u in moved;
      assert u in live.files && u !in back.files;
    } else {
      assert back.files == live.files;
    }
  }

  /** Later requests of other users, on the store with `moved` added by `lines` and on the one
      without. */
  lemma MovedLost(cap: nat, m: Flat, lines: seq<Op>, moved: map<string, Files>, later: seq<Op>)
    requires Peopled(m) && Run(cap, m, lines).files == m.files + moved
    requires (forall op :: op in lines ==> op.user in moved) && (forall op :: op in later ==> op.user !in moved)
    requires forall u :: u in moved ==> u !in m.files && moved[u] != map[]
    ensures var live, back := Run(cap, Run(cap, m, lines), later), Run(cap, m, later);
      back.files == live.files - moved.Keys && (back.files == live.files <==> moved == map[])
  {
    hide Run, Peopled;
    var w := Run(cap, m, lines);
    var live, back := Run(cap, w, later), Run(cap, m, later);
    RunProj(cap, m, lines, "");
    RunProj(cap, m, later, "");
    RunProj(cap, w, later, "");
    forall u ensures FilesAt(back.files, u) == if u in moved then map[] else FilesAt(live.files, u)
      ensures u in moved ==> FilesAt(live.files, u) == moved[u]
    {
      if u in moved {
        LaterAside(cap, m, later, u);
        LaterAside(cap, w, later, u);
        assert Proj(live, u).files == FilesAt(w.files, u) && Proj(back, u).files == FilesAt(m.files, u);
      } else {
        LinesAside(cap, m, lines, later, u);
        assert Proj(live, u).files == Proj(back, u).files;
      }
    }
    FilesByUser(live, back, moved);
  }

  lemma InvPeopled(s: Cache)
    requires Inv(s)
    ensures Peopled(View(s)) && FlatOk(s.capacity, View(s))
  {
    hide FlatFiles, FlatOk;
    InvFlat(s);
    FlatPeopled(s.capacity, View(s));
  }

  /** The live store: requests, the lines taken in, more requests. */
  lemma LiveRuns(s: Cache, ops: seq<Op>, lines: seq<Op>, later: seq<Op>)
    requires Inv(s)
    requires forall op :: op in ops || op in lines || op in later ==> CleanOp(op)
    ensures var m := Execute(s, ops); var w := Execute(m, lines); var t := Execute(w, later);
      && Inv(m) && Inv(w) && Inv(t) && m.capacity == s.capacity
      && View(m) == Run(s.capacity, View(s), ops) && View(w) == Run(s.capacity, View(m), lines)
      && View(t) == Run(s.capacity, View(w), later)
      && Run(s.capacity, View(s), ops + later) == Run(s.capacity, View(m), later)
  {
    hide Inv, View, Execute, Run;
    RunRefines(s, ops);
    RunRefines(Execute(s, ops), lines);
    RunRefines(Execute(Execute(s, ops), lines), later);
    RunBoth(s.capacity, View(s), ops, later);
  }

  /** `migrate_worker` executes the lines without logging them. After a checkpoint, `ops`, a
      migration, `later` and a crash, restart and replay bring back every user that was not taken
      in, whatever was asked about the others. */
  lemma OthersRecovered(source: Cache, s: Cache, ops: seq<Op>, us: seq<string>, later: seq<Op>,
                        junk: map<nat, string>)
    requires Inv(source) && Inv(s) && source.capacity == s.capacity && NamesOk(s) && s.used <= s.capacity
    requires forall op :: op in ops || op in later ==> CleanOp(op)
    requires IdleRenames(s.capacity, View(s), ops + later)
    ensures var t := Execute(Execute(Execute(s, ops), MigrateList(s.capacity, View(source), us).1), later);
      var r := Restart(Take(s), s.capacity, s.vm.size, junk);
      && r.Some?
      && var back := Replay(r.value, LogOf(ops + later));
      forall u :: u !in Listed(View(source), us) ==> Proj(View(back), u) == Proj(View(t), u)
  {
    hide Inv, MigrateList, View, Listed, NamesOk, Take, Restart, Replay, LogOf, IdleRenames, Run, Execute,
      Peopled, Proj, FlatOk, Legible, CleanOp;
    var cap, lines := s.capacity, MigrateList(s.capacity, View(source), us).1;
    InvPeopled(source);
    InvLegible(source);
    LinesClean(cap, View(source), us);
    OnlyListed(cap, View(source), us);
    LiveRuns(s, ops, lines, later);
    RunRefines(s, ops + later);
    CrashRecovery(s, ops + later, junk);
    InvPeopled(Execute(s, ops));
    forall u | u !in Listed(View(source), us)
      ensures Proj(Run(cap, View(Execute(s, ops)), later), u)
           == Proj(View(Execute(Execute(Execute(s, ops), lines), later)), u)
    {
      LinesAside(cap, View(Execute(s, ops)), lines, later, u);
    }
  }

  /** When `later` is about other users, what comes back is exactly what the requester holds less
      the users taken in: nothing is lost if and only if the source had none of the listed users. */
  lemma MigrationLostIff(source: Cache, s: Cache, ops: seq<Op>, us: seq<string>, later: seq<Op>,
                         junk: map<nat, string>)
    requires Inv(source) && Inv(s) && source.capacity == s.capacity && NamesOk(s) && s.used <= s.capacity
    requires forall op :: op in ops || op in later ==> CleanOp(op)
    requires IdleRenames(s.capacity, View(s), ops + later)
    requires forall u :: u in us && u in FlatFiles(source) ==> u !in FlatFiles(Execute(s, ops))
    requires forall op :: op in later ==> op.user !in Listed(View(source), us)
    ensures var moved := Listed(View(source), us);
      var t := Execute(Execute(Execute(s, ops), MigrateList(s.capacity, View(source), us).1), later);
      var r := Restart(Take(s), s.capacity, s.vm.size, junk);
      && r.Some?
      && var back := Replay(r.value, LogOf(ops + later));
      && FlatFiles(back) == FlatFiles(t) - moved.Keys
      && (FlatFiles(back) == FlatFiles(t) <==> moved == map[])
  {
    hide Inv, MigrateList, FlatFiles, NamesOk, Take, Restart, Replay, LogOf, IdleRenames, Run, Execute, Peopled, Proj,
      FlatOk, Legible, CleanOp;
    var cap, lines, moved := s.capacity, MigrateList(s.capacity, View(source), us).1, Listed(View(source), us);
    var m := Execute(s, ops);
    InvPeopled(source);
    InvLegible(source);
    LinesClean(cap, View(source), us);
    OnlyListed(cap, View(source), us);
    LiveRuns(s, ops, lines, later);
    MigrationIntoTiers(source, m, us);
    RunRefines(s, ops + later);
    CrashRecovery(s, ops + later, junk);
    InvPeopled(m);
    ListedPeopled(View(source), us);
    MovedLost(cap, View(m), lines, moved, later);
  }

  lemma ListedPeopled(a: Flat, us: seq<string>)
    requires Peopled(a)
    ensures forall u :: u in Listed(a, us) ==> Listed(a, us)[u] != map[] && u in us && u in a.files
  {
  }

  // ----- the source logs what it gives away

  lemma {:induction false} DrainRuns(cap: nat, a: Flat, u: string, ks: seq<string>)
    ensures Run(cap, a, Drops(cap, a, u, ks)) == Drain(cap, a, u, ks)
    decreases |ks|
  {
    hide Next, ReplyOf;
    if ks != [] {
      if ReplyOf(cap, a, Get(u, ks[0])).Value? {
        var b := Next(cap, a, Dele(u, ks[0]));
        DrainRuns(cap, b, u, ks[1..]);
        assert ([Dele(u, ks[0])] + Drops(cap, b, u, ks[1..]))[1..] == Drops(cap, b, u, ks[1..]);
      } else {
        DrainRuns(cap, a, u, ks[1..]);
      }
    }
  }

  /** The logged deletions lead to what the migration leaves. */
  lemma {:induction false} DropsRun(cap: nat, a: Flat, us: seq<string>)
    ensures Run(cap, a, MigrateList(cap, a, us).2) == MigrateList(cap, a, us).0
    decreases |us|
  {
    hide Run, Drain, Drops, Ship, FileNames;
    if us == [] {
      RunNone(cap, a);
    } else {
      var (b, _, drops) := MigrateUser(cap, a, us[0]);
      DrainRuns(cap, a, us[0], FileNames(a, us[0]));
      DropsRun(cap, b, us[1..]);
      RunBoth(cap, a, drops, MigrateList(cap, b, us[1..]).2);
    }
  }

  lemma {:induction false} IdleMore(cap: nat, a: Flat, ops: seq<Op>, more: seq<Op>)
    requires IdleRenames(cap, a, ops) && forall op :: op in more ==> !op.Rename?
    ensures IdleRenames(cap, a, ops + more)
    decreases |ops| + |more|
  {
    hide Next;
    var all := ops + more;
    if ops != [] {
      assert all[1..] == ops[1..] + more && all[0] == ops[0];
      IdleMore(cap, Next(cap, a, ops[0]), ops[1..], more);
    } else if more != [] {
      assert all == more && all[1..] == [] + more[1..] && more[0] in more;
      IdleMore(cap, Next(cap, a, all[0]), [], more[1..]);
    }
  }

  /** A source that crashes after its last deletion recovers as the migration left it: the users it
      gave away do not come back. */
  lemma SourceRecovers(source: Cache, ops: seq<Op>, us: seq<string>, junk: map<nat, string>)
    requires Inv(source) && NamesOk(source) && source.used <= source.capacity
    requires (forall op :: op in ops ==> CleanOp(op)) && IdleRenames(source.capacity, View(source), ops)
    ensures var (left, _, drops) := MigrateList(source.capacity, View(Execute(source, ops)), us);
      var r := Restart(Take(source), source.capacity, source.vm.size, junk);
      r.Some? && View(Replay(r.value, LogOf(ops + drops))) == left
  {
    hide Inv, MigrateList, View, Listed, NamesOk, Take, Restart, Replay, LogOf, IdleRenames, Run, Execute, FlatOk;
    var cap, m := source.capacity, Execute(source, ops);
    var drops := MigrateList(cap, View(m), us).2;
    RunRefines(source, ops);
    InvPeopled(m);
    OnlyListed(cap, View(m), us);
    IdleMore(cap, View(source), ops, drops);
    forall i | 0 <= i < |ops + drops| ensures CleanOp((ops + drops)[i]) {
      assert (ops + drops)[i] in ops || (ops + drops)[i] in drops;
    }
    RunRefines(source, ops + drops);
    CrashRecovery(source, ops + drops, junk);
    RunBoth(cap, View(source), ops, drops);
    DropsRun(cap, View(m), us);
  }
}
