/** Checkpoint, restart and log replay: what a restarted node holds. */
module Recovery {
  import opened KeyOrder
  import opened Text
  import opened RowCodec
  import opened Chunks
  import opened FlatStore
  import opened TieredStore
  import opened Tiering
  import opened Refinement
  import opened MetaCodec

  /** The files a checkpoint leaves: both chunk directories and the four metadata files. */
  datatype Checkpoint = Checkpoint(cpDisk: map<nat, string>, vmDisk: map<nat, string>,
                                   cpMeta: string, vmMeta: string, info: string, sizes: string)

  /** `to_string` sees a non-negative number in every reachable state. */
  function Nat(n: int): nat { if n < 0 then 0 else n }

  function Nats(m: map<string, int>): SizeRecord { map u | u in m :: Nat(m[u]) }

  function WriteUsers(cp: Area, tablets: map<string, Files>, us: seq<string>): Area
    requires forall u :: u in us ==> u in tablets
    decreases |us|
  {
    if us == [] then cp
    else WriteUsers(WriteRow(cp, us[0], FormatNode(tablets[us[0]])), tablets, us[1..])
  }

  /** The checkpoint area after all resident users were written to it. */
  function CpArea(s: Cache): Area {
    WriteUsers(EmptyArea(s.vm.size), s.tablets, SortedKeys(s.tablets.Keys))
  }

  /** `checkpointing`. */
  function Take(s: Cache): Checkpoint {
    var cp := CpArea(s);
    Checkpoint(cp.disk, s.vm.disk, Print(cp.meta), Print(s.vm.meta),
               PrintInfo(cp.chunk, cp.offset, s.vm.chunk, s.vm.offset, Nat(s.used)), PrintSizes(Nats(s.userSize)))
  }

  function LoadUsers(s: Cache, cp: Area, us: seq<string>): Cache
    decreases |us|
  {
    if us == [] then s
    else LoadUsers(RestoreUser(s, us[0], Tokens(ReadRow(cp, us[0]), ',')), cp, us[1..])
  }

  /** What the metadata files hold, or nothing when one does not parse. */
  datatype Loaded = Loaded(cp: Area, start: Cache)

  function ReadMeta(ck: Checkpoint, capacity: nat, size: Positive, junk: map<nat, string>): Option<Loaded> {
    match (Load(ck.cpMeta), Load(ck.vmMeta), LoadInfo(ck.info), LoadSizes(ck.sizes))
    case (Some(cpMeta), Some(vmMeta), Some(ns), Some(sizes)) =>
      if |ns| != 4 then None
      else Some(Loaded(Area(size, ns[0], ns[1], ck.cpDisk, cpMeta),
                       Cache(capacity, 0, [], map[], sizes, Area(size, ns[2], ns[3], junk, vmMeta))))
    case _ => None
  }

  /** `load_checkpointing` in a process with nothing in memory, on a machine whose virtual
      memory directory holds `junk`: the users are loaded first, then that directory is
      replaced by the checkpoint's copy. */
  function Restart(ck: Checkpoint, capacity: nat, size: Positive, junk: map<nat, string>): Option<Cache> {
    match ReadMeta(ck, capacity, size, junk)
    case None => None
    case Some(l) =>
      var t := LoadUsers(l.start, l.cp, SortedKeys(l.cp.meta.Keys));
      Some(t.(vm := t.vm.(disk := ck.vmDisk)))
  }

  // ----- names

  /** Names a checkpoint can hold: the metadata files use '@', ';', ',' and line ends. */
  ghost predicate NamesOk(s: Cache) {
    && (forall u :: u in s.userSize ==> ',' !in u && '\n' !in u)
    && (forall u :: u in s.tablets ==> CleanName(u))
    && (forall u :: u in s.vm.meta ==> CleanName(u))
  }

  // ----- the checkpoint area

  lemma {:induction false} WriteUsersOk(cp: Area, tablets: map<string, Files>, us: seq<string>)
    requires AreaOk(cp) && NoDup(us) && forall u :: u in us ==> u in tablets && u !in cp.meta
    ensures var a := WriteUsers(cp, tablets, us);
      && AreaOk(a) && a.size == cp.size
      && a.meta.Keys == cp.meta.Keys + (set u | u in us)
      && (forall u :: u in cp.meta ==> ReadRow(a, u) == ReadRow(cp, u))
      && (forall u :: u in us ==> ReadRow(a, u) == FormatNode(tablets[u]))
    decreases |us|
  {
    hide AreaOk, WriteRow, ReadRow, FormatNode;
    if us != [] {
      var row := FormatNode(tablets[us[0]]);
      var next := WriteRow(cp, us[0], row);
      assert us[0] in us;
      WriteRowReads(cp, us[0], row);
      forall u | u in us[1..] ensures u in tablets && u !in next.meta { assert u in us; }
      WriteUsersOk(next, tablets, us[1..]);
      assert us == [us[0]] + us[1..];
      assert (set u | u in us) == {us[0]} + (set u | u in us[1..]);
    }
  }

  lemma EmptyAreaOk(size: Positive)
    ensures AreaOk(EmptyArea(size))
  {
  }

  lemma CpAreaOk(s: Cache)
    ensures AreaOk(CpArea(s)) && CpArea(s).size == s.vm.size && CpArea(s).meta.Keys == s.tablets.Keys
    ensures forall u :: u in s.tablets ==> ReadRow(CpArea(s), u) == FormatNode(s.tablets[u])
  {
    hide AreaOk, ReadRow, FormatNode, WriteUsers;
    var us := SortedKeys(s.tablets.Keys);
    EmptyAreaOk(s.vm.size);
    SortedKeysNoDup(s.tablets.Keys);
    WriteUsersOk(EmptyArea(s.vm.size), s.tablets, us);
    assert (set u | u in us) == s.tablets.Keys;
  }

  /** A row that is not empty has records. */
  lemma RowHasRecords(a: Area, u: string)
    requires u in a.meta && ReadRow(a, u) != ""
    ensures a.meta[u] != []
  {
  }

  lemma RowNotEmpty(files: Files)
    requires files != map[]
    ensures FormatNode(files) != ""
  {
    var ks := SortedKeys(files.Keys);
    assert ks != [] by { var f :| f in files; assert f in ks; }
    FormatEndsInComma(files, ks);
  }

  lemma CpMetaClean(s: Cache)
    requires Sound(s, 0) && NamesOk(s)
    ensures CleanMeta(CpArea(s).meta)
  {
    hide AreaOk, ReadRow, FormatNode, CpArea, GoodRow, Counted;
    CpAreaOk(s);
    var cp := CpArea(s);
    forall u | u in cp.meta ensures CleanName(u) && cp.meta[u] != [] {
      RowNotEmpty(s.tablets[u]);
      RowHasRecords(cp, u);
    }
  }

  lemma VmMetaClean(s: Cache)
    requires Sound(s, 0) && NamesOk(s)
    ensures CleanMeta(s.vm.meta)
  {
    hide AreaOk, ReadRow, FormatNode, Decode, Counted;
    forall u | u in s.vm.meta ensures CleanName(u) && s.vm.meta[u] != [] {
      assert GoodRow(s.vm, u);
      RowNotEmpty(Decode(ReadRow(s.vm, u)));
      RowHasRecords(s.vm, u);
    }
  }

  lemma SizesNat(s: Cache)
    requires Inv(s)
    ensures forall u :: u in s.userSize ==> s.userSize[u] >= 0
    ensures Nats(s.userSize) == s.userSize
  {
    hide Sound, FlatFiles, FlatOk;
    forall u | u in s.userSize ensures s.userSize[u] >= 0 {
      UserBound(s, u);
    }
  }

  lemma MetaTexts(s: Cache)
    requires Sound(s, 0) && NamesOk(s)
    ensures Load(Take(s).cpMeta) == Some(CpArea(s).meta) && Load(Take(s).vmMeta) == Some(s.vm.meta)
  {
    hide Sound, NamesOk, CpArea, Print, Load, PrintInfo, PrintSizes, CleanMeta;
    CpMetaClean(s);
    VmMetaClean(s);
    MetaRoundTripIff(CpArea(s).meta);
    MetaRoundTripIff(s.vm.meta);
  }

  lemma NumberTexts(s: Cache)
    requires Inv(s) && NamesOk(s)
    ensures LoadSizes(Take(s).sizes) == Some(s.userSize)
    ensures LoadInfo(Take(s).info) == Some([CpArea(s).chunk, CpArea(s).offset, s.vm.chunk, s.vm.offset])
  {
    hide Inv, CpArea, Print, PrintInfo, LoadInfo, PrintSizes, LoadSizes;
    SizesNat(s);
    assert CleanSizes(Nats(s.userSize));
    hide NamesOk, CleanSizes;
    SizesRoundTripIff(Nats(s.userSize));
    InfoRoundTrip(CpArea(s).chunk, CpArea(s).offset, s.vm.chunk, s.vm.offset, Nat(s.used));
  }

  /** The metadata files of a checkpoint read back as what was in memory. */
  lemma ReadMetaOk(s: Cache, junk: map<nat, string>)
    requires Inv(s) && NamesOk(s)
    ensures ReadMeta(Take(s), s.capacity, s.vm.size, junk)
         == Some(Loaded(CpArea(s), Cache(s.capacity, 0, [], map[], s.userSize, s.vm.(disk := junk))))
  {
    assert Sound(s, 0);
    hide Inv, Sound, NamesOk, CpArea, Load, LoadInfo, LoadSizes;
    MetaTexts(s);
    NumberTexts(s);
    CpSize(s);
    TakeDisk(s);
    hide Take;
  }

  lemma CpSize(s: Cache)
    ensures CpArea(s).size == s.vm.size && CpArea(s).meta.Keys == s.tablets.Keys
  {
    CpAreaOk(s);
  }

  // ----- loading without evictions

  /** When everything fits, restoring a user only adds it. */
  lemma {:induction false} RestorePlain(s: Cache, u: string, files: Files, ks: seq<string>, base: seq<string>)
    requires NoDup(ks) && (forall f :: f in ks ==> f in files && f !in Resident(s, u))
    requires AtTail(s, u, base) && 0 <= s.used
    requires s.used + SizeOf(Joined(Resident(s, u), files, ks)) - SizeOf(Resident(s, u)) <= s.capacity
    ensures RestoreUser(s, u, KeyTokens(files, ks))
         == if ks == [] then s
            else s.(tablets := s.tablets[u := Joined(Resident(s, u), files, ks)], order := base + [u],
                    used := s.used + SizeOf(Joined(Resident(s, u), files, ks)) - SizeOf(Resident(s, u)))
    decreases |ks|
  {
    hide SizeOf, RestoreUser, KeyTokens, Joined, AppendTo, EvictUntil, Touch;
    if ks == [] {
      RestoreNone(s, u);
      NoneToRestore(files);
    } else {
      var part, f, v := Resident(s, u), ks[0], files[ks[0]];
      var next := AppendTo(part, f, v);
      JoinStep(part, files, ks);
      SizeOfUpdate(part, f, ValueOf(part, f) + v);
      PlacePlain(s, u, f, v, base);
      var t := InternalPut(s, u, f, v);
      RestoreStep(s, u, files, ks);
      if |ks| == 1 {
        JoinNone(next, files, ks[1..]);
      } else {
        RestorePlain(t, u, files, ks[1..], base);
        assert s.tablets[u := next][u := Joined(next, files, ks[1..])] == s.tablets[u := Joined(next, files, ks[1..])];
      }
    }
  }

  lemma NoneToRestore(files: Files)
    ensures KeyTokens(files, []) == []
  {
  }

  lemma PlacePlain(s: Cache, u: string, f: string, v: string, base: seq<string>)
    requires AtTail(s, u, base) && 0 <= s.used && s.used + |v| <= s.capacity
    ensures var t := InternalPut(s, u, f, v); var next := AppendTo(Resident(s, u), f, v);
      && t == s.(tablets := s.tablets[u := next], order := base + [u], used := s.used + |v|)
      && AtTail(t, u, base) && Resident(t, u) == next
      && SizeOf(next) == SizeOf(Resident(s, u)) + |v|
  {
    hide SizeOf, Without;
    SizeOfUpdate(Resident(s, u), f, ValueOf(Resident(s, u), f) + v);
    TouchTail(base, u);
    FitsNow(s, |v|);
  }

  function Pick(all: map<string, Files>, us: seq<string>): map<string, Files>
    requires forall u :: u in us ==> u in all
  {
    map u | u in us :: all[u]
  }

  /** The checkpoint area holds the rows of `us`. */
  ghost predicate Holds(cp: Area, all: map<string, Files>, us: seq<string>) {
    forall u :: u in us ==> u in all && GoodFiles(all[u]) && ReadRow(cp, u) == FormatNode(all[u])
  }

  lemma RestoreRow(s: Cache, u: string, files: Files)
    requires GoodFiles(files)
    ensures (forall f :: f in SortedKeys(files.Keys) ==> f in files)
         && RestoreUser(s, u, Tokens(FormatNode(files), ','))
              == RestoreUser(s, u, KeyTokens(files, SortedKeys(files.Keys)))
  {
    hide RestoreUser, SortedKeys;
    TokensOfFormat(files, SortedKeys(files.Keys));
  }

  lemma TotalPart(s: Cache, all: map<string, Files>, u: string)
    requires Counted(s, 0) && u !in s.tablets && u in all
    requires forall x :: x in s.tablets ==> x in all && all[x] == s.tablets[x]
    ensures s.used >= 0 && s.used + SizeOf(all[u]) == Sum(Sizes(s.tablets[u := all[u]])) <= Sum(Sizes(all))
  {
    hide SizeOf, ListOk;
    SumUpdate(Sizes(s.tablets), u, SizeOf(all[u]));
    assert Sizes(s.tablets[u := all[u]]) == Sizes(s.tablets)[u := SizeOf(all[u])];
    SumMonotone(Sizes(s.tablets[u := all[u]]), Sizes(all));
  }

  /** One user of the checkpoint, when everything fits. */
  lemma LoadOne(s: Cache, all: map<string, Files>, u: string)
    requires Counted(s, 0) && u !in s.tablets && u in all && GoodFiles(all[u])
    requires forall x :: x in s.tablets ==> x in all && all[x] == s.tablets[x]
    requires Sum(Sizes(all)) <= s.capacity
    ensures var t := RestoreUser(s, u, Tokens(FormatNode(all[u]), ','));
      && t == s.(tablets := s.tablets[u := all[u]], order := s.order + [u], used := s.used + SizeOf(all[u]))
      && Counted(t, 0)
  {
    hide Counted, SizeOf, Sizes, RestoreUser, FormatNode, Tokens, KeyTokens, SortedKeys, Joined, CommaFree;
    TotalPart(s, all, u);
    NotListed(s, u);
    var files := all[u];
    RestoreRow(s, u, files);
    SortedKeysNoDup(files.Keys);
    JoinAll(files);
    SizeOfNone();
    assert Resident(s, u) == map[];
    RestorePlain(s, u, files, SortedKeys(files.Keys), s.order);
    AddCounted(s, u, files);
  }

  lemma NotListed(s: Cache, u: string)
    requires Counted(s, 0) && u !in s.tablets
    ensures u !in s.order
  {
  }

  lemma AddCounted(s: Cache, u: string, files: Files)
    requires Counted(s, 0) && u !in s.tablets
    ensures Counted(s.(tablets := s.tablets[u := files], order := s.order + [u], used := s.used + SizeOf(files)), 0)
  {
    hide Counted, SizeOf, Sizes;
    NotListed(s, u);
    TouchTail(s.order, u);
    SizeOfNone();
    SetFilesCounted(s, u, files, SizeOf(files), 0);
  }

  lemma PickStep(had: map<string, Files>, all: map<string, Files>, us: seq<string>)
    requires forall u :: u in us ==> u in all
    ensures us == [] ==> had + Pick(all, us) == had
    ensures us != [] ==> had[us[0] := all[us[0]]] + Pick(all, us[1..]) == had + Pick(all, us)
  {
    if us != [] { assert us == [us[0]] + us[1..]; }
  }

  lemma {:induction false} LoadUsersPlain(s: Cache, cp: Area, all: map<string, Files>, us: seq<string>)
    requires Counted(s, 0) && NoDup(us) && Holds(cp, all, us)
    requires forall u :: u in us ==> u !in s.tablets
    requires forall x :: x in s.tablets ==> x in all && all[x] == s.tablets[x]
    requires Sum(Sizes(all)) <= s.capacity
    ensures var t := LoadUsers(s, cp, us);
      && Counted(t, 0)
      && t == s.(tablets := s.tablets + Pick(all, us), order := s.order + us, used := t.used)
    decreases |us|
  {
    hide Counted, Sizes, SizeOf, RestoreUser, FormatNode, Tokens, GoodFiles, ReadRow, Pick;
    PickStep(s.tablets, all, us);
    if us != [] {
      var u := us[0];
      assert u in us;
      LoadOne(s, all, u);
      var t := RestoreUser(s, u, Tokens(ReadRow(cp, u), ','));
      forall x | x in us[1..] ensures x !in t.tablets && x in us { assert x != u; }
      LoadUsersPlain(t, cp, all, us[1..]);
      assert s.order + [u] + us[1..] == s.order + us;
    } else {
      assert s.order + us == s.order;
    }
  }

  /** What a restart makes of a state: the same tiers, the residents in name order. */
  function Recovered(s: Cache): Cache { s.(order := SortedKeys(s.tablets.Keys)) }

  lemma SoundParts(s: Cache)
    requires Sound(s, 0)
    ensures s.used == Sum(Sizes(s.tablets)) && (forall u :: u in s.tablets ==> GoodFiles(s.tablets[u]))
  {
  }

  lemma CpHolds(s: Cache)
    requires forall u :: u in s.tablets ==> GoodFiles(s.tablets[u])
    ensures Holds(CpArea(s), s.tablets, SortedKeys(s.tablets.Keys))
  {
    hide GoodFiles, FormatNode, ReadRow, CpArea;
    CpAreaOk(s);
  }

  lemma StartCounted(s: Cache)
    requires s.order == [] && s.tablets == map[] && s.used == 0
    ensures Counted(s, 0)
  {
    assert Sizes(map[]) == map[];
  }

  lemma CountedUsed(s: Cache)
    requires Counted(s, 0)
    ensures s.used == Sum(Sizes(s.tablets))
  {
  }

  lemma PickAll(all: map<string, Files>)
    ensures map[] + Pick(all, SortedKeys(all.Keys)) == all
  {
  }

  lemma LoadedState(s: Cache, junk: map<nat, string>)
    requires Sound(s, 0) && s.used <= s.capacity
    ensures var start := Cache(s.capacity, 0, [], map[], s.userSize, s.vm.(disk := junk));
      LoadUsers(start, CpArea(s), SortedKeys(s.tablets.Keys)) == Recovered(s).(vm := s.vm.(disk := junk))
  {
    hide Sound, Sizes, SizeOf, FormatNode, ReadRow, CpArea, LoadUsers, GoodFiles, AreaOk, Counted, SortedKeys, Pick;
    SoundParts(s);
    var start := Cache(s.capacity, 0, [], map[], s.userSize, s.vm.(disk := junk));
    var us := SortedKeys(s.tablets.Keys);
    CpHolds(s);
    SortedKeysNoDup(s.tablets.Keys);
    StartCounted(start);
    LoadUsersPlain(start, CpArea(s), s.tablets, us);
    PickAll(s.tablets);
    assert [] + us == us;
    var t := LoadUsers(start, CpArea(s), us);
    CountedUsed(t);
    assert t == Recovered(s).(vm := s.vm.(disk := junk));
  }

  /** A node restarted from a checkpoint taken with the resident bytes within capacity holds
      what it held: both tiers, the sizes and the allocator; only the recency order is gone.
      What lay in the virtual memory directory at the crash does not matter. */
  lemma RestartOk(s: Cache, junk: map<nat, string>)
    requires Inv(s) && NamesOk(s) && s.used <= s.capacity
    ensures Restart(Take(s), s.capacity, s.vm.size, junk) == Some(Recovered(s))
  {
    hide Sound, FlatOk, Take, ReadMeta, LoadUsers, CpArea, NamesOk;
    ReadMetaOk(s, junk);
    CpAreaOk(s);
    LoadedState(s, junk);
    TakeDisk(s);
  }

  /** What `chunk_info` says: where both allocators stand, and `memory_used`, which nobody reads. */
  lemma InfoOf(s: Cache)
    requires s.used >= 0
    ensures LoadInfo(Take(s).info) == Some([CpArea(s).chunk, CpArea(s).offset, s.vm.chunk, s.vm.offset])
    ensures Remainder(Take(s).info, ',') == ToDec(s.used)
  {
    hide CpArea, ToDec, Tokens, Remainder, Terminated, LoadInfo;
    var cp := CpArea(s);
    InfoRoundTrip(cp.chunk, cp.offset, s.vm.chunk, s.vm.offset, s.used);
    var toks := [ToDec(cp.chunk), ToDec(cp.offset), ToDec(s.vm.chunk), ToDec(s.vm.offset)];
    DecFree(cp.chunk, ',');
    DecFree(cp.offset, ',');
    DecFree(s.vm.chunk, ',');
    DecFree(s.vm.offset, ',');
    DecFree(s.used, ',');
    assert AllFree(toks, ',');
    TokensRoundTrip(toks, ',', ToDec(s.used));
    TokensOfFree(ToDec(s.used), ',');
  }

  lemma TakeDisk(s: Cache)
    ensures Take(s).vmDisk == s.vm.disk && Take(s).cpDisk == CpArea(s).disk
  {
  }

  lemma RecoveredInv(s: Cache)
    requires Inv(s)
    ensures Inv(Recovered(s)) && View(Recovered(s)) == View(s)
  {
    SortedKeysNoDup(s.tablets.Keys);
    hide FlatOk, AreaOk, GoodRow, GoodFiles, Sizes;
    assert FlatFiles(Recovered(s)) == FlatFiles(s);
  }

  // ----- the log

  /** The arms of `replay_log`: `rename` has none. */
  predicate Replayed(op: Op) { op.Put? || op.Cput? || op.Dele? }

  /** The requests a live node writes to its log: everything but `get`. */
  function LogOf(ops: seq<Op>): seq<Op> {
    if ops == [] then [] else (if ops[0].Get? then [] else [ops[0]]) + LogOf(ops[1..])
  }

  /** Every served request adds itself to the log, unless it is a `get`. */
  lemma {:induction false} LogMore(ops: seq<Op>, op: Op)
    ensures LogOf(ops + [op]) == LogOf(ops) + if op.Get? then [] else [op]
  {
    var one := if op.Get? then [] else [op];
    if ops == [] {
      assert ops + [op] == [op] && [op][1..] == [] && [] + one == one == one + [];
    } else {
      assert (ops + [op])[1..] == ops[1..] + [op] && (ops + [op])[0] == ops[0];
      LogMore(ops[1..], op);
      var first := if ops[0].Get? then [] else [ops[0]];
      assert first + (LogOf(ops[1..]) + one) == first + LogOf(ops[1..]) + one;
    }
  }

  function Replay(s: Cache, log: seq<Op>): Cache
    decreases |log|
  {
    if log == [] then s
    else Replay(if Replayed(log[0]) then TieredStore.Step(s, log[0]).0 else s, log[1..])
  }

  function NoRenames(ops: seq<Op>): seq<Op> {
    if ops == [] then [] else (if ops[0].Rename? then [] else [ops[0]]) + NoRenames(ops[1..])
  }

  /** Replaying the log of any operations is running them without the renames. */
  lemma {:induction false} ReplayIs(t: Cache, ops: seq<Op>)
    requires Inv(t) && forall i :: 0 <= i < |ops| ==> CleanOp(ops[i])
    ensures var again := Replay(t, LogOf(ops));
      Inv(again) && again.capacity == t.capacity && View(again) == Run(t.capacity, View(t), NoRenames(ops))
    decreases |ops|
  {
    hide Inv, View, Next, TieredStore.Step;
    if ops != [] {
      var op, rest := ops[0], ops[1..];
      assert [] + LogOf(rest) == LogOf(rest) && [] + NoRenames(rest) == NoRenames(rest);
      assert ([op] + LogOf(rest))[1..] == LogOf(rest) && ([op] + NoRenames(rest))[1..] == NoRenames(rest);
      if op.Get? {
        GetNext(t.capacity, View(t), op) by { InvFlat(t); }
        ReplayIs(t, rest);
      } else if op.Rename? {
        ReplayIs(t, rest);
      } else {
        StepOk(t, op);
        ReplayIs(TieredStore.Step(t, op).0, rest);
      }
    }
  }

  lemma InvFlat(s: Cache)
    requires Inv(s)
    ensures FlatOk(s.capacity, View(s))
  {
  }

  lemma GetNext(cap: nat, a: Flat, op: Op)
    requires FlatOk(cap, a) && op.Get?
    ensures Next(cap, a, op) == a
  {
    assert UserOk(cap, a, op.user);
    hide SizeOf;
    SettleSame(a, op.user, OutcomeOf(cap, a, op));
  }

  /** What recovery yields, for every log: a checkpoint taken within capacity, any operations, a
      crash, restart and replay give the files and sizes of those operations without the renames. */
  lemma RecoveryYields(s: Cache, ops: seq<Op>, junk: map<nat, string>)
    requires Inv(s) && NamesOk(s) && s.used <= s.capacity
    requires forall i :: 0 <= i < |ops| ==> CleanOp(ops[i])
    ensures var r := Restart(Take(s), s.capacity, s.vm.size, junk);
      && r.Some?
      && View(Replay(r.value, LogOf(ops))) == Run(s.capacity, View(s), NoRenames(ops))
      && Inv(Replay(r.value, LogOf(ops)))
  {
    hide Inv, View, Take, Restart, NamesOk, Recovered;
    RestartOk(s, junk);
    RecoveredInv(s);
    RecoveredCapacity(s);
    ReplayIs(Recovered(s), ops);
  }

  /** A rename that changes nothing: refused, or to the same name. */
  predicate IdleRename(cap: nat, a: Flat, op: Op) { op.Rename? ==> Refused(ReplyOf(cap, a, op)) || op.file == op.to }

  predicate IdleRenames(cap: nat, a: Flat, ops: seq<Op>)
    decreases |ops|
  {
    ops == [] || (IdleRename(cap, a, ops[0]) && IdleRenames(cap, Next(cap, a, ops[0]), ops[1..]))
  }

  lemma {:induction false} RunWithout(cap: nat, a: Flat, ops: seq<Op>)
    requires FlatOk(cap, a) && IdleRenames(cap, a, ops)
    ensures Run(cap, a, NoRenames(ops)) == Run(cap, a, ops)
    decreases |ops|
  {
    hide FlatOk, Next, IdleRename;
    if ops != [] {
      var op, rest := ops[0], NoRenames(ops[1..]);
      assert [] + rest == rest && ([op] + rest)[1..] == rest;
      NextOk(cap, a, op);
      if op.Rename? { RenameChangesIff(cap, a, op); }
      RunWithout(cap, Next(cap, a, op), ops[1..]);
    }
  }

  /** Crash recovery: a checkpoint taken within capacity, any operations among which a rename at
      most changes nothing, a crash; restart and replay rebuild the live node's files and sizes,
      rejected requests included. */
  lemma CrashRecovery(s: Cache, ops: seq<Op>, junk: map<nat, string>)
    requires Inv(s) && NamesOk(s) && s.used <= s.capacity
    requires (forall i :: 0 <= i < |ops| ==> CleanOp(ops[i])) && IdleRenames(s.capacity, View(s), ops)
    ensures var r := Restart(Take(s), s.capacity, s.vm.size, junk);
      && r.Some?
      && View(Replay(r.value, LogOf(ops))) == View(Execute(s, ops))
      && Inv(Replay(r.value, LogOf(ops)))
  {
    hide Inv, View, Take, Restart, NamesOk, IdleRenames;
    RecoveryYields(s, ops, junk);
    InvFlat(s);
    RunWithout(s.capacity, View(s), ops);
    RunRefines(s, ops);
  }

  lemma RecoveredCapacity(s: Cache)
    ensures Recovered(s).capacity == s.capacity
  {
  }

  /** Recovering again from the same files, over whatever the first recovery left in the
      virtual memory directory, gives the same node. */
  lemma RecoveryRepeats(s: Cache, ops: seq<Op>, junk: map<nat, string>)
    requires Inv(s) && NamesOk(s) && s.used <= s.capacity
    ensures var r := Restart(Take(s), s.capacity, s.vm.size, junk);
      && r.Some?
      && Restart(Take(s), s.capacity, s.vm.size, Replay(r.value, LogOf(ops)).vm.disk) == r
  {
    hide Inv, View, Take, Restart, NamesOk, Recovered, Replay;
    RestartOk(s, junk);
    RestartOk(s, Replay(Recovered(s), LogOf(ops)).vm.disk);
  }

  /** After such operations, one more rename is lost by recovery exactly when it was carried out and
      changed the name: `replay_log` has no arm for it. */
  lemma RenameLostIff(s: Cache, ops: seq<Op>, op: Op, junk: map<nat, string>)
    requires Inv(s) && NamesOk(s) && s.used <= s.capacity && op.Rename? && CleanOp(op)
    requires (forall i :: 0 <= i < |ops| ==> CleanOp(ops[i])) && IdleRenames(s.capacity, View(s), ops)
    ensures var r := Restart(Take(s), s.capacity, s.vm.size, junk);
      && r.Some?
      && (View(Replay(r.value, LogOf(ops + [op]))) == View(Execute(s, ops + [op]))
          <==> IdleRename(s.capacity, View(Execute(s, ops)), op))
  {
    hide Inv, View, Take, Restart, NamesOk, IdleRenames, IdleRename, Run, FlatOk;
    RecoveryYields(s, ops + [op], junk);
    RunRefines(s, ops);
    RunRefines(s, ops + [op]);
    InvFlat(s);
    RunWithout(s.capacity, View(s), ops);
    NoRenamesLast(ops, op);
    RunLast(s.capacity, View(s), ops, op);
    RunOk(s.capacity, View(s), ops);
    RenameChangesIff(s.capacity, Run(s.capacity, View(s), ops), op);
  }

  lemma {:induction false} NoRenamesLast(ops: seq<Op>, op: Op)
    requires op.Rename?
    ensures NoRenames(ops + [op]) == NoRenames(ops)
  {
    if ops == [] {
      assert ops + [op] == [op] && [op][1..] == [];
    } else {
      assert (ops + [op])[1..] == ops[1..] + [op];
      NoRenamesLast(ops[1..], op);
    }
  }

  lemma RenameChangesIff(cap: nat, a: Flat, op: Op)
    requires op.Rename? && FlatOk(cap, a)
    ensures Next(cap, a, op) == a <==> IdleRename(cap, a, op)
  {
    assert UserOk(cap, a, op.user);
    hide SizeOf, FlatOk;
    var u, files := op.user, FilesAt(a.files, op.user);
    if op.file in files {
      var moved := (files - {op.file})[op.to := files[op.file]];
      assert Next(cap, a, op).files == a.files[u := moved] by { assert op.to in moved; }
      if op.file == op.to {
        assert moved == files;
        SettleSame(a, u, OutcomeOf(cap, a, op));
      } else {
        assert op.file !in moved;
        assert a.files[u := moved][u] == moved;
      }
    } else {
      SettleSame(a, u, OutcomeOf(cap, a, op));
    }
  }
}
