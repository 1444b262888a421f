/** The storage node around the cache: checkpoint, restart and replay as the source loops. */
module Chunkserver {
  import opened KeyOrder
  import opened Text
  import opened RowCodec
  import opened Chunks
  import opened FlatStore
  import opened TieredStore
  import opened Tiering
  import opened Refinement
  import opened MetaCodec
  import opened Recovery
  import opened RecoveryLimit
  import opened LruCache
  import opened Migration

  class Chunkserver {
    const lru: LRUCache
    /** The files on disk: the last checkpoint and the log since then. */
    var saved: Checkpoint
    var log: seq<Op>

    constructor (lru: LRUCache, saved: Checkpoint, log: seq<Op>)
      ensures this.lru == lru && this.saved == saved && this.log == log
    {
      this.lru, this.saved, this.log := lru, saved, log;
    }

    /** `checkpointing`: residents are written in name order, then the metadata files, then the
        virtual memory directory is copied; the log starts anew. */
    method Checkpointing()
      requires lru.Valid()
      modifies this`saved, this`log, lru`cp
      ensures lru.Valid() && lru.View() == old(lru.View())
      ensures saved == Take(lru.View()) && log == [] && lru.cp == CpArea(lru.View())
    {
      hide Chain, Indexes, OrderOf, CpArea, Print, PrintInfo, PrintSizes;
      WriteResidents();
      var cp := lru.cp;
      var cpMeta := WriteMeta(cp.meta);
      var vmMeta := WriteMeta(lru.vm.meta);
      var sizes := WriteUserSize(Nats(lru.userSize));
      saved := Checkpoint(cp.disk, lru.vm.disk, cpMeta, vmMeta,
                          PrintInfo(cp.chunk, cp.offset, lru.vm.chunk, lru.vm.offset, Nat(lru.memoryUsed)),
                          sizes);
      log := [];
    }

    /** The checkpoint area is emptied; then the loop over `tablets` writes every resident's row. */
    method WriteResidents()
      requires lru.Valid()
      modifies lru`cp
      ensures lru.Valid() && lru.View() == old(lru.View()) && lru.cp == CpArea(lru.View())
    {
      hide Chain, Indexes, OrderOf, WriteRow, FormatNode, SizeOf, WriteUsers, SortedKeys;
      lru.ClearCheckpoint();
      var todo := lru.tablets.Keys;
      ghost var v := lru.View();
      assert v.tablets.Keys == todo;
      ghost var goal := CpArea(v);
      while todo != {}
        invariant todo <= v.tablets.Keys && WriteUsers(lru.cp, v.tablets, SortedKeys(todo)) == goal
        invariant lru.Valid() && lru.View() == v
        decreases |todo|
      {
        var user := Least(todo);
        WriteNext(lru.cp, v.tablets, todo);
        lru.SaveUser(user);
        todo := todo - {user};
      }
      NoneToWrite(lru.cp, v.tablets);
    }

    /** `load_checkpointing` on a fresh process. `s` is the state the checkpoint was taken in. */
    method LoadCheckpointing(junk: map<nat, string>, ghost s: Cache) returns (ok: bool)
      requires lru.Valid() && lru.View() == Fresh(s.capacity, s.vm.size)
      requires Inv(s) && NamesOk(s) && saved == Take(s)
      modifies lru, lru.Nodes()
      ensures lru.Valid() && fresh(lru.Nodes() - old(lru.Nodes()))
      ensures ok && Restart(Take(s), s.capacity, s.vm.size, junk) == Some(lru.View())
    {
      hide Chain, Indexes, OrderOf, Inv, NamesOk, Take, Load, LoadInfo, LoadSizes, LoadUsers, CpArea, Sizes,
           Progress, SortedKeys, FormatNode, ReadRow, Holds;
      ghost var loaded := ReadMeta(saved, s.capacity, s.vm.size, junk);
      ReadMetaOk(s, junk);
      var cpMeta := LoadMeta(saved.cpMeta);
      var vmMeta := LoadMeta(saved.vmMeta);
      var info := LoadInfo(saved.info);
      var sizes := LoadUserSize(saved.sizes);
      if cpMeta.None? || vmMeta.None? || info.None? || |info.value| != 4 || sizes.None? {
        return false;
      }
      var cp := Area(lru.vm.size, info.value[0], info.value[1], saved.cpDisk, cpMeta.value);
      lru.SetStart(sizes.value, Area(lru.vm.size, info.value[2], info.value[3], junk, vmMeta.value), cp);
      assert Some(Loaded(cp, lru.View())) == loaded;
      BeginProgress(s, junk);
      LoadAll(cp, s);
      lru.SetDisk(saved.vmDisk);
      ok := true;
    }

    /** The loop over `cp_meta`. */
    method LoadAll(cp: Area, ghost s: Cache)
      requires lru.Valid() && lru.cp == cp == CpArea(s) && Inv(s)
      requires Progress(lru.View(), s.tablets, {}, s.vm.chunk, s.vm.offset) && lru.capacity == s.capacity
      modifies lru, lru.Nodes()
      ensures lru.Valid() && fresh(lru.Nodes() - old(lru.Nodes()))
      ensures lru.View() == LoadUsers(old(lru.View()), cp, SortedKeys(cp.meta.Keys))
    {
      hide Chain, Indexes, OrderOf, Inv, LoadUsers, CpArea, Progress, SortedKeys, FormatNode, ReadRow, Pending,
           TieredStore.RestoreUser, KeyTokens, CommaFree, SizeOf;
      CpSize(s);
      var todo := cp.meta.Keys;
      ghost var goal := LoadUsers(lru.View(), cp, SortedKeys(todo));
      assert s.tablets.Keys - todo == {};
      while todo != {}
        invariant lru.Valid() && fresh(lru.Nodes() - old(lru.Nodes())) && lru.cp == cp
        invariant todo <= s.tablets.Keys
        invariant LoadUsers(lru.View(), cp, SortedKeys(todo)) == goal
        invariant Progress(lru.View(), s.tablets, s.tablets.Keys - todo, s.vm.chunk, s.vm.offset)
        decreases |todo|
      {
        var user := Least(todo);
        LoadTurn(lru.View(), s, todo);
        lru.LoadUserFromDisk(user, LruCache.Checkpointing, s.tablets[user]);
        todo := todo - {user};
      }
      NoneLeft(lru.View(), cp);
    }

    /** `replay_log`: the arms for `put`, `cput` and `dele`; anything else is reported and
        skipped. */
    method ReplayLog()
      requires lru.Valid() && Inv(lru.View()) && forall i :: 0 <= i < |log| ==> CleanOp(log[i])
      modifies lru, lru.Nodes()
      ensures lru.Valid() && fresh(lru.Nodes() - old(lru.Nodes()))
      ensures lru.View() == Replay(old(lru.View()), log) && Inv(lru.View())
    {
      hide Chain, Indexes, OrderOf, Inv, Replay, TieredStore.Put, TieredStore.Cput, TieredStore.Dele, FlatStore.Next,
           View;
      ghost var s0 := lru.View();
      assert log[0..] == log;
      for i := 0 to |log|
        invariant lru.Valid() && fresh(lru.Nodes() - old(lru.Nodes())) && Inv(lru.View())
        invariant Replay(lru.View(), log[i..]) == Replay(s0, log)
      {
        var op := log[i];
        ReplayTurn(lru.View(), log, i);
        match op
        case Put(u, f, v) => var _ := lru.Put(u, f, v, true);
        case Cput(u, f, o, n) => var _ := lru.Cput(u, f, o, n);
        case Dele(u, f) => var _ := lru.Dele(u, f);
        case _ =>
      }
      assert log[|log|..] == [];
      ReplayEnd(lru.View());
    }

    /** A request from a client: executed, and logged whatever became of it. */
    method Serve(op: Op) returns (reply: Reply)
      requires lru.Valid() && Inv(lru.View()) && CleanOp(op)
      modifies this`log, lru, lru.Nodes()
      ensures lru.Valid() && fresh(lru.Nodes() - old(lru.Nodes())) && Inv(lru.View())
      ensures lru.View() == Execute(old(lru.View()), [op]) && log == old(log) + if op.Get? then [] else [op]
      ensures View(lru.View()) == FlatStore.Next(lru.capacity, old(View(lru.View())), op)
      ensures reply == ReplyOf(lru.capacity, old(View(lru.View())), op)
    {
      hide Chain, Indexes, OrderOf, Inv, View, ReplyOf, FlatStore.Next, TieredStore.Put, TieredStore.Get,
           TieredStore.Cput, TieredStore.Dele, TieredStore.Rename;
      ServeIs(lru.View(), op);
      match op {
        case Put(u, f, v) => reply := lru.Put(u, f, v, true);
        case Get(u, f) => reply := lru.Get(u, f);
        case Cput(u, f, o, n) => reply := lru.Cput(u, f, o, n);
        case Dele(u, f) => reply := lru.Dele(u, f);
        case Rename(u, f, t) => reply := lru.Rename(u, f, t);
      }
      if !op.Get? { log := log + [op]; }
    }

    /** `data_migration`: the user list is read, then the users are moved one after another. */
    method DataMigration(list: string) returns (lines: seq<Op>)
      requires lru.Valid() && Inv(lru.View())
      modifies this`log, lru, lru.Nodes()
      ensures lru.Valid() && fresh(lru.Nodes() - old(lru.Nodes())) && Inv(lru.View())
      ensures var (left, sent, drops) := MigrateList(lru.capacity, old(View(lru.View())), Tokens(list, ','));
        View(lru.View()) == left && lines == sent && log == old(log) + drops
    {
      hide Chain, Indexes, OrderOf, Inv, View, MigrateUser, Tokens;
      var users := ParseUsers(list);
      ghost var goal := MigrateList(lru.capacity, View(lru.View()), users);
      ghost var drops: seq<Op> := [];
      lines := [];
      assert users[0..] == users;
      RestAll(goal);
      for i := 0 to |users|
        invariant lru.Valid() && fresh(lru.Nodes() - old(lru.Nodes())) && Inv(lru.View())
        invariant log == old(log) + drops
        invariant Rest(goal, lines, drops, MigrateList(lru.capacity, View(lru.View()), users[i..]))
      {
        ListTurn(lru.capacity, View(lru.View()), users, i);
        ghost var one := MigrateUser(lru.capacity, View(lru.View()), users[i]);
        var sent := MigrateData(users[i]);
        RestTurn(goal, lines, drops, one, MigrateList(lru.capacity, View(lru.View()), users[i + 1..]));
        lines := lines + sent;
        drops := drops + one.2;
      }
      assert users[|users|..] == [];
    }

    /** `migrate_data`, over a copy of the user's file names and after loading the user: the put
        lines sent to the requester, and the deletions, each of them logged. */
    method MigrateData(user: string) returns (lines: seq<Op>)
      requires lru.Valid() && Inv(lru.View())
      modifies this`log, lru, lru.Nodes()
      ensures lru.Valid() && fresh(lru.Nodes() - old(lru.Nodes())) && Inv(lru.View())
      ensures var (left, sent, drops) := MigrateUser(lru.capacity, old(View(lru.View())), user);
        View(lru.View()) == left && lines == sent && log == old(log) + drops
    {
      hide Chain, Indexes, OrderOf, Inv, View, Ship, Drain, Drops, SortedKeys;
      LoadFirst(user);
      ghost var a := View(lru.View());
      if user !in lru.tablets {
        NothingToMove(lru.capacity, a, user);
        lines := [];
      } else {
        var names := lru.tablets[user].value.Keys;
        lines := ShipFiles(user, names);
        DropFiles(user, names);
      }
    }

    method LoadFirst(user: string)
      requires lru.Valid() && Inv(lru.View())
      modifies lru, lru.Nodes()
      ensures lru.Valid() && fresh(lru.Nodes() - old(lru.Nodes())) && Inv(lru.View())
      ensures View(lru.View()) == old(View(lru.View()))
      ensures if user in lru.tablets then FilesAt(View(lru.View()).files, user) == lru.tablets[user].value
              else user !in View(lru.View()).files
    {
      hide Chain, Indexes, OrderOf, Inv, View, Reload, Sound, SizeOf;
      MayReload(lru.View(), user);
      if user in lru.vm.meta {
        ReloadInv(lru.View(), user);
        lru.ReloadUser(user);
      }
      HereOrNot(lru.View(), user);
    }

    /** The first loop. */
    method ShipFiles(user: string, names: set<string>) returns (lines: seq<Op>)
      requires lru.Valid() && Inv(lru.View())
      modifies lru, lru.Nodes()
      ensures lru.Valid() && fresh(lru.Nodes() - old(lru.Nodes())) && Inv(lru.View())
      ensures View(lru.View()) == old(View(lru.View()))
      ensures lines == Ship(lru.capacity, View(lru.View()), user, SortedKeys(names))
    {
      hide Chain, Indexes, OrderOf, Inv, View, Ship, SortedKeys, TieredStore.Get, ReplyOf, FlatStore.Next;
      ghost var a := View(lru.View());
      ghost var goal := Ship(lru.capacity, a, user, SortedKeys(names));
      var todo := names;
      lines := [];
      while todo != {}
        invariant lru.Valid() && fresh(lru.Nodes() - old(lru.Nodes())) && Inv(lru.View()) && View(lru.View()) == a
        invariant lines + Ship(lru.capacity, a, user, SortedKeys(todo)) == goal
        decreases |todo|
      {
        var filename := Least(todo);
        ShipTurn(lru.View(), user, todo);
        var r := lru.Get(user, filename);
        ghost var later := Ship(lru.capacity, a, user, SortedKeys(todo - {filename}));
        if r.Value? {
          assert lines + ([Put(user, filename, r.value)] + later) == (lines + [Put(user, filename, r.value)]) + later;
          lines := lines + [Put(user, filename, r.value)];
        } else {
          assert [] + later == later;
        }
        todo := todo - {filename};
      }
      ShipEnd(lru.capacity, a, user);
    }

    /** One turn of the second loop. */
    method DropFile(user: string, filename: string) returns (found: bool)
      requires lru.Valid() && Inv(lru.View())
      modifies this`log, lru, lru.Nodes()
      ensures lru.Valid() && fresh(lru.Nodes() - old(lru.Nodes())) && Inv(lru.View())
      ensures found == ReplyOf(lru.capacity, old(View(lru.View())), Get(user, filename)).Value?
      ensures found ==> log == old(log) + [Dele(user, filename)]
      ensures found ==> View(lru.View()) == FlatStore.Next(lru.capacity, old(View(lru.View())), Dele(user, filename))
      ensures !found ==> log == old(log) && View(lru.View()) == old(View(lru.View()))
    {
      hide Chain, Indexes, OrderOf, Inv, View, TieredStore.Get, TieredStore.Dele, ReplyOf, FlatStore.Next;
      StepIs(lru.View(), Get(user, filename));
      var r := lru.Get(user, filename);
      found := r.Value?;
      if found {
        StepIs(lru.View(), Dele(user, filename));
        var _ := lru.Dele(user, filename);
        log := log + [Dele(user, filename)];
      }
    }

    /** The second loop. */
    method DropFiles(user: string, names: set<string>)
      requires lru.Valid() && Inv(lru.View())
      modifies this`log, lru, lru.Nodes()
      ensures lru.Valid() && fresh(lru.Nodes() - old(lru.Nodes())) && Inv(lru.View())
      ensures View(lru.View()) == Drain(lru.capacity, old(View(lru.View())), user, SortedKeys(names))
      ensures log == old(log) + Drops(lru.capacity, old(View(lru.View())), user, SortedKeys(names))
    {
      hide Chain, Indexes, OrderOf, Inv, View, Drain, Drops, SortedKeys, TieredStore.Get, TieredStore.Dele, ReplyOf,
           FlatStore.Next;
      ghost var a := View(lru.View());
      ghost var goal := Drops(lru.capacity, a, user, SortedKeys(names));
      ghost var sent: seq<Op> := [];
      var todo := names;
      while todo != {}
        invariant lru.Valid() && fresh(lru.Nodes() - old(lru.Nodes())) && Inv(lru.View())
        invariant Drain(lru.capacity, View(lru.View()), user, SortedKeys(todo))
               == Drain(lru.capacity, a, user, SortedKeys(names))
        invariant sent + Drops(lru.capacity, View(lru.View()), user, SortedKeys(todo)) == goal && log == old(log) + sent
        decreases |todo|
      {
        var filename := Least(todo);
        DropTurn(lru.capacity, View(lru.View()), user, todo);
        var dropped := DropFile(user, filename);
        if dropped {
          ghost var later := Drops(lru.capacity, View(lru.View()), user, SortedKeys(todo - {filename}));
          assert sent + ([Dele(user, filename)] + later) == (sent + [Dele(user, filename)]) + later;
          sent := sent + [Dele(user, filename)];
        }
        todo := todo - {filename};
      }
      DropEnd(lru.capacity, View(lru.View()), user);
    }
  }

  lemma NoneToWrite(cp: Area, tablets: map<string, Files>)
    ensures WriteUsers(cp, tablets, SortedKeys({})) == cp
  {
  }

  lemma WriteNext(cp: Area, tablets: map<string, Files>, todo: set<string>)
    requires todo != {} && todo <= tablets.Keys
    ensures var u := Least(todo);
      WriteUsers(cp, tablets, SortedKeys(todo))
        == WriteUsers(WriteRow(cp, u, FormatNode(tablets[u])), tablets, SortedKeys(todo - {u}))
  {
    hide WriteRow, FormatNode;
    assert SortedKeys(todo)[1..] == SortedKeys(todo - {Least(todo)});
  }

  lemma BeginProgress(s: Cache, junk: map<nat, string>)
    requires Inv(s)
    ensures var start := Cache(s.capacity, 0, [], map[], s.userSize, s.vm.(disk := junk));
      Progress(start, s.tablets, {}, s.vm.chunk, s.vm.offset)
    ensures CpArea(s).meta.Keys == s.tablets.Keys
  {
    hide Progress, CpArea, FlatOk;
    CpSize(s);
    StartProgress(s, junk);
  }

  lemma LoadTurn(v: Cache, s: Cache, todo: set<string>)
    requires Inv(s) && todo != {} && todo <= s.tablets.Keys && v.capacity == s.capacity
    requires Progress(v, s.tablets, s.tablets.Keys - todo, s.vm.chunk, s.vm.offset)
    ensures var u := Least(todo); var files := s.tablets[u]; var ks := SortedKeys(files.Keys);
      && CommaFree(files) && ReadRow(CpArea(s), u) == FormatNode(files) && Pending(v, u, files, ks)
      && (forall k :: k in ks ==> k in files)
      && (var t := TieredStore.RestoreUser(v, u, KeyTokens(files, ks));
          && Progress(t, s.tablets, s.tablets.Keys - (todo - {u}), s.vm.chunk, s.vm.offset)
          && LoadUsers(v, CpArea(s), SortedKeys(todo)) == LoadUsers(t, CpArea(s), SortedKeys(todo - {u})))
  {
    hide Sound, FlatOk, SizeOf, FormatNode, ReadRow, CpArea, Progress, TieredStore.RestoreUser, KeyTokens, Tokens,
         Pending;
    var u := Least(todo);
    assert GoodFiles(s.tablets[u]) by { SoundParts(s); }
    ResidentsFit(s);
    CpAreaOk(s);
    hide CommaFree;
    RestoreRow(v, u, s.tablets[u]);
    LoadOneStray(v, s.tablets, u, s.tablets.Keys - todo, s.vm.chunk, s.vm.offset);
    assert s.tablets.Keys - todo + {u} == s.tablets.Keys - (todo - {u});
    LoadPends(v, s.tablets, u, s.tablets.Keys - todo, s.vm.chunk, s.vm.offset);
    assert SortedKeys(todo)[1..] == SortedKeys(todo - {u});
  }

  lemma LoadPends(v: Cache, all: map<string, Files>, u: string, done: set<string>, c: nat, o: nat)
    requires Progress(v, all, done, c, o) && u in all && u !in done
    requires GoodFiles(all[u]) && SizeOf(all[u]) <= v.capacity
    ensures Pending(v, u, all[u], SortedKeys(all[u].Keys))
  {
    hide Counted, Stray, SizeOf, CommaFree, SortedKeys, Joined;
    NotListed(v, u);
    SortedKeysNoDup(all[u].Keys);
    JoinAll(all[u]);
    assert Calm(v, u, v.order);
    assert Resident(v, u) == map[];
  }

  lemma NoneLeft(v: Cache, cp: Area)
    ensures LoadUsers(v, cp, SortedKeys({})) == v
  {
  }

  lemma ReplayTurn(s: Cache, log: seq<Op>, i: nat)
    requires i < |log| && Inv(s) && CleanOp(log[i])
    ensures var t := if Replayed(log[i]) then TieredStore.Step(s, log[i]).0 else s;
      Inv(t) && Replay(s, log[i..]) == Replay(t, log[i + 1..])
  {
    hide Inv, TieredStore.Step, View;
    StepOk(s, log[i]);
    assert log[i..][1..] == log[i + 1..];
  }

  lemma ReplayEnd(s: Cache)
    ensures Replay(s, []) == s
  {
  }

  // ----- requests and migration

  lemma ServeIs(s: Cache, op: Op)
    requires Inv(s) && CleanOp(op)
    ensures var (t, r) := TieredStore.Step(s, op);
      && Execute(s, [op]) == t && Inv(t)
      && View(t) == FlatStore.Next(s.capacity, View(s), op) && r == ReplyOf(s.capacity, View(s), op)
  {
    hide Inv, View, TieredStore.Step, FlatStore.Next, ReplyOf;
    StepOk(s, op);
    assert [op][1..] == [];
    assert Execute(TieredStore.Step(s, op).0, []) == TieredStore.Step(s, op).0;
  }

  method ParseUsers(list: string) returns (users: seq<string>)
    ensures users == Tokens(list, ',')
  {
    hide Tokens, IndexOf, Remainder;
    var s := list;
    users := [];
    while IndexOf(s, ',') < |s|
      invariant users + Tokens(s, ',') == Tokens(list, ',')
      decreases |s|
    {
      var pos := IndexOf(s, ',');
      ScanTurn(s, ',');
      assert users + ([s[..pos]] + Tokens(s[pos + 1..], ',')) == (users + [s[..pos]]) + Tokens(s[pos + 1..], ',');
      users := users + [s[..pos]];
      s := s[pos + 1..];
    }
    ScanEnd(s, ',');
  }

  ghost predicate Rest(goal: Migrated, lines: seq<Op>, drops: seq<Op>, rest: Migrated) {
    goal == (rest.0, lines + rest.1, drops + rest.2)
  }

  lemma RestAll(goal: Migrated)
    ensures Rest(goal, [], [], goal)
  {
    assert [] + goal.1 == goal.1 && [] + goal.2 == goal.2;
  }

  lemma ListTurn(cap: nat, a: Flat, us: seq<string>, i: nat)
    requires i < |us|
    ensures var one := MigrateUser(cap, a, us[i]); var rest := MigrateList(cap, one.0, us[i + 1..]);
      MigrateList(cap, a, us[i..]) == (rest.0, one.1 + rest.1, one.2 + rest.2)
  {
    hide MigrateUser;
    assert us[i..][1..] == us[i + 1..];
  }

  lemma RestTurn(goal: Migrated, lines: seq<Op>, drops: seq<Op>, one: Migrated, rest: Migrated)
    requires Rest(goal, lines, drops, (rest.0, one.1 + rest.1, one.2 + rest.2))
    ensures Rest(goal, lines + one.1, drops + one.2, rest)
  {
    assert lines + (one.1 + rest.1) == lines + one.1 + rest.1;
    assert drops + (one.2 + rest.2) == drops + one.2 + rest.2;
  }

  /** Every user is resident, or on disk, or unknown. */
  lemma HereOrNot(s: Cache, u: string)
    ensures u in s.tablets ==> FilesAt(View(s).files, u) == s.tablets[u]
    ensures u !in s.tablets && u !in s.vm.meta ==> u !in View(s).files
  {
  }

  lemma ReloadInv(s: Cache, u: string)
    requires Inv(s) && u in s.vm.meta && Sound(s, 0) && SizeOf(FilesOf(s, u)) <= s.capacity
    ensures Inv(Reload(s, u)) && View(Reload(s, u)) == View(s)
  {
    hide Sound, FlatOk, Reload, SizeOf, FilesOf, FlatFiles, Calm;
    var k := ReloadOk(s, u);
    FlatHas(s, u);
    assert FlatFiles(s)[u := FilesOf(s, u)] == FlatFiles(s);
  }

  lemma NothingToMove(cap: nat, a: Flat, u: string)
    requires u !in a.files
    ensures MigrateUser(cap, a, u) == (a, [], [])
  {
  }

  /** One operation on the cache, seen from outside. */
  lemma StepIs(s: Cache, op: Op)
    requires Inv(s) && CleanOp(op)
    ensures var (t, r) := TieredStore.Step(s, op);
      && Inv(t) && t.capacity == s.capacity
      && View(t) == FlatStore.Next(s.capacity, View(s), op) && r == ReplyOf(s.capacity, View(s), op)
      && (op.Get? ==> View(t) == View(s))
  {
    hide Inv, TieredStore.Step, View;
    StepOk(s, op);
    InvFlat(s);
    if op.Get? { GetNext(s.capacity, View(s), op); }
  }

  lemma ShipTurn(s: Cache, u: string, todo: set<string>)
    requires Inv(s) && todo != {}
    ensures var f := Least(todo); var (t, r) := TieredStore.Get(s, u, f);
      && Inv(t) && View(t) == View(s) && t.capacity == s.capacity
      && Ship(s.capacity, View(s), u, SortedKeys(todo))
           == (if r.Value? then [Put(u, f, r.value)] else []) + Ship(s.capacity, View(s), u, SortedKeys(todo - {f}))
  {
    hide Inv, View, TieredStore.Get, ReplyOf, FlatStore.Next;
    StepIs(s, Get(u, Least(todo)));
    assert SortedKeys(todo)[1..] == SortedKeys(todo - {Least(todo)});
  }

  lemma ShipEnd(cap: nat, a: Flat, u: string)
    ensures Ship(cap, a, u, SortedKeys({})) == []
  {
  }

  lemma DropTurn(cap: nat, a: Flat, u: string, todo: set<string>)
    requires todo != {}
    ensures var f := Least(todo); var ks := SortedKeys(todo - {f});
      var found := ReplyOf(cap, a, Get(u, f)).Value?; var c := if found then FlatStore.Next(cap, a, Dele(u, f)) else a;
      && Drain(cap, a, u, SortedKeys(todo)) == Drain(cap, c, u, ks)
      && Drops(cap, a, u, SortedKeys(todo)) == (if found then [Dele(u, f)] else []) + Drops(cap, c, u, ks)
  {
    hide ReplyOf, FlatStore.Next;
    assert SortedKeys(todo)[1..] == SortedKeys(todo - {Least(todo)});
  }

  lemma DropEnd(cap: nat, a: Flat, u: string)
    ensures Drain(cap, a, u, SortedKeys({})) == a && Drops(cap, a, u, SortedKeys({})) == []
  {
  }
}
