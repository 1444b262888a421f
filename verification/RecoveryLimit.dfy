/** A checkpoint taken while more than `capacity` bytes are resident cannot be restarted from:
    loading it evicts somebody into chunk files that are then replaced. */
module RecoveryLimit {
  import opened KeyOrder
  import opened Text
  import opened RowCodec
  import opened Chunks
  import opened ChunkLayout
  import opened FlatStore
  import opened TieredStore
  import opened Tiering
  import opened Refinement
  import opened MetaCodec
  import opened Recovery

  // ----- extents that lie past the end of every snapshot file

  predicate Beyond(e: Extent, c: nat, o: nat) { e.chunk > c || (e.chunk == c && e.start >= o) }

  ghost predicate AllBeyond(es: seq<Extent>, c: nat, o: nat) {
    forall i :: 0 <= i < |es| ==> Beyond(es[i], c, o)
  }

  lemma BeyondReadsNothing(disk: map<nat, string>, e: Extent, c: nat, o: nat)
    requires Beyond(e, c, o) && o == |FileOf(disk, c)| && forall x :: x in disk ==> x <= c
    ensures ',' !in ReadExtent(disk, e)
  {
    if e.chunk in disk {
      var f := disk[e.chunk];
      assert f[Min(e.start, |f|)..Min(e.start + e.length, |f|)] == "";
      assert ReadExtent(disk, e) == Zeros(e.length);
    }
  }

  lemma {:induction false} BeyondRow(disk: map<nat, string>, es: seq<Extent>, c: nat, o: nat)
    requires AllBeyond(es, c, o) && o == |FileOf(disk, c)| && forall x :: x in disk ==> x <= c
    ensures ',' !in ReadExtents(disk, es)
  {
    hide ReadExtent;
    if es != [] {
      BeyondRow(disk, es[..|es| - 1], c, o);
      BeyondReadsNothing(disk, es[|es| - 1], c, o);
    }
  }

  lemma NoCommaNoFiles(row: string)
    requires ',' !in row
    ensures Decode(row) == map[]
  {
    TokensOfFree(row, ',');
  }

  // ----- writing with any directory contents

  lemma {:induction false} WriteRestOthers(a: Area, user: string, rest: string, x: string)
    requires x != user && x in a.meta
    ensures x in WriteRest(a, user, rest).meta && WriteRest(a, user, rest).meta[x] == a.meta[x]
    decreases |rest|
  {
    if |rest| > a.size { WriteRestOthers(Append(NextChunk(a), user, rest[..a.size]), user, rest[a.size..], x); }
  }

  lemma WriteRowOthers(a: Area, user: string, row: string, x: string)
    requires x != user && x in a.meta
    ensures x in WriteRow(a, user, row).meta && WriteRow(a, user, row).meta[x] == a.meta[x]
  {
    if !Fits(a, row) {
      var left := a.size - a.offset;
      WriteRestOthers(Append(Forget(a, user), user, row[..left]), user, row[left..], x);
    }
  }

  /** The allocator stands at or past the end of the snapshot. */
  predicate Past(a: Area, c: nat, o: nat) {
    a.offset <= a.size && (a.chunk > c || (a.chunk == c && a.offset >= o))
  }

  lemma WriteRowPast(a: Area, user: string, row: string, c: nat, o: nat)
    requires Past(a, c, o)
    ensures Past(WriteRow(a, user, row), c, o)
    ensures AllBeyond(ExtentsOf(WriteRow(a, user, row), user), c, o)
  {
    hide WriteRow;
    var es := Pieces(a.size, a.chunk, a.offset, |row|);
    WriteRowPieces(a, user, row);
    WriteRowSize(a, user, row);
    PiecesShape(a.size, a.chunk, a.offset, |row|);
    hide Pieces;
    forall i | 0 <= i < |es| ensures Beyond(es[i], c, o) {
      if i > 0 { assert es[i].chunk == a.chunk + i; }
    }
    var last := es[|es| - 1];
    assert last.chunk == a.chunk + (|es| - 1);
  }

  lemma {:induction false} WriteRestSize(a: Area, user: string, rest: string)
    ensures WriteRest(a, user, rest).size == a.size
    decreases |rest|
  {
    if |rest| > a.size { WriteRestSize(Append(NextChunk(a), user, rest[..a.size]), user, rest[a.size..]); }
  }

  lemma WriteRowSize(a: Area, user: string, row: string)
    ensures WriteRow(a, user, row).size == a.size
  {
    if !Fits(a, row) {
      var left := a.size - a.offset;
      WriteRestSize(Append(Forget(a, user), user, row[..left]), user, row[left..]);
    }
  }

  // ----- loading, with evictions

  /** Whoever of `who` is on disk lies past the snapshot. */
  ghost predicate Stray(s: Cache, who: map<string, Files>, c: nat, o: nat) {
    && Past(s.vm, c, o)
    && s.tablets.Keys !! s.vm.meta.Keys
    && (forall x :: x in s.vm.meta && x in who ==> AllBeyond(s.vm.meta[x], c, o))
  }

  /** Between `s` and `t` only `u` was written; others kept their files or went to disk. */
  ghost predicate Kept(s: Cache, t: Cache, u: string) {
    && t.capacity == s.capacity
    && s.vm.meta.Keys <= t.vm.meta.Keys
    && (forall x :: x in s.tablets && x != u ==> (x in t.tablets && t.tablets[x] == s.tablets[x]) || x in t.vm.meta)
    && (forall x :: x in t.tablets && x != u ==> x in s.tablets && t.tablets[x] == s.tablets[x])
    && (forall x :: x in t.vm.meta ==> x in s.vm.meta || x in s.tablets || x == u)
  }

  lemma KeptTwice(s: Cache, m: Cache, t: Cache, u: string)
    requires Kept(s, m, u) && Kept(m, t, u)
    ensures Kept(s, t, u)
  {
  }

  lemma EvictStray(s: Cache, who: map<string, Files>, c: nat, o: nat, u: string)
    requires Stray(s, who, c, o) && s.order != [] && s.order[0] in s.tablets
    ensures Stray(Evict(s), who, c, o) && Kept(s, Evict(s), u)
  {
    var w, row := s.order[0], FormatNode(Resident(s, s.order[0]));
    hide WriteRow, FormatNode, SizeOf, AllBeyond;
    WriteRowPast(s.vm, w, row, c, o);
    WriteRowKeys(s.vm, w, row);
    var vm := WriteRow(s.vm, w, row);
    forall x | x in vm.meta && x in who ensures AllBeyond(vm.meta[x], c, o) {
      if x != w { WriteRowOthers(s.vm, w, row, x); }
    }
  }

  lemma {:induction false} EvictUntilStray(s: Cache, need: nat, who: map<string, Files>, c: nat, o: nat, u: string)
    requires Counted(s, 0) && Stray(s, who, c, o)
    ensures Stray(EvictUntil(s, need), who, c, o) && Kept(s, EvictUntil(s, need), u)
    decreases |s.order|
  {
    hide Counted, Stray, Evict;
    if s.used + need > s.capacity && s.order != [] {
      HeadResident(s, 0);
      EvictStray(s, who, c, o, u);
      EvictCounted(s, 0);
      EvictLess(s);
      EvictUntilStray(Evict(s), need, who, c, o, u);
      KeptTwice(s, Evict(s), EvictUntil(s, need), u);
    }
  }

  lemma PlaceStray(s: Cache, who: map<string, Files>, c: nat, o: nat, u: string, f: string, v: string)
    requires Stray(s, who, c, o) && u !in s.vm.meta
    ensures Stray(Place(s, u, f, v), who, c, o) && Kept(s, Place(s, u, f, v), u)
  {
    hide AppendTo, Touch, AllBeyond;
  }

  /** The restoring puts of one user, whatever the directory holds. */
  lemma {:induction false} RestoreStray(s: Cache, u: string, files: Files, ks: seq<string>, base: seq<string>,
                                        who: map<string, Files>, c: nat, o: nat) returns (k: nat)
    requires Calm(s, u, base) && Stray(s, who, c, o) && NoDup(ks) && ks != []
    requires forall f :: f in ks ==> f in files && f !in Resident(s, u)
    requires SizeOf(Joined(Resident(s, u), files, ks)) <= s.capacity
    ensures var t := RestoreUser(s, u, KeyTokens(files, ks));
      && k <= |base| && Calm(t, u, base[k..]) && Stray(t, who, c, o) && Kept(s, t, u)
      && u in t.tablets && t.tablets[u] == Joined(Resident(s, u), files, ks) && t.used <= t.capacity
    decreases |ks|
  {
    hide SizeOf, Calm, Stray, Kept, InternalPut, RestoreUser, KeyTokens, Joined, AppendTo;
    var f, v, part := ks[0], files[ks[0]], Resident(s, u);
    JoinStep(part, files, ks);
    k := PutStray(s, u, f, v, base, who, c, o);
    var t := InternalPut(s, u, f, v);
    RestoreStep(s, u, files, ks);
    if |ks| == 1 {
      JoinNone(AppendTo(part, f, v), files, ks[1..]);
    } else {
      var j := RestoreStray(t, u, files, ks[1..], base[k..], who, c, o);
      KeptTwice(s, t, RestoreUser(t, u, KeyTokens(files, ks[1..])), u);
      assert base[k..][j..] == base[k + j..];
      k := k + j;
    }
  }

  lemma PutStray(s: Cache, u: string, f: string, v: string, base: seq<string>, who: map<string, Files>, c: nat, o: nat)
    returns (k: nat)
    requires Calm(s, u, base) && Stray(s, who, c, o) && SizeOf(Resident(s, u)) + |v| <= s.capacity
    ensures var t := InternalPut(s, u, f, v);
      && k <= |base| && Calm(t, u, base[k..]) && Stray(t, who, c, o) && Kept(s, t, u) && t.used <= t.capacity
      && u in t.tablets && t.tablets[u] == AppendTo(Resident(s, u), f, v) && t.capacity == s.capacity
  {
    assert Counted(s, 0);
    hide SizeOf, Counted, Stray, Kept, AppendTo, EvictUntil, Place;
    k := InternalPutCalm(s, u, f, v, base);
    var i := SpareCalm(s, u, |v|, base);
    EvictUntilStray(s, |v|, who, c, o, u);
    PlaceStray(EvictUntil(s, |v|), who, c, o, u, f, v);
    KeptTwice(s, EvictUntil(s, |v|), Place(EvictUntil(s, |v|), u, f, v), u);
  }

  /** After the users in `done` were loaded: each is complete in memory or strayed to disk. */
  ghost predicate Progress(t: Cache, all: map<string, Files>, done: set<string>, c: nat, o: nat) {
    && Counted(t, 0) && Stray(t, all, c, o)
    && (forall x :: x in t.tablets ==> x in done && x in all && t.tablets[x] == all[x])
    && (forall x :: x in done ==> x in t.tablets || x in t.vm.meta)
    && (forall x :: x in all && x !in done ==> x !in t.vm.meta)
  }

  lemma LoadOneStray(s: Cache, all: map<string, Files>, u: string, done: set<string>, c: nat, o: nat)
    requires Progress(s, all, done, c, o) && u in all && u !in done
    requires GoodFiles(all[u]) && SizeOf(all[u]) <= s.capacity
    ensures var t := RestoreUser(s, u, Tokens(FormatNode(all[u]), ','));
      Progress(t, all, done + {u}, c, o) && t.used <= t.capacity && t.capacity == s.capacity
  {
    hide Counted, Stray, SizeOf, RestoreUser, FormatNode, Tokens, KeyTokens, SortedKeys, Joined, CommaFree;
    NotListed(s, u);
    RestoreRow(s, u, all[u]);
    SortedKeysNoDup(all[u].Keys);
    JoinAll(all[u]);
    assert Resident(s, u) == map[];
    var ks := SortedKeys(all[u].Keys);
    var k := RestoreStray(s, u, all[u], ks, s.order, all, c, o);
    StrayApart(RestoreUser(s, u, KeyTokens(all[u], ks)), all, c, o);
  }

  lemma StrayApart(t: Cache, who: map<string, Files>, c: nat, o: nat)
    requires Stray(t, who, c, o)
    ensures t.tablets.Keys !! t.vm.meta.Keys
  {
  }

  lemma {:induction false} LoadUsersStray(s: Cache, cp: Area, all: map<string, Files>, us: seq<string>,
                                          done: set<string>, c: nat, o: nat)
    requires Progress(s, all, done, c, o) && NoDup(us) && Holds(cp, all, us)
    requires forall u :: u in us ==> u !in done && SizeOf(all[u]) <= s.capacity
    ensures var t := LoadUsers(s, cp, us);
      && Progress(t, all, done + (set u | u in us), c, o) && t.capacity == s.capacity
      && (us != [] ==> t.used <= t.capacity)
    decreases |us|
  {
    hide Progress, SizeOf, RestoreUser, FormatNode, Tokens, GoodFiles, ReadRow;
    if us == [] {
      assert done + (set u | u in us) == done;
    } else {
      var u := us[0];
      assert u in us;
      LoadOneStray(s, all, u, done, c, o);
      forall x | x in us[1..] ensures x !in done + {u} && x in us { assert x != u; }
      LoadUsersStray(RestoreUser(s, u, Tokens(ReadRow(cp, u), ',')), cp, all, us[1..], done + {u}, c, o);
      assert us == [u] + us[1..];
      assert done + {u} + (set x | x in us[1..]) == done + (set x | x in us);
    }
  }

  lemma StartProgress(s: Cache, junk: map<nat, string>)
    requires Sound(s, 0)
    ensures var start := Cache(s.capacity, 0, [], map[], s.userSize, s.vm.(disk := junk));
      Progress(start, s.tablets, {}, s.vm.chunk, s.vm.offset)
  {
    assert Sizes(map[]) == map[];
  }

  /** Somebody strays: all residents together do not fit. */
  lemma SomeoneStrays(t: Cache, all: map<string, Files>, c: nat, o: nat)
    requires Progress(t, all, all.Keys, c, o) && t.used <= t.capacity < Sum(Sizes(all))
    ensures exists w :: w in all && w in t.vm.meta && w !in t.tablets
  {
    hide SizeOf, Sizes;
    assert (forall x :: x in all ==> x in t.tablets) ==> t.tablets == all;
  }

  /** A stray user's files cannot be read from the snapshot. */
  lemma StrayLost(t: Cache, all: map<string, Files>, snapshot: map<nat, string>, w: string, c: nat, o: nat)
    requires Stray(t, all, c, o) && w in all && w in t.vm.meta
    requires o == |FileOf(snapshot, c)| && forall x :: x in snapshot ==> x <= c
    ensures var r := t.(vm := t.vm.(disk := snapshot)); w in FlatFiles(r) && FlatFiles(r)[w] == map[]
  {
    assert w !in t.tablets;
    hide ReadExtents, Decode;
    BeyondRow(snapshot, t.vm.meta[w], c, o);
    NoCommaNoFiles(ReadExtents(snapshot, t.vm.meta[w]));
  }

  lemma LoadedProgress(s: Cache, junk: map<nat, string>)
    requires Inv(s) && s.used > s.capacity
    ensures var start := Cache(s.capacity, 0, [], map[], s.userSize, s.vm.(disk := junk));
      var t := LoadUsers(start, CpArea(s), SortedKeys(s.tablets.Keys));
      Progress(t, s.tablets, s.tablets.Keys, s.vm.chunk, s.vm.offset) && t.used <= t.capacity == s.capacity
  {
    hide Inv, SizeOf, Sizes, CpArea, LoadUsers, GoodFiles, Progress, SortedKeys, Holds, NoDup, FormatNode, ReadRow;
    var start := Cache(s.capacity, 0, [], map[], s.userSize, s.vm.(disk := junk));
    var us := SortedKeys(s.tablets.Keys);
    LoadReady(s, junk);
    LoadUsersStray(start, CpArea(s), s.tablets, us, {}, s.vm.chunk, s.vm.offset);
    assert {} + (set u | u in us) == s.tablets.Keys;
  }

  lemma LoadReady(s: Cache, junk: map<nat, string>)
    requires Inv(s) && s.used > s.capacity
    ensures var start := Cache(s.capacity, 0, [], map[], s.userSize, s.vm.(disk := junk));
      var us := SortedKeys(s.tablets.Keys);
      && Progress(start, s.tablets, {}, s.vm.chunk, s.vm.offset)
      && Holds(CpArea(s), s.tablets, us) && NoDup(us) && us != []
      && (forall u :: u in s.tablets ==> SizeOf(s.tablets[u]) <= s.capacity)
  {
    assert Sound(s, 0);
    ResidentsFit(s);
    hide Inv, Sound, SizeOf, Sizes, CpArea, GoodFiles, Progress, SortedKeys, Holds, NoDup, FormatNode, ReadRow;
    CpReady(s);
    StartProgress(s, junk);
    SomeoneIsThere(s, SortedKeys(s.tablets.Keys));
  }

  lemma CpReady(s: Cache)
    requires Sound(s, 0)
    ensures Holds(CpArea(s), s.tablets, SortedKeys(s.tablets.Keys)) && NoDup(SortedKeys(s.tablets.Keys))
  {
    SoundParts(s);
    CpHolds(s);
    SortedKeysNoDup(s.tablets.Keys);
  }

  lemma Overfull(s: Cache, junk: map<nat, string>) returns (w: string)
    requires Inv(s) && s.used > s.capacity
    ensures var start := Cache(s.capacity, 0, [], map[], s.userSize, s.vm.(disk := junk));
      var t := LoadUsers(start, CpArea(s), SortedKeys(s.tablets.Keys));
      w in s.tablets && w in t.vm.meta && Stray(t, s.tablets, s.vm.chunk, s.vm.offset)
  {
    assert Sound(s, 0);
    hide Inv, Sound, Sizes, CpArea, LoadUsers, Progress, SortedKeys, Stray;
    var start := Cache(s.capacity, 0, [], map[], s.userSize, s.vm.(disk := junk));
    var t := LoadUsers(start, CpArea(s), SortedKeys(s.tablets.Keys));
    LoadedProgress(s, junk);
    SoundParts(s);
    SomeoneStrays(t, s.tablets, s.vm.chunk, s.vm.offset);
    w :| w in s.tablets && w in t.vm.meta && w !in t.tablets;
    ProgressStray(t, s.tablets, s.vm.chunk, s.vm.offset);
  }

  lemma OverfullLost(s: Cache, junk: map<nat, string>)
    requires Inv(s) && NamesOk(s) && s.used > s.capacity
    ensures var r := Restart(Take(s), s.capacity, s.vm.size, junk); r.Some? && View(r.value).files != FlatFiles(s)
  {
    assert Sound(s, 0);
    hide Inv, Sound, CpArea, LoadUsers, SortedKeys, Take, ReadMeta, FlatFiles, NamesOk, Stray;
    ReadMetaOk(s, junk);
    CpSize(s);
    TakeDisk(s);
    SnapshotEnds(s);
    var w := Overfull(s, junk);
    var start := Cache(s.capacity, 0, [], map[], s.userSize, s.vm.(disk := junk));
    var t := LoadUsers(start, CpArea(s), SortedKeys(s.tablets.Keys));
    StrayLost(t, s.tablets, s.vm.disk, w, s.vm.chunk, s.vm.offset);
    ResidentSome(s, w);
  }

  lemma SomeoneIsThere(s: Cache, us: seq<string>)
    requires Sound(s, 0) && s.used > s.capacity && forall u :: u in us <==> u in s.tablets
    ensures us != []
  {
    assert us == [] ==> s.tablets == map[];
    assert Sizes(map[]) == map[];
  }

  lemma ProgressStray(t: Cache, all: map<string, Files>, c: nat, o: nat)
    requires Progress(t, all, all.Keys, c, o)
    ensures Stray(t, all, c, o)
  {
  }

  lemma ResidentsFit(s: Cache)
    requires Inv(s)
    ensures forall u :: u in s.tablets ==> SizeOf(s.tablets[u]) <= s.capacity
  {
    hide Sound, FlatOk, SizeOf;
    forall u | u in s.tablets ensures SizeOf(s.tablets[u]) <= s.capacity {
      UserFits(s, u);
    }
  }

  lemma ResidentSome(s: Cache, w: string)
    requires Inv(s) && w in s.tablets
    ensures w in FlatFiles(s) && FlatFiles(s)[w] != map[]
  {
    UserSome(s, w);
  }

  lemma SnapshotEnds(s: Cache)
    requires Sound(s, 0)
    ensures s.vm.offset == |FileOf(s.vm.disk, s.vm.chunk)| && forall x :: x in s.vm.disk ==> x <= s.vm.chunk
  {
  }

  // ----- a restart brings in names the files can hold, and no others

  ghost predicate Tidy(s: Cache) {
    && (forall u :: u in s.order ==> CleanName(u))
    && (forall u :: u in s.tablets ==> CleanName(u))
    && (forall u :: u in s.vm.meta ==> CleanName(u))
  }

  lemma {:induction false} EvictUntilTidy(s: Cache, need: nat)
    requires Tidy(s)
    ensures Tidy(EvictUntil(s, need))
    decreases |s.order|
  {
    if s.used + need > s.capacity && s.order != [] {
      EvictTidy(s);
      hide Evict, Tidy;
      EvictShorter(s);
      EvictUntilTidy(Evict(s), need);
    }
  }

  lemma EvictShorter(s: Cache)
    requires s.order != []
    ensures |Evict(s).order| < |s.order|
  {
  }

  lemma EvictTidy(s: Cache)
    requires Tidy(s) && s.order != []
    ensures Tidy(Evict(s))
  {
    hide CleanName, WriteRow, FormatNode, SizeOf;
    WriteRowKeys(s.vm, s.order[0], FormatNode(Resident(s, s.order[0])));
    var t := Evict(s);
    forall u | u in t.order ensures CleanName(u) { assert u in s.order; }
    forall u | u in t.vm.meta ensures CleanName(u) { assert u in t.vm.meta.Keys; }
  }

  lemma PlaceTidy(s: Cache, u: string, f: string, v: string)
    requires Tidy(s) && CleanName(u)
    ensures Tidy(Place(s, u, f, v))
  {
    hide CleanName, AppendTo;
    WithoutIn(s.order, u);
  }

  lemma {:induction false} WithoutIn(order: seq<string>, u: string)
    ensures forall x :: x in Without(order, u) ==> x in order
  {
    if order != [] { WithoutIn(order[1..], u); }
  }

  lemma {:induction false} RestoreUserTidy(s: Cache, u: string, toks: seq<string>)
    requires Tidy(s) && CleanName(u)
    ensures Tidy(RestoreUser(s, u, toks))
    decreases |toks|
  {
    hide Tidy, CleanName, EvictUntil, Place;
    if |toks| >= 2 {
      EvictUntilTidy(s, |toks[1]|);
      PlaceTidy(EvictUntil(s, |toks[1]|), u, toks[0], toks[1]);
      RestoreUserTidy(InternalPut(s, u, toks[0], toks[1]), u, toks[2..]);
    }
  }

  lemma {:induction false} LoadUsersTidy(s: Cache, cp: Area, us: seq<string>)
    requires Tidy(s) && forall u :: u in us ==> CleanName(u)
    ensures Tidy(LoadUsers(s, cp, us)) && LoadUsers(s, cp, us).userSize == s.userSize
    decreases |us|
  {
    hide Tidy, CleanName, RestoreUser, Tokens, ReadRow;
    if us != [] {
      var toks := Tokens(ReadRow(cp, us[0]), ',');
      assert us[0] in us;
      RestoreUserTidy(s, us[0], toks);
      RestoreUserKeeps(s, us[0], toks);
      LoadUsersTidy(RestoreUser(s, us[0], toks), cp, us[1..]);
    }
  }

  /** Whatever the files contain, a restarted node has only names they can hold. */
  lemma RestartTidy(ck: Checkpoint, capacity: nat, size: Positive, junk: map<nat, string>)
    ensures var r := Restart(ck, capacity, size, junk); r.Some? ==> Tidy(r.value) && SizeNamesOk(r.value)
  {
    LoadClean(ck.cpMeta);
    LoadClean(ck.vmMeta);
    LoadSizesClean(ck.sizes);
    hide Load, LoadInfo, LoadSizes, LoadUsers, SortedKeys, CleanName;
    var l := ReadMeta(ck, capacity, size, junk);
    if l.Some? { LoadUsersTidy(l.value.start, l.value.cp, SortedKeys(l.value.cp.meta.Keys)); }
  }

  ghost predicate SizeNamesOk(s: Cache) { forall u :: u in s.userSize ==> ',' !in u && '\n' !in u }

  lemma SameNames(s: Cache, t: Cache)
    requires View(s) == View(t) && Tidy(t) && SizeNamesOk(t)
    ensures NamesOk(s)
  {
    hide CleanName, FilesOf;
    forall u | u in s.tablets || u in s.vm.meta ensures CleanName(u) {
      assert u in FlatFiles(s);
      assert u in FlatFiles(t);
    }
  }

  /** A checkpoint restarts to the store it was taken from exactly when its names are ones the files
      can hold and the resident bytes, a number the node keeps in `memory_used`, were within
      capacity. */
  lemma RestartExactIff(s: Cache, junk: map<nat, string>)
    requires Inv(s)
    ensures var r := Restart(Take(s), s.capacity, s.vm.size, junk);
      (r.Some? && View(r.value) == View(s)) <==> NamesOk(s) && s.used <= s.capacity
  {
    var r := Restart(Take(s), s.capacity, s.vm.size, junk);
    RestartTidy(Take(s), s.capacity, s.vm.size, junk);
    hide Inv, NamesOk, Take, Restart, FlatFiles, Tidy, SizeNamesOk;
    if !NamesOk(s) {
      if r.Some? && View(r.value) == View(s) { SameNames(s, r.value); }
    } else if s.used <= s.capacity {
      RestartOk(s, junk);
      RecoveredInv(s);
    } else {
      OverfullLost(s, junk);
    }
  }
}
