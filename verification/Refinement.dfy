/** The two-tier store refines the flat store, operation by operation and over whole runs. */
module Refinement {
  import opened KeyOrder
  import opened Text
  import opened RowCodec
  import opened Chunks
  import opened FlatStore
  import opened TieredStore
  import opened Tiering

  /** The invariant of every reachable state. */
  ghost predicate Inv(s: Cache) {
    && s.capacity > 0
    && Sound(s, 0)
    && FlatOk(s.capacity, View(s))
    && s.used < 2 * s.capacity
  }

  function Fresh(capacity: nat, chunkSize: Positive): Cache {
    Cache(capacity, 0, [], map[], map[], EmptyArea(chunkSize))
  }

  lemma FreshInv(capacity: nat, chunkSize: Positive)
    requires capacity > 0
    ensures Inv(Fresh(capacity, chunkSize)) && View(Fresh(capacity, chunkSize)) == EMPTY
  {
    var s := Fresh(capacity, chunkSize);
    assert Sizes(s.tablets) == map[];
    assert FlatFiles(s) == map[];
    assert forall u :: UserOk(capacity, View(s), u);
  }

  // ----- reload and access

  lemma ForgetFlat(s: Cache, u: string)
    requires Sound(s, 0) && u in s.vm.meta
    ensures var r := s.(vm := Forget(s.vm, u));
      && Restoring(r, u, s.order) && FlatFiles(r) == FlatFiles(s) - {u}
  {
    ForgetSound(s, u);
    ForgetFiles(s, u);
    hide Sound, FlatFiles;
  }

  lemma ForgetFiles(s: Cache, u: string)
    requires u in s.vm.meta && u !in s.tablets
    ensures FlatFiles(s.(vm := Forget(s.vm, u))) == FlatFiles(s) - {u}
  {
    hide Decode, ReadExtents;
    var r := s.(vm := Forget(s.vm, u));
    assert r.tablets.Keys + r.vm.meta.Keys == s.tablets.Keys + s.vm.meta.Keys - {u};
    assert forall x :: x != u ==> FilesOf(r, x) == FilesOf(s, x);
    hide FilesOf;
  }

  lemma ForgetSound(s: Cache, u: string)
    requires Sound(s, 0) && u in s.vm.meta
    ensures Sound(s.(vm := Forget(s.vm, u)), 0) && u !in s.tablets && u !in s.order
  {
    hide Decode, FormatNode, Sizes;
    var r := s.(vm := Forget(s.vm, u));
    ForgetOk(s.vm, u);
    forall x | x in r.vm.meta ensures ReadRow(r.vm, x) == ReadRow(s.vm, x) && GoodRow(r.vm, x) {
      assert GoodRow(s.vm, x);
    }
  }

  lemma RowTokens(s: Cache, u: string)
    requires Sound(s, 0) && u in s.vm.meta
    ensures var files := Decode(ReadRow(s.vm, u));
      && u !in s.tablets && GoodFiles(files)
      && Tokens(ReadRow(s.vm, u), ',') == KeyTokens(files, SortedKeys(files.Keys))
  {
    hide Sizes, ListOk, AreaOk, ReadRow, Decode;
    assert GoodRow(s.vm, u);
    var files := Decode(ReadRow(s.vm, u));
    TokensOfFormat(files, SortedKeys(files.Keys));
  }

  lemma MapBack<T>(m: map<string, T>, u: string)
    requires u in m
    ensures (m - {u})[u := m[u]] == m && m[u := m[u]] == m
  {
  }

  lemma RestoredFromForgotten(s: Cache, t: Cache, u: string, k: nat)
    requires Sound(s, 0) && u in s.vm.meta && u !in s.tablets
    requires Restored(s.(vm := Forget(s.vm, u)), t, u, s.order, k, FilesOf(s, u))
    ensures Restored(s, t, u, s.order, k, FilesOf(s, u))
  {
    hide Restoring, FlatFiles, FilesOf, Sound;
    ForgetFlat(s, u);
    FlatHas(s, u);
    MapBack(FlatFiles(s), u);
  }

  lemma JoinAll(files: Files)
    requires files != map[]
    ensures Joined(map[], files, SortedKeys(files.Keys)) == files && SortedKeys(files.Keys) != []
  {
    assert SortedKeys(files.Keys) != [] by { var f :| f in files; assert f in SortedKeys(files.Keys); }
  }

  /** Reloading brings the user's files back and changes the joined map not at all. */
  lemma ReloadOk(s: Cache, u: string) returns (k: nat)
    requires Sound(s, 0) && u in s.vm.meta && SizeOf(FilesOf(s, u)) <= s.capacity
    ensures Restored(s, Reload(s, u), u, s.order, k, FilesOf(s, u))
  {
    hide Sound, SizeOf, Tokens, Decode, ReadRow, FlatFiles, RestoreUser, Restoring, Restored, Joined, KeyTokens;
    var r := s.(vm := Forget(s.vm, u));
    var files := FilesOf(s, u);
    RowTokens(s, u);
    ForgetFlat(s, u);
    SortedKeysNoDup(files.Keys);
    JoinAll(files);
    k := RestoreUserOk(r, u, files, SortedKeys(files.Keys), s.order);
    RestoredFromForgotten(s, Reload(s, u), u, k);
  }

  lemma FlatHas(s: Cache, u: string)
    ensures Exists(s, u) <==> u in FlatFiles(s)
    ensures Exists(s, u) ==> FlatFiles(s)[u] == FilesOf(s, u)
    ensures u !in s.vm.meta ==> Resident(s, u) == FilesAt(FlatFiles(s), u)
  {
  }

  /** `t` is `s` after `u` was reloaded if need be and made the most recent user. */
  ghost predicate Accessed(s: Cache, t: Cache, u: string, k: nat) {
    && Sound(t, 0) && u in t.tablets && u !in t.vm.meta
    && FlatFiles(t) == FlatFiles(s)
    && t.capacity == s.capacity && t.userSize == s.userSize
    && (t.used <= s.used || t.used <= s.capacity)
    && k <= |s.order| && t.order == Touch(s.order[k..], u)
  }

  lemma AccessOk(s: Cache, u: string) returns (k: nat)
    requires Sound(s, 0) && Exists(s, u) && SizeOf(FilesOf(s, u)) <= s.capacity
    ensures Accessed(s, Access(s, u), u, k)
  {
    if u in s.vm.meta {
      k := AccessOnDisk(s, u);
    } else {
      k := 0;
      AccessResident(s, u);
    }
  }

  lemma AccessOnDisk(s: Cache, u: string) returns (k: nat)
    requires Sound(s, 0) && u in s.vm.meta && SizeOf(FilesOf(s, u)) <= s.capacity
    ensures Accessed(s, Access(s, u), u, k)
  {
    hide SizeOf, FlatFiles, Reload, Sound, Touch, FilesOf, Restored;
    k := ReloadOk(s, u);
    FlatHas(s, u);
    assert FlatFiles(s)[u := FilesOf(s, u)] == FlatFiles(s);
    TouchFlat(Reload(s, u), u);
    AccessTail(s, Reload(s, u), u, k, FilesOf(s, u));
  }

  /** A reloaded user is at the tail already. */
  lemma AccessTail(s: Cache, t: Cache, u: string, k: nat, files: Files)
    requires Restored(s, t, u, s.order, k, files)
    ensures k <= |s.order| && t.order == Touch(s.order[k..], u) == Touch(t.order, u)
    ensures Sound(t, 0) && u in t.tablets && u !in t.vm.meta && t.used <= t.capacity
    ensures t.capacity == s.capacity && t.userSize == s.userSize && FlatFiles(t) == FlatFiles(s)[u := files]
    ensures t.(order := Touch(t.order, u)) == t
  {
    TouchTail(s.order[k..], u);
    hide Sound, FlatFiles, Touch;
  }

  lemma AccessResident(s: Cache, u: string)
    requires Sound(s, 0) && u in s.tablets
    ensures Accessed(s, Access(s, u), u, 0)
  {
    TouchSound(s, u);
    hide Sound, FlatFiles, Touch;
    assert s.order[0..] == s.order;
    TouchFlat(s, u);
  }

  lemma TouchSound(s: Cache, u: string)
    requires Sound(s, 0) && u in s.tablets
    ensures Sound(s.(order := Touch(s.order, u)), 0) && u !in s.vm.meta
  {
    hide Touch, GoodRow, GoodFiles, AreaOk, Sizes;
    TouchOk(s.order, u);
  }

  lemma TouchFlat(s: Cache, u: string)
    ensures FlatFiles(s.(order := Touch(s.order, u))) == FlatFiles(s)
  {
  }

  // ----- what the loops of the methods keep

  /** An internal put of `need` bytes for `u` may run: evictions will spare `u` and end. */
  ghost predicate Ready(s: Cache, u: string, need: nat) {
    (exists base :: Calm(s, u, base)) && SizeOf(Resident(s, u)) + need <= s.capacity
  }

  lemma ReadyEvict(s: Cache, u: string, need: nat)
    requires Ready(s, u, need) && s.used + need > s.capacity
    ensures s.order != [] && Ready(Evict(s), u, need)
  {
    hide Counted, SizeOf, Resident, Evict;
    var base :| Calm(s, u, base);
    EvictCalm(s, u, need, base);
    CalmList(s, u, base);
  }

  /** The files `ks` of `u` are still to be restored. */
  ghost predicate Pending(s: Cache, u: string, files: Files, ks: seq<string>) {
    && CommaFree(files) && NoDup(ks)
    && (forall f :: f in ks ==> f in files && f !in Resident(s, u))
    && (exists base :: Calm(s, u, base))
    && SizeOf(Joined(Resident(s, u), files, ks)) <= s.capacity
  }

  lemma PendingReady(s: Cache, u: string, files: Files, ks: seq<string>)
    requires Pending(s, u, files, ks) && ks != []
    ensures ks[0] in files && ',' !in ks[0] && ',' !in files[ks[0]] && Ready(s, u, |files[ks[0]]|)
  {
    assert ks[0] in ks;
    hide SizeOf, Counted;
    JoinStep(Resident(s, u), files, ks);
  }

  lemma PlaceCalm(s: Cache, u: string, f: string, v: string, base: seq<string>)
    requires Calm(s, u, base)
    ensures Calm(Place(s, u, f, v), u, base)
  {
    hide SizeOf, Counted;
    SizeOfUpdate(Resident(s, u), f, ValueOf(Resident(s, u), f) + v);
    SetFilesCounted(s, u, AppendTo(Resident(s, u), f, v), |v|, 0);
    TouchTail(base, u);
  }

  /** An internal put needs no more than a calm state, and leaves one. */
  lemma InternalPutCalm(s: Cache, u: string, f: string, v: string, base: seq<string>) returns (k: nat)
    requires Calm(s, u, base) && SizeOf(Resident(s, u)) + |v| <= s.capacity
    ensures var t := InternalPut(s, u, f, v);
      && k <= |base| && Calm(t, u, base[k..]) && t.capacity == s.capacity && t.used <= t.capacity
      && u in t.tablets && t.tablets[u] == AppendTo(Resident(s, u), f, v)
  {
    hide SizeOf, Calm, AppendTo;
    k := SpareCalm(s, u, |v|, base);
    PlaceCalm(EvictUntil(s, |v|), u, f, v, base[k..]);
  }

  lemma PendingNext(s: Cache, u: string, files: Files, ks: seq<string>)
    requires Pending(s, u, files, ks) && ks != []
    ensures Pending(InternalPut(s, u, ks[0], files[ks[0]]), u, files, ks[1..])
  {
    hide SizeOf, Calm, InternalPut, AppendTo, CommaFree;
    PendingReady(s, u, files, ks);
    JoinStep(Resident(s, u), files, ks);
    var base :| Calm(s, u, base);
    var k := InternalPutCalm(s, u, ks[0], files[ks[0]], base);
  }

  lemma PendingStart(r: Cache, u: string, files: Files, base: seq<string>)
    requires Calm(r, u, base) && u !in r.tablets && GoodFiles(files) && SizeOf(files) <= r.capacity
    ensures Pending(r, u, files, SortedKeys(files.Keys))
  {
    hide SizeOf, CommaFree, SortedKeys, Joined, NoDup, Calm;
    SortedKeysNoDup(files.Keys);
    JoinAll(files);
    assert Resident(r, u) == map[];
  }

  lemma ReloadPends(s: Cache, u: string)
    requires Sound(s, 0) && u in s.vm.meta && SizeOf(FilesOf(s, u)) <= s.capacity
    ensures var files := FilesOf(s, u);
      && Pending(s.(vm := Forget(s.vm, u)), u, files, SortedKeys(files.Keys))
      && ReadRow(s.vm, u) == FormatNode(files)
  {
    assert GoodRow(s.vm, u);
    hide Sound, SizeOf, Tokens, ReadRow, FlatFiles, Restoring, GoodFiles, Decode, KeyTokens, FormatNode, Pending, Calm;
    RowTokens(s, u);
    ForgetFlat(s, u);
    RestoringCalm(s.(vm := Forget(s.vm, u)), u, s.order);
    PendingStart(s.(vm := Forget(s.vm, u)), u, FilesOf(s, u), s.order);
  }

  lemma RestoringCalm(s: Cache, u: string, base: seq<string>)
    requires Restoring(s, u, base)
    ensures Calm(s, u, base)
  {
  }

  /** What a reload computes, in terms of the user's files. */
  lemma ReloadIs(s: Cache, u: string)
    requires Sound(s, 0) && u in s.vm.meta
    ensures var files := FilesOf(s, u);
      && (forall k :: k in SortedKeys(files.Keys) ==> k in files)
      && Reload(s, u) == RestoreUser(s.(vm := Forget(s.vm, u)), u, KeyTokens(files, SortedKeys(files.Keys)))
  {
    hide Sound, Tokens, Decode, ReadRow, RestoreUser, KeyTokens;
    RowTokens(s, u);
  }

  lemma RestoreNone(s: Cache, u: string)
    ensures RestoreUser(s, u, []) == s
  {
  }

  /** The loop of `put` stands before an attempt in state `s`; it began in state `s0`. */
  ghost predicate PutTodo(s: Cache, s0: Cache, u: string, f: string, v: string, external: bool) {
    && |v| <= s.capacity
    && if external then
         Sound(s, 0) && SizeOf(FilesAt(FlatFiles(s), u)) <= s.capacity
         && TieredStore.Put(s, u, f, v) == TieredStore.Put(s0, u, f, v)
       else Ready(s, u, |v|) && InternalPut(s, u, f, v) == InternalPut(s0, u, f, v)
  }

  /** ... and stands after an attempt that found no room. */
  ghost predicate PutLeft(s: Cache, s0: Cache, u: string, f: string, v: string, external: bool) {
    && PutTodo(s, s0, u, f, v, external)
    && s.used + |v| > s.capacity
    && (external ==> SizeAt(s.userSize, u) + |v| < s.capacity)
  }

  lemma AttemptMayRun(s: Cache, s0: Cache, u: string, f: string, v: string, external: bool)
    requires PutTodo(s, s0, u, f, v, external)
    ensures u in s.vm.meta ==> external && Sound(s, 0) && SizeOf(FilesOf(s, u)) <= s.capacity
  {
    hide Sound, SizeOf, FlatFiles, FilesOf, InternalPut, TieredStore.Put;
    FlatHas(s, u);
  }

  lemma AttemptOk(s: Cache, s0: Cache, u: string, f: string, v: string, external: bool)
    requires PutTodo(s, s0, u, f, v, external)
    ensures var (t, done, r) := Attempt(s, u, f, v, external, false);
      if !done then PutLeft(t, s0, u, f, v, external)
      else if external then (t, r) == TieredStore.Put(s0, u, f, v)
      else t == InternalPut(s0, u, f, v)
  {
    if external {
      AttemptIsPut(s, u, f, v);
      SetSizeOk(s, u, SizeAt(s.userSize, u), 0);
    } else {
      assert u !in s.vm.meta;
      AttemptIsInternalPut(s, u, f, v);
    }
    hide Sound, SizeOf, FlatFiles, FilesOf, InternalPut, TieredStore.Put, Ready, Attempt;
  }

  lemma LeftEvict(s: Cache, s0: Cache, u: string, f: string, v: string, external: bool)
    requires PutLeft(s, s0, u, f, v, external)
    ensures s.order != [] && PutTodo(Evict(s), s0, u, f, v, external)
  {
    hide Sound, SizeOf, FlatFiles, FilesOf, InternalPut, TieredStore.Put, Ready;
    if external {
      SoundCounted(s, 0);
      if s.order == [] { EmptyUsed(s, 0); }
      EvictSound(s, 0);
      EvictFlat(s, 0);
      EvictThenPut(s, u, f, v);
    } else {
      ReadyEvict(s, u, |v|);
      EvictThenInternalPut(s, u, f, v);
    }
  }

  lemma PutBegins(s: Cache, u: string, f: string, v: string, external: bool)
    requires |v| <= s.capacity
    requires if external then Inv(s) else Ready(s, u, |v|)
    ensures PutTodo(s, s, u, f, v, external)
  {
    if external { UserBoundNow(s, u); }
  }

  lemma UserBoundNow(s: Cache, u: string)
    requires Inv(s)
    ensures SizeOf(FilesAt(FlatFiles(s), u)) <= s.capacity
  {
    hide Sound, FlatFiles, SizeOf;
    assert UserOk(s.capacity, View(s), u);
    SizeOfNone();
  }

  lemma PutTooBig(s: Cache, u: string, f: string, v: string)
    requires |v| > s.capacity
    ensures TieredStore.Put(s, u, f, v) == (s, FileTooBig) && InternalPut(s, u, f, v) == s
  {
  }

  lemma AttemptKeepsOrder(s: Cache, u: string, f: string, v: string, external: bool, isCput: bool)
    ensures !Attempt(s, u, f, v, external, isCput).1 ==> Attempt(s, u, f, v, external, isCput).0.order == s.order
  {
    hide Reload;
  }

  // ----- put

  /** The user that a put evicts and must reload: the disk branch of `put_helper`. */
  predicate HitsDisk(s: Cache, u: string, v: string) { u in EvictUntil(s, |v|).vm.meta }

  /** `t` is `s` after `v` was appended to one file of `u`. */
  ghost predicate Written(s: Cache, t: Cache, u: string, f: string, v: string, k: nat) {
    && Sound(t, 0)
    && FlatFiles(t) == FlatFiles(s)[u := AppendTo(FilesAt(FlatFiles(s), u), f, v)]
    && t.capacity == s.capacity && t.userSize == s.userSize
    && k <= |s.order| && t.order == Touch(s.order[k..], u)
  }

  lemma PutMemory(s: Cache, u: string, f: string, v: string) returns (k: nat)
    requires Sound(s, 0) && ',' !in f && ',' !in v && |v| <= s.capacity && !HitsDisk(s, u, v)
    ensures Written(s, PutTo(s, u, f, v), u, f, v, k) && PutTo(s, u, f, v).used <= s.capacity
  {
    hide Sound, FlatFiles, AppendTo, SizeOf;
    k := EvictUntilOk(s, |v|, 0);
    var e := EvictUntil(s, |v|);
    SoundCounted(e, 0);
    if e.order == [] { EmptyUsed(e, 0); }
    FlatHas(e, u);
    PlaceOk(e, u, f, v, 0);
  }

  lemma PutDisk(s: Cache, u: string, f: string, v: string) returns (k: nat)
    requires Sound(s, 0) && ',' !in f && ',' !in v && HitsDisk(s, u, v)
    requires SizeOf(FilesAt(FlatFiles(s), u)) <= s.capacity
    ensures Written(s, PutTo(s, u, f, v), u, f, v, k) && PutTo(s, u, f, v).used <= s.capacity + |v|
  {
    hide Sound, FlatFiles, AppendTo, SizeOf, FilesOf, Reload;
    var i := EvictUntilOk(s, |v|, 0);
    var e := EvictUntil(s, |v|);
    FlatHas(e, u);
    var j := ReloadOk(e, u);
    MapBack(FlatFiles(e), u);
    PlaceOk(Reload(e, u), u, f, v, 0);
    k := i + j;
    assert s.order[i..][j..] == s.order[k..];
    TouchTail(s.order[k..], u);
  }

  lemma UserBound(s: Cache, u: string)
    requires Inv(s)
    ensures SizeOf(FilesAt(FlatFiles(s), u)) == SizeAt(s.userSize, u)
    ensures u in FlatFiles(s) ==> SizeAt(s.userSize, u) < s.capacity && u in s.userSize
    ensures SizeAt(s.userSize, u) >= 0
  {
    hide Sound, FlatFiles, SizeOf;
    assert UserOk(s.capacity, View(s), u);
  }

  /** `(t, r)` is a correct result of `op` in state `s`. */
  ghost predicate Refines(s: Cache, op: Op, t: Cache, r: Reply) {
    && Sound(t, 0)
    && View(t) == Next(s.capacity, View(s), op)
    && r == ReplyOf(s.capacity, View(s), op)
    && t.capacity == s.capacity
    && t.used < 2 * s.capacity
  }

  lemma NextOfAccepted(cap: nat, a: Flat, u: string, f: string, v: string)
    requires |v| <= cap && SizeAt(a.size, u) + |v| < cap
    ensures Next(cap, a, FlatStore.Put(u, f, v))
         == Flat(a.files[u := AppendTo(FilesAt(a.files, u), f, v)], a.size[u := SizeAt(a.size, u) + |v|])
    ensures ReplyOf(cap, a, FlatStore.Put(u, f, v)) == Stored
  {
    hide AppendTo, FilesAt;
    AppendSome(FilesAt(a.files, u), f, v);
  }

  lemma NextOfRejected(cap: nat, a: Flat, u: string, f: string, v: string)
    requires |v| <= cap && SizeAt(a.size, u) + |v| >= cap
    requires u in a.files ==> a.files[u] != map[]
    ensures Next(cap, a, FlatStore.Put(u, f, v)) == Flat(a.files, a.size[u := SizeAt(a.size, u)])
    ensures ReplyOf(cap, a, FlatStore.Put(u, f, v)) == StorageExceeded
  {
  }

  /** An operation that changes neither files nor sizes. */
  lemma WrittenRefines(s: Cache, t: Cache, u: string, f: string, v: string, k: nat)
    requires Written(s, t, u, f, v, k) && t.used < 2 * s.capacity
    requires |v| <= s.capacity && SizeAt(s.userSize, u) + |v| < s.capacity
    ensures Refines(s, FlatStore.Put(u, f, v), SetSize(t, u, SizeAt(s.userSize, u) + |v|), Stored)
  {
    hide Sound, FlatFiles, AppendTo, Next, ReplyOf, Touch, FilesAt;
    NextOfAccepted(s.capacity, View(s), u, f, v);
    SetSizeOk(t, u, SizeAt(s.userSize, u) + |v|, 0);
  }

  lemma PutToOk(s: Cache, u: string, f: string, v: string) returns (k: nat)
    requires Inv(s) && ',' !in f && ',' !in v
    requires |v| <= s.capacity && SizeAt(s.userSize, u) + |v| < s.capacity
    ensures var t := PutTo(s, u, f, v);
      && Written(s, t, u, f, v, k) && t.used < 2 * s.capacity
      && (!HitsDisk(s, u, v) ==> t.used <= s.capacity)
  {
    UserBound(s, u);
    hide FlatOk, Sound, FlatFiles, SizeOf, PutTo, HitsDisk, Written;
    if HitsDisk(s, u, v) {
      k := PutDisk(s, u, f, v);
    } else {
      k := PutMemory(s, u, f, v);
    }
  }

  lemma PutAccepted(s: Cache, u: string, f: string, v: string)
    requires Inv(s) && ',' !in f && ',' !in v
    requires |v| <= s.capacity && SizeAt(s.userSize, u) + |v| < s.capacity
    ensures var (t, r) := TieredStore.Put(s, u, f, v);
      && Refines(s, FlatStore.Put(u, f, v), t, r)
      && (!HitsDisk(s, u, v) ==> t.used <= s.capacity)
  {
    hide Inv, Sound, FlatFiles, SizeOf, PutTo, HitsDisk, Written, Refines;
    var k := PutToOk(s, u, f, v);
    WrittenRefines(s, PutTo(s, u, f, v), u, f, v, k);
  }

  lemma PutOk(s: Cache, u: string, f: string, v: string)
    requires Inv(s) && ',' !in f && ',' !in v
    ensures var (t, r) := TieredStore.Put(s, u, f, v);
      Refines(s, FlatStore.Put(u, f, v), t, r)
  {
    var n := SizeAt(s.userSize, u);
    if |v| <= s.capacity && n + |v| < s.capacity {
      PutAccepted(s, u, f, v);
    } else {
      hide Sound, FlatFiles, SizeOf, PutTo, AppendTo, FlatOk;
      UserSome(s, u);
      if |v| > s.capacity {
        SettleSame(View(s), u, OutcomeOf(s.capacity, View(s), FlatStore.Put(u, f, v)));
      } else {
        NextOfRejected(s.capacity, View(s), u, f, v);
        SetSizeOk(s, u, n, 0);
      }
    }
  }

  lemma UserSome(s: Cache, u: string)
    requires Inv(s)
    ensures u in FlatFiles(s) ==> FlatFiles(s)[u] != map[]
  {
    hide Sound, FlatFiles, SizeOf;
    assert UserOk(s.capacity, View(s), u);
  }

  lemma AppendSome(files: Files, f: string, v: string)
    ensures AppendTo(files, f, v) != map[]
  {
    assert f in AppendTo(files, f, v);
  }

  lemma SetSizeOk(s: Cache, u: string, n: int, d: int)
    requires Sound(s, d)
    ensures Sound(SetSize(s, u, n), d) && FlatFiles(SetSize(s, u, n)) == FlatFiles(s)
  {
  }

  // ----- get

  lemma UserFits(s: Cache, u: string)
    requires Inv(s) && Exists(s, u)
    ensures SizeOf(FilesOf(s, u)) == SizeAt(s.userSize, u) < s.capacity
    ensures u in s.userSize && FilesOf(s, u) == FilesAt(FlatFiles(s), u) != map[]
  {
    hide Sound, SizeOf, FilesOf;
    FlatHas(s, u);
    UserBound(s, u);
    UserSome(s, u);
  }

  /** A get that finds the user: where the user is afterwards. */
  lemma GetAccesses(s: Cache, u: string, f: string) returns (k: nat)
    requires Inv(s) && Exists(s, u)
    ensures Accessed(s, TieredStore.Get(s, u, f).0, u, k)
    ensures Resident(TieredStore.Get(s, u, f).0, u) == FilesAt(FlatFiles(s), u)
  {
    UserFits(s, u);
    hide FlatOk, Sound, SizeOf, FlatFiles, Access;
    k := AccessOk(s, u);
    FlatHas(Access(s, u), u);
  }

  lemma AccessedRefines(s: Cache, t: Cache, u: string, k: nat, op: Op, r: Reply)
    requires Accessed(s, t, u, k) && Inv(s) && Exists(s, u) && op.user == u
    requires OutcomeOf(s.capacity, View(s), op)
          == Outcome(FilesAt(FlatFiles(s), u), SizeAt(s.userSize, u), u in s.userSize, r)
    ensures Refines(s, op, t, r)
  {
    UserSome(s, u);
    hide FlatOk, Sound, SizeOf, FlatFiles, FilesAt, SizeAt, Touch;
    SettleSame(View(s), u, OutcomeOf(s.capacity, View(s), op));
  }

  lemma MissingRefines(s: Cache, op: Op)
    requires Inv(s) && !Exists(s, op.user) && !op.Put?
    ensures Refines(s, op, s, NoSuchUser)
  {
    hide FlatOk, SizeOf, FilesOf, Sound;
    FlatHas(s, op.user);
    SettleSame(View(s), op.user, OutcomeOf(s.capacity, View(s), op));
  }

  lemma GetOk(s: Cache, u: string, f: string)
    requires Inv(s)
    ensures var (t, r) := TieredStore.Get(s, u, f); Refines(s, FlatStore.Get(u, f), t, r)
  {
    hide Inv, Sound, SizeOf, FlatFiles, Access, Refines, Accessed;
    if Exists(s, u) {
      UserFits(s, u);
      var k := GetAccesses(s, u, f);
      var (t, r) := TieredStore.Get(s, u, f);
      AccessedRefines(s, t, u, k, FlatStore.Get(u, f), r);
    } else {
      MissingRefines(s, FlatStore.Get(u, f));
    }
  }

  // ----- cput, dele, rename

  lemma NextOfChange(cap: nat, a: Flat, op: Op, files: Files, n: int, r: Reply)
    requires OutcomeOf(cap, a, op) == Outcome(files, n, true, r) && files != map[]
    ensures Next(cap, a, op) == Flat(a.files[op.user := files], a.size[op.user := n])
    ensures ReplyOf(cap, a, op) == r
  {
  }

  /** The new state gives one resident user new files and a new size entry. */
  lemma ChangeRefines(s: Cache, t: Cache, d: int, op: Op, files: Files, delta: int, n: int, r: Reply)
    requires Sound(t, d) && op.user !in t.vm.meta && GoodFiles(files)
    requires FlatFiles(t) == FlatFiles(s) && t.userSize == s.userSize && t.capacity == s.capacity
    requires d - delta + SizeOf(files) - SizeOf(Resident(t, op.user)) == 0
    requires t.used + delta < 2 * s.capacity
    requires OutcomeOf(s.capacity, View(s), op) == Outcome(files, n, true, r)
    ensures Refines(s, op, SetSize(SetFiles(t, op.user, files, delta), op.user, n), r)
  {
    hide Sound, SizeOf, FlatFiles, Next, ReplyOf, OutcomeOf;
    SetFilesSound(t, op.user, files, delta, d);
    SetFilesFlat(t, op.user, files, delta);
    SetSizeOk(SetFiles(t, op.user, files, delta), op.user, n, 0);
    NextOfChange(s.capacity, View(s), op, files, n, r);
  }

  lemma GoodChange(s: Cache, u: string, f: string, v: string)
    requires Sound(s, 0) && ',' !in f && ',' !in v
    ensures GoodFiles(Resident(s, u)[f := v])
    ensures SizeOf(Resident(s, u)[f := v]) == SizeOf(Resident(s, u)) - |ValueOf(Resident(s, u), f)| + |v|
  {
    ResidentFree(s, 0, u);
    SizeOfUpdate(Resident(s, u), f, v);
    assert f in Resident(s, u)[f := v];
  }

  lemma LowerUsed(a: Cache, gone: nat)
    requires Sound(a, 0)
    ensures Sound(a.(used := a.used - gone), gone)
    ensures FlatFiles(a.(used := a.used - gone)) == FlatFiles(a)
  {
  }

  lemma TailResident(t: Cache, d: int, u: string)
    requires Sound(t, d) && t.order != [] && t.order[|t.order| - 1] == u
    ensures u in t.tablets && u !in t.vm.meta
  {
    assert u in t.order;
  }

  /** The evictions of a `cput` spare the user whose value is being replaced. */
  lemma SwapSpares(a: Cache, u: string, gone: nat, need: nat) returns (k: nat)
    requires Sound(a, 0) && u in a.tablets && a.order != [] && a.order[|a.order| - 1] == u
    requires SizeOf(a.tablets[u]) - gone + need <= a.capacity
    ensures var t := EvictUntil(a.(used := a.used - gone), need);
      && Sound(t, gone) && FlatFiles(t) == FlatFiles(a) && t.userSize == a.userSize && t.capacity == a.capacity
      && u !in t.vm.meta && Resident(t, u) == a.tablets[u] && t.used + need <= a.capacity
      && k <= |a.order| && t.order == a.order[k..] && t.order != [] && t.order[|t.order| - 1] == u
  {
    hide Sound, FlatFiles, SizeOf, Counted, EvictUntil, Resident, FilesAt;
    var b := a.(used := a.used - gone);
    LowerUsed(a, gone);
    k := EvictUntilOk(b, need, gone);
    SoundCounted(b, gone);
    EvictProtects(b, need, gone, u);
    TailResident(EvictUntil(b, need), gone, u);
    TailFiles(a, EvictUntil(b, need), u);
  }

  lemma TailFiles(a: Cache, t: Cache, u: string)
    requires u in t.tablets && u in a.tablets && t.tablets[u] == a.tablets[u]
    ensures Resident(t, u) == a.tablets[u]
  {
  }

  lemma AccessedTail(s: Cache, a: Cache, u: string, k: nat)
    requires Accessed(s, a, u, k)
    ensures a.order != [] && a.order[|a.order| - 1] == u
  {
    hide Sound;
  }

  lemma CputSwaps(s: Cache, u: string, f: string, old_: string, new_: string)
    requires Inv(s) && ',' !in f && ',' !in new_
    requires TieredStore.Get(s, u, f).1 == Value(old_) && Exists(s, u)
    requires SizeAt(s.userSize, u) - |old_| + |new_| < s.capacity
    ensures var (t, r) := TieredStore.Cput(s, u, f, old_, new_);
      Refines(s, FlatStore.Cput(u, f, old_, new_), t, r)
  {
    hide FlatOk, Sound, SizeOf, FlatFiles, Access, Refines, GoodFiles, EvictUntil, SetFiles;
    CputMakesRoom(s, u, f, old_, new_);
    CputChanges(s, u, f, old_, new_);
    var a := TieredStore.Get(s, u, f).0;
    var t := EvictUntil(a.(used := a.used - |old_|), |new_|);
    ChangeRefines(s, t, |old_|, FlatStore.Cput(u, f, old_, new_), Resident(t, u)[f := new_], |new_|,
                  SizeAt(s.userSize, u) - |old_| + |new_|, Stored);
  }

  lemma CputChanges(s: Cache, u: string, f: string, old_: string, new_: string)
    requires Inv(s) && Exists(s, u)
    requires TieredStore.Get(s, u, f).1 == Value(old_)
    requires SizeAt(s.userSize, u) - |old_| + |new_| < s.capacity
    ensures OutcomeOf(s.capacity, View(s), FlatStore.Cput(u, f, old_, new_))
         == Outcome(FilesAt(FlatFiles(s), u)[f := new_], SizeAt(s.userSize, u) - |old_| + |new_|, true, Stored)
  {
    UserFits(s, u);
    GetValue(s, u, f);
    hide Inv, Accessed, SizeOf, FlatFiles, FilesOf, TieredStore.Get, Exists;
    var k := GetAccesses(s, u, f);
  }

  /** After the access and the evictions of a `cput` the user is in memory with its old
      files and there is room for the new value. */
  lemma CputMakesRoom(s: Cache, u: string, f: string, old_: string, new_: string)
    requires Inv(s) && ',' !in f && ',' !in new_ && Exists(s, u)
    requires TieredStore.Get(s, u, f).1 == Value(old_)
    requires SizeAt(s.userSize, u) - |old_| + |new_| < s.capacity
    ensures var a := TieredStore.Get(s, u, f).0;
      var t := EvictUntil(a.(used := a.used - |old_|), |new_|);
      && Sound(t, |old_|) && FlatFiles(t) == FlatFiles(s) && t.userSize == s.userSize && t.capacity == s.capacity
      && u !in t.vm.meta && Resident(t, u) == FilesAt(FlatFiles(s), u) && t.used + |new_| <= s.capacity
      && GoodFiles(Resident(t, u)[f := new_])
      && SizeOf(Resident(t, u)[f := new_]) == SizeOf(Resident(t, u)) - |old_| + |new_|
  {
    hide Inv, Sound, SizeOf, FlatFiles, FilesOf, Access, GoodFiles, Touch, EvictUntil, TieredStore.Get, Exists;
    UserFits(s, u);
    GetValue(s, u, f);
    var i := GetAccesses(s, u, f);
    var a := TieredStore.Get(s, u, f).0;
    AccessedTail(s, a, u, i);
    SwapRoom(a, u, f, old_, new_);
  }

  lemma GetValue(s: Cache, u: string, f: string)
    requires TieredStore.Get(s, u, f).1.Value?
    ensures var (a, r) := TieredStore.Get(s, u, f); f in Resident(a, u) && Resident(a, u)[f] == r.value
  {
  }

  lemma SwapRoom(a: Cache, u: string, f: string, old_: string, new_: string)
    requires Sound(a, 0) && u in a.tablets && a.order != [] && a.order[|a.order| - 1] == u
    requires f in a.tablets[u] && a.tablets[u][f] == old_ && ',' !in f && ',' !in new_
    requires SizeOf(a.tablets[u]) - |old_| + |new_| <= a.capacity
    ensures var t := EvictUntil(a.(used := a.used - |old_|), |new_|);
      && Sound(t, |old_|) && FlatFiles(t) == FlatFiles(a) && t.userSize == a.userSize && t.capacity == a.capacity
      && u !in t.vm.meta && Resident(t, u) == a.tablets[u] && t.used + |new_| <= a.capacity
      && GoodFiles(Resident(t, u)[f := new_])
      && SizeOf(Resident(t, u)[f := new_]) == SizeOf(Resident(t, u)) - |old_| + |new_|
  {
    hide Sound, SizeOf, FlatFiles, GoodFiles, EvictUntil;
    GoodChange(a, u, f, new_);
    var j := SwapSpares(a, u, |old_|, |new_|);
  }

  lemma CputOk(s: Cache, u: string, f: string, old_: string, new_: string)
    requires Inv(s) && ',' !in f && ',' !in new_
    ensures var (t, r) := TieredStore.Cput(s, u, f, old_, new_);
      Refines(s, FlatStore.Cput(u, f, old_, new_), t, r)
  {
    hide Inv, Sound, SizeOf, FlatFiles, Access, Refines, Accessed;
    var op := FlatStore.Cput(u, f, old_, new_);
    if !Exists(s, u) {
      MissingRefines(s, op);
    } else if TieredStore.Get(s, u, f).1 == Value(old_) && SizeAt(s.userSize, u) - |old_| + |new_| < s.capacity {
      CputSwaps(s, u, f, old_, new_);
    } else {
      UserFits(s, u);
      var k := GetAccesses(s, u, f);
      var (t, r) := TieredStore.Cput(s, u, f, old_, new_);
      AccessedRefines(s, t, u, k, op, r);
    }
  }

  /** What the loop of `cput` is to reach from `s`. */
  function SwapResult(s: Cache, u: string, f: string, new_: string): Cache {
    var t := EvictUntil(s, |new_|);
    SetSize(SetFiles(t, u, Resident(t, u)[f := new_], |new_|), u, SizeAt(s.userSize, u) + |new_|)
  }

  /** The loop of `cput` stands before an attempt in state `s`. */
  ghost predicate SwapTodo(s: Cache, goal: Cache, u: string, f: string, new_: string, gone: nat) {
    && Sound(s, gone) && u in s.userSize
    && s.order != [] && s.order[|s.order| - 1] == u
    && SizeOf(Resident(s, u)) - gone + |new_| <= s.capacity
    && SizeAt(s.userSize, u) + |new_| < s.capacity
    && SwapResult(s, u, f, new_) == goal
  }

  lemma SwapAttempt(s: Cache, goal: Cache, u: string, f: string, new_: string, gone: nat)
    requires SwapTodo(s, goal, u, f, new_, gone)
    ensures var (t, done, r) := Attempt(s, u, f, new_, true, true);
      && u !in s.vm.meta
      && if done then t == goal && r == Stored else t == s && s.used + |new_| > s.capacity
  {
    hide Sound, SizeOf, Reload, EvictUntil, Place, SetFiles;
    TailResident(s, gone, u);
    SameSize(s, u);
    if s.used + |new_| <= s.capacity { FitsNow(s, |new_|); }
  }

  lemma FitsNow(s: Cache, need: nat)
    requires s.used + need <= s.capacity
    ensures EvictUntil(s, need) == s
  {
  }

  lemma SameSize(s: Cache, u: string)
    requires u in s.userSize
    ensures SetSize(s, u, SizeAt(s.userSize, u)) == s
  {
    assert s.userSize[u := s.userSize[u]] == s.userSize;
  }

  lemma SwapEvict(s: Cache, goal: Cache, u: string, f: string, new_: string, gone: nat)
    requires SwapTodo(s, goal, u, f, new_, gone) && s.used + |new_| > s.capacity
    ensures |s.order| > 1 && SwapTodo(Evict(s), goal, u, f, new_, gone)
  {
    hide Sound, SizeOf, SwapResult;
    TailResident(s, gone, u);
    SoundCounted(s, gone);
    if |s.order| == 1 {
      OneUsed(s, gone, u);
    }
    LastStays(s, gone, u);
    EvictSound(s, gone);
    SwapResultEvict(s, u, f, new_);
    EvictFields(s);
  }

  lemma EvictFields(s: Cache)
    requires s.order != []
    ensures Evict(s).order == s.order[1..] && Evict(s).userSize == s.userSize && Evict(s).capacity == s.capacity
  {
  }

  lemma EvictUntilStep(s: Cache, need: nat)
    requires s.order != [] && s.used + need > s.capacity
    ensures EvictUntil(s, need) == EvictUntil(Evict(s), need)
  {
    hide Evict;
  }

  lemma SwapResultEvict(s: Cache, u: string, f: string, new_: string)
    requires s.order != [] && s.used + |new_| > s.capacity
    ensures SwapResult(Evict(s), u, f, new_) == SwapResult(s, u, f, new_)
  {
    hide SwapResult, Evict, EvictUntil, SetFiles, SetSize, Resident;
    EvictFields(s);
    EvictUntilStep(s, |new_|);
    SwapIs(s, u, f, new_, EvictUntil(s, |new_|), SizeAt(s.userSize, u));
    SwapIs(Evict(s), u, f, new_, EvictUntil(s, |new_|), SizeAt(s.userSize, u));
  }

  lemma SwapIs(s: Cache, u: string, f: string, new_: string, t: Cache, n: int)
    requires EvictUntil(s, |new_|) == t && SizeAt(s.userSize, u) == n
    ensures SwapResult(s, u, f, new_) == SetSize(SetFiles(t, u, Resident(t, u)[f := new_], |new_|), u, n + |new_|)
  {
    hide EvictUntil, SetFiles, SetSize, Resident;
  }

  lemma SwapBegins(s: Cache, u: string, f: string, old_: string, new_: string)
    requires Inv(s) && Exists(s, u)
    requires TieredStore.Get(s, u, f).1 == Value(old_)
    requires SizeAt(s.userSize, u) - |old_| + |new_| < s.capacity
    ensures var a := TieredStore.Get(s, u, f).0;
      var b := SetSize(a.(used := a.used - |old_|), u, SizeAt(s.userSize, u) - |old_|);
      SwapTodo(b, TieredStore.Cput(s, u, f, old_, new_).0, u, f, new_, |old_|)
  {
    hide Inv, Sound, SizeOf, FlatFiles, FilesOf, Access, Touch, EvictUntil, TieredStore.Get, SetFiles;
    UserFits(s, u);
    var k := GetAccesses(s, u, f);
    var a := TieredStore.Get(s, u, f).0;
    AccessedTail(s, a, u, k);
    var c := a.(used := a.used - |old_|);
    var m := SizeAt(s.userSize, u) - |old_|;
    LowerUsed(a, |old_|);
    SetSizeOk(c, u, m, |old_|);
    EvictUntilSize(c, |new_|, u, m);
    SwapUnfold(c, u, f, new_, m);
  }

  lemma SwapUnfold(c: Cache, u: string, f: string, new_: string, m: int)
    requires EvictUntil(SetSize(c, u, m), |new_|) == SetSize(EvictUntil(c, |new_|), u, m)
    ensures var t := EvictUntil(c, |new_|);
      SwapResult(SetSize(c, u, m), u, f, new_)
        == SetSize(SetFiles(t, u, Resident(t, u)[f := new_], |new_|), u, m + |new_|)
  {
    hide EvictUntil;
    var t := EvictUntil(c, |new_|);
    SetSizeTwice(SetFiles(t, u, Resident(t, u)[f := new_], |new_|), u, m, m + |new_|);
  }

  lemma RenameOk(s: Cache, u: string, f: string, to: string)
    requires Inv(s) && ',' !in to
    ensures var (t, r) := TieredStore.Rename(s, u, f, to); Refines(s, FlatStore.Rename(u, f, to), t, r)
  {
    hide Inv, Sound, SizeOf, FlatFiles, Access, Refines, Accessed;
    var op := FlatStore.Rename(u, f, to);
    var (a, v) := TieredStore.Get(s, u, f);
    if !Exists(s, u) {
      MissingRefines(s, op);
    } else {
      UserFits(s, u);
      var k := GetAccesses(s, u, f);
      if v.Value? {
        RenameMoves(s, u, f, to, k);
      } else {
        AccessedRefines(s, a, u, k, op, v);
      }
    }
  }

  lemma RenameMoves(s: Cache, u: string, f: string, to: string, k: nat)
    requires Inv(s) && ',' !in to && Exists(s, u)
    requires TieredStore.Get(s, u, f).1.Value? && Accessed(s, TieredStore.Get(s, u, f).0, u, k)
    requires Resident(TieredStore.Get(s, u, f).0, u) == FilesAt(FlatFiles(s), u)
    ensures var (t, r) := TieredStore.Rename(s, u, f, to); Refines(s, FlatStore.Rename(u, f, to), t, r)
  {
    hide FlatOk, Sound, SizeOf, FlatFiles, Access, Refines, Touch, FilesAt;
    UserFits(s, u);
    var (a, v) := TieredStore.Get(s, u, f);
    var files := Resident(a, u);
    RenameGood(a, u, f, to);
    var lost := |ValueOf(files - {f}, to)|;
    ChangeRefines(s, a, 0, FlatStore.Rename(u, f, to), (files - {f})[to := files[f]], -lost,
                  SizeAt(s.userSize, u) - lost, Renamed);
  }

  lemma RenameGood(a: Cache, u: string, f: string, to: string)
    requires Sound(a, 0) && ',' !in to && f in Resident(a, u)
    ensures var files := Resident(a, u); var moved := (files - {f})[to := files[f]];
      GoodFiles(moved) && SizeOf(moved) == SizeOf(files) - |ValueOf(files - {f}, to)|
  {
    ResidentFree(a, 0, u);
    hide Sound, SizeOf, Resident;
    RenamedFiles(Resident(a, u), f, to);
  }

  lemma RenamedFiles(files: Files, f: string, to: string)
    requires CommaFree(files) && ',' !in to && f in files
    ensures var moved := (files - {f})[to := files[f]];
      GoodFiles(moved) && SizeOf(moved) == SizeOf(files) - |ValueOf(files - {f}, to)|
  {
    hide SizeOf;
    var rest := files - {f};
    SizeOfRemove(files, f);
    SizeOfUpdate(rest, to, files[f]);
    assert to in rest[to := files[f]];
  }

  lemma RemoveUserSum(a: Cache, u: string)
    requires Sound(a, 0) && u in a.tablets
    ensures a.used - SizeOf(a.tablets[u]) == Sum(Sizes(a.tablets - {u}))
  {
    hide SizeOf, ListOk, GoodFiles, GoodRow, AreaOk;
    SumRemove(Sizes(a.tablets), u);
    assert Sizes(a.tablets - {u}) == Sizes(a.tablets) - {u};
  }

  lemma RemoveUserFlat(a: Cache, t: Cache, u: string)
    requires u !in a.vm.meta && t.tablets == a.tablets - {u} && t.vm == a.vm
    ensures FlatFiles(t) == FlatFiles(a) - {u}
  {
    hide Decode, ReadRow;
    assert t.tablets.Keys + t.vm.meta.Keys == (a.tablets.Keys + a.vm.meta.Keys) - {u};
  }

  lemma RemoveUserSound(a: Cache, u: string, gone: nat)
    requires Sound(a, 0) && u in a.tablets && SizeOf(a.tablets[u]) == gone
    ensures var t := a.(tablets := a.tablets - {u}, order := Without(a.order, u), used := a.used - gone);
      Sound(t, 0) && FlatFiles(t) == FlatFiles(a) - {u}
  {
    hide SizeOf, GoodFiles, GoodRow, AreaOk, FlatFiles, Sizes;
    var t := a.(tablets := a.tablets - {u}, order := Without(a.order, u), used := a.used - gone);
    RemoveUserSum(a, u);
    RemoveUserFlat(a, t, u);
    WithoutOk(a.order, u);
  }

  lemma RemovedState(a: Cache, u: string, gone: int, n: int)
    requires Sound(a, 0) && u in a.tablets
    ensures RemoveUser(SetSize(SetFiles(a, u, map[], -gone), u, n), u)
         == SetSize(a.(tablets := a.tablets - {u}, order := Without(a.order, u), used := a.used - gone), u, n)
  {
    hide Sound;
    WithoutTouch(a.order, u);
    assert a.tablets[u := map[]] - {u} == a.tablets - {u};
  }

  lemma NextOfRemoval(cap: nat, a: Flat, op: Op, n: int, r: Reply)
    requires OutcomeOf(cap, a, op) == Outcome(map[], n, true, r)
    ensures Next(cap, a, op) == Flat(a.files - {op.user}, a.size[op.user := n])
    ensures ReplyOf(cap, a, op) == r
  {
  }

  lemma DeleRemoves(s: Cache, u: string, f: string, k: nat)
    requires Inv(s) && Exists(s, u)
    requires TieredStore.Get(s, u, f).1.Value? && Accessed(s, TieredStore.Get(s, u, f).0, u, k)
    requires Resident(TieredStore.Get(s, u, f).0, u) == FilesAt(FlatFiles(s), u)
    requires Resident(TieredStore.Get(s, u, f).0, u) - {f} == map[]
    ensures var (t, r) := TieredStore.Dele(s, u, f); Refines(s, FlatStore.Dele(u, f), t, r)
  {
    hide Inv, Sound, SizeOf, FlatFiles, FilesOf, Access, Next, ReplyOf, RemoveUser, SetSize, SetFiles, TieredStore.Get;
    UserFits(s, u);
    GetValue(s, u, f);
    var (a, v) := TieredStore.Get(s, u, f);
    var gone := |v.value|;
    var n := SizeAt(s.userSize, u) - gone;
    SizeOfRemove(a.tablets[u], f);
    SizeOfNone();
    RemoveUserSound(a, u, gone);
    RemovedState(a, u, gone, n);
    var b := a.(tablets := a.tablets - {u}, order := Without(a.order, u), used := a.used - gone);
    SetSizeOk(b, u, n, 0);
    NextOfRemoval(s.capacity, View(s), FlatStore.Dele(u, f), n, Deleted);
    SetSizeFields(b, u, n);
    CapacityBound(s);
  }

  lemma SetSizeFields(s: Cache, u: string, n: int)
    ensures SetSize(s, u, n).used == s.used && SetSize(s, u, n).capacity == s.capacity
    ensures SetSize(s, u, n).userSize == s.userSize[u := n]
  {
  }

  lemma CapacityBound(s: Cache)
    requires Inv(s)
    ensures 0 < s.capacity && s.used < 2 * s.capacity
  {
  }

  lemma DeleKeeps(s: Cache, u: string, f: string, k: nat)
    requires Inv(s) && Exists(s, u)
    requires TieredStore.Get(s, u, f).1.Value? && Accessed(s, TieredStore.Get(s, u, f).0, u, k)
    requires Resident(TieredStore.Get(s, u, f).0, u) == FilesAt(FlatFiles(s), u)
    requires Resident(TieredStore.Get(s, u, f).0, u) - {f} != map[]
    ensures var (t, r) := TieredStore.Dele(s, u, f); Refines(s, FlatStore.Dele(u, f), t, r)
  {
    hide Inv, Sound, SizeOf, FlatFiles, FilesOf, Access, Refines, SetSize, SetFiles, TieredStore.Get;
    UserFits(s, u);
    GetValue(s, u, f);
    var (a, v) := TieredStore.Get(s, u, f);
    var files := Resident(a, u);
    ResidentFree(a, 0, u);
    SizeOfRemove(files, f);
    CapacityBound(s);
    ChangeRefines(s, a, 0, FlatStore.Dele(u, f), files - {f}, -|v.value|, SizeAt(s.userSize, u) - |v.value|, Deleted);
  }

  lemma DeleOk(s: Cache, u: string, f: string)
    requires Inv(s)
    ensures var (t, r) := TieredStore.Dele(s, u, f); Refines(s, FlatStore.Dele(u, f), t, r)
  {
    hide Inv, Sound, SizeOf, FlatFiles, Access, Refines, Accessed;
    var op := FlatStore.Dele(u, f);
    var (a, v) := TieredStore.Get(s, u, f);
    if !Exists(s, u) {
      MissingRefines(s, op);
    } else {
      UserFits(s, u);
      var k := GetAccesses(s, u, f);
      if !v.Value? {
        AccessedRefines(s, a, u, k, op, v);
      } else if Resident(a, u) - {f} == map[] {
        DeleRemoves(s, u, f, k);
      } else {
        DeleKeeps(s, u, f, k);
      }
    }
  }

  // ----- one step, every run

  /** The names and values an operation may bring in: the row text is split at commas, so
      stored names and values must not contain one. */
  predicate CleanOp(op: Op) {
    match op
    case Put(_, f, v) => ',' !in f && ',' !in v
    case Get(_, _) => true
    case Cput(_, f, _, n) => ',' !in f && ',' !in n
    case Dele(_, _) => true
    case Rename(_, _, t) => ',' !in t
  }

  lemma StepRefines(s: Cache, op: Op)
    requires Inv(s) && CleanOp(op)
    ensures Refines(s, op, TieredStore.Step(s, op).0, TieredStore.Step(s, op).1)
  {
    hide Inv, Refines;
    match op {
      case Put(u, f, v) => PutOk(s, u, f, v);
      case Get(u, f) => GetOk(s, u, f);
      case Cput(u, f, o, n) => CputOk(s, u, f, o, n);
      case Dele(u, f) => DeleOk(s, u, f);
      case Rename(u, f, t) => RenameOk(s, u, f, t);
    }
  }

  /** Tiering is invisible in one step: the joined map, the size record and the reply are
      those of the flat store, and the invariant holds again. */
  lemma StepOk(s: Cache, op: Op)
    requires Inv(s) && CleanOp(op)
    ensures var (t, r) := TieredStore.Step(s, op);
      && Inv(t) && t.capacity == s.capacity
      && View(t) == Next(s.capacity, View(s), op)
      && r == ReplyOf(s.capacity, View(s), op)
  {
    StepRefines(s, op);
    hide Sound, View, Next, ReplyOf, FlatOk, TieredStore.Step;
    NextOk(s.capacity, View(s), op);
  }

  function Execute(s: Cache, ops: seq<Op>): Cache
    decreases |ops|
  {
    if ops == [] then s else Execute(TieredStore.Step(s, ops[0]).0, ops[1..])
  }

  function Replies(s: Cache, ops: seq<Op>): seq<Reply>
    decreases |ops|
  {
    if ops == [] then [] else [TieredStore.Step(s, ops[0]).1] + Replies(TieredStore.Step(s, ops[0]).0, ops[1..])
  }

  function FlatReplies(cap: nat, a: Flat, ops: seq<Op>): seq<Reply>
    decreases |ops|
  {
    if ops == [] then [] else [ReplyOf(cap, a, ops[0])] + FlatReplies(cap, Next(cap, a, ops[0]), ops[1..])
  }

  /** Tiering is invisible over every run: after any operations, with whatever evictions and
      reloads they cause, the two tiers joined are the flat store after the same operations,
      and every reply is the flat store's reply. */
  lemma {:induction false} RunRefines(s: Cache, ops: seq<Op>)
    requires Inv(s) && forall i :: 0 <= i < |ops| ==> CleanOp(ops[i])
    ensures Inv(Execute(s, ops)) && Execute(s, ops).capacity == s.capacity
    ensures View(Execute(s, ops)) == Run(s.capacity, View(s), ops)
    ensures Replies(s, ops) == FlatReplies(s.capacity, View(s), ops)
    decreases |ops|
  {
    hide Inv, View, Next, ReplyOf, TieredStore.Step;
    if ops != [] {
      StepOk(s, ops[0]);
      RunRefines(TieredStore.Step(s, ops[0]).0, ops[1..]);
    }
  }
}
