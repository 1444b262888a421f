/** How many bytes are resident after a put, exactly, and which operations of a run leave more than
    the capacity in memory. */
module Overfill {
  import opened KeyOrder
  import opened RowCodec
  import opened Chunks
  import opened FlatStore
  import opened TieredStore
  import opened Tiering
  import opened Refinement
  import LruCache

  // ----- one eviction loop after another

  lemma {:induction false} EvictTwice(s: Cache, a: nat, b: nat)
    requires a <= b
    ensures EvictUntil(EvictUntil(s, a), b) == EvictUntil(s, b)
    decreases |s.order|
  {
    hide Evict;
    if s.used + a > s.capacity && s.order != [] {
      EvictFields(s);
      EvictTwice(Evict(s), a, b);
    }
  }

  lemma {:induction false} EvictLeaves(s: Cache, a: nat)
    ensures var t := EvictUntil(s, a); t.capacity == s.capacity && (t.used + a <= s.capacity || t.order == [])
    decreases |s.order|
  {
    hide Evict;
    if s.used + a > s.capacity && s.order != [] {
      EvictFields(s);
      EvictLeaves(Evict(s), a);
    }
  }

  lemma EvictMax(s: Cache, a: nat, b: nat)
    ensures EvictUntil(EvictUntil(s, a), b) == EvictUntil(s, Max(a, b))
  {
    hide Evict;
    if a <= b { EvictTwice(s, a, b); } else { EvictLeaves(s, a); }
  }

  /** Eviction does not look at the chunk files. */
  ghost predicate Alike(s: Cache, t: Cache) {
    s.capacity == t.capacity && s.used == t.used && s.order == t.order && s.tablets == t.tablets
  }

  lemma {:induction false} EvictAlike(s: Cache, t: Cache, need: nat)
    requires Alike(s, t)
    ensures Alike(EvictUntil(s, need), EvictUntil(t, need))
    decreases |s.order|
  {
    hide SizeOf, WriteRow, FormatNode;
    if s.used + need > s.capacity && s.order != [] {
      assert Alike(Evict(s), Evict(t));
      EvictFields(s);
      hide Evict;
      EvictAlike(Evict(s), Evict(t), need);
    }
  }

  // ----- a store with one more user at its end

  /** `s` is `e` with `u`, `p` bytes of it, as most recent user. */
  ghost predicate Plus(s: Cache, e: Cache, u: string, p: nat) {
    && u !in e.order && NoDup(e.order) && s.capacity == e.capacity && s.used == e.used + p && s.order == e.order + [u]
    && forall x :: x in e.order ==> Resident(s, x) == Resident(e, x)
  }

  lemma PlusEvict(s: Cache, e: Cache, u: string, p: nat)
    requires Plus(s, e, u, p) && e.order != []
    ensures s.order != [] && Plus(Evict(s), Evict(e), u, p)
  {
    hide SizeOf, WriteRow, FormatNode;
    var x := e.order[0];
    assert x in e.order && s.order[0] == x && s.order[1..] == e.order[1..] + [u];
    forall y | y in e.order[1..] ensures y in e.order && y != x {}
  }

  /** Room for `need` more bytes of `u` is made by sending away the same users that would go for all
      its bytes together. */
  lemma {:induction false} PlusUntil(s: Cache, e: Cache, u: string, p: nat, need: nat)
    requires Plus(s, e, u, p) && Counted(e, 0) && p + need <= s.capacity
    ensures Plus(EvictUntil(s, need), EvictUntil(e, p + need), u, p) && Counted(EvictUntil(e, p + need), 0)
    decreases |e.order|
  {
    hide Counted, Evict;
    if e.order == [] {
      EmptyUsed(e, 0);
    } else if e.used + (p + need) > e.capacity {
      PlusEvict(s, e, u, p);
      EvictCounted(e, 0);
      EvictFields(e);
      hide Plus;
      PlusUntil(Evict(s), Evict(e), u, p, need);
    }
  }

  lemma PlusPlace(s: Cache, e: Cache, u: string, p: nat, f: string, v: string)
    requires Plus(s, e, u, p)
    ensures Plus(Place(s, u, f, v), e, u, p + |v|)
  {
    hide AppendTo, Touch;
    TouchTail(e.order, u);
  }

  lemma FirstPlace(e: Cache, u: string, f: string, v: string)
    requires u !in e.order && NoDup(e.order)
    ensures Plus(Place(e, u, f, v), e, u, |v|)
  {
    hide AppendTo, Touch;
    TouchTail(e.order, u);
  }

  // ----- a reload

  lemma {:induction false} RestorePlus(s: Cache, e: Cache, u: string, p: nat, files: Files, ks: seq<string>)
    requires Plus(s, e, u, p) && Counted(e, 0) && EvictUntil(e, p) == e
    requires NoDup(ks) && forall k :: k in ks ==> k in files
    requires p + SizeOf(Restrict(files, ks)) <= e.capacity
    ensures var n := p + SizeOf(Restrict(files, ks));
      Plus(RestoreUser(s, u, KeyTokens(files, ks)), EvictUntil(e, n), u, n)
    decreases |ks|
  {
    hide Plus, Counted, SizeOf, Restrict, RestoreUser, KeyTokens, Place, EvictUntil;
    if ks == [] {
      NoneToRestore(s, u, files);
    } else {
      var v := files[ks[0]];
      RestrictFirst(files, ks);
      RestoreStep(s, u, files, ks);
      SameCapacity(s, e, u, p);
      PlusUntil(s, e, u, p, |v|);
      PlusPlace(EvictUntil(s, |v|), EvictUntil(e, p + |v|), u, p, ks[0], v);
      EvictLeaves(e, p + |v|);
      EvictMax(e, p + |v|, p + |v|);
      EvictMax(e, p + |v|, p + SizeOf(Restrict(files, ks)));
      RestorePlus(InternalPut(s, u, ks[0], v), EvictUntil(e, p + |v|), u, p + |v|, files, ks[1..]);
    }
  }

  lemma SameCapacity(s: Cache, e: Cache, u: string, p: nat)
    requires Plus(s, e, u, p)
    ensures s.capacity == e.capacity && s.used == e.used + p
  {
  }

  lemma NoneToRestore(s: Cache, u: string, files: Files)
    ensures KeyTokens(files, []) == [] && RestoreUser(s, u, []) == s && SizeOf(Restrict(files, [])) == 0
  {
    SizeOfNone();
    assert Restrict(files, []) == map[];
  }

  lemma RestoreUsed(r: Cache, u: string, files: Files, ks: seq<string>)
    requires Counted(r, 0) && u !in r.order && ks != [] && NoDup(ks) && forall k :: k in ks ==> k in files
    requires SizeOf(Restrict(files, ks)) <= r.capacity
    ensures var n := SizeOf(Restrict(files, ks));
      RestoreUser(r, u, KeyTokens(files, ks)).used == EvictUntil(r, n).used + n
  {
    hide Counted, Plus, SizeOf, Restrict, RestoreUser, KeyTokens, InternalPut, EvictUntil;
    var v, n := files[ks[0]], SizeOf(Restrict(files, ks));
    var e := EvictUntil(r, |v|);
    RestrictFirst(files, ks);
    FirstPut(r, u, ks[0], v);
    RestoreStep(r, u, files, ks);
    EvictMax(r, |v|, |v|);
    EvictMax(r, |v|, n);
    RestorePlus(InternalPut(r, u, ks[0], v), e, u, |v|, files, ks[1..]);
    SameCapacity(RestoreUser(r, u, KeyTokens(files, ks)), EvictUntil(r, n), u, n);
  }

  lemma FirstPut(r: Cache, u: string, f: string, v: string)
    requires Counted(r, 0) && u !in r.order && |v| <= r.capacity
    ensures var e := EvictUntil(r, |v|);
      Plus(InternalPut(r, u, f, v), e, u, |v|) && Counted(e, 0) && e.capacity == r.capacity
  {
    hide Counted, Plus, Place, EvictUntil;
    FirstEvicts(r, |v|);
    FirstPlace(EvictUntil(r, |v|), u, f, v);
  }

  lemma {:induction false} FirstEvicts(r: Cache, need: nat)
    requires Counted(r, 0)
    ensures var e := EvictUntil(r, need);
      Counted(e, 0) && NoDup(e.order) && e.capacity == r.capacity && (forall x :: x in e.order ==> x in r.order)
    decreases |r.order|
  {
    hide Evict, Sizes;
    if r.used + need > r.capacity && r.order != [] {
      EvictCounted(r, 0);
      EvictFields(r);
      FirstEvicts(Evict(r), need);
    }
  }

  /** A reload of `n` bytes leaves what the eviction loop for `n` bytes would, and the `n` bytes. */
  lemma ReloadUsed(s: Cache, u: string)
    requires Sound(s, 0) && u in s.vm.meta && SizeOf(FilesOf(s, u)) <= s.capacity
    ensures var n := SizeOf(FilesOf(s, u)); Reload(s, u).used == EvictUntil(s, n).used + n
    ensures Reload(s, u).capacity == s.capacity
  {
    var files, r := FilesOf(s, u), s.(vm := Forget(s.vm, u));
    var ks := SortedKeys(files.Keys);
    NotListed(s, u);
    hide Sound, Counted, SizeOf, FilesOf, Reload, RestoreUser, KeyTokens, SortedKeys, EvictUntil, Restored;
    LruCache.ReloadReady(s, u);
    SortedKeysNoDup(files.Keys);
    WholeFiles(files);
    EvictAlike(s, r, SizeOf(files));
    RestoreUsed(r, u, files, ks);
    var k := ReloadOk(s, u);
    RestoredCapacity(s, Reload(s, u), u, k, files);
  }

  lemma RestoredCapacity(s: Cache, t: Cache, u: string, k: nat, files: Files)
    requires Restored(s, t, u, s.order, k, files)
    ensures t.capacity == s.capacity
  {
    hide Restoring, FlatFiles;
  }

  lemma WholeFiles(files: Files)
    requires files != map[]
    ensures Restrict(files, SortedKeys(files.Keys)) == files && SortedKeys(files.Keys) != []
  {
    JoinAll(files);
  }

  lemma NotListed(s: Cache, u: string)
    requires Sound(s, 0) && u in s.vm.meta
    ensures Counted(s.(vm := Forget(s.vm, u)), 0) && u !in s.order && FilesOf(s, u) != map[]
  {
    hide ReadRow, Decode, FormatNode, CommaFree, AreaOk, Sizes;
  }

  // ----- a put

  /** The resident bytes after an accepted put: the bytes that the eviction loop for the larger of the
      value and the reloaded files leaves, and both of these. */
  lemma PutUsed(s: Cache, u: string, f: string, v: string)
    requires Inv(s) && |v| <= s.capacity && SizeAt(s.userSize, u) + |v| < s.capacity
    ensures SizeAt(s.userSize, u) >= 0
    ensures var n := SizeAt(s.userSize, u);
      TieredStore.Put(s, u, f, v).0.used
        == if HitsDisk(s, u, v) then EvictUntil(s, Max(|v|, n)).used + n + |v| else EvictUntil(s, |v|).used + |v|
  {
    hide Inv, Sound, FlatFiles, SizeOf, FilesOf, Reload, EvictUntil, Spilled;
    UserBound(s, u);
    var n := SizeAt(s.userSize, u);
    InvSound(s);
    var k := EvictUntilOk(s, |v|, 0);
    var e := EvictUntil(s, |v|);
    EvictLeaves(s, |v|);
    if HitsDisk(s, u, v) {
      FlatHas(e, u);
      ReloadUsed(e, u);
      EvictMax(s, |v|, n);
    }
  }

  lemma InvSound(s: Cache)
    requires Inv(s)
    ensures Sound(s, 0) && s.capacity > 0
  {
  }

  /** The put of `v` reloads `u`, and what the eviction loop for the larger of the value and the
      reloaded files leaves does not fit together with both. All of it can be read off the list and
      the size record (whose entries are never negative) before the put. */
  predicate TooMuch(s: Cache, u: string, v: string) {
    var n := SizeAt(s.userSize, u);
    n >= 0 && HitsDisk(s, u, v) && EvictUntil(s, Max(|v|, n)).used + n + |v| > s.capacity
  }

  /** A put keeps the resident bytes within capacity exactly when it does not reload its user, or the
      bytes left by the evictions, the reloaded ones and the new ones fit together. */
  lemma PutWithinIff(s: Cache, u: string, f: string, v: string)
    requires Inv(s) && |v| <= s.capacity && SizeAt(s.userSize, u) + |v| < s.capacity
    ensures TieredStore.Put(s, u, f, v).0.used <= s.capacity <==> !TooMuch(s, u, v)
  {
    hide Inv, EvictUntil, TieredStore.Put;
    PutUsed(s, u, f, v);
    LeftRoom(s, |v|);
  }

  lemma LeftRoom(s: Cache, need: nat)
    requires Inv(s) && need <= s.capacity
    ensures EvictUntil(s, need).used + need <= s.capacity
  {
    hide FlatFiles, Spilled, Sound, FlatOk;
    var k := EvictUntilOk(s, need, 0);
    EvictLeaves(s, need);
    SoundCounted(EvictUntil(s, need), 0);
    if EvictUntil(s, need).order == [] { EmptyUsed(EvictUntil(s, need), 0); }
  }

  // ----- every operation

  /** The operations that leave more than the capacity in memory. */
  predicate Overfills(s: Cache, op: Op) {
    && op.Put? && |op.value| <= s.capacity && SizeAt(s.userSize, op.user) + |op.value| < s.capacity
    && TooMuch(s, op.user, op.value)
  }

  lemma GetWithin(s: Cache, u: string, f: string)
    requires Inv(s) && s.used <= s.capacity
    ensures var t := TieredStore.Get(s, u, f).0; t.used <= s.capacity && t.capacity == s.capacity
  {
    hide Inv, Sound, FlatFiles, TieredStore.Get;
    if Exists(s, u) {
      var k := GetAccesses(s, u, f);
    } else {
      GetNobody(s, u, f);
    }
  }

  lemma GetNobody(s: Cache, u: string, f: string)
    requires !Exists(s, u)
    ensures TieredStore.Get(s, u, f) == (s, NoSuchUser)
  {
  }

  lemma ValueExists(s: Cache, u: string, f: string)
    requires TieredStore.Get(s, u, f).1.Value?
    ensures Exists(s, u)
  {
    if !Exists(s, u) { GetNobody(s, u, f); }
  }

  lemma CputWithin(s: Cache, u: string, f: string, old_: string, new_: string)
    requires Inv(s) && s.used <= s.capacity && ',' !in f && ',' !in new_
    ensures TieredStore.Cput(s, u, f, old_, new_).0.used <= s.capacity
  {
    hide Inv, Sound, FlatFiles, SizeOf, TieredStore.Get, EvictUntil, Exists, GoodFiles;
    GetWithin(s, u, f);
    if TieredStore.Get(s, u, f).1 == Value(old_) && SizeAt(s.userSize, u) - |old_| + |new_| < s.capacity {
      ValueExists(s, u, f);
      CputMakesRoom(s, u, f, old_, new_);
    }
  }

  lemma DeleWithin(s: Cache, u: string, f: string)
    requires Inv(s) && s.used <= s.capacity
    ensures TieredStore.Dele(s, u, f).0.used <= s.capacity
  {
    hide Inv, TieredStore.Get;
    GetWithin(s, u, f);
  }

  lemma RenameWithin(s: Cache, u: string, f: string, to: string)
    requires Inv(s) && s.used <= s.capacity
    ensures TieredStore.Rename(s, u, f, to).0.used <= s.capacity
  {
    hide Inv, TieredStore.Get;
    GetWithin(s, u, f);
  }

  /** From a state within capacity, an operation stays within it exactly when it is no overfilling put. */
  lemma StepWithinIff(s: Cache, op: Op)
    requires Inv(s) && CleanOp(op) && s.used <= s.capacity
    ensures TieredStore.Step(s, op).0.used <= s.capacity <==> !Overfills(s, op)
  {
    hide Inv, TooMuch, TieredStore.Get, TieredStore.Cput, TieredStore.Dele, TieredStore.Rename;
    match op {
      case Put(u, f, v) =>
        if |v| <= s.capacity && SizeAt(s.userSize, u) + |v| < s.capacity { PutWithinIff(s, u, f, v); }
      case Get(u, f) => GetWithin(s, u, f);
      case Cput(u, f, o, n) => CputWithin(s, u, f, o, n);
      case Dele(u, f) => DeleWithin(s, u, f);
      case Rename(u, f, to) => RenameWithin(s, u, f, to);
    }
  }

  ghost predicate AlwaysWithin(s: Cache, ops: seq<Op>) {
    forall i :: 0 <= i <= |ops| ==> Execute(s, ops[..i]).used <= s.capacity
  }

  /** None of the operations, where it is served, is an overfilling put. */
  predicate NeverOverfills(s: Cache, ops: seq<Op>)
    decreases |ops|
  {
    ops == [] || (!Overfills(s, ops[0]) && NeverOverfills(TieredStore.Step(s, ops[0]).0, ops[1..]))
  }

  lemma AlwaysFirst(s: Cache, ops: seq<Op>)
    requires ops != [] && TieredStore.Step(s, ops[0]).0.capacity == s.capacity
    ensures AlwaysWithin(s, ops)
       <==> (s.used <= s.capacity && AlwaysWithin(TieredStore.Step(s, ops[0]).0, ops[1..]))
  {
    hide TieredStore.Step;
    var t := TieredStore.Step(s, ops[0]).0;
    forall i | 0 <= i <= |ops| - 1 ensures Execute(s, ops[..i + 1]) == Execute(t, ops[1..][..i]) {
      assert ops[..i + 1][1..] == ops[1..][..i];
    }
    assert ops[..0] == [];
    if s.used <= s.capacity && AlwaysWithin(t, ops[1..]) {
      forall i | 0 <= i <= |ops| ensures Execute(s, ops[..i]).used <= s.capacity {
        if i > 0 { assert Execute(s, ops[..i - 1 + 1]) == Execute(t, ops[1..][..i - 1]); }
      }
    }
    if AlwaysWithin(s, ops) {
      assert Execute(s, ops[..0]).used <= s.capacity;
      forall i | 0 <= i <= |ops| - 1 ensures Execute(t, ops[1..][..i]).used <= t.capacity {
        assert Execute(s, ops[..i + 1]).used <= s.capacity;
      }
    }
  }

  /** A run that starts within capacity stays within it all along exactly when none of its operations
      is an overfilling put. */
  lemma {:induction false} RunWithinIff(s: Cache, ops: seq<Op>)
    requires Inv(s) && s.used <= s.capacity && forall i :: 0 <= i < |ops| ==> CleanOp(ops[i])
    ensures AlwaysWithin(s, ops) <==> NeverOverfills(s, ops)
    decreases |ops|
  {
    hide Inv, TieredStore.Step, Overfills, AlwaysWithin, Refines;
    if ops == [] {
      NoRun(s);
    } else {
      var t := TieredStore.Step(s, ops[0]).0;
      StepWithinIff(s, ops[0]);
      StepKeepsInv(s, ops[0]);
      AlwaysFirst(s, ops);
      if t.used <= t.capacity {
        RunWithinIff(t, ops[1..]);
      } else {
        StartsWithin(t, ops[1..]);
      }
    }
  }

  lemma NoRun(s: Cache)
    requires s.used <= s.capacity
    ensures AlwaysWithin(s, [])
  {
    var none: seq<Op> := [];
    assert none[..0] == [];
  }

  lemma StartsWithin(s: Cache, ops: seq<Op>)
    ensures AlwaysWithin(s, ops) ==> s.used <= s.capacity
  {
    assert ops[..0] == [];
  }

  lemma StepKeepsInv(s: Cache, op: Op)
    requires Inv(s) && CleanOp(op)
    ensures Inv(TieredStore.Step(s, op).0) && TieredStore.Step(s, op).0.capacity == s.capacity
  {
    hide Inv, TieredStore.Step;
    StepOk(s, op);
  }

  /** Over every run of an empty store. */
  lemma WithinFromEmpty(capacity: nat, chunkSize: Positive, ops: seq<Op>)
    requires capacity > 0 && forall i :: 0 <= i < |ops| ==> CleanOp(ops[i])
    ensures AlwaysWithin(Fresh(capacity, chunkSize), ops) <==> NeverOverfills(Fresh(capacity, chunkSize), ops)
  {
    FreshInv(capacity, chunkSize);
    hide Inv;
    RunWithinIff(Fresh(capacity, chunkSize), ops);
  }
}
