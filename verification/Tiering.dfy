/** Eviction and reload are invisible: every operation of the two-tier store does to the
    joined map exactly what the flat store does, and keeps the invariants. */
module Tiering {
  import opened KeyOrder
  import opened RowCodec
  import opened Chunks
  import opened TieredStore

  lemma SoundCounted(s: Cache, d: int)
    requires Sound(s, d)
    ensures Counted(s, d)
  {
  }

  // ----- eviction

  lemma EvictSum(s: Cache, d: int)
    requires Counted(s, d) && s.order != []
    ensures Evict(s).used + d == Sum(Sizes(Evict(s).tablets))
  {
    hide SizeOf, WriteRow, FormatNode;
    var u := s.order[0];
    assert u in s.order;
    SumRemove(Sizes(s.tablets), u);
    assert Sizes(s.tablets - {u}) == Sizes(s.tablets) - {u};
  }

  lemma EvictCounted(s: Cache, d: int)
    requires Counted(s, d) && s.order != []
    ensures Counted(Evict(s), d)
  {
    EvictSum(s, d);
    EvictList(s);
    hide Sizes, WriteRow, FormatNode, Evict, ListOk;
  }

  lemma EvictList(s: Cache)
    requires ListOk(s) && s.order != []
    ensures ListOk(Evict(s))
  {
    hide WriteRow, FormatNode, SizeOf;
    var t := Evict(s);
    assert s.order == [s.order[0]] + t.order;
    assert s.order[0] !in t.order;
  }

  /** The evicted user's row reads back as its files; nobody else's row changes. */
  lemma EvictRows(s: Cache, d: int)
    requires Sound(s, d) && s.order != []
    ensures var u := s.order[0]; var t := Evict(s);
      && AreaOk(t.vm)
      && t.vm.meta.Keys == s.vm.meta.Keys + {u}
      && GoodRow(t.vm, u) && Decode(ReadRow(t.vm, u)) == s.tablets[u]
      && (forall x :: x in s.vm.meta ==> ReadRow(t.vm, x) == ReadRow(s.vm, x))
  {
    var u := s.order[0];
    assert u in s.order;
    WriteRowReads(s.vm, u, FormatNode(s.tablets[u]));
    DecodeFormat(s.tablets[u]);
  }

  lemma HeadResident(s: Cache, d: int)
    requires Counted(s, d) && s.order != []
    ensures s.order[0] in s.tablets
  {
    assert s.order[0] in s.order;
  }

  lemma EvictSound(s: Cache, d: int)
    requires Sound(s, d) && s.order != []
    ensures Sound(Evict(s), d)
  {
    hide Counted, FormatNode, ReadRow, Decode, WriteRow;
    EvictCounted(s, d);
    assert s.order[0] in s.tablets by { HeadResident(s, d); }
    EvictRows(s, d);
    var t := Evict(s);
    forall x | x in t.vm.meta ensures GoodRow(t.vm, x) {
      assert x != s.order[0] ==> GoodRow(s.vm, x);
    }
  }

  lemma EvictFileOf(s: Cache, d: int, x: string)
    requires Sound(s, d) && s.order != []
    requires x in s.tablets || x in s.vm.meta
    ensures FilesOf(Evict(s), x) == FilesOf(s, x)
  {
    hide Decode, ReadRow, FormatNode, GoodRow, GoodFiles, AreaOk, WriteRow, SizeOf;
    assert s.order[0] in s.order;
    EvictRows(s, d);
  }

  lemma EvictFlat(s: Cache, d: int)
    requires Sound(s, d) && s.order != []
    ensures FlatFiles(Evict(s)) == FlatFiles(s)
  {
    hide FilesOf, Decode, ReadRow, FormatNode, GoodRow, GoodFiles, AreaOk, WriteRow, SizeOf;
    assert s.order[0] in s.order;
    EvictRows(s, d);
    forall x | x in s.tablets || x in s.vm.meta ensures FilesOf(Evict(s), x) == FilesOf(s, x) {
      EvictFileOf(s, d, x);
    }
    assert FlatFiles(Evict(s)).Keys == FlatFiles(s).Keys;
  }

  function Firsts(order: seq<string>, k: nat): set<string>
    requires k <= |order|
  {
    set u | u in order[..k]
  }

  /** `t` is `s` after its `k` least recently used users went to disk. */
  ghost predicate Spilled(s: Cache, t: Cache, k: nat) {
    && k <= |s.order| && t.order == s.order[k..]
    && t.capacity == s.capacity && t.userSize == s.userSize
    && t.vm.meta.Keys == s.vm.meta.Keys + Firsts(s.order, k)
    && (forall u :: u in t.tablets ==> u in s.tablets && t.tablets[u] == s.tablets[u])
  }

  lemma FirstsStep(order: seq<string>, k: nat)
    requires k < |order|
    ensures Firsts(order, k + 1) == {order[0]} + Firsts(order[1..], k)
    ensures order[1..][k..] == order[k + 1..]
  {
    assert order[..k + 1] == [order[0]] + order[1..][..k];
  }

  lemma EvictSpills(s: Cache, d: int, t: Cache, k: nat)
    requires Sound(s, d) && s.order != [] && Spilled(Evict(s), t, k)
    ensures Spilled(s, t, k + 1)
  {
    hide Sound, AreaOk, GoodRow, ReadRow, Decode, Firsts, WriteRow;
    EvictRows(s, d);
    FirstsStep(s.order, k);
  }

  /** The eviction loop: how many users it sends to disk, and that nothing else changes. */
  lemma {:induction false} EvictUntilOk(s: Cache, need: nat, d: int) returns (k: nat)
    requires Sound(s, d)
    ensures var t := EvictUntil(s, need);
      && Sound(t, d) && FlatFiles(t) == FlatFiles(s) && Spilled(s, t, k)
      && (t.used + need <= s.capacity || t.order == [])
    decreases |s.order|
  {
    hide Sound, FlatFiles;
    if s.used + need <= s.capacity || s.order == [] {
      k := 0;
    } else {
      EvictSound(s, d);
      EvictFlat(s, d);
      var j := EvictUntilOk(Evict(s), need, d);
      EvictSpills(s, d, EvictUntil(s, need), j);
      k := j + 1;
    }
  }

  /** The least recently used users that `k` turns of the loop send to disk. */
  function EvictTimes(s: Cache, k: nat): Cache
    decreases k
  {
    if k == 0 || s.order == [] then s else EvictTimes(Evict(s), k - 1)
  }

  /** The loop evicts no more than it must: before each eviction the value did not fit. */
  lemma {:induction false} EvictLeast(s: Cache, need: nat) returns (k: nat)
    ensures EvictUntil(s, need) == EvictTimes(s, k)
    ensures forall j :: 0 <= j < k ==> EvictTimes(s, j).used + need > s.capacity && EvictTimes(s, j).order != []
    decreases |s.order|
  {
    hide Evict;
    if s.used + need <= s.capacity || s.order == [] {
      k := 0;
    } else {
      EvictShorter(s);
      var i := EvictLeast(Evict(s), need);
      k := i + 1;
      forall j | 0 <= j < k ensures EvictTimes(s, j).used + need > s.capacity && EvictTimes(s, j).order != [] {
        if j > 0 { assert EvictTimes(s, j) == EvictTimes(Evict(s), j - 1); }
      }
    }
  }

  lemma EvictShorter(s: Cache)
    requires s.order != []
    ensures |Evict(s).order| < |s.order| && Evict(s).capacity == s.capacity
  {
  }

  lemma EmptyUsed(s: Cache, d: int)
    requires Counted(s, d) && s.order == []
    ensures s.used == -d
  {
    assert s.tablets == map[] by {
      assert forall u :: u in s.tablets ==> u in s.order;
    }
    assert Sizes(s.tablets) == map[];
  }

  lemma OneUsed(s: Cache, d: int, u: string)
    requires Counted(s, d) && s.order == [u]
    ensures s.used == SizeOf(s.tablets[u]) - d
  {
    assert forall x :: x in s.tablets ==> x in s.order;
    SumRemove(Sizes(s.tablets), u);
    assert Sizes(s.tablets) - {u} == map[];
  }

  lemma LastStays(s: Cache, d: int, u: string)
    requires Counted(s, d) && |s.order| > 1 && s.order[|s.order| - 1] == u
    ensures u in s.tablets && u != s.order[0]
    ensures var t := Evict(s); u in t.tablets && t.tablets[u] == s.tablets[u] && t.capacity == s.capacity
                               && t.order == s.order[1..] && t.order[|t.order| - 1] == u
  {
    hide AreaOk, GoodRow, GoodFiles, SizeOf, WriteRow, FormatNode;
    assert s.order[0] != u && u in s.order;
  }

  /** The most recently used user is never evicted when it fits alone. */
  lemma {:induction false} EvictProtects(s: Cache, need: nat, d: int, u: string)
    requires Counted(s, d) && s.order != [] && s.order[|s.order| - 1] == u
    requires SizeOf(s.tablets[u]) - d + need <= s.capacity
    ensures var t := EvictUntil(s, need);
      t.order != [] && t.order[|t.order| - 1] == u && t.used + need <= s.capacity
    decreases |s.order|
  {
    hide Counted, SizeOf, Evict;
    if s.used + need > s.capacity {
      if |s.order| == 1 {
        OneUsed(s, d, u);
      } else {
        EvictCounted(s, d);
        LastStays(s, d, u);
        EvictProtects(Evict(s), need, d, u);
      }
    }
  }

  // ----- writing to a resident user

  lemma SetFilesCounted(s: Cache, u: string, files: Files, delta: int, d: int)
    requires Counted(s, d)
    ensures Counted(SetFiles(s, u, files, delta), d - delta + SizeOf(files) - SizeOf(Resident(s, u)))
  {
    SetFilesSum(s, u, files, d);
    hide Sizes, SizeOf, Without;
    TouchOk(s.order, u);
  }

  lemma SetFilesSum(s: Cache, u: string, files: Files, d: int)
    requires Counted(s, d)
    ensures s.used + d + SizeOf(files) - SizeOf(Resident(s, u)) == Sum(Sizes(s.tablets[u := files]))
  {
    hide ListOk, SizeOf;
    SizeOfNone();
    SumUpdate(Sizes(s.tablets), u, SizeOf(files));
    assert Sizes(s.tablets[u := files]) == Sizes(s.tablets)[u := SizeOf(files)];
  }

  lemma SetFilesSound(s: Cache, u: string, files: Files, delta: int, d: int)
    requires Sound(s, d) && u !in s.vm.meta && GoodFiles(files)
    ensures Sound(SetFiles(s, u, files, delta), d - delta + SizeOf(files) - SizeOf(Resident(s, u)))
  {
    SetFilesCounted(s, u, files, delta, d);
    hide Counted, SizeOf, CommaFree, ReadRow, Decode, FormatNode;
  }

  lemma SetFilesFlat(s: Cache, u: string, files: Files, delta: int)
    ensures FlatFiles(SetFiles(s, u, files, delta)) == FlatFiles(s)[u := files]
  {
    var t := SetFiles(s, u, files, delta);
    assert t.tablets.Keys + t.vm.meta.Keys == s.tablets.Keys + s.vm.meta.Keys + {u};
  }

  // ----- reload

  /** `base` lists the other resident users; `u`, when resident, is the most recent one. */
  ghost predicate AtTail(s: Cache, u: string, base: seq<string>) {
    u !in base && s.order == if u in s.tablets then base + [u] else base
  }

  /** What a restoring put may rely on: `u` is nowhere on disk and is at the tail. */
  ghost predicate Restoring(s: Cache, u: string, base: seq<string>) {
    Sound(s, 0) && u !in s.vm.meta && AtTail(s, u, base)
  }

  /** The part of it that evictions need. */
  ghost predicate Calm(s: Cache, u: string, base: seq<string>) {
    Counted(s, 0) && u !in s.vm.meta && AtTail(s, u, base)
  }

  lemma EvictCalm(s: Cache, u: string, need: nat, base: seq<string>)
    requires Calm(s, u, base) && SizeOf(Resident(s, u)) + need <= s.capacity && s.used + need > s.capacity
    ensures base != [] && Calm(Evict(s), u, base[1..])
    ensures Resident(Evict(s), u) == Resident(s, u) && Evict(s).capacity == s.capacity
  {
    hide SizeOf, WriteRow, FormatNode, Counted;
    if base == [] {
      if u in s.tablets { OneUsed(s, 0, u); } else { EmptyUsed(s, 0); }
    }
    EvictCounted(s, 0);
    WriteRowKeys(s.vm, s.order[0], FormatNode(Resident(s, s.order[0])));
    assert base == [base[0]] + base[1..];
    assert s.order[1..] == if u in s.tablets then base[1..] + [u] else base[1..];
  }

  /** The evictions of a restoring put leave `u` where it is and always make room. */
  lemma {:induction false} SpareCalm(s: Cache, u: string, need: nat, base: seq<string>) returns (k: nat)
    requires Calm(s, u, base) && SizeOf(Resident(s, u)) + need <= s.capacity
    ensures var t := EvictUntil(s, need);
      && k <= |base| && Calm(t, u, base[k..]) && Resident(t, u) == Resident(s, u)
      && t.capacity == s.capacity && t.used + need <= s.capacity
    decreases |s.order|
  {
    hide SizeOf, Calm, Resident, Evict;
    if s.used + need <= s.capacity {
      k := 0;
      assert base[0..] == base;
    } else {
      EvictCalm(s, u, need, base);
      CalmList(s, u, base);
      EvictLess(s);
      var j := SpareCalm(Evict(s), u, need, base[1..]);
      k := j + 1;
      assert base[1..][j..] == base[k..];
    }
  }

  lemma CalmList(s: Cache, u: string, base: seq<string>)
    requires Calm(s, u, base) && base != []
    ensures s.order != []
  {
  }

  lemma EvictLess(s: Cache)
    requires s.order != []
    ensures |Evict(s).order| < |s.order|
  {
  }

  lemma SpareOk(s: Cache, u: string, need: nat, base: seq<string>) returns (k: nat)
    requires Restoring(s, u, base)
    requires SizeOf(Resident(s, u)) + need <= s.capacity
    ensures var t := EvictUntil(s, need);
      && k <= |base| && Restoring(t, u, base[k..]) && Resident(t, u) == Resident(s, u)
      && FlatFiles(t) == FlatFiles(s) && t.capacity == s.capacity && t.userSize == s.userSize
      && t.used + need <= s.capacity
  {
    assert Calm(s, u, base);
    hide Sound, Counted, FlatFiles, SizeOf;
    var i := EvictUntilOk(s, need, 0);
    k := SpareCalm(s, u, need, base);
  }

  /** The user's files after the puts that restore `ks`. */
  function Joined(part: Files, files: Files, ks: seq<string>): Files
    requires forall k :: k in ks ==> k in files
  {
    part + Restrict(files, ks)
  }

  lemma AppendGood(files: Files, f: string, v: string)
    requires CommaFree(files) && ',' !in f && ',' !in v
    ensures GoodFiles(AppendTo(files, f, v))
    ensures SizeOf(AppendTo(files, f, v)) == SizeOf(files) + |v|
  {
    SizeOfUpdate(files, f, ValueOf(files, f) + v);
    assert f in AppendTo(files, f, v);
  }

  lemma ResidentFree(s: Cache, d: int, u: string)
    requires Sound(s, d)
    ensures CommaFree(Resident(s, u))
  {
    if u in s.tablets { assert GoodFiles(s.tablets[u]); }
  }

  lemma PlaceOk(s: Cache, u: string, f: string, v: string, d: int)
    requires Sound(s, d) && u !in s.vm.meta && ',' !in f && ',' !in v
    ensures var t := Place(s, u, f, v);
      && Sound(t, d) && FlatFiles(t) == FlatFiles(s)[u := AppendTo(Resident(s, u), f, v)]
      && t.tablets[u] == AppendTo(Resident(s, u), f, v)
  {
    hide Sound, FlatFiles, SizeOf, CommaFree, GoodFiles;
    ResidentFree(s, d, u);
    AppendGood(Resident(s, u), f, v);
    SetFilesSound(s, u, AppendTo(Resident(s, u), f, v), |v|, d);
    SetFilesFlat(s, u, AppendTo(Resident(s, u), f, v), |v|);
  }

  /** `t` is `s` after `u` was brought, or kept, in memory with `files`; `k` users of
      `base` were evicted for it. */
  ghost predicate Restored(s: Cache, t: Cache, u: string, base: seq<string>, k: nat, files: Files) {
    && k <= |base| && Restoring(t, u, base[k..])
    && u in t.tablets && t.tablets[u] == files
    && FlatFiles(t) == FlatFiles(s)[u := files]
    && t.capacity == s.capacity && t.userSize == s.userSize && t.used <= t.capacity
  }

  lemma InternalPutOk(s: Cache, u: string, f: string, v: string, base: seq<string>) returns (k: nat)
    requires Restoring(s, u, base) && ',' !in f && ',' !in v
    requires SizeOf(Resident(s, u)) + |v| <= s.capacity
    ensures Restored(s, InternalPut(s, u, f, v), u, base, k, AppendTo(Resident(s, u), f, v))
  {
    hide Sound, FlatFiles, SizeOf;
    k := SpareOk(s, u, |v|, base);
    var e := EvictUntil(s, |v|);
    PlaceOk(e, u, f, v, 0);
    TouchTail(base[k..], u);
  }

  lemma RestoredTwice(s: Cache, m: Cache, t: Cache, u: string, base: seq<string>, k: nat, j: nat, part: Files,
                      files: Files)
    requires Restored(s, m, u, base, k, part) && Restored(m, t, u, base[k..], j, files)
    ensures Restored(s, t, u, base, k + j, files)
  {
    hide Sound, FlatFiles;
    assert base[k..][j..] == base[k + j..];
  }

  lemma JoinStep(part: Files, files: Files, ks: seq<string>)
    requires NoDup(ks) && ks != [] && (forall k :: k in ks ==> k in files && k !in part)
    ensures forall k :: k in ks[1..] ==> k in files && k !in AppendTo(part, ks[0], files[ks[0]])
    ensures Joined(AppendTo(part, ks[0], files[ks[0]]), files, ks[1..]) == Joined(part, files, ks)
    ensures SizeOf(part) + |files[ks[0]]| <= SizeOf(Joined(part, files, ks))
  {
    RestrictStep(part, files, ks);
    var next := AppendTo(part, ks[0], files[ks[0]]);
    assert ks[0] in ks;
    assert next == part[ks[0] := files[ks[0]]] by { assert "" + files[ks[0]] == files[ks[0]]; }
    SizeOfUpdate(part, ks[0], files[ks[0]]);
    hide SizeOf, AppendTo;
    SizeOfPart(next, Joined(part, files, ks));
  }

  /** The restoring puts of one user: its files arrive, others may be evicted, the user
      itself never is. */
  lemma {:induction false} RestoreUserOk(s: Cache, u: string, files: Files, ks: seq<string>, base: seq<string>)
    returns (k: nat)
    requires Restoring(s, u, base) && CommaFree(files) && NoDup(ks) && ks != []
    requires forall f :: f in ks ==> f in files && f !in Resident(s, u)
    requires SizeOf(Joined(Resident(s, u), files, ks)) <= s.capacity
    ensures Restored(s, RestoreUser(s, u, KeyTokens(files, ks)), u, base, k, Joined(Resident(s, u), files, ks))
    decreases |ks|
  {
    hide Sound, FlatFiles, SizeOf, InternalPut, RestoreUser, KeyTokens, Joined, AppendTo, Restoring;
    var part := Resident(s, u);
    var next := AppendTo(part, ks[0], files[ks[0]]);
    assert ks[0] in ks;
    JoinStep(part, files, ks);
    k := InternalPutOk(s, u, ks[0], files[ks[0]], base);
    RestoreStep(s, u, files, ks);
    if |ks| == 1 {
      JoinNone(next, files, ks[1..]);
    } else {
      var t := InternalPut(s, u, ks[0], files[ks[0]]);
      var j := RestoreUserOk(t, u, files, ks[1..], base[k..]);
      RestoredTwice(s, t, RestoreUser(t, u, KeyTokens(files, ks[1..])), u, base, k, j, next,
                    Joined(next, files, ks[1..]));
      k := k + j;
    }
  }

  lemma JoinNone(part: Files, files: Files, ks: seq<string>)
    requires ks == []
    ensures Joined(part, files, ks) == part
  {
  }

  lemma RestoreStep(s: Cache, u: string, files: Files, ks: seq<string>)
    requires ks != [] && forall f :: f in ks ==> f in files
    ensures RestoreUser(s, u, KeyTokens(files, ks))
         == RestoreUser(InternalPut(s, u, ks[0], files[ks[0]]), u, KeyTokens(files, ks[1..]))
    ensures |ks| == 1 ==> RestoreUser(s, u, KeyTokens(files, ks)) == InternalPut(s, u, ks[0], files[ks[0]])
  {
    hide InternalPut;
    var toks := KeyTokens(files, ks);
    assert toks[0] == ks[0] && toks[1] == files[ks[0]] && toks[2..] == KeyTokens(files, ks[1..]);
  }
}
