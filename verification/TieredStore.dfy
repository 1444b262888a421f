/** The two-tier store on values: resident users in recency order, all others as rows in
    chunk files. Each function is what the method of the same name in `LruCache` computes. */
module TieredStore {
  import opened KeyOrder
  import opened Text
  import opened RowCodec
  import opened Chunks
  import opened FlatStore

  /** `order` lists the resident users, least recently used first (`head->next` onwards). */
  datatype Cache = Cache(capacity: nat, used: int, order: seq<string>, tablets: map<string, Files>,
                         userSize: map<string, int>, vm: Area)

  function Without(order: seq<string>, u: string): seq<string> {
    if order == [] then []
    else if order[0] == u then Without(order[1..], u)
    else [order[0]] + Without(order[1..], u)
  }

  /** Unlink (when linked), then append before the tail sentinel. */
  function Touch(order: seq<string>, u: string): seq<string> { Without(order, u) + [u] }

  function Resident(s: Cache, u: string): Files { FilesAt(s.tablets, u) }

  /** `use_virtual_memory`: the least recently used user goes to disk. */
  function Evict(s: Cache): Cache
    requires s.order != []
  {
    var u := s.order[0];
    s.(vm := WriteRow(s.vm, u, FormatNode(Resident(s, u))),
       tablets := s.tablets - {u},
       order := s.order[1..],
       used := s.used - SizeOf(Resident(s, u)))
  }

  /** `while (!put_helper(...)) use_virtual_memory();` up to the last, successful call. */
  function EvictUntil(s: Cache, need: nat): Cache
    decreases |s.order|
  {
    if s.used + need <= s.capacity || s.order == [] then s
    else EvictUntil(Evict(s), need)
  }

  /** A resident user gets new files and becomes the most recently used one. */
  function SetFiles(s: Cache, u: string, files: Files, delta: int): Cache {
    s.(tablets := s.tablets[u := files], order := Touch(s.order, u), used := s.used + delta)
  }

  function Place(s: Cache, u: string, f: string, v: string): Cache {
    SetFiles(s, u, AppendTo(Resident(s, u), f, v), |v|)
  }

  /** `put` with `external == false`, as `restore_user` calls it. */
  function InternalPut(s: Cache, u: string, f: string, v: string): Cache {
    if |v| > s.capacity then s else Place(EvictUntil(s, |v|), u, f, v)
  }

  function RestoreUser(s: Cache, u: string, toks: seq<string>): Cache
    decreases |toks|
  {
    if |toks| < 2 then s else RestoreUser(InternalPut(s, u, toks[0], toks[1]), u, toks[2..])
  }

  /** `load_user_from_disk` for virtual memory. */
  function Reload(s: Cache, u: string): Cache {
    RestoreUser(s.(vm := Forget(s.vm, u)), u, Tokens(ReadRow(s.vm, u), ','))
  }

  /** An accepted external put. */
  function PutTo(s: Cache, u: string, f: string, v: string): Cache {
    var t := EvictUntil(s, |v|);
    Place(if u in t.vm.meta then Reload(t, u) else t, u, f, v)
  }

  function SetSize(s: Cache, u: string, n: int): Cache { s.(userSize := s.userSize[u := n]) }

  function Put(s: Cache, u: string, f: string, v: string): (Cache, Reply) {
    var n := SizeAt(s.userSize, u);
    if |v| > s.capacity then (s, FileTooBig)
    else if n + |v| >= s.capacity then (SetSize(s, u, n), StorageExceeded)
    else (SetSize(PutTo(s, u, f, v), u, n + |v|), Stored)
  }

  predicate Exists(s: Cache, u: string) { u in s.tablets || u in s.vm.meta }

  /** The part of `get_helper` that reloads and touches the user. */
  function Access(s: Cache, u: string): Cache {
    var r := if u in s.vm.meta then Reload(s, u) else s;
    r.(order := Touch(r.order, u))
  }

  function Get(s: Cache, u: string, f: string): (Cache, Reply) {
    if !Exists(s, u) then (s, NoSuchUser)
    else
      var a := Access(s, u);
      if f !in Resident(a, u) then (a, NoSuchFile) else (a, Value(Resident(a, u)[f]))
  }

  /** `cput` with the eviction loop of `put`; sizes change only when the value does. */
  function Cput(s: Cache, u: string, f: string, old_: string, new_: string): (Cache, Reply) {
    var (a, r) := Get(s, u, f);
    var n := SizeAt(s.userSize, u) - |old_| + |new_|;
    if !r.Value? then (a, r)
    else if r.value != old_ then (a, VersionCheckFailed)
    else if n >= s.capacity then (a, StorageExceeded)
    else
      var t := EvictUntil(a.(used := a.used - |old_|), |new_|);
      (SetSize(SetFiles(t, u, Resident(t, u)[f := new_], |new_|), u, n), Stored)
  }

  function RemoveUser(s: Cache, u: string): Cache {
    s.(tablets := s.tablets - {u}, order := Without(s.order, u))
  }

  /** `dele`; a user left without files is unlinked and removed. */
  function Dele(s: Cache, u: string, f: string): (Cache, Reply) {
    var (a, r) := Get(s, u, f);
    if !r.Value? then (a, r)
    else
      var rest := Resident(a, u) - {f};
      var b := SetSize(SetFiles(a, u, rest, -|r.value|), u, SizeAt(s.userSize, u) - |r.value|);
      (if rest == map[] then RemoveUser(b, u) else b, Deleted)
  }

  /** `rename`, subtracting the size of an overwritten target. */
  function Rename(s: Cache, u: string, f: string, to: string): (Cache, Reply) {
    var (a, r) := Get(s, u, f);
    if !r.Value? then (a, r)
    else
      var rest := Resident(a, u) - {f};
      var lost := |ValueOf(rest, to)|;
      (SetSize(SetFiles(a, u, rest[to := r.value], -lost), u, SizeAt(s.userSize, u) - lost), Renamed)
  }

  /** The three branches of `put_helper` that store a value that fits. */
  function StoreIn(s: Cache, u: string, f: string, v: string, isCput: bool): Cache {
    if u in s.vm.meta then Place(Reload(s, u), u, f, v)
    else if isCput then SetFiles(s, u, Resident(s, u)[f := v], |v|)
    else Place(s, u, f, v)
  }

  /** One call of `put_helper`: whether it is done, and its reply when it is. */
  function Attempt(s: Cache, u: string, f: string, v: string, external: bool, isCput: bool): (Cache, bool, Reply) {
    var n := SizeAt(s.userSize, u);
    var b := if external || isCput then SetSize(s, u, n) else s;
    if (external || isCput) && n + |v| >= s.capacity then (b, true, StorageExceeded)
    else if s.used + |v| > s.capacity then (b, false, Stored)
    else
      var t := StoreIn(b, u, f, v, isCput);
      (if external || isCput then SetSize(t, u, n + |v|) else t, true, Stored)
  }

  function Step(s: Cache, op: Op): (Cache, Reply) {
    match op
    case Put(u, f, v) => Put(s, u, f, v)
    case Get(u, f) => Get(s, u, f)
    case Cput(u, f, o, n) => Cput(s, u, f, o, n)
    case Dele(u, f) => Dele(s, u, f)
    case Rename(u, f, t) => Rename(s, u, f, t)
  }

  // ----- what the state means

  function FilesOf(s: Cache, u: string): Files {
    if u in s.tablets then s.tablets[u] else Decode(ReadRow(s.vm, u))
  }

  /** Both tiers joined: the one map a client sees. */
  function FlatFiles(s: Cache): map<string, Files> {
    map u | u in s.tablets.Keys + s.vm.meta.Keys :: FilesOf(s, u)
  }

  function View(s: Cache): Flat { Flat(FlatFiles(s), s.userSize) }

  function Sizes(tablets: map<string, Files>): map<string, nat> {
    map u | u in tablets :: SizeOf(tablets[u])
  }

  ghost predicate ListOk(s: Cache) {
    NoDup(s.order) && forall u :: u in s.order <==> u in s.tablets
  }

  ghost predicate GoodFiles(files: Files) { files != map[] && CommaFree(files) }

  /** The bytes stored for `u` are the row of some good file map. */
  ghost predicate GoodRow(vm: Area, u: string) {
    var row := ReadRow(vm, u);
    GoodFiles(Decode(row)) && row == FormatNode(Decode(row))
  }

  /** List and table agree, and `used` is, up to `d`, the sum of the resident sizes (`d` is
      non-zero only inside `cput`). */
  ghost predicate Counted(s: Cache, d: int) {
    ListOk(s) && s.used + d == Sum(Sizes(s.tablets))
  }

  /** No user is in both tiers and every stored row decodes. */
  ghost predicate Sound(s: Cache, d: int) {
    && Counted(s, d)
    && AreaOk(s.vm)
    && s.tablets.Keys !! s.vm.meta.Keys
    && (forall u :: u in s.tablets ==> GoodFiles(s.tablets[u]))
    && (forall u :: u in s.vm.meta ==> GoodRow(s.vm, u))
  }

  // ----- lists

  lemma {:induction false} WithoutAbsent(order: seq<string>, u: string)
    requires u !in order
    ensures Without(order, u) == order
  {
    if order != [] { WithoutAbsent(order[1..], u); }
  }

  lemma {:induction false} WithoutAt(order: seq<string>, u: string, k: nat)
    requires NoDup(order) && k < |order| && order[k] == u
    ensures Without(order, u) == order[..k] + order[k + 1..]
  {
    if k == 0 {
      assert u !in order[1..];
      WithoutAbsent(order[1..], u);
    } else {
      WithoutAt(order[1..], u, k - 1);
      assert order[..k] == [order[0]] + order[1..][..k - 1];
      assert order[1..][k..] == order[k + 1..];
    }
  }

  lemma WithoutOk(order: seq<string>, u: string)
    requires NoDup(order)
    ensures NoDup(Without(order, u))
    ensures forall x :: x in Without(order, u) <==> x in order && x != u
  {
    if u in order {
      var k :| 0 <= k < |order| && order[k] == u;
      WithoutAt(order, u, k);
      var w := Without(order, u);
      assert w == order[..k] + order[k + 1..];
      forall x | x in order && x != u ensures x in w {
        var j :| 0 <= j < |order| && order[j] == x;
        if j < k { assert w[j] == x; } else { assert w[j - 1] == x; }
      }
      forall i | 0 <= i < |w| ensures w[i] != u && w[i] in order {
        assert w[i] == order[if i < k then i else i + 1];
      }
    } else {
      WithoutAbsent(order, u);
    }
  }

  lemma TouchOk(order: seq<string>, u: string)
    requires NoDup(order)
    ensures NoDup(Touch(order, u))
    ensures forall x :: x in Touch(order, u) <==> x in order || x == u
  {
    WithoutOk(order, u);
    var w, t := Without(order, u), Touch(order, u);
    assert t[|w|] == u;
    forall x ensures x in t <==> x in order || x == u {
      if x in order && x != u {
        var j :| 0 <= j < |w| && w[j] == x;
        assert t[j] == x;
      }
    }
    assert u !in w;
  }

  lemma TouchTail(rest: seq<string>, u: string)
    requires u !in rest
    ensures Touch(rest, u) == rest + [u] && Touch(rest + [u], u) == rest + [u]
  {
    WithoutAbsent(rest, u);
    WithoutLast(rest, u);
  }

  lemma {:induction false} WithoutLast(rest: seq<string>, u: string)
    requires u !in rest
    ensures Without(rest + [u], u) == rest
  {
    if rest != [] {
      assert (rest + [u])[1..] == rest[1..] + [u];
      WithoutLast(rest[1..], u);
    }
  }

  lemma WithoutTouch(order: seq<string>, u: string)
    ensures Without(Touch(order, u), u) == Without(order, u)
  {
    WithoutGone(order, u);
    WithoutLast(Without(order, u), u);
  }

  lemma {:induction false} WithoutGone(order: seq<string>, u: string)
    ensures u !in Without(order, u)
  {
    if order != [] { WithoutGone(order[1..], u); }
  }

  lemma TouchTwice(order: seq<string>, u: string)
    ensures Touch(Touch(order, u), u) == Touch(order, u)
  {
    WithoutTouch(order, u);
  }

  // ----- the size record plays no part in eviction and reload

  lemma {:induction false} EvictUntilSize(s: Cache, need: nat, u: string, n: int)
    ensures EvictUntil(SetSize(s, u, n), need) == SetSize(EvictUntil(s, need), u, n)
    decreases |s.order|
  {
    if s.used + need > s.capacity && s.order != [] {
      assert Evict(SetSize(s, u, n)) == SetSize(Evict(s), u, n);
      EvictUntilSize(Evict(s), need, u, n);
    }
  }

  lemma InternalPutSize(s: Cache, w: string, f: string, v: string, u: string, n: int)
    ensures InternalPut(SetSize(s, u, n), w, f, v) == SetSize(InternalPut(s, w, f, v), u, n)
  {
    EvictUntilSize(s, |v|, u, n);
  }

  lemma {:induction false} RestoreUserSize(s: Cache, w: string, toks: seq<string>, u: string, n: int)
    ensures RestoreUser(SetSize(s, u, n), w, toks) == SetSize(RestoreUser(s, w, toks), u, n)
    decreases |toks|
  {
    hide InternalPut;
    if |toks| >= 2 {
      InternalPutSize(s, w, toks[0], toks[1], u, n);
      RestoreUserSize(InternalPut(s, w, toks[0], toks[1]), w, toks[2..], u, n);
    }
  }

  lemma ReloadSize(s: Cache, w: string, u: string, n: int)
    ensures Reload(SetSize(s, u, n), w) == SetSize(Reload(s, w), u, n)
  {
    hide RestoreUser, Tokens, ReadRow;
    RestoreUserSize(s.(vm := Forget(s.vm, w)), w, Tokens(ReadRow(s.vm, w), ','), u, n);
  }

  lemma PutToSize(s: Cache, u: string, f: string, v: string, n: int)
    ensures PutTo(SetSize(s, u, n), u, f, v) == SetSize(PutTo(s, u, f, v), u, n)
  {
    hide EvictUntil, Reload;
    EvictUntilSize(s, |v|, u, n);
    ReloadSize(EvictUntil(s, |v|), u, u, n);
  }

  lemma SetSizeTwice(s: Cache, u: string, m: int, n: int)
    ensures SetSize(SetSize(s, u, m), u, n) == SetSize(s, u, n)
  {
    assert s.userSize[u := m][u := n] == s.userSize[u := n];
  }

  lemma PlaceSize(s: Cache, u: string, f: string, v: string, n: int)
    ensures Place(SetSize(s, u, n), u, f, v) == SetSize(Place(s, u, f, v), u, n)
  {
  }

  lemma StoreInSize(s: Cache, u: string, f: string, v: string, n: int)
    ensures StoreIn(SetSize(s, u, n), u, f, v, false) == SetSize(StoreIn(s, u, f, v, false), u, n)
    ensures SetSize(s, u, n).used == s.used && SetSize(s, u, n).capacity == s.capacity
  {
    hide Reload, Place;
    ReloadSize(s, u, u, n);
    PlaceSize(if u in s.vm.meta then Reload(s, u) else s, u, f, v, n);
  }

  lemma {:induction false} EvictUntilKeeps(s: Cache, need: nat)
    ensures EvictUntil(s, need).userSize == s.userSize
    decreases |s.order|
  {
    if s.used + need > s.capacity && s.order != [] { EvictUntilKeeps(Evict(s), need); }
  }

  lemma {:induction false} RestoreUserKeeps(s: Cache, u: string, toks: seq<string>)
    ensures RestoreUser(s, u, toks).userSize == s.userSize
    decreases |toks|
  {
    hide EvictUntil, Place;
    if |toks| >= 2 {
      InternalPutKeeps(s, u, toks[0], toks[1]);
      RestoreUserKeeps(InternalPut(s, u, toks[0], toks[1]), u, toks[2..]);
    }
  }

  lemma InternalPutKeeps(s: Cache, u: string, f: string, v: string)
    ensures InternalPut(s, u, f, v).userSize == s.userSize
  {
    EvictUntilKeeps(s, |v|);
  }

  lemma StoreInKeeps(s: Cache, u: string, f: string, v: string, isCput: bool)
    ensures StoreIn(s, u, f, v, isCput).userSize == s.userSize
  {
    hide RestoreUser, Tokens, ReadRow;
    RestoreUserKeeps(s.(vm := Forget(s.vm, u)), u, Tokens(ReadRow(s.vm, u), ','));
  }

  /** A finished attempt is the whole put; an unfinished one leaves the put still to do. */
  lemma AttemptIsPut(s: Cache, u: string, f: string, v: string)
    requires |v| <= s.capacity
    ensures var (t, done, r) := Attempt(s, u, f, v, true, false);
      && (done ==> (t, r) == Put(s, u, f, v))
      && (!done ==> Put(t, u, f, v) == Put(s, u, f, v) && t == SetSize(s, u, SizeAt(s.userSize, u))
                    && s.used + |v| > s.capacity && SizeAt(s.userSize, u) + |v| < s.capacity)
  {
    var n := SizeAt(s.userSize, u);
    StoreInSize(s, u, f, v, n);
    assert s.used + |v| <= s.capacity ==> PutTo(s, u, f, v) == StoreIn(s, u, f, v, false);
    hide Reload, Place, SetSize, StoreIn;
    SetSizeTwice(StoreIn(s, u, f, v, false), u, n, n + |v|);
    if s.used + |v| > s.capacity && n + |v| < s.capacity {
      PutAgain(s, u, f, v);
    }
  }

  lemma PutAgain(s: Cache, u: string, f: string, v: string)
    requires |v| <= s.capacity && SizeAt(s.userSize, u) + |v| < s.capacity
    ensures Put(SetSize(s, u, SizeAt(s.userSize, u)), u, f, v) == Put(s, u, f, v)
  {
    hide PutTo;
    var n := SizeAt(s.userSize, u);
    PutToSize(s, u, f, v, n);
    SetSizeTwice(PutTo(s, u, f, v), u, n, n + |v|);
  }

  lemma EvictThenPut(s: Cache, u: string, f: string, v: string)
    requires s.order != [] && s.used + |v| > s.capacity
    requires |v| <= s.capacity && SizeAt(s.userSize, u) + |v| < s.capacity
    ensures Put(Evict(s), u, f, v) == Put(s, u, f, v)
  {
    hide Reload, Place;
  }

  lemma AttemptIsInternalPut(s: Cache, u: string, f: string, v: string)
    requires |v| <= s.capacity && u !in s.vm.meta
    ensures var (t, done, r) := Attempt(s, u, f, v, false, false);
      if done then t == InternalPut(s, u, f, v) else t == s && s.used + |v| > s.capacity
  {
  }

  lemma EvictThenInternalPut(s: Cache, u: string, f: string, v: string)
    requires s.order != [] && s.used + |v| > s.capacity && |v| <= s.capacity
    ensures InternalPut(Evict(s), u, f, v) == InternalPut(s, u, f, v)
  {
    hide Place;
  }
}
