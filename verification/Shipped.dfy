/** Statements of `lrucache.cc` that depart from what the rest of the file relies on. The store
    elsewhere in this project has them repaired; here they are as shipped, each with the exact
    condition under which the shipped statement and the repaired one agree. */
module Shipped {
  import opened KeyOrder
  import opened RowCodec
  import opened FlatStore
  import opened TieredStore
  import opened Tiering
  import opened Refinement

  // ----- move_to_tail without unlinking

  /** `next` and `prev` of every node, nodes being numbers. */
  datatype Links = Links(next: map<int, int>, prev: map<int, int>)

  const HEAD := 0
  const TAIL := 1

  function Follow(m: map<int, int>, n: int): int { if n in m then m[n] else -1 }

  /** The four assignments of `move_to_tail`, in order. */
  function MoveToTail(l: Links, current: int): Links {
    var prev := l.prev[current := Follow(l.prev, TAIL)][TAIL := current];
    Links(l.next[Follow(prev, current) := current][current := TAIL], prev)
  }

  ghost predicate Walk(l: Links, sp: seq<int>) {
    && |sp| >= 2 && sp[0] == HEAD && sp[|sp| - 1] == TAIL && NoDup(sp)
    && (forall i :: 0 <= i < |sp| - 1 ==> Follow(l.next, sp[i]) == sp[i + 1] && Follow(l.prev, sp[i + 1]) == sp[i])
  }

  /** Touching a linked node cuts off every node behind it: the forward walk ends there. */
  lemma ShippedTouchCuts(l: Links, sp: seq<int>, k: nat)
    requires Walk(l, sp) && 0 < k < |sp| - 1
    ensures var m := MoveToTail(l, sp[k]);
      && (forall i :: 0 <= i < k ==> Follow(m.next, sp[i]) == sp[i + 1])
      && Follow(m.next, sp[k]) == TAIL && Follow(m.prev, sp[k]) == sp[|sp| - 2]
  {
    var last := |sp| - 2;
    assert Follow(l.prev, sp[last + 1]) == sp[last];
    forall i | 0 <= i < k ensures sp[i] != sp[k] && sp[i] != sp[last] && sp[i] != TAIL {
      assert sp[i] != sp[last + 1];
    }
  }

  lemma {:induction false} WalkAgrees(m: Links, sp: seq<int>, t: seq<int>, k: nat, i: nat)
    requires Walk(m, t) && i <= k < |sp| - 1 && NoDup(sp) && sp[0] == HEAD && sp[|sp| - 1] == TAIL
    requires forall j :: 0 <= j < k ==> Follow(m.next, sp[j]) == sp[j + 1]
    ensures i < |t| - 1 && t[i] == sp[i] && (i > 0 ==> Follow(m.prev, sp[i]) == sp[i - 1])
  {
    if i > 0 {
      WalkAgrees(m, sp, t, k, i - 1);
      assert Follow(m.prev, t[i - 1 + 1]) == t[i - 1];
      assert Follow(m.next, t[i - 1]) == t[i];
      assert Follow(m.next, sp[i - 1]) == sp[i];
    }
    assert sp[i] != sp[|sp| - 1];
  }

  lemma TouchedNoWalk(l: Links, sp: seq<int>, k: nat, t: seq<int>)
    requires Walk(l, sp) && 0 < k < |sp| - 1
    ensures !Walk(MoveToTail(l, sp[k]), t)
  {
    ShippedTouchCuts(l, sp, k);
    assert sp[k - 1] != sp[|sp| - 2];
    if Walk(MoveToTail(l, sp[k]), t) {
      WalkAgrees(MoveToTail(l, sp[k]), sp, t, k, k);
    }
  }

  /** `move_to_tail` leaves a proper doubly linked list exactly when its node was not linked. */
  lemma MoveToTailIff(l: Links, sp: seq<int>, n: int)
    requires Walk(l, sp) && n != HEAD && n != TAIL
    ensures (exists t :: Walk(MoveToTail(l, n), t)) <==> n !in sp
  {
    var m := MoveToTail(l, n);
    if n in sp {
      var k :| 0 <= k < |sp| && sp[k] == n;
      forall t ensures !Walk(m, t) {
        TouchedNoWalk(l, sp, k, t);
      }
    } else {
      var t := sp[..|sp| - 1] + [n, TAIL];
      var last := |sp| - 2;
      assert Follow(l.prev, sp[last + 1]) == sp[last];
      forall i | 0 <= i < |t| - 1
        ensures Follow(m.next, t[i]) == t[i + 1] && Follow(m.prev, t[i + 1]) == t[i]
      {
        if i < last {
          assert t[i] == sp[i] && t[i + 1] == sp[i + 1] && sp[i] != sp[last] && sp[i + 1] != sp[last + 1];
        }
      }
      assert Walk(m, t);
    }
  }

  // ----- dele leaves the node of an emptied user linked

  function DeleShipped(s: Cache, u: string, f: string): (Cache, Reply) {
    var (a, r) := TieredStore.Get(s, u, f);
    if !r.Value? then (a, r)
    else
      var rest := Resident(a, u) - {f};
      var b := SetSize(SetFiles(a, u, rest, -|r.value|), u, SizeAt(s.userSize, u) - |r.value|);
      (if rest == map[] then b.(tablets := b.tablets - {u}) else b, Deleted)
  }

  /** After the shipped `dele` of an existing file, list and table agree exactly when the user
      still has a file. */
  lemma DeleShippedIff(s: Cache, u: string, f: string)
    requires Inv(s) && TieredStore.Get(s, u, f).1.Value?
    ensures ListOk(DeleShipped(s, u, f).0) <==> FilesAt(FlatFiles(s), u) - {f} != map[]
  {
    hide Inv, Sound, FlatFiles, Access, TieredStore.Get, FilesOf;
    assert Exists(s, u) by { FoundExists(s, u, f); }
    var k := GetAccesses(s, u, f);
    var a := TieredStore.Get(s, u, f).0;
    ListIs(a);
    TouchOk(a.order, u);
    assert u in Touch(a.order, u) by { assert Touch(a.order, u)[|Without(a.order, u)|] == u; }
  }

  /** Apart from the list the shipped statement does what `dele` does. */
  lemma DeleShippedElse(s: Cache, u: string, f: string)
    ensures var (t, r) := DeleShipped(s, u, f); var (d, q) := TieredStore.Dele(s, u, f);
      r == q && t.(order := d.order) == d
  {
    hide TieredStore.Get;
  }

  /** Apart from the two counters the shipped statement does what `rename` does. */
  lemma RenameShippedElse(s: Cache, u: string, f: string, to: string)
    ensures var (t, r) := RenameShipped(s, u, f, to); var (d, q) := TieredStore.Rename(s, u, f, to);
      && r == q && t.(used := d.used, userSize := d.userSize) == d
      && t.used == TieredStore.Get(s, u, f).0.used && t.userSize == TieredStore.Get(s, u, f).0.userSize
  {
    hide TieredStore.Get;
  }

  lemma FoundExists(s: Cache, u: string, f: string)
    requires TieredStore.Get(s, u, f).1.Value?
    ensures Exists(s, u)
  {
  }

  lemma ListIs(s: Cache)
    requires Sound(s, 0)
    ensures ListOk(s)
  {
  }

  // ----- rename ignores the size of an overwritten file

  function RenameShipped(s: Cache, u: string, f: string, to: string): (Cache, Reply) {
    var (a, r) := TieredStore.Get(s, u, f);
    if !r.Value? then (a, r)
    else (SetFiles(a, u, (Resident(a, u) - {f})[to := r.value], 0), Renamed)
  }

  /** The shipped `rename` keeps the size record right exactly when it overwrites no bytes. */
  lemma RenameShippedIff(s: Cache, u: string, f: string, to: string)
    requires Inv(s) && ',' !in to && TieredStore.Get(s, u, f).1.Value?
    ensures View(RenameShipped(s, u, f, to).0) == Next(s.capacity, View(s), FlatStore.Rename(u, f, to))
        <==> to == f || to !in FilesAt(FlatFiles(s), u) || FilesAt(FlatFiles(s), u)[to] == ""
  {
    hide Inv, Sound, FlatFiles, Access, TieredStore.Get, FilesOf, SetFiles, SizeOf;
    FoundExists(s, u, f);
    UserFits(s, u);
    GetValue(s, u, f);
    var k := GetAccesses(s, u, f);
    var a := TieredStore.Get(s, u, f).0;
    var files := FilesAt(FlatFiles(s), u);
    var moved := (files - {f})[to := files[f]];
    SetFilesFlat(a, u, moved, 0);
    SetFilesSize(a, u, moved, 0);
    var lost := |ValueOf(files - {f}, to)|;
    assert moved != map[] by { assert to in moved; }
    NextOfChange(s.capacity, View(s), FlatStore.Rename(u, f, to), moved, SizeAt(s.userSize, u) - lost, Renamed);
    assert s.userSize[u := SizeAt(s.userSize, u) - lost][u] == SizeAt(s.userSize, u) - lost;
    if lost == 0 { assert s.userSize[u := s.userSize[u]] == s.userSize; }
  }

  lemma SetFilesSize(s: Cache, u: string, files: Files, delta: int)
    ensures SetFiles(s, u, files, delta).userSize == s.userSize
  {
  }

  // ----- cput takes the old bytes off before it knows whether it will store

  function CputShipped(s: Cache, u: string, f: string, old_: string, new_: string): (Cache, Reply) {
    var (a, r) := TieredStore.Get(s, u, f);
    if !r.Value? then (a, r)
    else if r.value != old_ then (a, VersionCheckFailed)
    else
      var c := SetSize(a.(used := a.used - |old_|), u, SizeAt(s.userSize, u) - |old_|);
      var (t, done, reply) := Attempt(c, u, f, new_, true, true);
      (t, reply)
  }

  /** The shipped `cput` of a matching value does what compare-and-swap should exactly when it
      is accepted and finds room at once, or when the old value is empty and nothing non-empty
      was to be stored. */
  lemma CputShippedIff(s: Cache, u: string, f: string, old_: string, new_: string)
    requires Inv(s) && TieredStore.Get(s, u, f).1 == Value(old_)
    ensures var accepted := SizeAt(s.userSize, u) - |old_| + |new_| < s.capacity;
      var room := TieredStore.Get(s, u, f).0.used - |old_| + |new_| <= s.capacity;
      (View(CputShipped(s, u, f, old_, new_).0) == Next(s.capacity, View(s), FlatStore.Cput(u, f, old_, new_)))
        <==> ((accepted && room) || (old_ == "" && (accepted ==> new_ == "")))
  {
    hide Inv, Sound, FlatFiles, Access, TieredStore.Get, FilesOf, SetFiles, SizeOf, Attempt, Next;
    FoundExists(s, u, f);
    UserFits(s, u);
    GetValue(s, u, f);
    var k := GetAccesses(s, u, f);
    var a := TieredStore.Get(s, u, f).0;
    CputShippedState(s, a, u, f, old_, new_);
    CputNext(s.capacity, View(s), u, f, old_, new_);
    var n := SizeAt(s.userSize, u);
    SameEntry(s.userSize, u, n - |old_|);
    SameEntry(s.userSize, u, n - |old_| + |new_|);
    var files := FilesAt(FlatFiles(s), u);
    SameFiles(FlatFiles(s), u, files[f := new_]);
    if new_ == old_ { assert files[f := new_] == files; }
    assert files[f := new_][f] == new_;
  }

  lemma SameEntry(m: map<string, int>, u: string, n: int)
    requires u in m
    ensures m[u := n] == m <==> n == m[u]
    ensures m[u := n][u] == n
  {
    if n == m[u] { assert m[u := n] == m; } else { assert m[u := n][u] != m[u]; }
  }

  lemma SameFiles(m: map<string, Files>, u: string, files: Files)
    requires u in m
    ensures m[u := files] == m <==> files == m[u]
  {
    if files == m[u] { assert m[u := files] == m; } else { assert m[u := files][u] != m[u]; }
  }

  lemma CputNext(cap: nat, a: Flat, u: string, f: string, old_: string, new_: string)
    requires u in a.files && u in a.size && f in a.files[u] && a.files[u][f] == old_
    ensures var n := a.size[u] - |old_| + |new_|;
      Next(cap, a, FlatStore.Cput(u, f, old_, new_))
        == if n < cap then Flat(a.files[u := a.files[u][f := new_]], a.size[u := n]) else a
  {
    assert f in a.files[u][f := new_];
    if a.size[u] - |old_| + |new_| >= cap {
      SettleSame(a, u, OutcomeOf(cap, a, FlatStore.Cput(u, f, old_, new_)));
    }
  }

  lemma CputShippedState(s: Cache, a: Cache, u: string, f: string, old_: string, new_: string)
    requires a == TieredStore.Get(s, u, f).0 && TieredStore.Get(s, u, f).1 == Value(old_)
    requires u in a.tablets && u !in a.vm.meta && a.userSize == s.userSize && FlatFiles(a) == FlatFiles(s)
    requires a.capacity == s.capacity
    ensures var t := CputShipped(s, u, f, old_, new_).0; var n := SizeAt(s.userSize, u) - |old_|;
      if n + |new_| < s.capacity && a.used - |old_| + |new_| <= s.capacity
      then FlatFiles(t) == FlatFiles(s)[u := Resident(a, u)[f := new_]] && t.userSize == s.userSize[u := n + |new_|]
      else FlatFiles(t) == FlatFiles(s) && t.userSize == s.userSize[u := n]
  {
    hide TieredStore.Get, FlatFiles, SetFiles;
    var n := SizeAt(s.userSize, u) - |old_|;
    var c := SetSize(a.(used := a.used - |old_|), u, n);
    FilesOnly(a, c);
    SetSizeTwice(a.(used := a.used - |old_|), u, n, n);
    var d := SetFiles(SetSize(c, u, n), u, Resident(a, u)[f := new_], |new_|);
    FilesOnly(c, SetSize(c, u, n));
    SetFilesFlat(SetSize(c, u, n), u, Resident(a, u)[f := new_], |new_|);
    SetFilesSize(SetSize(c, u, n), u, Resident(a, u)[f := new_], |new_|);
    FilesOnly(d, SetSize(d, u, n + |new_|));
    assert s.userSize[u := n][u := n + |new_|] == s.userSize[u := n + |new_|];
  }

  lemma FilesOnly(s: Cache, t: Cache)
    requires s.tablets == t.tablets && s.vm == t.vm
    ensures FlatFiles(s) == FlatFiles(t)
  {
  }
}
