/** The resident list is in order of last access, and what gets evicted is always the least
    recently accessed part of it. */
module Recency {
  import opened RowCodec
  import opened FlatStore
  import opened TieredStore
  import opened Refinement

  /** An access: an accepted put, or any other operation on a user that exists. */
  predicate Touches(s: Cache, op: Op) {
    if op.Put? then TieredStore.Step(s, op).1.Stored? else Exists(s, op.user)
  }

  /** The `k` least recently used users left; then `u` moved to the end or, when its last
      file was deleted, left too. */
  ghost predicate Aged(before: seq<string>, after: seq<string>, u: string, k: nat) {
    k <= |before| && (after == Touch(before[k..], u) || after == Without(before[k..], u))
  }

  lemma {:induction false} WithoutDrop(order: seq<string>, u: string, j: nat) returns (k: nat)
    requires j <= |Without(order, u)|
    ensures k <= |order| && Without(order, u)[j..] == Without(order[k..], u)
  {
    if j == 0 {
      k := 0;
      assert order[0..] == order;
    } else {
      var i := WithoutDrop(order[1..], u, if order[0] == u then j else j - 1);
      k := i + 1;
      assert order[1..][i..] == order[k..];
      if order[0] != u {
        assert Without(order, u)[j..] == Without(order[1..], u)[j - 1..];
      }
    }
  }

  lemma TouchDrop(order: seq<string>, u: string, j: nat) returns (k: nat)
    requires j < |Touch(order, u)|
    ensures k <= |order| && Touch(order, u)[j..] == Touch(order[k..], u)
  {
    k := WithoutDrop(order, u, j);
    assert Touch(order, u)[j..] == Without(order, u)[j..] + [u];
  }

  lemma PutAges(s: Cache, op: Op) returns (k: nat)
    requires Inv(s) && CleanOp(op) && op.Put? && Touches(s, op)
    ensures Aged(s.order, TieredStore.Step(s, op).0.order, op.user, k)
  {
    hide Inv, Sound, FlatFiles, SizeOf, PutTo, HitsDisk, AppendTo;
    k := PutToOk(s, op.user, op.file, op.value);
  }

  lemma SwapAges(s: Cache, op: Op) returns (k: nat)
    requires Inv(s) && CleanOp(op) && op.Cput? && Exists(s, op.user)
    requires TieredStore.Get(s, op.user, op.file).1 == Value(op.old_)
    requires SizeAt(s.userSize, op.user) - |op.old_| + |op.new_| < s.capacity
    ensures Aged(s.order, TieredStore.Step(s, op).0.order, op.user, k)
  {
    hide Inv, Sound, FlatFiles, SizeOf, FilesOf, EvictUntil, TieredStore.Get, Touch, Without, FilesAt;
    var u := op.user;
    UserFits(s, u);
    var i := GetAccesses(s, u, op.file);
    GetValue(s, u, op.file);
    var a := TieredStore.Get(s, u, op.file).0;
    AccessedTail(s, a, u, i);
    ResidentIs(a, u);
    var j := SwapSpares(a, u, |op.old_|, |op.new_|);
    k := TouchDrop(s.order[i..], u, j);
    assert s.order[i..][k..] == s.order[i + k..];
    TouchTwice(s.order[i + k..], u);
    k := i + k;
  }

  lemma ResidentIs(a: Cache, u: string)
    requires u in a.tablets
    ensures Resident(a, u) == a.tablets[u]
  {
  }

  /** Every operation ages the list: untouched, or some least recently used users leave and
      the accessed user becomes the most recent one. */
  lemma StepAges(s: Cache, op: Op) returns (k: nat)
    requires Inv(s) && CleanOp(op)
    ensures var t := TieredStore.Step(s, op).0;
      if Touches(s, op) then Aged(s.order, t.order, op.user, k) else t.order == s.order
  {
    hide Inv, Sound, FlatFiles, SizeOf, FilesOf, EvictUntil, Access, PutTo, Without;
    k := 0;
    if !Touches(s, op) {
    } else if op.Put? {
      k := PutAges(s, op);
    } else if op.Cput? && TieredStore.Get(s, op.user, op.file).1 == Value(op.old_)
              && SizeAt(s.userSize, op.user) - |op.old_| + |op.new_| < s.capacity {
      k := SwapAges(s, op);
    } else {
      k := GetAccesses(s, op.user, op.file);
      TouchTwice(s.order[k..], op.user);
      WithoutTouch(s.order[k..], op.user);
    }
  }

  // ----- timestamps

  /** `clock[u]` is the time of the last access to `u`. */
  function Tick(s: Cache, op: Op, clock: map<string, nat>, now: nat): map<string, nat> {
    if Touches(s, op) then clock[op.user := now] else clock
  }

  function RunClock(s: Cache, ops: seq<Op>, clock: map<string, nat>, now: nat): map<string, nat>
    decreases |ops|
  {
    if ops == [] then clock
    else RunClock(TieredStore.Step(s, ops[0]).0, ops[1..], Tick(s, ops[0], clock, now), now + 1)
  }

  ghost predicate ByRecency(order: seq<string>, clock: map<string, nat>, now: nat) {
    && (forall i :: 0 <= i < |order| ==> order[i] in clock && clock[order[i]] < now)
    && (forall i, j :: 0 <= i < j < |order| ==> clock[order[i]] < clock[order[j]])
  }

  lemma {:induction false} WithoutByRecency(order: seq<string>, u: string, clock: map<string, nat>, now: nat)
    requires ByRecency(order, clock, now)
    ensures ByRecency(Without(order, u), clock, now)
    ensures forall x :: x in Without(order, u) ==> x in order && x != u
  {
    if order != [] {
      var rest := order[1..];
      WithoutByRecency(rest, u, clock, now);
      var w := Without(rest, u);
      forall j | 0 <= j < |w| ensures clock[order[0]] < clock[w[j]] {
        assert w[j] in rest;
        var i :| 0 <= i < |rest| && rest[i] == w[j];
        assert order[i + 1] == w[j];
      }
      FirstByRecency(order[0], w, clock, now);
    }
  }

  lemma FirstByRecency(first: string, w: seq<string>, clock: map<string, nat>, now: nat)
    requires ByRecency(w, clock, now) && first in clock && clock[first] < now
    requires forall j :: 0 <= j < |w| ==> clock[first] < clock[w[j]]
    ensures ByRecency([first] + w, clock, now)
  {
  }

  lemma TouchByRecency(order: seq<string>, u: string, clock: map<string, nat>, now: nat)
    requires ByRecency(order, clock, now)
    ensures ByRecency(Touch(order, u), clock[u := now], now + 1)
  {
    WithoutByRecency(order, u, clock, now);
    var w, t := Without(order, u), Touch(order, u);
    forall i | 0 <= i < |w| ensures t[i] == w[i] && w[i] in order && w[i] != u {
      assert w[i] in w;
    }
  }

  lemma AgedByRecency(before: seq<string>, after: seq<string>, u: string, k: nat, clock: map<string, nat>, now: nat)
    requires ByRecency(before, clock, now) && Aged(before, after, u, k)
    ensures ByRecency(after, clock[u := now], now + 1)
  {
    if after == Touch(before[k..], u) {
      TouchByRecency(before[k..], u, clock, now);
    } else {
      WithoutByRecency(before[k..], u, clock, now);
      forall i | 0 <= i < |after| ensures after[i] != u { assert after[i] in after; }
    }
  }

  /** Over every run the list is sorted by last access: its head, the next user to be
      evicted, is the least recently accessed resident. */
  lemma {:induction false} RunByRecency(s: Cache, ops: seq<Op>, clock: map<string, nat>, now: nat)
    requires Inv(s) && forall i :: 0 <= i < |ops| ==> CleanOp(ops[i])
    requires ByRecency(s.order, clock, now)
    ensures ByRecency(Execute(s, ops).order, RunClock(s, ops, clock, now), now + |ops|)
    decreases |ops|
  {
    hide Inv, TieredStore.Step, View, Next, ReplyOf, Aged, Touches;
    if ops != [] {
      var t := TieredStore.Step(s, ops[0]).0;
      StepOk(s, ops[0]);
      var k := StepAges(s, ops[0]);
      if Touches(s, ops[0]) {
        AgedByRecency(s.order, t.order, ops[0].user, k, clock, now);
      }
      RunByRecency(t, ops[1..], Tick(s, ops[0], clock, now), now + 1);
    }
  }
}
