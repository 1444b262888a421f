/** Primary and secondary: numbered operations, a hold-back list per user, acknowledgements and
    a resend when the secondary connects again. Channels are FIFO sequences of whole messages. */
module Replication {
  import opened KeyOrder
  import opened RowCodec
  import opened FlatStore

  // ----- one user's part of a store

  datatype UserState = UserState(files: Files, size: int, touched: bool)

  const NOBODY: UserState := UserState(map[], 0, false)

  function Proj(a: Flat, u: string): UserState {
    UserState(FilesAt(a.files, u), SizeAt(a.size, u), u in a.size)
  }

  function Act(cap: nat, st: UserState, op: Op): UserState {
    var o := UserStep(cap, st.files, st.size, st.touched, op);
    UserState(o.files, if o.touched then o.size else st.size, o.touched || st.touched)
  }

  function Says(cap: nat, st: UserState, op: Op): Reply { UserStep(cap, st.files, st.size, st.touched, op).reply }

  function Acts(cap: nat, ops: seq<Op>): UserState {
    if ops == [] then NOBODY else Act(cap, Acts(cap, ops[..|ops| - 1]), ops[|ops| - 1])
  }

  /** An operation reads and writes its own user only. */
  lemma NextIsLocal(cap: nat, a: Flat, op: Op, u: string)
    requires op.user in a.files ==> a.files[op.user] != map[]
    ensures Proj(Next(cap, a, op), u) == if u == op.user then Act(cap, Proj(a, u), op) else Proj(a, u)
    ensures ReplyOf(cap, a, op) == Says(cap, Proj(a, op.user), op)
  {
  }

  lemma SameProj(a: Flat, b: Flat)
    requires forall u :: u in a.files ==> a.files[u] != map[]
    requires forall u :: u in b.files ==> b.files[u] != map[]
    requires forall u :: Proj(a, u) == Proj(b, u)
    ensures a == b
  {
    forall u ensures (u in a.files <==> u in b.files) && FilesAt(a.files, u) == FilesAt(b.files, u)
                  && (u in a.size <==> u in b.size) && SizeAt(a.size, u) == SizeAt(b.size, u) {
      assert Proj(a, u) == Proj(b, u);
    }
    assert forall u :: u in a.files ==> a.files[u] == b.files[u] by {
      forall u | u in a.files ensures a.files[u] == b.files[u] { assert FilesAt(a.files, u) == FilesAt(b.files, u); }
    }
    assert forall u :: u in a.size ==> a.size[u] == b.size[u] by {
      forall u | u in a.size ensures a.size[u] == b.size[u] { assert SizeAt(a.size, u) == SizeAt(b.size, u); }
    }
    assert a.files == b.files && a.size == b.size;
  }

  ghost predicate Peopled(a: Flat) { forall u :: u in a.files ==> a.files[u] != map[] }

  lemma FlatPeopled(cap: nat, a: Flat)
    requires FlatOk(cap, a)
    ensures Peopled(a)
  {
    forall u | u in a.files ensures a.files[u] != map[] { assert UserOk(cap, a, u); }
  }

  lemma NextPeopled(cap: nat, a: Flat, op: Op)
    requires Peopled(a)
    ensures Peopled(Next(cap, a, op))
  {
  }

  /** Operations on different users commute, so the order in which a resend visits the users
      does not matter. */
  lemma OpsCommute(cap: nat, a: Flat, op: Op, other: Op)
    requires Peopled(a) && op.user != other.user
    ensures Next(cap, Next(cap, a, op), other) == Next(cap, Next(cap, a, other), op)
  {
    hide Proj, Act, Next;
    NextPeopled(cap, a, op);
    NextPeopled(cap, a, other);
    NextPeopled(cap, Next(cap, a, op), other);
    NextPeopled(cap, Next(cap, a, other), op);
    forall u ensures Proj(Next(cap, Next(cap, a, op), other), u) == Proj(Next(cap, Next(cap, a, other), op), u) {
      NextIsLocal(cap, a, op, u);
      NextIsLocal(cap, Next(cap, a, op), other, u);
      NextIsLocal(cap, a, other, u);
      NextIsLocal(cap, Next(cap, a, other), op, u);
    }
    SameProj(Next(cap, Next(cap, a, op), other), Next(cap, Next(cap, a, other), op));
  }

  function OpsOf(ops: seq<Op>, u: string): seq<Op> {
    if ops == [] then [] else (if ops[0].user == u then [ops[0]] else []) + OpsOf(ops[1..], u)
  }

  function ActAll(cap: nat, st: UserState, ops: seq<Op>): UserState
    decreases |ops|
  {
    if ops == [] then st else ActAll(cap, Act(cap, st, ops[0]), ops[1..])
  }

  /** What a run does to one user is decided by that user's own operations. */
  lemma {:induction false} RunProj(cap: nat, a: Flat, ops: seq<Op>, u: string)
    requires Peopled(a)
    ensures Peopled(Run(cap, a, ops)) && Proj(Run(cap, a, ops), u) == ActAll(cap, Proj(a, u), OpsOf(ops, u))
    decreases |ops|
  {
    hide Proj, Act, Next, Peopled;
    if ops != [] {
      var b := Next(cap, a, ops[0]);
      NextPeopled(cap, a, ops[0]);
      NextLocal(cap, a, ops[0], u);
      RunProj(cap, b, ops[1..], u);
      var mine := OpsOf(ops[1..], u);
      assert ops[0].user != u ==> [] + mine == mine;
      assert ops[0].user == u ==> ([ops[0]] + mine)[0] == ops[0] && ([ops[0]] + mine)[1..] == mine;
    }
  }

  lemma NextLocal(cap: nat, a: Flat, op: Op, u: string)
    requires Peopled(a)
    ensures Proj(Next(cap, a, op), u) == if u == op.user then Act(cap, Proj(a, u), op) else Proj(a, u)
  {
    hide Proj, Act, Next;
    NextIsLocal(cap, a, op, u);
  }

  /** Two sequences that agree on every user's own operations, in order, lead to the same store,
      however they interleave the users. */
  lemma OrderPerUserSuffices(cap: nat, a: Flat, xs: seq<Op>, ys: seq<Op>)
    requires Peopled(a) && forall u :: OpsOf(xs, u) == OpsOf(ys, u)
    ensures Run(cap, a, xs) == Run(cap, a, ys)
  {
    hide Proj, ActAll, Run, OpsOf;
    RunProj(cap, a, xs, "");
    RunProj(cap, a, ys, "");
    forall u ensures Proj(Run(cap, a, xs), u) == Proj(Run(cap, a, ys), u) {
      RunProj(cap, a, xs, u);
      RunProj(cap, a, ys, u);
    }
    SameProj(Run(cap, a, xs), Run(cap, a, ys));
  }

  // ----- operations that change nothing

  predicate Success(r: Reply) { r.Stored? || r.Deleted? || r.Renamed? }

  /** What can be seen beforehand of an operation that will leave the user's state as it is: it is
      refused, or appends nothing to a file that is there, or puts back the same value, or renames
      a file to its own name. A put refused for its size still makes a missing size entry. */
  predicate Idle(cap: nat, st: UserState, op: Op) {
    var r := Says(cap, st, op);
    match op
    case Put(_, f, v) => r.FileTooBig? || (st.touched && (r.StorageExceeded? || (v == "" && f in st.files)))
    case Get(_, _) => true
    case Cput(_, _, o, n) => Refused(r) || o == n
    case Dele(_, _) => Refused(r)
    case Rename(_, f, t) => Refused(r) || f == t
  }

  /** The condition is exact. */
  lemma IdleIff(cap: nat, st: UserState, op: Op)
    ensures Act(cap, st, op) == st <==> Idle(cap, st, op)
  {
    match op {
      case Put(_, f, v) =>
        assert AppendTo(st.files, f, v)[f] == ValueOf(st.files, f) + v;
        assert f in st.files && v == "" ==> st.files[f] + v == st.files[f] && AppendTo(st.files, f, v) == st.files;
      case Get(_, _) =>
      case Cput(_, f, o, n) =>
        assert st.files[f := n][f] == n;
        assert f in st.files && st.files[f] == n ==> st.files[f := n] == st.files;
      case Dele(_, f) =>
        assert f !in st.files - {f};
      case Rename(_, f, t) =>
        if f in st.files {
          assert f != t ==> f !in (st.files - {f})[t := st.files[f]];
          assert f == t ==> (st.files - {f})[t := st.files[f]] == st.files;
        }
    }
  }

  /** Executing a successful operation a second time changes nothing, except when it appends
      bytes that still fit. */
  lemma TwiceIff(cap: nat, st: UserState, op: Op)
    requires !op.Get? && Success(Says(cap, st, op))
    ensures var once := Act(cap, st, op);
      Act(cap, once, op) == once <==> (op.Put? && op.value != "" ==> once.size + |op.value| >= cap)
  {
    var once := Act(cap, st, op);
    IdleIff(cap, once, op);
  }

  // ----- the system

  datatype Held = Held(number: nat, op: Op)
  datatype Done = Done(user: string, number: nat)

  /** `count` is `seq_num_records`, `held` is `primary_holdback`; `down` carries operations to
      the secondary and `up` its reports. `hist` and `applied` only record what happened: the
      requests the primary passed on for each user, and the highest number among them that the
      secondary has executed. */
  datatype Sys = Sys(primary: Flat, secondary: Flat,
                     count: map<string, nat>, held: map<string, seq<Held>>,
                     linked: bool, down: seq<Held>, up: seq<Done>,
                     hist: map<string, seq<Op>>, applied: map<string, nat>)

  /** `Intake` is a put line from a migration source: executed with `external` false, hence neither
      logged nor passed on. */
  datatype Event = Request(op: Op) | Deliver | Report | Disconnect | Connect | Intake(op: Op)

  function CountOf(y: Sys, u: string): nat { if u in y.count then y.count[u] else 0 }
  function HeldOf(held: map<string, seq<Held>>, u: string): seq<Held> { if u in held then held[u] else [] }
  function HistOf(y: Sys, u: string): seq<Op> { if u in y.hist then y.hist[u] else [] }
  function AppliedOf(y: Sys, u: string): nat { if u in y.applied then y.applied[u] else 0 }

  /** The primary executes a request and, whatever became of it, `send_to_secondary`. */
  function DoRequest(cap: nat, y: Sys, op: Op): Sys {
    var u := op.user;
    var n := CountOf(y, u) + 1;
    y.(primary := Next(cap, y.primary, op),
       count := y.count[u := n],
       held := y.held[u := HeldOf(y.held, u) + [Held(n, op)]],
       down := if y.linked then y.down + [Held(n, op)] else y.down,
       hist := y.hist[u := HistOf(y, u) + [op]])
  }

  /** One turn of the secondary's loop: execute, and report when the operation succeeded. */
  function DoDeliver(cap: nat, y: Sys): Sys
    requires y.down != []
  {
    var m := y.down[0];
    var u := m.op.user;
    y.(secondary := Next(cap, y.secondary, m.op),
       down := y.down[1..],
       up := if Success(ReplyOf(cap, y.secondary, m.op)) then y.up + [Done(u, m.number)] else y.up,
       applied := y.applied[u := Max(AppliedOf(y, u), m.number)])
  }

  function Strike(hs: seq<Held>, n: nat): seq<Held> {
    if hs == [] then []
    else (if hs[0].number == n then [] else [hs[0]]) + Strike(hs[1..], n)
  }

  /** `handle_secondary_report`: remove the numbered entry; forget users that have none left. */
  function Acknowledge(held: map<string, seq<Held>>, d: Done): map<string, seq<Held>> {
    var rest := Strike(HeldOf(held, d.user), d.number);
    if rest == [] then held - {d.user} else held[d.user := rest]
  }

  function DoReport(y: Sys): Sys
    requires y.up != []
  {
    y.(held := Acknowledge(y.held, y.up[0]), up := y.up[1..])
  }

  function ResendUsers(held: map<string, seq<Held>>, us: seq<string>): seq<Held> {
    if us == [] then [] else HeldOf(held, us[0]) + ResendUsers(held, us[1..])
  }

  /** `check_primary_holdback`: everything held, user by user. */
  function Resend(held: map<string, seq<Held>>): seq<Held> { ResendUsers(held, SortedKeys(held.Keys)) }

  /** The connection breaks; whatever was on its way, reports included, is gone. */
  function DoDisconnect(y: Sys): Sys { y.(linked := false, down := [], up := []) }

  function DoConnect(y: Sys): Sys { y.(linked := true, down := Resend(y.held), up := []) }

  function DoIntake(cap: nat, y: Sys, op: Op): Sys { y.(primary := Next(cap, y.primary, op)) }

  /** Any request that is passed on, any line taken in, and everything the channels allow. */
  predicate Enabled(y: Sys, e: Event) {
    match e
    case Request(op) => !op.Get?
    case Deliver => y.linked && y.down != []
    case Report => y.up != []
    case Disconnect => y.linked
    case Connect => !y.linked
    case Intake(op) => op.Put?
  }

  function Do(cap: nat, y: Sys, e: Event): Sys
    requires Enabled(y, e)
  {
    match e
    case Request(op) => DoRequest(cap, y, op)
    case Deliver => DoDeliver(cap, y)
    case Report => DoReport(y)
    case Disconnect => DoDisconnect(y)
    case Connect => DoConnect(y)
    case Intake(op) => DoIntake(cap, y, op)
  }

  const START: Sys := Sys(EMPTY, EMPTY, map[], map[], false, [], [], map[], map[])

  ghost predicate Reaches(cap: nat, y: Sys, es: seq<Event>, z: Sys)
    decreases |es|
  {
    if es == [] then y == z
    else Enabled(y, es[0]) && Reaches(cap, Do(cap, y, es[0]), es[1..], z)
  }

  /** The secondary has executed `m` already. */
  predicate Again(y: Sys, m: Held) { m.number <= AppliedOf(y, m.op.user) }

  /** A delivery is calm when it is not a repetition, or one that will change nothing. */
  predicate CalmDelivery(cap: nat, y: Sys, e: Event) {
    e.Deliver? && y.down != [] && Again(y, y.down[0]) ==> Idle(cap, Proj(y.secondary, y.down[0].op.user), y.down[0].op)
  }

  predicate CalmIntake(cap: nat, y: Sys, e: Event) {
    e.Intake? ==> Idle(cap, Proj(y.primary, e.op.user), e.op)
  }

  predicate CalmDeliveries(cap: nat, y: Sys, es: seq<Event>)
    decreases |es|
  {
    es == [] || (CalmDelivery(cap, y, es[0]) && (Enabled(y, es[0]) ==> CalmDeliveries(cap, Do(cap, y, es[0]), es[1..])))
  }

  predicate CalmIntakes(cap: nat, y: Sys, es: seq<Event>)
    decreases |es|
  {
    es == [] || (CalmIntake(cap, y, es[0]) && (Enabled(y, es[0]) ==> CalmIntakes(cap, Do(cap, y, es[0]), es[1..])))
  }

  // ----- what every reachable state keeps

  /** The requests from number `k + 1` on, with their numbers. */
  function From(ops: seq<Op>, k: nat): seq<Held>
    requires k <= |ops|
  {
    seq(|ops| - k, i requires 0 <= i < |ops| - k => Held(k + 1 + i, ops[k + i]))
  }

  function DownTo(down: seq<Held>, u: string): seq<Held> {
    if down == [] then [] else (if down[0].op.user == u then [down[0]] else []) + DownTo(down[1..], u)
  }

  function UpFrom(up: seq<Done>, u: string): seq<nat> {
    if up == [] then [] else (if up[0].user == u then [up[0].number] else []) + UpFrom(up[1..], u)
  }

  ghost predicate Increasing(hs: seq<Held>) {
    forall i, j :: 0 <= i < j < |hs| ==> hs[i].number < hs[j].number
  }

  /** Requests among the first `n`, in order. */
  ghost predicate Executed(hs: seq<Held>, ops: seq<Op>, n: nat)
    requires n <= |ops|
  {
    Increasing(hs) && forall i :: 0 <= i < |hs| ==> 1 <= hs[i].number <= n && hs[i].op == ops[hs[i].number - 1]
  }

  /** Some requests among the first `n`, then all later ones. */
  ghost predicate Covers(old_: seq<Held>, hs: seq<Held>, ops: seq<Op>, n: nat) {
    n <= |ops| && Executed(old_, ops, n) && hs == old_ + From(ops, n)
  }

  /** The entries of `hs` before the last `later` ones. */
  function Older(hs: seq<Held>, later: nat): seq<Held> { if |hs| < later then [] else hs[..|hs| - later] }

  ghost predicate Split(hs: seq<Held>, ops: seq<Op>, n: nat) {
    n <= |ops| && Covers(Older(hs, |ops| - n), hs, ops, n)
  }

  /** One user's numbers: what was counted, what is held and what is on its way. */
  ghost predicate Ledger(u: string, ops: seq<Op>, n: nat, count: nat, hs: seq<Held>, up: seq<nat>, down: seq<Held>,
                         linked: bool) {
    && count == |ops| && n <= |ops|
    && (forall i :: 0 <= i < |ops| ==> ops[i].user == u && !ops[i].Get?)
    && Split(hs, ops, n)
    && (forall i :: 0 <= i < |up| ==> up[i] <= n)
    && (if linked then Split(down, ops, n) else down == [])
  }

  ghost predicate UserNumbers(y: Sys, u: string) {
    Ledger(u, HistOf(y, u), AppliedOf(y, u), CountOf(y, u), HeldOf(y.held, u), UpFrom(y.up, u), DownTo(y.down, u),
           y.linked)
  }

  ghost predicate Numbered(y: Sys) {
    && Peopled(y.primary) && Peopled(y.secondary)
    && (!y.linked ==> y.down == [] && y.up == [])
    && (forall u :: u in y.held ==> y.held[u] != [])
    && (forall u :: UserNumbers(y, u))
  }

  /** The secondary holds the primary's requests up to the highest number it has executed. */
  ghost predicate InStep(cap: nat, y: Sys, u: string) {
    AppliedOf(y, u) <= |HistOf(y, u)| && Proj(y.secondary, u) == Acts(cap, HistOf(y, u)[..AppliedOf(y, u)])
  }

  ghost predicate Following(cap: nat, y: Sys) { forall u :: InStep(cap, y, u) }

  /** The primary holds the requests it passed on, and nothing else. */
  ghost predicate AllPassedOn(cap: nat, y: Sys) { forall u :: Proj(y.primary, u) == Acts(cap, HistOf(y, u)) }

  ghost predicate AlwaysFollowing(cap: nat, y: Sys, es: seq<Event>)
    decreases |es|
  {
    Following(cap, y) && (es != [] && Enabled(y, es[0]) ==> AlwaysFollowing(cap, Do(cap, y, es[0]), es[1..]))
  }

  ghost predicate AlwaysPassedOn(cap: nat, y: Sys, es: seq<Event>)
    decreases |es|
  {
    AllPassedOn(cap, y) && (es != [] && Enabled(y, es[0]) ==> AlwaysPassedOn(cap, Do(cap, y, es[0]), es[1..]))
  }

  // ----- sequences

  lemma ActsSnoc(cap: nat, ops: seq<Op>, op: Op)
    ensures Acts(cap, ops + [op]) == Act(cap, Acts(cap, ops), op)
  {
    assert (ops + [op])[..|ops|] == ops;
  }

  lemma ActsNext(cap: nat, ops: seq<Op>, n: nat)
    requires n < |ops|
    ensures Acts(cap, ops[..n + 1]) == Act(cap, Acts(cap, ops[..n]), ops[n])
  {
    assert ops[..n + 1] == ops[..n] + [ops[n]];
    ActsSnoc(cap, ops[..n], ops[n]);
  }

  lemma DownToSnoc(down: seq<Held>, m: Held, u: string)
    ensures DownTo(down + [m], u) == DownTo(down, u) + if m.op.user == u then [m] else []
  {
    DownToConcat(down, [m], u);
    DownToFirst(m, [], u);
    assert [m] + [] == [m];
    hide DownTo;
    assert DownTo([], u) == [] by { NothingDown(u); }
  }

  lemma DownToFirst(m: Held, rest: seq<Held>, u: string)
    ensures DownTo([m] + rest, u) == (if m.op.user == u then [m] else []) + DownTo(rest, u)
  {
    assert ([m] + rest)[1..] == rest;
  }

  lemma {:induction false} DownToConcat(a: seq<Held>, b: seq<Held>, u: string)
    ensures DownTo(a + b, u) == DownTo(a, u) + DownTo(b, u)
  {
    if a == [] {
      NothingDown(u);
      hide DownTo;
      assert a + b == b;
    } else {
      hide DownTo;
      DownToConcat(a[1..], b, u);
      DownToFirst(a[0], a[1..] + b, u);
      DownToFirst(a[0], a[1..], u);
      assert a + b == [a[0]] + (a[1..] + b) && a == [a[0]] + a[1..];
    }
  }

  lemma {:induction false} DownToOwn(hs: seq<Held>, v: string, u: string)
    requires forall i :: 0 <= i < |hs| ==> hs[i].op.user == v
    ensures DownTo(hs, u) == if u == v then hs else []
  {
    if hs != [] { DownToOwn(hs[1..], v, u); }
  }

  lemma {:induction false} DownToResend(held: map<string, seq<Held>>, us: seq<string>, u: string)
    requires NoDup(us)
    requires forall v, i :: v in us && 0 <= i < |HeldOf(held, v)| ==> HeldOf(held, v)[i].op.user == v
    ensures DownTo(ResendUsers(held, us), u) == if u in us then HeldOf(held, u) else []
    decreases |us|
  {
    hide HeldOf, DownTo;
    if us == [] {
      assert DownTo([], u) == [] by { NothingDown(u); }
    } else {
      var hs := HeldOf(held, us[0]);
      assert us[0] in us && (u in us <==> u == us[0] || u in us[1..]) && (u == us[0] ==> u !in us[1..]);
      DownToConcat(hs, ResendUsers(held, us[1..]), u);
      assert forall i :: 0 <= i < |hs| ==> hs[i].op.user == us[0];
      DownToOwn(hs, us[0], u);
      DownToResend(held, us[1..], u);
      hide NoDup;
      assert hs + [] == hs && [] + DownTo(ResendUsers(held, us[1..]), u) == DownTo(ResendUsers(held, us[1..]), u);
    }
  }

  lemma NothingDown(u: string)
    ensures DownTo([], u) == []
  {
  }

  lemma {:induction false} UpFromSnoc(up: seq<Done>, d: Done, u: string)
    ensures UpFrom(up + [d], u) == UpFrom(up, u) + if d.user == u then [d.number] else []
  {
    UpFromFirst(d, [], u);
    hide UpFrom;
    if up == [] {
      assert up + [d] == [d] + [];
      assert UpFrom([], u) == [] by { NothingUp(u); }
    } else {
      UpFromSnoc(up[1..], d, u);
      UpFromFirst(up[0], up[1..] + [d], u);
      UpFromFirst(up[0], up[1..], u);
      assert up + [d] == [up[0]] + (up[1..] + [d]) && up == [up[0]] + up[1..];
    }
  }

  lemma NothingUp(u: string)
    ensures UpFrom([], u) == []
  {
  }

  lemma UpFromFirst(d: Done, rest: seq<Done>, u: string)
    ensures UpFrom([d] + rest, u) == (if d.user == u then [d.number] else []) + UpFrom(rest, u)
  {
    assert ([d] + rest)[1..] == rest;
  }

  lemma {:induction false} StrikeAbsent(hs: seq<Held>, n: nat)
    requires forall i :: 0 <= i < |hs| ==> hs[i].number != n
    ensures Strike(hs, n) == hs
  {
    if hs != [] { StrikeAbsent(hs[1..], n); }
  }

  /** A report removes exactly its own entry. */
  lemma {:induction false} StrikeOwn(hs: seq<Held>, i: nat)
    requires Increasing(hs) && i < |hs|
    ensures Strike(hs, hs[i].number) == hs[..i] + hs[i + 1..]
  {
    if i == 0 {
      StrikeAbsent(hs[1..], hs[0].number);
    } else {
      StrikeOwn(hs[1..], i - 1);
      assert hs[..i] == [hs[0]] + hs[1..][..i - 1] && hs[1..][i..] == hs[i + 1..];
    }
  }

  lemma {:induction false} StrikeConcat(a: seq<Held>, b: seq<Held>, n: nat)
    ensures Strike(a + b, n) == Strike(a, n) + Strike(b, n)
  {
    if a == [] {
      assert a + b == b;
    } else {
      assert (a + b)[1..] == a[1..] + b;
      StrikeConcat(a[1..], b, n);
    }
  }

  lemma StrikeExecuted(hs: seq<Held>, ops: seq<Op>, n: nat, k: nat)
    requires n <= |ops| && Executed(hs, ops, n)
    ensures Executed(Strike(hs, k), ops, n)
  {
    hide Strike;
    if i :| 0 <= i < |hs| && hs[i].number == k {
      StrikeOwn(hs, i);
    } else {
      StrikeAbsent(hs, k);
    }
  }

  // ----- entries before and after the last one executed

  lemma OlderIs(old_: seq<Held>, hs: seq<Held>, ops: seq<Op>, n: nat)
    requires Covers(old_, hs, ops, n)
    ensures Older(hs, |ops| - n) == old_ && |hs| == |old_| + (|ops| - n)
  {
  }

  lemma CoversMore(old_: seq<Held>, hs: seq<Held>, ops: seq<Op>, n: nat, op: Op)
    requires Covers(old_, hs, ops, n)
    ensures Covers(old_, hs + [Held(|ops| + 1, op)], ops + [op], n)
  {
    assert From(ops + [op], n) == From(ops, n) + [Held(|ops| + 1, op)];
    assert old_ + From(ops, n) + [Held(|ops| + 1, op)] == old_ + (From(ops, n) + [Held(|ops| + 1, op)]);
  }

  lemma CoversNext(old_: seq<Held>, hs: seq<Held>, ops: seq<Op>, n: nat)
    requires Covers(old_, hs, ops, n) && n < |ops|
    ensures Covers(old_ + [Held(n + 1, ops[n])], hs, ops, n + 1)
  {
    assert From(ops, n) == [Held(n + 1, ops[n])] + From(ops, n + 1);
    assert old_ + ([Held(n + 1, ops[n])] + From(ops, n + 1)) == old_ + [Held(n + 1, ops[n])] + From(ops, n + 1);
  }

  lemma CoversStrike(old_: seq<Held>, hs: seq<Held>, ops: seq<Op>, n: nat, k: nat)
    requires Covers(old_, hs, ops, n) && k <= n
    ensures Covers(Strike(old_, k), Strike(hs, k), ops, n)
  {
    StrikeExecuted(old_, ops, n, k);
    StrikeConcat(old_, From(ops, n), k);
    StrikeAbsent(From(ops, n), k);
    hide Strike, Executed;
  }

  lemma CoversFirst(old_: seq<Held>, hs: seq<Held>, ops: seq<Op>, n: nat)
    requires Covers(old_, hs, ops, n) && hs != []
    ensures old_ != [] ==> hs[0] == old_[0] && hs[0].number <= n && Covers(old_[1..], hs[1..], ops, n)
    ensures old_ == [] ==> n < |ops| && hs[0] == Held(n + 1, ops[n]) && Covers([], hs[1..], ops, n + 1)
  {
    if old_ == [] {
      assert hs == From(ops, n);
      assert From(ops, n)[1..] == From(ops, n + 1) == [] + From(ops, n + 1);
    } else {
      assert (old_ + From(ops, n))[1..] == old_[1..] + From(ops, n);
    }
  }

  lemma CoversInOrder(old_: seq<Held>, hs: seq<Held>, ops: seq<Op>, n: nat)
    requires Covers(old_, hs, ops, n)
    ensures Increasing(hs) && |hs| >= |ops| - n
    ensures forall i :: 0 <= i < |hs| ==> 1 <= hs[i].number <= |ops| && hs[i].op == ops[hs[i].number - 1]
  {
  }

  lemma SplitMore(hs: seq<Held>, ops: seq<Op>, n: nat, op: Op)
    requires Split(hs, ops, n)
    ensures Split(hs + [Held(|ops| + 1, op)], ops + [op], n)
    ensures Older(hs + [Held(|ops| + 1, op)], |ops| + 1 - n) == Older(hs, |ops| - n)
  {
    var old_ := Older(hs, |ops| - n);
    CoversMore(old_, hs, ops, n, op);
    OlderIs(old_, hs + [Held(|ops| + 1, op)], ops + [op], n);
    hide Covers, Older;
  }

  lemma SplitNext(hs: seq<Held>, ops: seq<Op>, n: nat)
    requires Split(hs, ops, n) && n < |ops|
    ensures Split(hs, ops, n + 1)
  {
    var old_ := Older(hs, |ops| - n);
    CoversNext(old_, hs, ops, n);
    OlderIs(old_ + [Held(n + 1, ops[n])], hs, ops, n + 1);
    hide Covers, Older;
  }

  lemma SplitStrike(hs: seq<Held>, ops: seq<Op>, n: nat, k: nat)
    requires Split(hs, ops, n) && k <= n
    ensures Split(Strike(hs, k), ops, n)
  {
    var old_ := Older(hs, |ops| - n);
    CoversStrike(old_, hs, ops, n, k);
    OlderIs(Strike(old_, k), Strike(hs, k), ops, n);
    hide Covers, Older, Strike;
  }

  lemma SplitAgain(down: seq<Held>, ops: seq<Op>, n: nat)
    requires Split(down, ops, n) && Older(down, |ops| - n) != []
    ensures var old_ := Older(down, |ops| - n);
      && down != [] && down[0] == old_[0] && 1 <= down[0].number <= n
      && Split(down[1..], ops, n) && Older(down[1..], |ops| - n) == old_[1..]
  {
    var old_ := Older(down, |ops| - n);
    CoversFirst(old_, down, ops, n);
    OlderIs(old_[1..], down[1..], ops, n);
    assert 1 <= old_[0].number;
    hide Covers, Older;
  }

  lemma SplitFresh(down: seq<Held>, ops: seq<Op>, n: nat)
    requires Split(down, ops, n) && Older(down, |ops| - n) == [] && down != []
    ensures n < |ops| && down[0] == Held(n + 1, ops[n])
    ensures Split(down[1..], ops, n + 1) && Older(down[1..], |ops| - (n + 1)) == []
  {
    CoversFirst([], down, ops, n);
    OlderIs([], down[1..], ops, n + 1);
    hide Covers, Older;
  }

  /** What is delivered next: an older entry again, or the first one not yet executed. */
  lemma SplitFirst(down: seq<Held>, ops: seq<Op>, n: nat)
    requires Split(down, ops, n) && down != []
    ensures var old_, m := Older(down, |ops| - n), down[0];
      && n <= |ops| && Split(down[1..], ops, Max(n, m.number))
      && (if old_ == [] then n < |ops| && m == Held(n + 1, ops[n]) && Older(down[1..], |ops| - (n + 1)) == []
          else m == old_[0] && m.number <= n && Older(down[1..], |ops| - n) == old_[1..])
  {
    if Older(down, |ops| - n) == [] { SplitFresh(down, ops, n); } else { SplitAgain(down, ops, n); }
    hide Split, Older;
  }

  // ----- one user's numbers, step by step

  lemma LedgerRequest(u: string, ops: seq<Op>, n: nat, hs: seq<Held>, up: seq<nat>, down: seq<Held>, linked: bool,
                      op: Op)
    requires Ledger(u, ops, n, |ops|, hs, up, down, linked) && op.user == u && !op.Get?
    ensures var m := Held(|ops| + 1, op);
      Ledger(u, ops + [op], n, |ops| + 1, hs + [m], up, if linked then down + [m] else down, linked)
  {
    hide Split, Older;
    SplitMore(hs, ops, n, op);
    if linked { SplitMore(down, ops, n, op); }
  }

  lemma LedgerDeliver(u: string, ops: seq<Op>, n: nat, hs: seq<Held>, up: seq<nat>, down: seq<Held>, more: seq<nat>)
    requires Ledger(u, ops, n, |ops|, hs, up, down, true) && down != []
    requires more == up || more == up + [down[0].number]
    ensures Ledger(u, ops, Max(n, down[0].number), |ops|, hs, more, down[1..], true)
  {
    hide Split, Older;
    SplitFirst(down, ops, n);
    if down[0].number > n { SplitNext(hs, ops, n); }
  }

  lemma LedgerReport(u: string, ops: seq<Op>, n: nat, hs: seq<Held>, up: seq<nat>, down: seq<Held>, linked: bool)
    requires Ledger(u, ops, n, |ops|, hs, up, down, linked) && up != []
    ensures Ledger(u, ops, n, |ops|, Strike(hs, up[0]), up[1..], down, linked)
  {
    hide Split, Strike;
    SplitStrike(hs, ops, n, up[0]);
  }

  // ----- each step of the system

  lemma StartInv(cap: nat)
    ensures Numbered(START) && Following(cap, START) && AllPassedOn(cap, START)
  {
    forall u ensures UserNumbers(START, u) && InStep(cap, START, u) {
      assert From([], 0) == [] && [] + From([], 0) == [];
      assert Executed([], [], 0);
      assert NOBODY == Proj(EMPTY, u);
    }
  }

  lemma PeopledLocal(cap: nat, a: Flat, op: Op, u: string)
    requires Peopled(a)
    ensures Proj(Next(cap, a, op), u) == if u == op.user then Act(cap, Proj(a, u), op) else Proj(a, u)
    ensures ReplyOf(cap, a, op) == Says(cap, Proj(a, op.user), op)
  {
    hide Proj, Next, Act, ReplyOf, Says;
    NextIsLocal(cap, a, op, u);
  }

  lemma DownToHead(down: seq<Held>, u: string)
    requires down != []
    ensures DownTo(down, u) == if down[0].op.user == u then [down[0]] + DownTo(down[1..], u) else DownTo(down[1..], u)
  {
  }

  lemma RequestNumbers(cap: nat, y: Sys, op: Op, u: string)
    requires UserNumbers(y, u) && !op.Get?
    ensures UserNumbers(DoRequest(cap, y, op), u)
  {
    hide Ledger, Next, DownTo, UpFrom;
    var m := Held(CountOf(y, op.user) + 1, op);
    DownToSnoc(y.down, m, u);
    assert DownTo(y.down, u) + [] == DownTo(y.down, u);
    if u == op.user {
      CountIs(y, u);
      LedgerRequest(u, HistOf(y, u), AppliedOf(y, u), HeldOf(y.held, u), UpFrom(y.up, u), DownTo(y.down, u),
                    y.linked, op);
    }
  }

  lemma CountIs(y: Sys, u: string)
    requires UserNumbers(y, u)
    ensures CountOf(y, u) == |HistOf(y, u)| && AppliedOf(y, u) <= |HistOf(y, u)|
  {
    hide DownTo, UpFrom, Split;
  }

  lemma DeliverNumbers(cap: nat, y: Sys, u: string)
    requires y.linked && y.down != [] && UserNumbers(y, u)
    ensures UserNumbers(DoDeliver(cap, y), u)
  {
    hide Ledger, Next, ReplyOf, DownTo, UpFrom;
    var m := y.down[0];
    DownToHead(y.down, u);
    UpFromSnoc(y.up, Done(m.op.user, m.number), u);
    assert UpFrom(y.up, u) + [] == UpFrom(y.up, u);
    if u == m.op.user {
      CountIs(y, u);
      assert DownTo(y.down, u)[1..] == DownTo(y.down[1..], u);
      LedgerDeliver(u, HistOf(y, u), AppliedOf(y, u), HeldOf(y.held, u), UpFrom(y.up, u), DownTo(y.down, u),
                    UpFrom(DoDeliver(cap, y).up, u));
    }
  }

  lemma ReportNumbers(y: Sys, u: string)
    requires y.up != [] && UserNumbers(y, u)
    ensures UserNumbers(DoReport(y), u)
  {
    hide Ledger, DownTo, UpFrom, Strike;
    UpFromHead(y.up, u);
    AcknowledgeIs(y.held, y.up[0], u);
    hide Acknowledge;
    if u == y.up[0].user {
      CountIs(y, u);
      LedgerReport(u, HistOf(y, u), AppliedOf(y, u), HeldOf(y.held, u), UpFrom(y.up, u), DownTo(y.down, u), y.linked);
    }
  }

  lemma UpFromHead(up: seq<Done>, u: string)
    requires up != []
    ensures if up[0].user != u then UpFrom(up, u) == UpFrom(up[1..], u)
            else UpFrom(up, u) != [] && UpFrom(up, u)[0] == up[0].number && UpFrom(up, u)[1..] == UpFrom(up[1..], u)
  {
  }

  lemma AcknowledgeIs(held: map<string, seq<Held>>, d: Done, u: string)
    ensures HeldOf(Acknowledge(held, d), u)
         == if u == d.user then Strike(HeldOf(held, u), d.number) else HeldOf(held, u)
  {
    hide Strike;
  }

  lemma LinkNumbers(y: Sys, u: string)
    requires UserNumbers(y, u)
    ensures UserNumbers(DoDisconnect(y), u)
    ensures DownTo(Resend(y.held), u) == HeldOf(y.held, u) ==> UserNumbers(DoConnect(y), u)
  {
    hide Split, Resend;
  }

  lemma HeldOwn(y: Sys, v: string)
    requires UserNumbers(y, v)
    ensures forall i :: 0 <= i < |HeldOf(y.held, v)| ==> HeldOf(y.held, v)[i].op.user == v
  {
    hide Split, DownTo, UpFrom;
    SplitOwn(HeldOf(y.held, v), HistOf(y, v), AppliedOf(y, v), v);
  }

  lemma SplitOwn(hs: seq<Held>, ops: seq<Op>, n: nat, v: string)
    requires Split(hs, ops, n) && forall i :: 0 <= i < |ops| ==> ops[i].user == v
    ensures forall i :: 0 <= i < |hs| ==> hs[i].op.user == v
  {
    hide Covers;
    CoversInOrder(Older(hs, |ops| - n), hs, ops, n);
  }

  lemma ResendOwn(y: Sys, u: string)
    requires forall v :: UserNumbers(y, v)
    ensures DownTo(Resend(y.held), u) == HeldOf(y.held, u)
  {
    hide UserNumbers, DownTo, ResendUsers, SortedKeys;
    var us := SortedKeys(y.held.Keys);
    SortedKeysNoDup(y.held.Keys);
    forall v, i | v in us && 0 <= i < |HeldOf(y.held, v)| ensures HeldOf(y.held, v)[i].op.user == v {
      assert UserNumbers(y, v);
      HeldOwn(y, v);
    }
    DownToResend(y.held, us, u);
  }

  /** Every step keeps the numbers in order, whatever becomes of requests and reports. */
  lemma StepNumbers(cap: nat, y: Sys, e: Event)
    requires Numbered(y) && Enabled(y, e)
    ensures Numbered(Do(cap, y, e))
  {
    hide UserNumbers, Next, ReplyOf, Strike, Resend, Peopled;
    var z := Do(cap, y, e);
    match e {
      case Request(op) => NextPeopled(cap, y.primary, op);
      case Deliver => NextPeopled(cap, y.secondary, y.down[0].op);
      case Intake(op) => NextPeopled(cap, y.primary, op);
      case _ =>
    }
    forall u ensures UserNumbers(z, u) {
      assert UserNumbers(y, u);
      match e {
        case Request(op) => RequestNumbers(cap, y, op, u);
        case Deliver => DeliverNumbers(cap, y, u);
        case Report => ReportNumbers(y, u);
        case Disconnect => LinkNumbers(y, u);
        case Connect =>
          ResendOwn(y, u);
          LinkNumbers(y, u);
        case Intake(op) => IntakeNumbers(cap, y, op, u);
      }
    }
  }

  lemma IntakeNumbers(cap: nat, y: Sys, op: Op, u: string)
    requires UserNumbers(y, u)
    ensures UserNumbers(DoIntake(cap, y, op), u)
  {
    hide Ledger, Next, DownTo, UpFrom;
  }

  /** What is delivered next, seen from the whole channel. */
  lemma NextDelivery(y: Sys)
    requires Numbered(y) && y.linked && y.down != []
    ensures var m := y.down[0]; var ops, n := HistOf(y, m.op.user), AppliedOf(y, m.op.user);
      && n <= |ops| && (Again(y, m) || (n < |ops| && m == Held(n + 1, ops[n])))
  {
    var m := y.down[0];
    var u := m.op.user;
    assert UserNumbers(y, u);
    hide DownTo, UpFrom, Split, Peopled;
    DownToHead(y.down, u);
    SplitFirst(DownTo(y.down, u), HistOf(y, u), AppliedOf(y, u));
  }

  /** A delivery keeps its user in step exactly when it is calm. */
  lemma DeliverUserIff(cap: nat, y: Sys)
    requires Numbered(y) && y.linked && y.down != [] && InStep(cap, y, y.down[0].op.user)
    ensures InStep(cap, DoDeliver(cap, y), y.down[0].op.user) <==> CalmDelivery(cap, y, Deliver)
  {
    var m := y.down[0];
    var u := m.op.user;
    hide Numbered, Act, Acts, Proj, Idle, Next, ReplyOf;
    NextDelivery(y);
    PeopledOf(y);
    PeopledLocal(cap, y.secondary, m.op, u);
    IdleIff(cap, Proj(y.secondary, u), m.op);
    if !Again(y, m) { ActsNext(cap, HistOf(y, u), AppliedOf(y, u)); }
  }

  lemma PeopledOf(y: Sys)
    requires Numbered(y)
    ensures Peopled(y.primary) && Peopled(y.secondary)
  {
    hide UserNumbers, Peopled;
  }

  lemma OthersInStep(cap: nat, y: Sys, e: Event, u: string)
    requires Numbered(y) && Enabled(y, e) && InStep(cap, y, u)
    requires e.Deliver? ==> u != y.down[0].op.user
    ensures InStep(cap, Do(cap, y, e), u)
  {
    hide Numbered, Acts, Proj, Next, ReplyOf, Strike, Resend;
    PeopledOf(y);
    match e {
      case Request(op) =>
        assert u == op.user ==> (HistOf(y, u) + [op])[..AppliedOf(y, u)] == HistOf(y, u)[..AppliedOf(y, u)];
      case Deliver => PeopledLocal(cap, y.secondary, y.down[0].op, u);
      case _ =>
    }
  }

  /** One step keeps the secondary in step exactly when it is not the delivery of something that was
      executed already and would change anything. */
  lemma StepFollowsIff(cap: nat, y: Sys, e: Event)
    requires Numbered(y) && Following(cap, y) && Enabled(y, e)
    ensures Following(cap, Do(cap, y, e)) <==> CalmDelivery(cap, y, e)
  {
    hide Numbered, InStep, Do, CalmDelivery;
    forall u | e.Deliver? ==> u != y.down[0].op.user ensures InStep(cap, Do(cap, y, e), u) {
      OthersInStep(cap, y, e, u);
    }
    if e.Deliver? {
      DeliverUserIff(cap, y);
      DoIsDeliver(cap, y);
    } else {
      OnlyDeliveries(cap, y, e);
    }
  }

  lemma DoIsDeliver(cap: nat, y: Sys)
    requires Enabled(y, Deliver)
    ensures Do(cap, y, Deliver) == DoDeliver(cap, y)
  {
  }

  lemma OnlyDeliveries(cap: nat, y: Sys, e: Event)
    requires !e.Deliver?
    ensures CalmDelivery(cap, y, e)
  {
  }

  /** One step leaves the primary with nothing but what it passed on exactly when it takes nothing
      in that changes anything. */
  lemma StepPassesOnIff(cap: nat, y: Sys, e: Event)
    requires Numbered(y) && AllPassedOn(cap, y) && Enabled(y, e)
    ensures AllPassedOn(cap, Do(cap, y, e)) <==> CalmIntake(cap, y, e)
  {
    hide Numbered, Acts, Act, Proj, Next, ReplyOf, Strike, Resend, Idle, Peopled;
    PeopledOf(y);
    var z := Do(cap, y, e);
    forall u | !e.Intake? || u != e.op.user ensures Proj(z.primary, u) == Acts(cap, HistOf(z, u)) {
      if e.Request? || e.Intake? { PeopledLocal(cap, y.primary, e.op, u); }
      if e.Request? && u == e.op.user { ActsSnoc(cap, HistOf(y, u), e.op); }
    }
    if e.Intake? {
      IdleIff(cap, Proj(y.primary, e.op.user), e.op);
      PeopledLocal(cap, y.primary, e.op, e.op.user);
    }
  }

  lemma {:induction false} RunNumbers(cap: nat, y: Sys, es: seq<Event>, z: Sys)
    requires Numbered(y) && Reaches(cap, y, es, z)
    ensures Numbered(z)
    decreases |es|
  {
    hide Numbered;
    if es != [] {
      StepNumbers(cap, y, es[0]);
      RunNumbers(cap, Do(cap, y, es[0]), es[1..], z);
    }
  }

  lemma {:induction false} RunFollowsIff(cap: nat, y: Sys, es: seq<Event>, z: Sys)
    requires Numbered(y) && Following(cap, y) && Reaches(cap, y, es, z)
    ensures AlwaysFollowing(cap, y, es) <==> CalmDeliveries(cap, y, es)
    ensures AlwaysFollowing(cap, y, es) ==> Following(cap, z)
    decreases |es|
  {
    hide Numbered, Following, CalmDelivery;
    if es != [] {
      StepNumbers(cap, y, es[0]);
      StepFollowsIff(cap, y, es[0]);
      if CalmDelivery(cap, y, es[0]) { RunFollowsIff(cap, Do(cap, y, es[0]), es[1..], z); }
    }
  }

  lemma {:induction false} RunPassesOnIff(cap: nat, y: Sys, es: seq<Event>, z: Sys)
    requires Numbered(y) && AllPassedOn(cap, y) && Reaches(cap, y, es, z)
    ensures AlwaysPassedOn(cap, y, es) <==> CalmIntakes(cap, y, es)
    ensures AlwaysPassedOn(cap, y, es) ==> AllPassedOn(cap, z)
    decreases |es|
  {
    hide Numbered, AllPassedOn, CalmIntake;
    if es != [] {
      StepNumbers(cap, y, es[0]);
      StepPassesOnIff(cap, y, es[0]);
      if CalmIntake(cap, y, es[0]) { RunPassesOnIff(cap, Do(cap, y, es[0]), es[1..], z); }
    }
  }

  // ----- what it means

  /** Over every run, through refused requests, lost reports and resends: the numbers held for a
      user are strictly increasing, hence distinct, each names its own request, and none exceeds
      the highest number given out. */
  lemma HeldInOrder(cap: nat, es: seq<Event>, z: Sys, u: string)
    requires Reaches(cap, START, es, z)
    ensures var hs, ops := HeldOf(z.held, u), HistOf(z, u);
      && CountOf(z, u) == |ops| && Increasing(hs)
      && (forall i :: 0 <= i < |hs| ==> 1 <= hs[i].number <= |ops| && hs[i].op == ops[hs[i].number - 1])
  {
    hide Numbered, Following, AllPassedOn, Reaches, UserNumbers;
    StartInv(cap);
    RunNumbers(cap, START, es, z);
    NumberedUser(z, u);
    InOrder(z, u);
  }

  lemma NumberedUser(z: Sys, u: string)
    requires Numbered(z)
    ensures UserNumbers(z, u)
  {
    hide UserNumbers;
  }

  lemma InOrder(z: Sys, u: string)
    requires UserNumbers(z, u)
    ensures var hs, ops := HeldOf(z.held, u), HistOf(z, u);
      && CountOf(z, u) == |ops| && Increasing(hs) && |hs| >= |ops| - AppliedOf(z, u) && AppliedOf(z, u) <= |ops|
      && (forall i :: 0 <= i < |hs| ==> 1 <= hs[i].number <= |ops| && hs[i].op == ops[hs[i].number - 1])
  {
    var ops, n, hs := HistOf(z, u), AppliedOf(z, u), HeldOf(z.held, u);
    hide DownTo, UpFrom, Older;
    CoversInOrder(Older(hs, |ops| - n), hs, ops, n);
    hide Covers;
  }

  /** Over every run from the start: the secondary's data of each user is, at every moment, the
      primary's requests up to the highest number it has executed, exactly when every delivery of
      something executed before would change nothing. */
  lemma InStepIff(cap: nat, es: seq<Event>, z: Sys)
    requires Reaches(cap, START, es, z)
    ensures AlwaysFollowing(cap, START, es) <==> CalmDeliveries(cap, START, es)
  {
    hide Numbered, Following, AllPassedOn, Reaches, AlwaysFollowing, CalmDeliveries;
    StartInv(cap);
    RunFollowsIff(cap, START, es, z);
  }

  /** ... and the primary holds what it passed on and nothing else, exactly when everything it took
      in from migrations changed nothing. */
  lemma PassedOnIff(cap: nat, es: seq<Event>, z: Sys)
    requires Reaches(cap, START, es, z)
    ensures AlwaysPassedOn(cap, START, es) <==> CalmIntakes(cap, START, es)
  {
    hide Numbered, Following, AllPassedOn, Reaches, AlwaysPassedOn, CalmIntakes;
    StartInv(cap);
    RunPassesOnIff(cap, START, es, z);
  }

  /** In such a run the secondary's data of each user is the primary's requests on that user up to
      some point, in the primary's order, and everything acknowledged is among them. */
  lemma SecondaryIsPrefix(cap: nat, es: seq<Event>, z: Sys, u: string)
    requires Reaches(cap, START, es, z) && CalmDeliveries(cap, START, es)
    ensures exists n: nat ::
      && CountOf(z, u) - |HeldOf(z.held, u)| <= n <= |HistOf(z, u)|
      && Proj(z.secondary, u) == Acts(cap, HistOf(z, u)[..n])
  {
    hide Numbered, UserNumbers, Reaches, CalmDeliveries, AlwaysFollowing, Acts, Act, Proj, AllPassedOn;
    StartInv(cap);
    RunNumbers(cap, START, es, z);
    RunFollowsIff(cap, START, es, z);
    NumberedUser(z, u);
    InOrder(z, u);
    hide Increasing;
    assert InStep(cap, z, u);
  }

  /** Where nothing is held back, or nothing is on its way down a live connection, the secondary has
      executed everything. */
  lemma QuietState(cap: nat, z: Sys)
    requires Numbered(z) && Following(cap, z) && (z.held == map[] || (z.linked && z.down == []))
    ensures forall u :: Proj(z.secondary, u) == Acts(cap, HistOf(z, u))
    ensures z.primary == z.secondary <==> AllPassedOn(cap, z)
  {
    hide Proj, Acts, Numbered, InStep;
    forall u ensures Proj(z.secondary, u) == Acts(cap, HistOf(z, u)) {
      NumberedUser(z, u);
      assert InStep(cap, z, u);
      QuietUser(cap, z, u);
    }
    PeopledOf(z);
    if AllPassedOn(cap, z) { PeopledEqual(z.primary, z.secondary); }
  }

  lemma QuietUser(cap: nat, z: Sys, u: string)
    requires UserNumbers(z, u) && InStep(cap, z, u)
    requires HeldOf(z.held, u) == [] || (z.linked && z.down == [])
    ensures AppliedOf(z, u) == |HistOf(z, u)| && Proj(z.secondary, u) == Acts(cap, HistOf(z, u))
  {
    hide Acts, Act, Proj, UserNumbers, DownTo, Increasing;
    InOrder(z, u);
    if z.linked && z.down == [] { NothingLeft(z, u); }
    assert HistOf(z, u)[..|HistOf(z, u)|] == HistOf(z, u);
  }

  lemma NothingLeft(z: Sys, u: string)
    requires UserNumbers(z, u) && z.linked && z.down == []
    ensures AppliedOf(z, u) == |HistOf(z, u)|
  {
    hide UpFrom;
    assert |From(HistOf(z, u), AppliedOf(z, u))| == 0;
  }

  /** With calm deliveries: where nothing is held back, or nothing is on its way down a live
      connection, the two stores are equal exactly when the primary holds what it passed on and
      nothing else, and so whenever nothing taken in had changed anything. */
  lemma QuietMeansEqual(cap: nat, es: seq<Event>, z: Sys)
    requires Reaches(cap, START, es, z) && CalmDeliveries(cap, START, es)
    requires z.held == map[] || (z.linked && z.down == [])
    ensures z.primary == z.secondary <==> AllPassedOn(cap, z)
    ensures CalmIntakes(cap, START, es) ==> z.primary == z.secondary
  {
    hide Numbered, Following, AllPassedOn, Reaches, CalmDeliveries, CalmIntakes, AlwaysFollowing, AlwaysPassedOn;
    StartInv(cap);
    RunNumbers(cap, START, es, z);
    RunFollowsIff(cap, START, es, z);
    RunPassesOnIff(cap, START, es, z);
    QuietState(cap, z);
  }

  /** A line taken in while the stores are equal leaves them equal exactly when it changes nothing. */
  lemma IntakeIff(cap: nat, z: Sys, op: Op)
    requires Numbered(z) && z.primary == z.secondary && op.Put?
    ensures var t := DoIntake(cap, z, op); t.primary == t.secondary <==> Idle(cap, Proj(z.primary, op.user), op)
  {
    hide Numbered, Proj, Act, Next, Idle;
    PeopledOf(z);
    FlatIdleIff(cap, z.primary, op);
  }

  /** An operation leaves a whole store as it is exactly when it is idle for its user. */
  lemma FlatIdleIff(cap: nat, a: Flat, op: Op)
    requires Peopled(a)
    ensures Next(cap, a, op) == a <==> Idle(cap, Proj(a, op.user), op)
  {
    hide Proj, Act, Next, Idle, Peopled;
    var u := op.user;
    IdleIff(cap, Proj(a, u), op);
    NextPeopled(cap, a, op);
    forall x ensures Proj(Next(cap, a, op), x) == if x == u then Act(cap, Proj(a, x), op) else Proj(a, x) {
      PeopledLocal(cap, a, op, x);
    }
    if Idle(cap, Proj(a, u), op) { PeopledEqual(Next(cap, a, op), a); }
  }

  // ----- a resend brings again what was executed already

  function DeliverAll(cap: nat, y: Sys): Sys
    decreases |y.down|
  {
    if y.down == [] then y else DeliverAll(cap, DoDeliver(cap, y))
  }

  function OpsIn(down: seq<Held>): seq<Op> { seq(|down|, i requires 0 <= i < |down| => down[i].op) }

  lemma {:induction false} DeliverAllIs(cap: nat, y: Sys)
    ensures var t := DeliverAll(cap, y);
      t.secondary == Run(cap, y.secondary, OpsIn(y.down)) && t.primary == y.primary && t.down == []
    decreases |y.down|
  {
    hide Next, ReplyOf;
    if y.down != [] {
      DeliverAllIs(cap, DoDeliver(cap, y));
      assert OpsIn(y.down) == [y.down[0].op] + OpsIn(y.down[1..]);
      assert OpsIn(y.down)[1..] == OpsIn(y.down[1..]);
    } else {
      assert OpsIn(y.down) == [];
    }
  }

  lemma {:induction false} OpsOfDown(down: seq<Held>, u: string)
    ensures OpsOf(OpsIn(down), u) == OpsIn(DownTo(down, u))
  {
    if down == [] {
      assert OpsIn(down) == [] && OpsIn(DownTo(down, u)) == [];
    } else {
      OpsOfDown(down[1..], u);
      DownToHead(down, u);
      OpsInFirst(down[0], down[1..]);
      OpsInFirst(down[0], DownTo(down[1..], u));
      assert down == [down[0]] + down[1..];
      OpsOfFirst(down[0].op, OpsIn(down[1..]), u);
      hide DownTo, OpsIn, OpsOf;
    }
  }

  lemma OpsInFirst(m: Held, rest: seq<Held>)
    ensures OpsIn([m] + rest) == [m.op] + OpsIn(rest)
  {
  }

  lemma OpsOfFirst(op: Op, rest: seq<Op>, u: string)
    ensures OpsOf([op] + rest, u) == if op.user == u then [op] + OpsOf(rest, u) else OpsOf(rest, u)
  {
    assert ([op] + rest)[1..] == rest;
  }

  lemma {:induction false} IdleAll(cap: nat, st: UserState, hs: seq<Held>)
    requires forall i :: 0 <= i < |hs| ==> Idle(cap, st, hs[i].op)
    ensures ActAll(cap, st, OpsIn(hs)) == st
  {
    hide Act, Idle;
    if hs == [] {
      assert OpsIn(hs) == [];
    } else {
      IdleIff(cap, st, hs[0].op);
      assert OpsIn(hs)[0] == hs[0].op && OpsIn(hs)[1..] == OpsIn(hs[1..]);
      IdleAll(cap, st, hs[1..]);
    }
  }

  lemma OneAct(cap: nat, st: UserState, hs: seq<Held>)
    requires |hs| <= 1
    ensures ActAll(cap, st, OpsIn(hs)) == st <==> forall i :: 0 <= i < |hs| ==> Idle(cap, st, hs[i].op)
  {
    hide Act, Idle;
    if hs == [] {
      assert OpsIn(hs) == [];
    } else {
      IdleIff(cap, st, hs[0].op);
      assert OpsIn(hs) == [hs[0].op] && [hs[0].op][1..] == [];
      assert ActAll(cap, Act(cap, st, hs[0].op), []) == Act(cap, st, hs[0].op);
    }
  }

  /** Everything `u` has held would change nothing at the secondary. */
  ghost predicate IdleFor(cap: nat, z: Sys, u: string) {
    forall m :: m in HeldOf(z.held, u) ==> Idle(cap, Proj(z.secondary, u), m.op)
  }

  lemma ResentUser(cap: nat, z: Sys, u: string)
    requires Numbered(z) && z.linked && z.down == []
    ensures var t := DeliverAll(cap, DoConnect(DoDisconnect(z)));
      && Peopled(t.secondary) && Peopled(z.secondary)
      && Proj(t.secondary, u) == ActAll(cap, Proj(z.secondary, u), OpsIn(HeldOf(z.held, u)))
  {
    var back := DoConnect(DoDisconnect(z));
    hide UserNumbers, Proj, DownTo, Resend, Peopled, Run, OpsOf;
    ResendOwn(z, u);
    DeliverAllIs(cap, back);
    OpsOfDown(back.down, u);
    RunProj(cap, z.secondary, OpsIn(back.down), u);
    hide DeliverAll, OpsIn;
  }

  function Deliveries(n: nat): seq<Event> { seq(n, i => Deliver) }

  /** Where only repetitions are on their way: all their deliveries keep the secondary in step exactly
      when every one of them would change nothing now. */
  lemma {:induction false} RepeatIff(cap: nat, y: Sys)
    requires Numbered(y) && Following(cap, y) && y.linked && forall m :: m in y.down ==> Again(y, m)
    ensures AlwaysFollowing(cap, y, Deliveries(|y.down|))
      <==> forall m :: m in y.down ==> Idle(cap, Proj(y.secondary, m.op.user), m.op)
    decreases |y.down|
  {
    hide Numbered, Following, Proj, Idle, Next, ReplyOf;
    if y.down != [] {
      var m, z := y.down[0], DoDeliver(cap, y);
      assert Do(cap, y, Deliver) == z;
      StepNumbers(cap, y, Deliver);
      StepFollowsIff(cap, y, Deliver);
      assert Deliveries(|y.down|)[0] == Deliver && Deliveries(|y.down|)[1..] == Deliveries(|z.down|);
      assert m in y.down && forall x :: x in y.down <==> x == m || x in z.down;
      if Idle(cap, Proj(y.secondary, m.op.user), m.op) {
        PeopledOf(y);
        FlatIdleIff(cap, y.secondary, m.op);
        assert z.secondary == y.secondary;
        forall x | x in z.down ensures Again(z, x) { assert Again(y, x); }
        RepeatIff(cap, z);
      }
    }
  }

  lemma {:induction false} DownToMembers(down: seq<Held>, m: Held)
    ensures m in down <==> m in DownTo(down, m.op.user)
  {
    if down != [] {
      DownToHead(down, m.op.user);
      DownToMembers(down[1..], m);
      hide DownTo;
      assert m in down <==> m == down[0] || m in down[1..];
    }
  }

  /** After a break and a reconnection with everything executed, only repetitions are on their way:
      what is held. */
  lemma AllRepeated(cap: nat, z: Sys)
    requires Numbered(z) && z.linked && z.down == []
    ensures var back := DoConnect(DoDisconnect(z));
      && (forall m :: m in back.down <==> m in HeldOf(z.held, m.op.user))
      && (forall m :: m in back.down ==> Again(back, m))
      && (forall u, m :: m in HeldOf(z.held, u) ==> m.op.user == u)
  {
    var back := DoConnect(DoDisconnect(z));
    hide Resend, DownTo, UserNumbers, Peopled;
    forall m ensures (m in back.down <==> m in HeldOf(z.held, m.op.user)) && (m in back.down ==> Again(back, m)) {
      ResendOwn(z, m.op.user);
      DownToMembers(back.down, m);
      assert UserNumbers(z, m.op.user);
      NothingLeft(z, m.op.user);
      InOrder(z, m.op.user);
    }
    forall u, m | m in HeldOf(z.held, u) ensures m.op.user == u {
      assert UserNumbers(z, u);
      HeldOwn(z, u);
    }
  }

  lemma Reconnected(cap: nat, z: Sys)
    requires Numbered(z) && Following(cap, z) && z.linked
    ensures var back := DoConnect(DoDisconnect(z));
      && Numbered(back) && Following(cap, back) && back.linked && back.secondary == z.secondary
  {
    hide Numbered, InStep, Resend;
    var off := DoDisconnect(z);
    assert off == Do(cap, z, Disconnect) && DoConnect(off) == Do(cap, off, Connect);
    StepNumbers(cap, z, Disconnect);
    StepNumbers(cap, off, Connect);
    forall u ensures InStep(cap, DoConnect(off), u) {
      OthersInStep(cap, z, Disconnect, u);
      OthersInStep(cap, off, Connect, u);
    }
  }

  /** Everything was executed; then the connection breaks, with whatever reports are under way, and
      comes back. The secondary stays in step through the resend exactly when every held request would
      change nothing. It ends as it was if that is so and, where no user has more than one held, only
      if. */
  lemma ResendIff(cap: nat, z: Sys)
    requires Numbered(z) && Following(cap, z) && z.linked && z.down == []
    ensures var back := DoConnect(DoDisconnect(z)); var t := DeliverAll(cap, back);
      && (AlwaysFollowing(cap, back, Deliveries(|back.down|)) <==> forall u :: IdleFor(cap, z, u))
      && ((forall u :: IdleFor(cap, z, u)) ==> t.secondary == z.secondary)
      && ((forall u :: |HeldOf(z.held, u)| <= 1) ==> (t.secondary == z.secondary <==> forall u :: IdleFor(cap, z, u)))
  {
    hide Numbered, Following, Proj, DeliverAll, ActAll, OpsIn, Idle, AlwaysFollowing, Resend;
    Reconnected(cap, z);
    AllRepeated(cap, z);
    RepeatIff(cap, DoConnect(DoDisconnect(z)));
    ResendEnds(cap, z);
    SameEntries(cap, z, DoConnect(DoDisconnect(z)).down);
  }

  lemma SameEntries(cap: nat, z: Sys, down: seq<Held>)
    requires forall m :: m in down <==> m in HeldOf(z.held, m.op.user)
    requires forall u, m :: m in HeldOf(z.held, u) ==> m.op.user == u
    ensures (forall m :: m in down ==> Idle(cap, Proj(z.secondary, m.op.user), m.op))
       <==> (forall u :: IdleFor(cap, z, u))
  {
    hide Idle, Proj, HeldOf;
    if forall u :: IdleFor(cap, z, u) {
      forall m | m in down ensures Idle(cap, Proj(z.secondary, m.op.user), m.op) {
        assert IdleFor(cap, z, m.op.user);
      }
    }
  }

  lemma ResendEnds(cap: nat, z: Sys)
    requires Numbered(z) && z.linked && z.down == []
    ensures var t := DeliverAll(cap, DoConnect(DoDisconnect(z)));
      && ((forall u :: IdleFor(cap, z, u)) ==> t.secondary == z.secondary)
      && ((forall u :: |HeldOf(z.held, u)| <= 1) ==> (t.secondary == z.secondary <==> forall u :: IdleFor(cap, z, u)))
  {
    var t := DeliverAll(cap, DoConnect(DoDisconnect(z)));
    hide Numbered, Proj, DeliverAll, ActAll, OpsIn, Idle, Peopled;
    ResentUser(cap, z, "");
    forall u ensures (IdleFor(cap, z, u) ==> Proj(t.secondary, u) == Proj(z.secondary, u))
        && (|HeldOf(z.held, u)| <= 1 ==> (Proj(t.secondary, u) == Proj(z.secondary, u) <==> IdleFor(cap, z, u))) {
      var hs := HeldOf(z.held, u);
      ResentUser(cap, z, u);
      if IdleFor(cap, z, u) { IdleAll(cap, Proj(z.secondary, u), hs); }
      if |hs| <= 1 { OneAct(cap, Proj(z.secondary, u), hs); }
    }
    hide IdleFor;
    if forall u :: IdleFor(cap, z, u) { PeopledEqual(t.secondary, z.secondary); }
  }

  lemma PeopledEqual(a: Flat, b: Flat)
    requires Peopled(a) && Peopled(b) && forall u :: Proj(a, u) == Proj(b, u)
    ensures a == b
  {
    hide Proj;
    SameProj(a, b);
  }

  // ----- a refused request that is not idle when it comes again

  const REMOVE: Op := Dele("a", "f")
  const STORE: Op := Put("a", "f", "v")

  lemma Losing1(cap: nat)
    requires cap > 1
    ensures var y := DoRequest(cap, DoConnect(START), REMOVE);
      && y == Sys(EMPTY, EMPTY, map["a" := 1], map["a" := [Held(1, REMOVE)]], true, [Held(1, REMOVE)], [],
                  map["a" := [REMOVE]], map[])
      && DoDeliver(cap, y) == y.(down := [], applied := map["a" := 1])
  {
    assert SortedKeys({}) == [] && Resend(map[]) == [];
    assert [] + [Held(1, REMOVE)] == [Held(1, REMOVE)] && [] + [REMOVE] == [REMOVE];
    SettleSame(EMPTY, "a", OutcomeOf(cap, EMPTY, REMOVE));
  }

  const STORED: Flat := Flat(map["a" := map["f" := "v"]], map["a" := 1])

  lemma StoreFresh(cap: nat)
    requires cap > 1
    ensures Next(cap, EMPTY, STORE) == STORED && ReplyOf(cap, EMPTY, STORE) == FlatStore.Stored
  {
    assert "" + "v" == "v" && AppendTo(map[], "f", "v") == map["f" := "v"];
    assert map[]["a" := map["f" := "v"]] == map["a" := map["f" := "v"]];
  }

  lemma StrikeSecond()
    ensures Strike([Held(1, REMOVE), Held(2, STORE)], 2) == [Held(1, REMOVE)]
  {
    assert [Held(1, REMOVE), Held(2, STORE)][1..] == [Held(2, STORE)] && [Held(2, STORE)][1..] == [];
    assert Strike([Held(2, STORE)], 2) == [];
  }

  lemma Losing2(cap: nat, y: Sys)
    requires cap > 1 && y.linked && y.down == [] && y.up == [] && y.primary == y.secondary == EMPTY
    requires y.count == map["a" := 1] && y.held == map["a" := [Held(1, REMOVE)]] && y.applied == map["a" := 1]
    ensures var z := DoRequest(cap, y, STORE);
      && z.primary == STORED && z.linked && z.down == [Held(2, STORE)] && z.up == []
      && z.held == map["a" := [Held(1, REMOVE), Held(2, STORE)]]
      && (var t := DoDeliver(cap, z);
          && t.primary == STORED && t.secondary == STORED && t.up == [Done("a", 2)] && t.held == z.held
          && DoReport(t).held == map["a" := [Held(1, REMOVE)]])
  {
    StoreFresh(cap);
    StrikeSecond();
    hide Next, ReplyOf, Strike;
    assert [Held(1, REMOVE)] + [Held(2, STORE)] == [Held(1, REMOVE), Held(2, STORE)];
  }

  lemma Losing3(cap: nat, y: Sys)
    requires y.secondary == STORED && y.held == map["a" := [Held(1, REMOVE)]]
    ensures var back := DoConnect(DoDisconnect(y));
      back.down == [Held(1, REMOVE)] && DoDeliver(cap, back).secondary.files == map[]
  {
    OneHeld(Held(1, REMOVE));
    SizeOfNone();
    assert map["f" := "v"] - {"f"} == map[];
    assert map["a" := map["f" := "v"]] - {"a"} == map[];
  }

  lemma OneHeld(m: Held)
    ensures Resend(map[m.op.user := [m]]) == [m]
  {
    var u := m.op.user;
    var held := map[u := [m]];
    assert held.Keys == {u};
    assert Least({u}) == u && {u} - {u} == {};
    assert SortedKeys({u}) == [u] + [];
    assert [u][1..] == [] && [m] + [] == [m];
    assert HeldOf(held, u) == [m] && ResendUsers(held, []) == [];
    assert ResendUsers(held, [u]) == HeldOf(held, u) + ResendUsers(held, [u][1..]);
  }

  lemma ReachesFirst(cap: nat, y: Sys, e: Event, es: seq<Event>, z: Sys)
    requires Enabled(y, e) && Reaches(cap, Do(cap, y, e), es, z)
    ensures Reaches(cap, y, [e] + es, z)
  {
    hide Do, Enabled;
    assert ([e] + es)[1..] == es;
  }

  const LOSING_END: seq<Event> := [Request(STORE), Deliver, Report, Disconnect, Connect, Deliver]

  lemma LosingEnds(cap: nat, y: Sys) returns (z: Sys)
    requires cap > 1 && y.linked && y.down == [] && y.up == [] && y.primary == y.secondary == EMPTY
    requires y.count == map["a" := 1] && y.held == map["a" := [Held(1, REMOVE)]] && y.applied == map["a" := 1]
    ensures Reaches(cap, y, LOSING_END, z) && z.linked && z.down == []
    ensures z.primary.files == map["a" := map["f" := "v"]] && z.secondary.files == map[]
  {
    Losing2(cap, y);
    var y4 := DoRequest(cap, y, STORE);
    var y5 := DoDeliver(cap, y4);
    var y6 := DoReport(y5);
    Losing3(cap, y6);
    var y7 := DoDisconnect(y6);
    var y8 := DoConnect(y7);
    z := DoDeliver(cap, y8);
    hide Next, ReplyOf, Resend, Acknowledge, SortedKeys;
    assert y6.linked && y8.linked && !y7.linked && z.linked && z.down == [] && z.primary == y4.primary;
    assert Reaches(cap, z, [], z);
    hide DoRequest, DoDeliver, DoReport, DoConnect, DoDisconnect, Reaches;
    ReachesFirst(cap, y8, Deliver, [], z);
    ReachesFirst(cap, y7, Connect, [Deliver], z);
    ReachesFirst(cap, y6, Disconnect, [Connect, Deliver], z);
    ReachesFirst(cap, y5, Report, [Disconnect, Connect, Deliver], z);
    ReachesFirst(cap, y4, Deliver, [Report, Disconnect, Connect, Deliver], z);
    ReachesFirst(cap, y, Request(STORE), [Deliver, Report, Disconnect, Connect, Deliver], z);
    assert LOSING_END == [Request(STORE)] + [Deliver, Report, Disconnect, Connect, Deliver];
  }

  /** A removal that finds nothing is held for ever; the file is stored afterwards and acknowledged;
      at the next connection the removal comes again. */
  const LOSING: seq<Event> := [Connect, Request(REMOVE), Deliver] + LOSING_END

  /** That is a run of the system; nothing is on its way at its end, the primary has the file and
      the secondary has lost it: without the condition on resends the stores part. */
  lemma RefusedThenLost(cap: nat) returns (z: Sys)
    requires cap > 1
    ensures Reaches(cap, START, LOSING, z) && z.linked && z.down == []
    ensures z.primary.files == map["a" := map["f" := "v"]] && z.secondary.files == map[]
  {
    Losing1(cap);
    var y1 := DoConnect(START);
    var y2 := DoRequest(cap, y1, REMOVE);
    var y3 := DoDeliver(cap, y2);
    z := LosingEnds(cap, y3);
    hide DoRequest, DoDeliver, Reaches;
    ReachesFirst(cap, y2, Deliver, LOSING_END, z);
    ReachesFirst(cap, y1, Request(REMOVE), [Deliver] + LOSING_END, z);
    ReachesFirst(cap, START, Connect, [Request(REMOVE)] + ([Deliver] + LOSING_END), z);
    assert LOSING == [Connect] + ([Request(REMOVE)] + ([Deliver] + LOSING_END));
  }
}
