/** The store a client sees: one map from user to file to bytes, and the size record.
    There is no memory, no disk and no recency here. */
module FlatStore {
  import opened RowCodec
  import opened Text

  datatype Op =
    | Put(user: string, file: string, value: string)
    | Get(user: string, file: string)
    | Cput(user: string, file: string, old_: string, new_: string)
    | Dele(user: string, file: string)
    | Rename(user: string, file: string, to: string)

  datatype Reply =
    | Stored
    | FileTooBig
    | StorageExceeded
    | Value(value: string)
    | NoSuchUser
    | NoSuchFile
    | VersionCheckFailed
    | Deleted
    | Renamed

  /** `size` is `user_size`: its entries outlive the user's files, and a rejected put of an
      unknown user leaves a zero entry (`operator[]` inserts). */
  datatype Flat = Flat(files: map<string, Files>, size: map<string, int>)

  const EMPTY: Flat := Flat(map[], map[])

  function Max(a: nat, b: nat): nat { if a < b then b else a }

  function FilesAt(files: map<string, Files>, u: string): Files {
    if u in files then files[u] else map[]
  }

  function SizeAt(size: map<string, int>, u: string): int {
    if u in size then size[u] else 0
  }

  /** The outcome of an operation on one user: new files (none when the user goes away or
      does not exist), new size entry (none when there is none), and the reply. */
  datatype Outcome = Outcome(files: Files, size: int, touched: bool, reply: Reply)

  function PutOutcome(cap: nat, files: Files, size: int, touched: bool, f: string, v: string): Outcome {
    if |v| > cap then Outcome(files, size, touched, FileTooBig)
    else if size + |v| >= cap then Outcome(files, size, true, StorageExceeded)
    else Outcome(AppendTo(files, f, v), size + |v|, true, Stored)
  }

  /** Compare and swap. */
  function CputOutcome(cap: nat, files: Files, size: int, touched: bool, f: string, old_: string, new_: string)
    : Outcome
  {
    if files == map[] then Outcome(files, size, touched, NoSuchUser)
    else if f !in files then Outcome(files, size, touched, NoSuchFile)
    else if files[f] != old_ then Outcome(files, size, touched, VersionCheckFailed)
    else if size - |old_| + |new_| >= cap then Outcome(files, size, touched, StorageExceeded)
    else Outcome(files[f := new_], size - |old_| + |new_|, touched, Stored)
  }

  function DeleOutcome(files: Files, size: int, touched: bool, f: string): Outcome {
    if files == map[] then Outcome(files, size, touched, NoSuchUser)
    else if f !in files then Outcome(files, size, touched, NoSuchFile)
    else Outcome(files - {f}, size - |files[f]|, touched, Deleted)
  }

  function RenameOutcome(files: Files, size: int, touched: bool, f: string, to: string): Outcome {
    if files == map[] then Outcome(files, size, touched, NoSuchUser)
    else if f !in files then Outcome(files, size, touched, NoSuchFile)
    else
      var rest := files - {f};
      Outcome(rest[to := files[f]], size - |ValueOf(rest, to)|, touched, Renamed)
  }

  function GetOutcome(files: Files, size: int, touched: bool, f: string): Outcome {
    if files == map[] then Outcome(files, size, touched, NoSuchUser)
    else if f !in files then Outcome(files, size, touched, NoSuchFile)
    else Outcome(files, size, touched, Value(files[f]))
  }

  /** What an operation does to its own user. A user without files does not exist. */
  function UserStep(cap: nat, files: Files, size: int, touched: bool, op: Op): Outcome {
    match op
    case Put(_, f, v) => PutOutcome(cap, files, size, touched, f, v)
    case Get(_, f) => GetOutcome(files, size, touched, f)
    case Cput(_, f, o, n) => CputOutcome(cap, files, size, touched, f, o, n)
    case Dele(_, f) => DeleOutcome(files, size, touched, f)
    case Rename(_, f, t) => RenameOutcome(files, size, touched, f, t)
  }

  function Settle(a: Flat, u: string, o: Outcome): Flat {
    Flat(if o.files == map[] then a.files - {u} else a.files[u := o.files],
         if o.touched then a.size[u := o.size] else a.size)
  }

  lemma SettleSame(a: Flat, u: string, o: Outcome)
    requires o.files == FilesAt(a.files, u) && o.size == SizeAt(a.size, u) && o.touched == (u in a.size)
    requires u in a.files ==> a.files[u] != map[]
    ensures Settle(a, u, o) == a
  {
  }

  function OutcomeOf(cap: nat, a: Flat, op: Op): Outcome {
    UserStep(cap, FilesAt(a.files, op.user), SizeAt(a.size, op.user), op.user in a.size, op)
  }

  function Next(cap: nat, a: Flat, op: Op): Flat { Settle(a, op.user, OutcomeOf(cap, a, op)) }

  function ReplyOf(cap: nat, a: Flat, op: Op): Reply { OutcomeOf(cap, a, op).reply }

  function Run(cap: nat, a: Flat, ops: seq<Op>): Flat
    decreases |ops|
  {
    if ops == [] then a else Run(cap, Next(cap, a, ops[0]), ops[1..])
  }

  // ----- size accounting

  /** The size entry of one user is the exact number of its value bytes, below capacity. */
  ghost predicate UserOk(cap: nat, a: Flat, u: string) {
    && SizeAt(a.size, u) == SizeOf(FilesAt(a.files, u))
    && (u in a.files ==> u in a.size && a.files[u] != map[] && SizeOf(a.files[u]) < cap)
  }

  ghost predicate FlatOk(cap: nat, a: Flat) {
    forall u :: UserOk(cap, a, u)
  }

  lemma OutcomeOk(cap: nat, files: Files, size: int, touched: bool, op: Op)
    requires size == SizeOf(files) && (files != map[] ==> touched && size < cap)
    ensures var o := UserStep(cap, files, size, touched, op);
      && o.size == SizeOf(o.files)
      && (o.files != map[] ==> o.touched && o.size < cap)
      && (!o.touched ==> !touched && o.size == size)
  {
    match op
    case Put(_, f, v) =>
      SizeOfUpdate(files, f, ValueOf(files, f) + v);
    case Get(_, f) =>
    case Cput(_, f, o, n) =>
      SizeOfUpdate(files, f, n);
    case Dele(_, f) =>
      SizeOfRemove(files, f);
    case Rename(_, f, t) =>
      SizeOfRemove(files, f);
      SizeOfUpdate(files - {f}, t, ValueOf(files, f));
  }

  /** Every operation keeps the size record exact. */
  lemma NextOk(cap: nat, a: Flat, op: Op)
    requires FlatOk(cap, a)
    ensures FlatOk(cap, Next(cap, a, op))
  {
    var u := op.user;
    assert UserOk(cap, a, u);
    OutcomeOk(cap, FilesAt(a.files, u), SizeAt(a.size, u), u in a.size, op);
    var b := Next(cap, a, op);
    forall x ensures UserOk(cap, b, x) {
      assert UserOk(cap, a, x);
    }
  }

  lemma {:induction false} RunOk(cap: nat, a: Flat, ops: seq<Op>)
    requires FlatOk(cap, a)
    ensures FlatOk(cap, Run(cap, a, ops))
    decreases |ops|
  {
    hide FlatOk, Next;
    if ops != [] {
      NextOk(cap, a, ops[0]);
      RunOk(cap, Next(cap, a, ops[0]), ops[1..]);
    }
  }

  lemma {:induction false} RunBoth(cap: nat, a: Flat, xs: seq<Op>, ys: seq<Op>)
    ensures Run(cap, a, xs + ys) == Run(cap, Run(cap, a, xs), ys)
    decreases |xs|
  {
    hide Next;
    if xs == [] {
      assert xs + ys == ys;
    } else {
      assert (xs + ys)[1..] == xs[1..] + ys;
      RunBoth(cap, Next(cap, a, xs[0]), xs[1..], ys);
    }
  }

  lemma RunLast(cap: nat, a: Flat, ops: seq<Op>, op: Op)
    ensures Run(cap, a, ops + [op]) == Next(cap, Run(cap, a, ops), op)
  {
    RunBoth(cap, a, ops, [op]);
    hide Next;
    assert [op][1..] == [];
  }

  // ----- what a client can observe

  /** The value a `get` would answer with, if any. */
  function Seen(cap: nat, a: Flat, u: string, f: string): Option<string> {
    match ReplyOf(cap, a, Get(u, f))
    case Value(v) => Some(v)
    case _ => None
  }

  /** What a `get` of (`u`, `f`) sees after an operation that succeeded: only the named files of
      the named user look different. */
  ghost predicate SeenAfter(cap: nat, a: Flat, op: Op, b: Flat, u: string, f: string) {
    var now, was := Seen(cap, b, u, f), Seen(cap, a, u, f);
    if u != op.user then now == was
    else
      match op
      case Put(_, g, v) => now == if f == g then Some((if was.Some? then was.value else "") + v) else was
      case Get(_, _) => now == was
      case Cput(_, g, _, n) => now == if f == g then Some(n) else was
      case Dele(_, g) => now == if f == g then None else was
      case Rename(_, g, t) => now == if f == t then Seen(cap, a, u, g) else if f == g then None else was
  }

  predicate Refused(r: Reply) {
    r.FileTooBig? || r.StorageExceeded? || r.NoSuchUser? || r.NoSuchFile? || r.VersionCheckFailed?
  }

  /** Seen through `get` alone: a refused operation changes nothing, a successful one exactly what
      its name says, and a `cput` succeeds only when the value it expects is the one a `get` sees. */
  lemma ClientSees(cap: nat, a: Flat, op: Op, u: string, f: string)
    requires FlatOk(cap, a)
    ensures var r, b := ReplyOf(cap, a, op), Next(cap, a, op);
      && (Refused(r) ==> Seen(cap, b, u, f) == Seen(cap, a, u, f))
      && (!Refused(r) ==> SeenAfter(cap, a, op, b, u, f))
      && (op.Cput? && !Refused(r) ==> Seen(cap, a, op.user, op.file) == Some(op.old_))
      && (op.Get? && !Refused(r) ==> Seen(cap, a, op.user, op.file) == Some(r.value))
  {
    assert UserOk(cap, a, op.user);
    SeenIs(cap, a, u, f);
    SeenIs(cap, Next(cap, a, op), u, f);
    SeenIs(cap, a, op.user, op.file);
    OthersAfter(cap, a, op, u);
    hide SizeOf, FlatOk, UserOk, Next, Seen;
    if u == op.user { OneUserSees(cap, a, op, f); }
  }

  lemma OthersAfter(cap: nat, a: Flat, op: Op, u: string)
    ensures u != op.user ==> FilesAt(Next(cap, a, op).files, u) == FilesAt(a.files, u)
  {
    hide OutcomeOf;
  }

  lemma OneUserSees(cap: nat, a: Flat, op: Op, f: string)
    requires UserOk(cap, a, op.user)
    ensures var r, b := ReplyOf(cap, a, op), Next(cap, a, op);
      if Refused(r) then Seen(cap, b, op.user, f) == Seen(cap, a, op.user, f)
      else SeenAfter(cap, a, op, b, op.user, f)
  {
    var b := Next(cap, a, op);
    SeenIs(cap, a, op.user, f);
    SeenIs(cap, b, op.user, f);
    SeenIs(cap, a, op.user, op.file);
    FilesAfter(cap, a, op);
    hide SizeOf, Seen, Next, UserOk;
    if op.Rename? { SeenIs(cap, a, op.user, op.to); }
  }

  lemma SeenIs(cap: nat, a: Flat, u: string, f: string)
    ensures var files := FilesAt(a.files, u);
      Seen(cap, a, u, f) == if f in files then Some(files[f]) else None
  {
    assert f in FilesAt(a.files, u) ==> FilesAt(a.files, u) != map[];
  }

  lemma FilesAfter(cap: nat, a: Flat, op: Op)
    ensures FilesAt(Next(cap, a, op).files, op.user) == OutcomeOf(cap, a, op).files
  {
    hide OutcomeOf;
  }

  /** When each answer is given, by the files the user has and the number of their bytes: a put is
      refused for its size exactly when the value exceeds the capacity or the user's bytes with it
      reach it; a `cput` when the value is another one or the bytes after the swap would reach it. */
  lemma ReplyIs(cap: nat, a: Flat, op: Op)
    requires FlatOk(cap, a)
    ensures var r, files := ReplyOf(cap, a, op), FilesAt(a.files, op.user);
      var bytes := SizeOf(files);
      match op
      case Put(_, _, v) =>
        && (r == FileTooBig <==> |v| > cap)
        && (r == StorageExceeded <==> |v| <= cap <= bytes + |v|)
        && (r == Stored <==> |v| <= cap && bytes + |v| < cap)
      case Cput(u, f, o, n) =>
        && (r == NoSuchUser <==> u !in a.files)
        && (r == NoSuchFile <==> u in a.files && f !in files)
        && (r == VersionCheckFailed <==> f in files && files[f] != o)
        && (r == StorageExceeded <==> f in files && files[f] == o && bytes + |n| >= cap + |o|)
        && (r == Stored <==> f in files && files[f] == o && bytes + |n| < cap + |o|)
      case _ =>
        && (r == NoSuchUser <==> op.user !in a.files)
        && (r == NoSuchFile <==> op.user in a.files && op.file !in files)
        && (op.file in files ==>
              r == if op.Get? then Value(files[op.file]) else if op.Dele? then Deleted else Renamed)
  {
    hide SizeOf;
    assert UserOk(cap, a, op.user);
  }
}
