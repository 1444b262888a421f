/** Which requests the secondary reports, and what is left held when all reports are in. */
module Reports {
  import opened FlatStore
  import opened Replication

  lemma SplitOps(hs: seq<Held>, ops: seq<Op>, n: nat)
    requires Split(hs, ops, n) && forall i :: 0 <= i < |ops| ==> !ops[i].Get?
    ensures Increasing(hs) && forall i :: 0 <= i < |hs| ==> !hs[i].op.Get?
  {
    hide Covers;
    CoversInOrder(Older(hs, |ops| - n), hs, ops, n);
  }

  /** Reads are never passed on, and numbers on their way are in order. */
  lemma DownOps(y: Sys, u: string)
    requires UserNumbers(y, u) && y.linked
    ensures Increasing(DownTo(y.down, u)) && forall i :: 0 <= i < |DownTo(y.down, u)| ==> !DownTo(y.down, u)[i].op.Get?
  {
    hide DownTo, UpFrom, Split, Increasing;
    SplitOps(DownTo(y.down, u), HistOf(y, u), AppliedOf(y, u));
  }

  /** The secondary reports what it delivered, under its own number, exactly when the request was not
      refused. */
  lemma DeliveryReports(cap: nat, y: Sys)
    requires Numbered(y) && Enabled(y, Deliver)
    ensures var m := y.down[0];
      Do(cap, y, Deliver).up
        == y.up + if Refused(ReplyOf(cap, y.secondary, m.op)) then [] else [Done(m.op.user, m.number)]
  {
    hide Numbered, UserNumbers, DownTo, Increasing, ReplyOf, Refused, Success;
    var m := y.down[0];
    NumberedUser(y, m.op.user);
    DownOps(y, m.op.user);
    DownToHead(y.down, m.op.user);
    assert DownTo(y.down, m.op.user)[0] == m;
    Answers(cap, y.secondary, m.op);
    assert y.up + [] == y.up;
  }

  lemma Answers(cap: nat, a: Flat, op: Op)
    requires !op.Get?
    ensures Success(ReplyOf(cap, a, op)) <==> !Refused(ReplyOf(cap, a, op))
  {
  }

  // ----- what waits for what

  /** The requests refused at the secondary since the connection was made. */
  function Turn(cap: nat, y: Sys, e: Event, b: set<Done>): set<Done>
    requires Enabled(y, e)
  {
    match e
    case Connect => {}
    case Deliver =>
      var m := y.down[0];
      if Refused(ReplyOf(cap, y.secondary, m.op)) then b + {Done(m.op.user, m.number)} else b
    case _ => b
  }

  function Refusals(cap: nat, y: Sys, es: seq<Event>, b: set<Done>): set<Done>
    decreases |es|
  {
    if es == [] || !Enabled(y, es[0]) then b
    else Refusals(cap, Do(cap, y, es[0]), es[1..], Turn(cap, y, es[0], b))
  }

  /** The numbers of the entries that were not refused. */
  function Pending(xs: seq<Held>, b: set<Done>, u: string): seq<nat> {
    if xs == [] then []
    else (if Done(u, xs[0].number) in b then [] else [xs[0].number]) + Pending(xs[1..], b, u)
  }

  ghost predicate Has(xs: seq<Held>, n: nat) { exists i :: 0 <= i < |xs| && xs[i].number == n }

  /** What is held of a user is what was delivered, and either refused or about to be reported, and
      then what is still on its way. */
  ghost predicate Waits(xs: seq<Held>, hs: seq<Held>, down: seq<Held>, up: seq<nat>, b: set<Done>, u: string) {
    && hs == xs + down && Pending(xs, b, u) == up
    && forall d :: d in b && d.user == u ==> Has(xs, d.number)
  }

  ghost predicate Waiting(y: Sys, b: set<Done>, u: string) {
    var hs, down := HeldOf(y.held, u), DownTo(y.down, u);
    Waits(Older(hs, |down|), hs, down, UpFrom(y.up, u), b, u)
  }

  lemma WaitsIs(y: Sys, b: set<Done>, u: string, xs: seq<Held>)
    requires Waits(xs, HeldOf(y.held, u), DownTo(y.down, u), UpFrom(y.up, u), b, u)
    ensures Waiting(y, b, u)
  {
    hide DownTo, UpFrom, Pending, Has;
    assert Older(HeldOf(y.held, u), |DownTo(y.down, u)|) == xs;
  }

  lemma {:induction false} PendingSnoc(xs: seq<Held>, m: Held, b: set<Done>, u: string)
    ensures Pending(xs + [m], b, u) == Pending(xs, b, u) + if Done(u, m.number) in b then [] else [m.number]
  {
    if xs == [] {
      assert xs + [m] == [m] && [m][1..] == [];
    } else {
      assert (xs + [m])[0] == xs[0] && (xs + [m])[1..] == xs[1..] + [m];
      PendingSnoc(xs[1..], m, b, u);
    }
  }

  lemma {:induction false} PendingSame(xs: seq<Held>, b: set<Done>, c: set<Done>, u: string)
    requires forall i :: 0 <= i < |xs| ==> (Done(u, xs[i].number) in b <==> Done(u, xs[i].number) in c)
    ensures Pending(xs, b, u) == Pending(xs, c, u)
  {
    if xs != [] { PendingSame(xs[1..], b, c, u); }
  }

  lemma {:induction false} PendingFrom(xs: seq<Held>, b: set<Done>, u: string, n: nat)
    requires n in Pending(xs, b, u)
    ensures Has(xs, n) && Done(u, n) !in b
  {
    if xs[0].number != n || Done(u, n) in b {
      PendingFrom(xs[1..], b, u, n);
      var i :| 0 <= i < |xs[1..]| && xs[1..][i].number == n;
      assert xs[i + 1].number == n;
    } else {
      assert xs[0].number == n;
    }
  }

  /** A report takes out the first entry that waits for one. */
  lemma {:induction false} PendingStrike(xs: seq<Held>, b: set<Done>, u: string)
    requires Increasing(xs) && Pending(xs, b, u) != []
    ensures Pending(Strike(xs, Pending(xs, b, u)[0]), b, u) == Pending(xs, b, u)[1..]
  {
    var n := Pending(xs, b, u)[0];
    if Done(u, xs[0].number) in b {
      var rest := Pending(xs[1..], b, u);
      assert [] + rest == rest && n in rest;
      PendingFrom(xs[1..], b, u, n);
      PendingStrike(xs[1..], b, u);
      var left := Strike(xs[1..], n);
      assert xs[0].number != n && Strike(xs, n) == [xs[0]] + left;
      assert ([xs[0]] + left)[1..] == left;
      assert [] + Pending(left, b, u) == Pending(left, b, u);
    } else {
      StrikeOwn(xs, 0);
      assert xs[..0] + xs[0 + 1..] == xs[1..];
    }
  }

  lemma {:induction false} StrikeHas(xs: seq<Held>, n: nat, k: nat)
    requires Has(xs, k) && k != n
    ensures Has(Strike(xs, n), k)
  {
    var i :| 0 <= i < |xs| && xs[i].number == k;
    var rest := Strike(xs[1..], n);
    if i > 0 {
      assert xs[1..][i - 1].number == k;
      StrikeHas(xs[1..], n, k);
      var j :| 0 <= j < |rest| && rest[j].number == k;
      assert Strike(xs, n)[if xs[0].number == n then j else j + 1].number == k;
    } else {
      assert Strike(xs, n)[0].number == k;
    }
  }

  lemma WaitsReport(xs: seq<Held>, hs: seq<Held>, down: seq<Held>, up: seq<nat>, b: set<Done>, u: string)
    requires Waits(xs, hs, down, up, b, u) && Increasing(hs) && up != []
    ensures Waits(Strike(xs, up[0]), Strike(hs, up[0]), down, up[1..], b, u)
  {
    hide Strike, Pending, Has;
    var n := up[0];
    assert forall i :: 0 <= i < |xs| ==> xs[i] == hs[i];
    PendingStrike(xs, b, u);
    PendingFrom(xs, b, u, n);
    StrikeConcat(xs, down, n);
    NotLater(xs, down, n);
    StrikeAbsent(down, n);
    forall d | d in b && d.user == u ensures Has(Strike(xs, n), d.number) { StrikeHas(xs, n, d.number); }
  }

  lemma NotLater(xs: seq<Held>, down: seq<Held>, n: nat)
    requires Increasing(xs + down) && Has(xs, n)
    ensures forall i :: 0 <= i < |down| ==> down[i].number != n
  {
    var k :| 0 <= k < |xs| && xs[k].number == n;
    forall i | 0 <= i < |down| ensures down[i].number != n {
      assert (xs + down)[k] == xs[k] && (xs + down)[|xs| + i] == down[i];
    }
  }

  lemma WaitsDeliver(xs: seq<Held>, hs: seq<Held>, down: seq<Held>, up: seq<nat>, b: set<Done>, u: string,
                     refused: bool)
    requires Waits(xs, hs, down, up, b, u) && Increasing(hs) && down != []
    ensures var m := down[0];
      Waits(xs + [m], hs, down[1..], if refused then up else up + [m.number],
            if refused then b + {Done(u, m.number)} else b, u)
  {
    hide Pending, Has;
    var m := down[0];
    var c := if refused then b + {Done(u, m.number)} else b;
    assert xs + down == (xs + [m]) + down[1..];
    forall i | 0 <= i < |xs| ensures xs[i].number != m.number { assert hs[i] == xs[i] && hs[|xs|] == m; }
    forall d | d in c && d.user == u ensures Has(xs + [m], d.number) { HasMore(xs, m, d.number); }
    if Done(u, m.number) in b {
      HasNot(xs, m.number);
    }
    PendingSame(xs, b, c, u);
    PendingSnoc(xs, m, c, u);
    assert up + [] == up;
  }

  lemma HasNot(xs: seq<Held>, n: nat)
    requires forall i :: 0 <= i < |xs| ==> xs[i].number != n
    ensures !Has(xs, n)
  {
  }

  lemma HasMore(xs: seq<Held>, m: Held, n: nat)
    ensures n == m.number ==> Has(xs + [m], n)
    ensures Has(xs, n) ==> Has(xs + [m], n)
  {
    assert (xs + [m])[|xs|] == m;
    if Has(xs, n) {
      var i :| 0 <= i < |xs| && xs[i].number == n;
      assert (xs + [m])[i].number == n;
    }
  }

  // ----- step by step

  lemma RequestWaits(cap: nat, y: Sys, op: Op, b: set<Done>, u: string)
    requires y.linked && Waiting(y, b, u)
    ensures Waiting(DoRequest(cap, y, op), b, u)
  {
    hide Waits, DownTo, UpFrom, Next, Older;
    var m := Held(CountOf(y, op.user) + 1, op);
    var xs := Older(HeldOf(y.held, u), |DownTo(y.down, u)|);
    DownToSnoc(y.down, m, u);
    assert DownTo(y.down, u) + [] == DownTo(y.down, u);
    if u == op.user { WaitsMore(xs, HeldOf(y.held, u), DownTo(y.down, u), UpFrom(y.up, u), b, u, m); }
    WaitsIs(DoRequest(cap, y, op), b, u, xs);
  }

  lemma WaitsMore(xs: seq<Held>, hs: seq<Held>, down: seq<Held>, up: seq<nat>, b: set<Done>, u: string, m: Held)
    requires Waits(xs, hs, down, up, b, u)
    ensures Waits(xs, hs + [m], down + [m], up, b, u)
  {
    assert xs + down + [m] == xs + (down + [m]);
  }

  lemma HeldInOrderNow(y: Sys, u: string)
    requires UserNumbers(y, u)
    ensures Increasing(HeldOf(y.held, u))
  {
    hide DownTo, UpFrom, Split, Increasing;
    SplitOps(HeldOf(y.held, u), HistOf(y, u), AppliedOf(y, u));
  }

  lemma DeliverOther(cap: nat, y: Sys, b: set<Done>, u: string)
    requires Numbered(y) && Enabled(y, Deliver) && Waiting(y, b, u) && u != y.down[0].op.user
    ensures Waiting(DoDeliver(cap, y), Turn(cap, y, Deliver, b), u)
  {
    hide Numbered, DownTo, UpFrom, Pending, Has, Next, ReplyOf, Refused, Success;
    var m, z := y.down[0], DoDeliver(cap, y);
    DownToHead(y.down, u);
    UpFromSnoc(y.up, Done(m.op.user, m.number), u);
    assert UpFrom(y.up, u) + [] == UpFrom(y.up, u);
    var xs := Older(HeldOf(y.held, u), |DownTo(y.down, u)|);
    PendingSame(xs, b, Turn(cap, y, Deliver, b), u);
    WaitsIs(z, Turn(cap, y, Deliver, b), u, xs);
  }

  lemma DeliverOwn(cap: nat, y: Sys, b: set<Done>, u: string)
    requires Numbered(y) && Enabled(y, Deliver) && Waiting(y, b, u) && u == y.down[0].op.user
    ensures Waiting(DoDeliver(cap, y), Turn(cap, y, Deliver, b), u)
  {
    hide Numbered, UserNumbers, DownTo, UpFrom, Waits, Next, ReplyOf, Refused, Success, Increasing;
    var m, z := y.down[0], DoDeliver(cap, y);
    var refused := Refused(ReplyOf(cap, y.secondary, m.op));
    NumberedUser(y, u);
    HeldInOrderNow(y, u);
    DeliveryReports(cap, y);
    DoIsDeliver(cap, y);
    DownToHead(y.down, u);
    UpFromSnoc(y.up, Done(u, m.number), u);
    assert y.up + [] == y.up;
    var hs, down, up := HeldOf(y.held, u), DownTo(y.down, u), UpFrom(y.up, u);
    assert down[1..] == DownTo(y.down[1..], u);
    WaitsDeliver(Older(hs, |down|), hs, down, up, b, u, refused);
    WaitsIs(z, Turn(cap, y, Deliver, b), u, Older(hs, |down|) + [m]);
  }

  lemma DeliverWaits(cap: nat, y: Sys, b: set<Done>, u: string)
    requires Numbered(y) && Enabled(y, Deliver) && Waiting(y, b, u)
    ensures Waiting(DoDeliver(cap, y), Turn(cap, y, Deliver, b), u)
  {
    hide Numbered, Waiting, Turn, DoDeliver;
    if u == y.down[0].op.user { DeliverOwn(cap, y, b, u); } else { DeliverOther(cap, y, b, u); }
  }

  lemma ReportWaits(y: Sys, b: set<Done>, u: string)
    requires Numbered(y) && y.up != [] && Waiting(y, b, u)
    ensures Waiting(DoReport(y), b, u)
  {
    assert UserNumbers(y, u);
    HeldInOrderNow(y, u);
    hide Numbered, UserNumbers, DownTo, UpFrom, Pending, Has, Strike, Acknowledge, Increasing;
    var hs, down, up := HeldOf(y.held, u), DownTo(y.down, u), UpFrom(y.up, u);
    var xs := Older(hs, |down|);
    UpFromHead(y.up, u);
    AcknowledgeIs(y.held, y.up[0], u);
    if u == y.up[0].user {
      WaitsReport(xs, hs, down, up, b, u);
      WaitsIs(DoReport(y), b, u, Strike(xs, up[0]));
    } else {
      WaitsIs(DoReport(y), b, u, xs);
    }
  }

  lemma ConnectWaits(y: Sys, u: string)
    requires Numbered(y)
    ensures Waiting(DoConnect(y), {}, u)
  {
    hide UserNumbers, DownTo, UpFrom, Resend, Has;
    ResendOwn(y, u);
    NothingUp(u);
    assert [] + HeldOf(y.held, u) == HeldOf(y.held, u);
    WaitsIs(DoConnect(y), {}, u, []);
  }

  lemma StepWaits(cap: nat, y: Sys, e: Event, b: set<Done>, u: string)
    requires Numbered(y) && Enabled(y, e) && (y.linked ==> Waiting(y, b, u))
    ensures Do(cap, y, e).linked ==> Waiting(Do(cap, y, e), Turn(cap, y, e, b), u)
  {
    hide Numbered, Waits, Acknowledge, Next, ReplyOf, Refused, Success, Resend, DownTo, UpFrom;
    match e {
      case Request(op) => if y.linked { RequestWaits(cap, y, op, b, u); }
      case Deliver => DeliverWaits(cap, y, b, u);
      case Report =>
        LinkedReports(y);
        ReportWaits(y, b, u);
      case Connect => ConnectWaits(y, u);
      case _ =>
    }
  }

  lemma LinkedReports(y: Sys)
    requires Numbered(y) && y.up != []
    ensures y.linked
  {
    hide UserNumbers, Peopled;
  }

  lemma {:induction false} RunWaits(cap: nat, y: Sys, es: seq<Event>, z: Sys, b: set<Done>)
    requires Numbered(y) && Reaches(cap, y, es, z) && (y.linked ==> forall u :: Waiting(y, b, u))
    ensures z.linked ==> forall u :: Waiting(z, Refusals(cap, y, es, b), u)
    decreases |es|
  {
    hide Numbered, Waiting, Do, Turn;
    if es != [] {
      StepNumbers(cap, y, es[0]);
      var t := Do(cap, y, es[0]);
      forall u ensures t.linked ==> Waiting(t, Turn(cap, y, es[0], b), u) { StepWaits(cap, y, es[0], b, u); }
      RunWaits(cap, t, es[1..], z, Turn(cap, y, es[0], b));
    }
  }

  // ----- when everything has come in

  lemma QuietHeld(z: Sys, b: set<Done>, u: string)
    requires Waiting(z, b, u) && z.down == [] && z.up == []
    ensures forall n :: Has(HeldOf(z.held, u), n) <==> Done(u, n) in b
  {
    hide Has;
    var hs := HeldOf(z.held, u);
    assert Older(hs, 0) == hs && hs + [] == hs;
    NothingPending(hs, b, u);
  }

  lemma {:induction false} NothingPending(xs: seq<Held>, b: set<Done>, u: string)
    requires Pending(xs, b, u) == []
    ensures forall n :: Has(xs, n) ==> Done(u, n) in b
  {
    if xs != [] {
      NothingPending(xs[1..], b, u);
      forall n | Has(xs, n) ensures Done(u, n) in b {
        var i :| 0 <= i < |xs| && xs[i].number == n;
        if i > 0 { assert xs[1..][i - 1].number == n; assert Has(xs[1..], n); }
      }
    }
  }

  /** Over every run from the start, with any breaks and lost reports: on a live connection with
      nothing under way either way, the primary holds exactly the requests that the secondary refused
      on this connection, and nothing at all exactly when it refused none. */
  lemma HeldIsRefused(cap: nat, es: seq<Event>, z: Sys)
    requires Reaches(cap, START, es, z) && z.linked && z.down == [] && z.up == []
    ensures var b := Refusals(cap, START, es, {});
      && (forall u, n :: Has(HeldOf(z.held, u), n) <==> Done(u, n) in b)
      && (z.held == map[] <==> b == {})
  {
    hide Numbered, Waiting, Reaches, Refusals, Has;
    StartInv(cap);
    RunWaits(cap, START, es, z, {});
    RunNumbers(cap, START, es, z);
    var b := Refusals(cap, START, es, {});
    forall u ensures forall n :: Has(HeldOf(z.held, u), n) <==> Done(u, n) in b { QuietHeld(z, b, u); }
    NoneHeld(z);
    if b != {} {
      var d :| d in b;
      assert Has(HeldOf(z.held, d.user), d.number);
    }
  }

  lemma NoneHeld(z: Sys)
    requires Numbered(z)
    ensures z.held == map[] <==> forall u, n :: !Has(HeldOf(z.held, u), n)
  {
    hide UserNumbers, Peopled;
    if z.held != map[] {
      var u :| u in z.held;
      assert z.held[u] != [] && HeldOf(z.held, u)[0].number == z.held[u][0].number;
      assert Has(HeldOf(z.held, u), z.held[u][0].number);
    }
  }

  predicate NoneRefused(cap: nat, y: Sys, es: seq<Event>)
    decreases |es|
  {
    es != [] && Enabled(y, es[0]) ==>
      && (es[0].Deliver? ==> !Refused(ReplyOf(cap, y.secondary, y.down[0].op)))
      && NoneRefused(cap, Do(cap, y, es[0]), es[1..])
  }

  lemma {:induction false} NoRefusals(cap: nat, y: Sys, es: seq<Event>)
    requires NoneRefused(cap, y, es)
    ensures Refusals(cap, y, es, {}) == {}
    decreases |es|
  {
    hide Do, Refused, ReplyOf;
    if es != [] && Enabled(y, es[0]) { NoRefusals(cap, Do(cap, y, es[0]), es[1..]); }
  }

  /** Where the secondary refuses nothing, a live connection with nothing under way leaves nothing held. */
  lemma AllReported(cap: nat, es: seq<Event>, z: Sys)
    requires Reaches(cap, START, es, z) && NoneRefused(cap, START, es) && z.linked && z.down == [] && z.up == []
    ensures z.held == map[]
  {
    hide Reaches, NoneRefused, Refusals;
    NoRefusals(cap, START, es);
    HeldIsRefused(cap, es, z);
  }


  // ----- each event, part by part

  ghost predicate SameBooks(y: Sys, z: Sys) {
    z.primary == y.primary && z.count == y.count && forall u :: HeldOf(z.held, u) == HeldOf(y.held, u)
  }

  /** Every request but a `get` is served at any time: the primary executes it, gives it the next
      number of its user, holds it last and sends it when the connection is up. */
  lemma RequestIs(cap: nat, y: Sys, op: Op)
    requires !op.Get?
    ensures Enabled(y, Request(op))
    ensures var z := Do(cap, y, Request(op)); var h := Held(CountOf(y, op.user) + 1, op);
      && z.primary == Next(cap, y.primary, op) && z.secondary == y.secondary
      && (forall u :: CountOf(z, u) == if u == op.user then h.number else CountOf(y, u))
      && (forall u :: HeldOf(z.held, u) == HeldOf(y.held, u) + if u == op.user then [h] else [])
      && z.down == y.down + (if y.linked then [h] else []) && z.up == y.up && z.linked == y.linked
  {
    hide Next;
  }

  /** The secondary executes what comes first; nothing changes at the primary. */
  lemma DeliverIs(cap: nat, y: Sys)
    requires y.linked && y.down != []
    ensures Enabled(y, Deliver)
    ensures var z := Do(cap, y, Deliver);
      && z.secondary == Next(cap, y.secondary, y.down[0].op) && z.down == y.down[1..] && z.linked
      && SameBooks(y, z)
  {
    hide Next, ReplyOf;
  }

  lemma {:induction false} StrikeMembers(hs: seq<Held>, n: nat)
    ensures forall h :: h in Strike(hs, n) <==> h in hs && h.number != n
  {
    if hs != [] { StrikeMembers(hs[1..], n); }
  }

  /** A report takes the entries of its user and number out of the books, and nothing else. */
  lemma ReportIs(cap: nat, y: Sys, u: string, h: Held)
    requires y.up != []
    ensures Enabled(y, Report)
    ensures var d, z := y.up[0], Do(cap, y, Report);
      && (h in HeldOf(z.held, u) <==> h in HeldOf(y.held, u) && (u == d.user ==> h.number != d.number))
      && z == y.(held := z.held, up := y.up[1..])
  {
    hide Strike, Acknowledge;
    AcknowledgeIs(y.held, y.up[0], u);
    StrikeMembers(HeldOf(y.held, u), y.up[0].number);
  }

  /** A break loses what is under way, either way, ... */
  lemma BreakIs(cap: nat, y: Sys)
    requires y.linked
    ensures Enabled(y, Disconnect) && Do(cap, y, Disconnect) == y.(linked := false, down := [], up := [])
  {
  }

  /** ... and a new connection brings everything held again. Neither touches a store or the books. */
  lemma ConnectIs(cap: nat, y: Sys)
    requires Numbered(y) && !y.linked
    ensures Enabled(y, Connect)
    ensures var z := Do(cap, y, Connect);
      && z == y.(linked := true, down := z.down, up := []) && forall u :: DownTo(z.down, u) == HeldOf(y.held, u)
  {
    hide UserNumbers, Resend, DownTo;
    forall u ensures DownTo(Resend(y.held), u) == HeldOf(y.held, u) { ResendOwn(y, u); }
  }
}
