/** The load balancer's choice of a server: a scan over the numbers 1 to n that starts where the
    last connection left off. */
module Balancer {

  /** `index = (index + 1) % n; if (index == 0) index = n;` */
  function NextIndex(n: nat, index: nat): nat
    requires n >= 1
  {
    var j := (index + 1) % n;
    if j == 0 then n else j
  }

  lemma NextIndexRange(n: nat, index: nat)
    requires 1 <= index <= n
    ensures NextIndex(n, index) == if index == n then 1 else index + 1
  {
    if n == 1 {
      assert (index + 1) % n == 0;
    } else if index == n {
      assert (n + 1) % n == 1 by { assert n + 1 == 1 * n + 1; ModOf(n, 1, 1); }
    } else if index + 1 == n {
      ModOf(n, 1, 0);
    } else {
      ModOf(n, 0, index + 1);
    }
  }

  lemma ModOf(n: nat, q: nat, r: nat)
    requires r < n
    ensures (q * n + r) % n == r
  {
    var x := q * n + r;
    assert x == (x / n) * n + x % n;
    var d := x / n;
    assert d >= q + 1 ==> d * n >= (q + 1) * n;
    assert d + 1 <= q ==> (d + 1) * n <= q * n;
  }

  /** The server `k` places after `start` on the circle. */
  function Place(n: nat, start: nat, k: nat): nat
    requires 1 <= start <= n && k <= n
  {
    if start + k <= n then start + k else start + k - n
  }

  lemma PlaceNext(n: nat, start: nat, k: nat)
    requires 1 <= start <= n && k < n
    ensures NextIndex(n, Place(n, start, k)) == Place(n, start, k + 1)
    ensures Place(n, start, n) == start
  {
    hide NextIndex;
    NextIndexRange(n, Place(n, start, k));
  }

  ghost predicate NoneBefore(n: nat, up: set<nat>, start: nat, k: nat)
    requires 1 <= start <= n && k <= n
  {
    forall j :: 0 <= j < k ==> Place(n, start, j) !in up
  }

  /** The scan loop; `up` holds the running servers and is fixed while the lock is held.
      `count` is `n` exactly when no server runs; otherwise the index stops at the first
      running server of the circle that begins at `start`. */
  method Scan(n: nat, up: set<nat>, start: nat) returns (index: nat, count: nat)
    requires 1 <= start <= n
    ensures 1 <= index <= n && count <= n && index == Place(n, start, count)
    ensures count == n <==> (forall i :: 1 <= i <= n ==> i !in up)
    ensures count < n ==> index in up
    ensures NoneBefore(n, up, start, count)
  {
    hide NextIndex;
    index, count := start, 0;
    while index !in up
      invariant count < n && index == Place(n, start, count)
      invariant NoneBefore(n, up, start, count)
      decreases n - count
    {
      PlaceNext(n, start, count);
      index := NextIndex(n, index);
      count := count + 1;
      if count >= n { break; }
    }
    if count == n {
      forall i | 1 <= i <= n ensures i !in up {
        assert i == Place(n, start, if i >= start then i - start else i + n - start);
      }
    }
  }

  /** What one connection does: the server it is sent to, if any, and the index it leaves. */
  ghost predicate Serves(n: nat, up: set<nat>, start: nat, k: nat, next: nat)
    requires 1 <= start <= n
  {
    && k < n && Place(n, start, k) in up && NoneBefore(n, up, start, k)
    && next == NextIndex(n, Place(n, start, k))
  }

  /** The body of the accept loop. */
  method Accept(n: nat, up: set<nat>, start: nat) returns (server: nat, next: nat)
    requires 1 <= start <= n
    ensures 1 <= next <= n
    ensures server == 0 <==> (forall i :: 1 <= i <= n ==> i !in up)
    ensures server == 0 ==> next == start
    ensures server != 0 ==> exists k: nat :: Serves(n, up, start, k, next) && server == Place(n, start, k)
  {
    var index, count := Scan(n, up, start);
    if count >= n {
      server, next := 0, index;
      assert next == Place(n, start, n);
    } else {
      NextIndexRange(n, index);
      server, next := index, NextIndex(n, index);
      assert Serves(n, up, start, count, next);
    }
  }

  /** Connections, one after another, while the running servers stay the same: `picks` are
      the servers they are sent to. */
  ghost predicate Served(n: nat, up: set<nat>, start: nat, picks: seq<nat>)
    requires 1 <= start <= n
    decreases |picks|
  {
    picks == [] || exists k: nat, next: nat ::
      && Serves(n, up, start, k, next) && picks[0] == Place(n, start, k) && 1 <= next <= n
      && Served(n, up, next, picks[1..])
  }

  /** The running servers among the first `k` places. */
  function Ahead(n: nat, up: set<nat>, start: nat, k: nat): set<nat>
    requires 1 <= start <= n && k <= n
  {
    set j | 0 <= j < k && Place(n, start, j) in up :: Place(n, start, j)
  }

  function Running(n: nat, up: set<nat>): set<nat> { set i | 1 <= i <= n && i in up }

  lemma AheadAll(n: nat, up: set<nat>, start: nat)
    requires 1 <= start <= n
    ensures Ahead(n, up, start, n) == Running(n, up)
  {
    forall i | i in Running(n, up) ensures i in Ahead(n, up, start, n) {
      var j := if i >= start then i - start else i + n - start;
      assert Place(n, start, j) == i;
    }
  }

  /** As long as the circle that began at `origin` is not complete, each pick is a running
      server not picked before, and none is skipped. */
  lemma {:induction false} PicksAdvance(n: nat, up: set<nat>, origin: nat, done: nat, start: nat, picks: seq<nat>)
    requires 1 <= origin <= n && done <= n && start == Place(n, origin, done)
    requires Served(n, up, start, picks)
    requires |Ahead(n, up, origin, done)| + |picks| <= |Running(n, up)|
    ensures forall i, j :: 0 <= i < j < |picks| ==> picks[i] != picks[j]
    ensures forall i :: 0 <= i < |picks| ==> picks[i] in Running(n, up) && picks[i] !in Ahead(n, up, origin, done)
    decreases |picks|
  {
    if picks == [] { return; }
    var k: nat, next: nat :| Serves(n, up, start, k, next) && picks[0] == Place(n, start, k) && 1 <= next <= n
      && Served(n, up, next, picks[1..]);
    PickOne(n, up, origin, done, start, k, next);
    PicksAdvance(n, up, origin, done + k + 1, next, picks[1..]);
    forall i, j | 0 <= i < j < |picks| ensures picks[i] != picks[j] {
      assert picks[j] == picks[1..][j - 1];
      if i > 0 { assert picks[i] == picks[1..][i - 1]; }
    }
    forall i | 0 <= i < |picks| ensures picks[i] in Running(n, up) && picks[i] !in Ahead(n, up, origin, done) {
      if i > 0 { assert picks[i] == picks[1..][i - 1]; }
    }
  }

  /** Skipping to the end of the circle would mean that all running servers lie behind. */
  lemma SkippedAll(n: nat, up: set<nat>, origin: nat, done: nat, start: nat, k: nat)
    requires 1 <= origin <= n && done <= n && start == Place(n, origin, done)
    requires k < n && NoneBefore(n, up, start, k)
    ensures done + k >= n ==> Ahead(n, up, origin, done) == Ahead(n, up, origin, n)
  {
    if done + k >= n {
      forall j | done <= j < n ensures Place(n, origin, j) !in up {
        assert Place(n, origin, j) == Place(n, start, j - done);
      }
    }
  }

  /** One pick inside the circle. */
  lemma PickOne(n: nat, up: set<nat>, origin: nat, done: nat, start: nat, k: nat, next: nat)
    requires 1 <= origin <= n && done <= n && start == Place(n, origin, done)
    requires Serves(n, up, start, k, next) && |Ahead(n, up, origin, done)| < |Running(n, up)|
    ensures done + k < n && Place(n, start, k) == Place(n, origin, done + k)
    ensures next == Place(n, origin, done + k + 1)
    ensures Place(n, start, k) in Running(n, up) && Place(n, start, k) !in Ahead(n, up, origin, done)
    ensures Ahead(n, up, origin, done + k + 1) == Ahead(n, up, origin, done) + {Place(n, start, k)}
  {
    hide NextIndex;
    AheadAll(n, up, origin);
    SkippedAll(n, up, origin, done, start, k);
    PlaceNext(n, origin, done + k);
    forall j | done <= j < done + k ensures Place(n, origin, j) !in up {
      assert Place(n, origin, j) == Place(n, start, j - done);
    }
    var p := Place(n, start, k);
    assert forall x :: x in Ahead(n, up, origin, done + k + 1) <==> x in Ahead(n, up, origin, done) + {p};
  }

  /** Fairness: any `r` connections in a row, `r` servers running, go to `r` different servers:
      each running server gets exactly one of them. */
  lemma RoundRobin(n: nat, up: set<nat>, start: nat, picks: seq<nat>)
    requires 1 <= start <= n && Served(n, up, start, picks) && |picks| == |Running(n, up)|
    ensures forall i, j :: 0 <= i < j < |picks| ==> picks[i] != picks[j]
    ensures forall s :: s in Running(n, up) <==> s in picks
  {
    hide Served;
    assert Ahead(n, up, start, 0) == {};
    PicksAdvance(n, up, start, 0, start, picks);
    DistinctCover(picks, Running(n, up));
  }

  lemma {:induction false} DistinctCover(xs: seq<nat>, all: set<nat>)
    requires |xs| == |all| && (forall i :: 0 <= i < |xs| ==> xs[i] in all)
    requires forall i, j :: 0 <= i < j < |xs| ==> xs[i] != xs[j]
    ensures forall s :: s in all <==> s in xs
    decreases |xs|
  {
    if xs != [] {
      var rest := all - {xs[0]};
      assert xs[0] in all && |rest| == |all| - 1;
      DistinctCover(xs[1..], rest);
      forall s | s in all ensures s in xs {
        if s != xs[0] { assert s in xs[1..]; }
      }
    }
  }
}
