/** `std::map<std::string, T>` iterates in ascending key order. This module gives that
    order, the ascending list of a key set, and sums over a map that do not depend on it. */
module KeyOrder {

  predicate LexLess(a: string, b: string) {
    if b == [] then false
    else if a == [] then true
    else a[0] < b[0] || (a[0] == b[0] && LexLess(a[1..], b[1..]))
  }

  /** The order on texts that share what precedes position `k`: a proper prefix comes first, and
      otherwise the smaller character there decides. */
  lemma {:induction false} LexAt(a: string, b: string, k: nat)
    requires k <= |a| && k <= |b| && a[..k] == b[..k]
    ensures k == |a| < |b| ==> LexLess(a, b)
    ensures k == |b| ==> !LexLess(a, b)
    ensures k < |a| && k < |b| && a[k] != b[k] ==> (LexLess(a, b) <==> a[k] < b[k])
  {
    if k > 0 {
      assert a[0] == a[..k][0] == b[..k][0] == b[0];
      assert a[1..][..k - 1] == a[..k][1..] && b[1..][..k - 1] == b[..k][1..];
      LexAt(a[1..], b[1..], k - 1);
    }
  }

  lemma {:induction false} LexTotal(a: string, b: string)
    ensures a == b || LexLess(a, b) || LexLess(b, a)
  {
    if a != [] && b != [] && a[0] == b[0] {
      LexTotal(a[1..], b[1..]);
      assert a == [a[0]] + a[1..] && b == [b[0]] + b[1..];
    }
  }

  lemma {:induction false} LexAsymmetric(a: string, b: string)
    requires LexLess(a, b)
    ensures a != b && !LexLess(b, a)
  {
    if a != [] && a[0] == b[0] {
      LexAsymmetric(a[1..], b[1..]);
    }
  }

  lemma {:induction false} LexTransitive(a: string, b: string, c: string)
    requires LexLess(a, b) && LexLess(b, c)
    ensures LexLess(a, c)
  {
    if a != [] && a[0] == b[0] && b[0] == c[0] {
      LexTransitive(a[1..], b[1..], c[1..]);
    }
  }

  predicate IsLeast(m: string, s: set<string>) {
    m in s && forall x {:trigger LexLess(m, x)} :: x in s ==> x == m || LexLess(m, x)
  }

  lemma {:induction false} LeastExists(s: set<string>) returns (m: string)
    requires s != {}
    ensures IsLeast(m, s)
    decreases |s|
  {
    m :| m in s;
    if s != {m} {
      assert s == s - {m} + {m};
      var r := LeastExists(s - {m});
      LexTotal(m, r);
      if LexLess(r, m) {
        m := r;
      } else {
        forall x | x in s - {m} ensures LexLess(m, x) {
          if x != r { LexTransitive(m, r, x); }
        }
      }
    }
  }

  lemma LeastUnique(a: string, b: string, s: set<string>)
    requires IsLeast(a, s) && IsLeast(b, s)
    ensures a == b
  {
    if a != b {
      LexTotal(a, b);
      if LexLess(a, b) { LexAsymmetric(a, b); } else { LexAsymmetric(b, a); }
    }
  }

  /** The key `begin()` points at. */
  function Least(s: set<string>): (m: string)
    requires s != {}
    ensures m in s
  {
    assert exists m :: IsLeast(m, s) by { var m := LeastExists(s); }
    assert forall a, b :: IsLeast(a, s) && IsLeast(b, s) ==> a == b by {
      forall a, b | IsLeast(a, s) && IsLeast(b, s) ensures a == b { LeastUnique(a, b, s); }
    }
    var m :| m in s && IsLeast(m, s);
    m
  }

  ghost predicate NoDup<T>(ks: seq<T>) {
    forall i, j :: 0 <= i < j < |ks| ==> ks[i] != ks[j]
  }

  ghost predicate Ascending(ks: seq<string>) {
    forall i, j :: 0 <= i < j < |ks| ==> LexLess(ks[i], ks[j])
  }

  /** The keys in iteration order. */
  function SortedKeys(s: set<string>): (ks: seq<string>)
    ensures forall k :: k in ks <==> k in s
    decreases |s|
  {
    if s == {} then [] else [Least(s)] + SortedKeys(s - {Least(s)})
  }

  lemma {:induction false} SortedKeysNoDup(s: set<string>)
    ensures NoDup(SortedKeys(s))
    decreases |s|
  {
    if s != {} { SortedKeysNoDup(s - {Least(s)}); }
  }

  lemma {:induction false} SortedKeysAscend(s: set<string>)
    ensures Ascending(SortedKeys(s))
    decreases |s|
  {
    if s != {} {
      SortedKeysAscend(s - {Least(s)});
      var ks := SortedKeys(s);
      forall i, j | 0 <= i < j < |ks| ensures LexLess(ks[i], ks[j]) {
        if i == 0 {
          assert IsLeast(ks[0], s);
          assert ks[j] == SortedKeys(s - {Least(s)})[j - 1];
        }
      }
    }
  }

  /** The key list is the only ascending one with these members. */
  lemma {:induction false} AscendingIs(s: set<string>, ks: seq<string>)
    requires Ascending(ks) && forall k :: k in ks <==> k in s
    ensures ks == SortedKeys(s)
    decreases |ks|
  {
    hide LexLess;
    if ks == [] {
      assert s == {};
    } else {
      assert ks[0] in s && forall k :: k in ks ==> exists i :: 0 <= i < |ks| && ks[i] == k;
      assert IsLeast(ks[0], s);
      LeastIs(ks[0], s);
      var rest := s - {ks[0]};
      forall k ensures k in ks[1..] <==> k in rest {
        if k in ks[1..] {
          var i :| 0 <= i < |ks[1..]| && ks[1..][i] == k;
          assert LexLess(ks[0], ks[i + 1]);
          LexAsymmetric(ks[0], k);
        }
        assert k in ks <==> k == ks[0] || k in ks[1..];
      }
      AscendingIs(rest, ks[1..]);
      assert ks == [ks[0]] + ks[1..];
    }
  }

  lemma LeastIs(m: string, s: set<string>)
    requires IsLeast(m, s)
    ensures Least(s) == m
  {
    hide LexLess;
    LeastUnique(Least(s), m, s);
  }

  lemma TwoKeys(a: string, b: string)
    requires LexLess(a, b)
    ensures SortedKeys({a, b}) == [a, b]
  {
    hide LexLess, SortedKeys;
    AscendingIs({a, b}, [a, b]);
  }

  lemma SetAgain<T, U>(m: map<T, U>, k: T, x: U, y: U)
    ensures m[k := x][k := y] == m[k := y]
  {
  }

  // ----- sums

  function Sum(m: map<string, nat>): nat
    decreases |m|
  {
    if m == map[] then 0
    else
      var k := Least(m.Keys);
      assert |(m - {k}).Keys| < |m.Keys| by { assert (m - {k}).Keys == m.Keys - {k}; }
      m[k] + Sum(m - {k})
  }

  function At(m: map<string, nat>, k: string): nat { if k in m then m[k] else 0 }

  lemma {:induction false} SumRemove(m: map<string, nat>, k: string)
    ensures Sum(m) == At(m, k) + Sum(m - {k})
    decreases |m|
  {
    if k !in m {
      assert m - {k} == m;
    } else {
      var l := Least(m.Keys);
      assert (m - {l}).Keys == m.Keys - {l};
      if l != k {
        SumRemove(m - {l}, k);
        SumRemove(m - {k}, l) by { assert (m - {k}).Keys == m.Keys - {k}; }
        assert m - {l} - {k} == m - {k} - {l};
      }
    }
  }

  lemma SumUpdate(m: map<string, nat>, k: string, v: nat)
    ensures Sum(m[k := v]) == Sum(m) - At(m, k) + v
  {
    SumRemove(m, k);
    SumRemove(m[k := v], k);
    assert m[k := v] - {k} == m - {k};
  }

  lemma {:induction false} SumMonotone(m: map<string, nat>, n: map<string, nat>)
    requires forall k :: k in m ==> k in n && m[k] == n[k]
    ensures Sum(m) <= Sum(n)
    decreases |m|
  {
    if m != map[] {
      var k := Least(m.Keys);
      assert (m - {k}).Keys == m.Keys - {k};
      SumMonotone(m - {k}, n - {k});
      SumRemove(n, k);
    }
  }
}
