/** Consistent hashing: which node owns a key, what a new node takes over, and which recorded
    names the master hands to it. */
module Ring {

  // ----- hash_str

  const FIRSTH: bv32 := 37
  const MAX_KEY: nat := 86969

  /** A `char` of the source is a signed byte; as `unsigned` it wraps around. */
  function Byte(c: char): bv32 {
    var n := c as int % 256;
    if n < 128 then n as bv32 else n as bv32 - 256
  }

  /** One turn of the loop, with the two primes `A` and `B`. */
  function Mix(h: bv32, c: char): bv32 { (h * 54059) ^ (Byte(c) * 76963) }

  function HashFrom(h: bv32, s: string): bv32
    decreases |s|
  {
    if s == "" then h else HashFrom(Mix(h, s[0]), s[1..])
  }

  function Hash(s: string): (key: nat)
    ensures key < MAX_KEY
  {
    HashFrom(FIRSTH, s) as int % MAX_KEY
  }

  method HashStr(text: string) returns (key: nat)
    ensures key == Hash(text)
  {
    hide Mix;
    var h, s := FIRSTH, text;
    while s != ""
      invariant HashFrom(h, s) == HashFrom(FIRSTH, text)
      decreases |s|
    {
      h := Mix(h, s[0]);
      s := s[1..];
    }
    key := h as int % MAX_KEY;
  }

  /** What a byte is as a signed number, modulo 2^32. */
  lemma ByteIs(c: char)
    requires c as int < 256
    ensures Byte(c) == if c as int < 128 then c as int as bv32 else c as int as bv32 - 256
  {
    assert c as int % 256 == c as int;
  }

  /** One more byte `c` takes a state `h` to `(h * 54059) ^ (c * 76963)`, modulo 2^32. */
  lemma MixIs(h: bv32, c: char)
    ensures Mix(h, c) == (h * 54059) ^ (Byte(c) * 76963)
  {
    hide Byte;
  }

  /** The key of a text is its last state modulo 86969; the first state is 37, and each byte in turn
      takes it on. */
  lemma HashIs(s: string, c: char)
    ensures Hash(s) == HashFrom(37, s) as int % 86969
    ensures HashFrom(37, "") == 37 && HashFrom(37, s + [c]) == Mix(HashFrom(37, s), c)
  {
    hide Mix;
    HashSnoc(37, s, c);
  }

  lemma {:induction false} HashSnoc(h: bv32, s: string, c: char)
    ensures HashFrom(h, s + [c]) == Mix(HashFrom(h, s), c)
    decreases |s|
  {
    hide Mix;
    if s == "" {
      assert "" + [c] == [c] && [c][1..] == "";
    } else {
      assert (s + [c])[0] == s[0] && (s + [c])[1..] == s[1..] + [c];
      HashSnoc(Mix(h, s[0]), s[1..], c);
    }
  }

  lemma ByteA()
    ensures Byte('a') == 97
  {
    assert 'a' as int % 256 == 97;
  }

  lemma ByteB()
    ensures Byte('b') == 98
  {
    assert 'b' as int % 256 == 98;
  }

  lemma ByteE9()
    ensures Byte(233 as char) == 4294967273
  {
    var n := 233;
    assert (233 as char) as int == n;
    assert (n as bv32) - 256 == 4294967273;
  }

  lemma MixA()
    ensures Mix(37, 'a') == 7302388
  {
    ByteA();
    hide Byte;
    assert (37 as bv32) * 54059 == 2000183;
    assert (97 as bv32) * 76963 == 7465411;
    assert (2000183 as bv32) ^ 7465411 == 7302388;
  }

  lemma MixE9()
    ensures Mix(37, 233 as char) == 4294604908
  {
    ByteE9();
    hide Byte;
    assert (37 as bv32) * 54059 == 2000183;
    assert (4294967273 as bv32) * 76963 == 4293197147;
    assert (2000183 as bv32) ^ 4293197147 == 4294604908;
  }

  lemma MixAB()
    ensures Mix(7302388, 'b') == 3925311130
  {
    ByteB();
    hide Byte;
    assert (7302388 as bv32) * 54059 == 3917768956;
    assert (98 as bv32) * 76963 == 7542374;
    assert (3917768956 as bv32) ^ 7542374 == 3925311130;
  }

  /** The keys of a few texts: none, one byte, two bytes, and a byte that is negative as a `char`. */
  lemma SomeKeys()
    ensures Hash("") == 37 && Hash("a") == 83961 && Hash("ab") == 52284 && Hash([233 as char]) == 75688
  {
    hide Mix;
    MixA();
    MixAB();
    MixE9();
    assert "a"[1..] == "" && "ab"[1..] == "b" && "b"[1..] == "" && [233 as char][1..] == "";
    assert HashFrom(37, "a") == 7302388 && HashFrom(37, [233 as char]) == 4294604908;
    assert HashFrom(37, "ab") == HashFrom(7302388, "b") == 3925311130;
    assert (37 as bv32) as int == 37 && (7302388 as bv32) as int == 7302388;
    assert (3925311130 as bv32) as int == 3925311130 && (4294604908 as bv32) as int == 4294604908;
  }

  // ----- the ring

  ghost predicate IsLeast(m: int, ids: set<int>) { m in ids && forall n :: n in ids ==> m <= n }

  lemma {:induction false} LeastExists(ids: set<int>) returns (m: int)
    requires ids != {}
    ensures IsLeast(m, ids)
    decreases |ids|
  {
    assert (exists x :: x in ids) || ids == {};
    m :| m in ids;
    if ids != {m} {
      assert ids == ids - {m} + {m};
      var r := LeastExists(ids - {m});
      if r < m { m := r; }
    }
  }

  function Least(ids: set<int>): (m: int)
    requires ids != {}
    ensures IsLeast(m, ids)
  {
    assert exists m :: IsLeast(m, ids) by { var m := LeastExists(ids); }
    var m :| m in ids && forall n :: n in ids ==> m <= n;
    m
  }

  /** The least id greater than the key, or else the least id of all. */
  ghost predicate IsOwner(ids: set<int>, key: int, r: int) {
    && r in ids
    && if r > key then forall n :: n in ids && n > key ==> r <= n
       else forall n :: n in ids ==> n <= key && r <= n
  }

  lemma OwnerExists(ids: set<int>, key: int) returns (r: int)
    requires ids != {}
    ensures IsOwner(ids, key, r)
  {
    var above := set n | n in ids && n > key;
    r := Least(if above != {} then above else ids);
    assert above == {} ==> forall n :: n in ids ==> n !in above;
  }

  lemma OwnerUnique(ids: set<int>, key: int, r: int, q: int)
    requires IsOwner(ids, key, r) && IsOwner(ids, key, q)
    ensures r == q
  {
  }

  ghost function Owner(ids: set<int>, key: int): (r: int)
    requires ids != {}
    ensures IsOwner(ids, key, r)
  {
    assert exists r :: IsOwner(ids, key, r) by { var r := OwnerExists(ids, key); }
    var r :| IsOwner(ids, key, r);
    r
  }

  /** The loop of `get_server_id` over the ids in ascending order. */
  method OwnerLoop(ids: set<int>, key: int) returns (id: int)
    ensures ids == {} ==> id == -1
    ensures ids != {} ==> id == Owner(ids, key)
  {
    if ids == {} { return -1; }
    var head := Least(ids);
    if 0 <= key < head {
      OwnerUnique(ids, key, head, Owner(ids, key));
      return head;
    }
    var prev, rest := head, ids - {head};
    while rest != {}
      invariant rest <= ids && prev in ids && (forall n :: n in ids ==> n <= prev || n in rest)
      invariant forall n :: n in rest ==> prev < n
      invariant key < head || prev <= key
      decreases |rest|
    {
      var current := Least(rest);
      rest := rest - {current};
      if prev <= key < current {
        OwnerUnique(ids, key, current, Owner(ids, key));
        return current;
      }
      prev := current;
    }
    OwnerUnique(ids, key, head, Owner(ids, key));
    return head;
  }

  // ----- a new id

  /** `p` comes just before the place of `id` on the circle. */
  ghost predicate IsPredecessor(ids: set<int>, id: int, p: int) {
    && p in ids
    && if p < id then forall n :: n in ids && n < id ==> n <= p
       else forall n :: n in ids ==> n >= id && n <= p
  }

  /** From `p` up to, not including, `id`, around the circle when `p` is the greater one. */
  predicate Between(p: int, key: int, id: int) {
    if p < id then p <= key < id else key >= p || key < id
  }

  /** Adding an id changes the owner exactly of the keys from its predecessor up to itself,
      each from the new id's successor to the new id. */
  lemma AddMoves(ids: set<int>, id: int, p: int, key: int)
    requires ids != {} && id !in ids && IsPredecessor(ids, id, p)
    ensures Owner(ids + {id}, key) != Owner(ids, key) <==> Between(p, key, id)
    ensures Owner(ids + {id}, key) != Owner(ids, key) ==>
      Owner(ids, key) == Owner(ids, id) && Owner(ids + {id}, key) == id
  {
    var more := ids + {id};
    var now, was, next := Owner(more, key), Owner(ids, key), Owner(ids, id);
    if Between(p, key, id) {
      assert IsOwner(more, key, id);
      OwnerUnique(more, key, id, now);
      assert IsOwner(ids, key, next);
      OwnerUnique(ids, key, next, was);
    } else {
      assert IsOwner(more, key, was);
      OwnerUnique(more, key, was, now);
    }
  }

  // ----- recorded names

  /** `ids` are the keys of `servers`; `users` is the table of recorded names. */
  datatype Directory = Directory(ids: set<int>, users: map<int, set<string>>)

  const EMPTY: Directory := Directory({}, map[])

  function NamesAt(users: map<int, set<string>>, n: int): set<string> { if n in users then users[n] else {} }

  /** The node a name is looked up at; -1 stands for no node. */
  ghost function Lookup(ids: set<int>, key: int): int { if ids == {} then -1 else Owner(ids, key) }

  /** The "?" arm. On an empty ring it makes an entry for -1. */
  ghost function Ask(d: Directory, name: string): Directory {
    var n := Lookup(d.ids, Hash(name));
    Directory(d.ids + {n}, d.users[n := NamesAt(d.users, n) + {name}])
  }

  /** Names the "!" arm sends to a new node: those whose hash is below its id. */
  function Handed(names: set<string>, id: int): set<string> { set x | x in names && Hash(x) < id }

  /** The "!" arm. */
  ghost function Join(d: Directory, id: int): Directory {
    if id in d.ids then d
    else if d.users == map[] then d.(ids := d.ids + {id})
    else
      var n := Lookup(d.ids, id);
      var names := NamesAt(d.users, n);
      Directory(d.ids + {n, id}, d.users[n := names - Handed(names, id)])
  }

  /** Every recorded name is recorded at the node that owns its hash. */
  ghost predicate Owned(d: Directory) {
    forall n, x :: n in d.users && x in d.users[n] ==> n == Lookup(d.ids, Hash(x)) && d.ids != {}
  }

  /** Name sets of different nodes are disjoint. */
  lemma OwnedDisjoint(d: Directory, m: int, n: int)
    requires Owned(d) && m in d.users && n in d.users && m != n
    ensures d.users[m] !! d.users[n]
  {
    hide Hash, Lookup;
    forall x | x in d.users[m] ensures x !in d.users[n] {
      assert m == Lookup(d.ids, Hash(x)) && (x in d.users[n] ==> n == Lookup(d.ids, Hash(x)));
    }
  }

  lemma AskKeeps(d: Directory, name: string)
    requires Owned(d)
    ensures Owned(Ask(d, name))
  {
    hide Hash;
    var n := Lookup(d.ids, Hash(name));
    assert d.ids + {n} == if d.ids == {} then {-1} else d.ids;
  }

  /** A lookup adds its name at the owner of its hash; every node keeps what it has. */
  lemma AskAdds(d: Directory, name: string, n: int)
    ensures NamesAt(Ask(d, name).users, n)
         == NamesAt(d.users, n) + if n == Lookup(d.ids, Hash(name)) then {name} else {}
    ensures Ask(d, name).ids == d.ids + if d.ids == {} then {-1} else {}
  {
    hide Hash;
  }

  /** The names in the answer to a join: those of the successor whose hash is below the id. */
  ghost function Answered(d: Directory, id: int): set<string> {
    set x | id !in d.ids && x in NamesAt(d.users, Lookup(d.ids, id)) && Hash(x) < id
  }

  /** A join takes the answered names from the successor, and nothing from anybody else. */
  lemma JoinTakes(d: Directory, id: int, n: int)
    ensures NamesAt(Join(d, id).users, n)
         == NamesAt(d.users, n) - if n == Lookup(d.ids, id) then Answered(d, id) else {}
    ensures Join(d, id).ids == d.ids + {id} + if d.ids == {} && d.users != map[] then {-1} else {}
  {
    hide Hash;
  }

  ghost predicate AllAbove(ids: set<int>, id: int) { forall n :: n in ids ==> id < n }
  ghost predicate AllBelow(ids: set<int>, id: int) { forall n :: n in ids ==> n < id }

  /** A recorded name lies beyond the greatest id, so it belongs to the least one only by going
      around the circle. */
  ghost predicate HasWrapped(d: Directory, names: set<string>) {
    exists x :: x in names && AllBelow(d.ids, Hash(x) + 1)
  }

  ghost predicate HasUnwrapped(d: Directory, names: set<string>) {
    exists x :: x in names && !AllBelow(d.ids, Hash(x) + 1)
  }

  /** The names a new id takes over. */
  ghost function Moved(d: Directory, names: set<string>, id: int): set<string>
    requires d.ids != {}
  {
    set x | x in names && Owner(d.ids + {id}, Hash(x)) != Owner(d.ids, Hash(x))
  }

  lemma {:induction false} GreatestExists(ids: set<int>) returns (m: int)
    requires ids != {}
    ensures m in ids && forall n :: n in ids ==> n <= m
    decreases |ids|
  {
    assert (exists x :: x in ids) || ids == {};
    m :| m in ids;
    if ids != {m} {
      assert ids == ids - {m} + {m};
      var r := GreatestExists(ids - {m});
      if r > m { m := r; }
    }
  }

  lemma PredecessorExists(ids: set<int>, id: int) returns (p: int)
    requires ids != {} && id !in ids
    ensures IsPredecessor(ids, id, p)
  {
    var below := set n | n in ids && n < id;
    p := GreatestExists(if below != {} then below else ids);
    assert forall n :: n in ids && n < id ==> n in below;
  }

  /** One recorded name and a new id: `k < id` against the true change of owner. */
  lemma NameMoves(d: Directory, id: int, x: string)
    requires d.ids != {} && id !in d.ids && Owner(d.ids, Hash(x)) == Owner(d.ids, id)
    ensures var moves := Owner(d.ids + {id}, Hash(x)) != Owner(d.ids, Hash(x));
      var wraps := AllBelow(d.ids, Hash(x) + 1);
      if AllAbove(d.ids, id) then (if wraps then moves && Hash(x) >= id else moves <==> Hash(x) < id)
      else if AllBelow(d.ids, id) then (if wraps then moves <==> Hash(x) < id else !moves && Hash(x) < id)
      else moves <==> Hash(x) < id
  {
    hide Hash;
    var p := PredecessorExists(d.ids, id);
    AddMoves(d.ids, id, p, Hash(x));
  }

  /** The names handed to a new node are exactly the recorded names whose owner changed, if and
      only if the id lies strictly between existing ones, or is a new least id and no name at
      its successor has gone around the circle, or is a new greatest id and all of them have. */
  lemma HandoverIff(d: Directory, id: int)
    requires Owned(d) && d.ids != {} && id !in d.ids
    ensures var names := NamesAt(d.users, Owner(d.ids, id));
      Handed(names, id) == Moved(d, names, id) <==>
        && (AllAbove(d.ids, id) ==> !HasWrapped(d, names))
        && (AllBelow(d.ids, id) ==> !HasUnwrapped(d, names))
  {
    hide Hash, Owner;
    var names := NamesAt(d.users, Owner(d.ids, id));
    forall x | x in names ensures Owner(d.ids, Hash(x)) == Owner(d.ids, id) {}
    forall x | x in names ensures
        (x in Handed(names, id) <==> x in Moved(d, names, id)) <==>
        && (AllAbove(d.ids, id) ==> !AllBelow(d.ids, Hash(x) + 1))
        && (AllBelow(d.ids, id) ==> AllBelow(d.ids, Hash(x) + 1)) {
      NameMoves(d, id, x);
    }
  }

  /** Only names at the successor can change owner: nothing else has to be handed over. */
  lemma OnlySuccessorGives(d: Directory, id: int, n: int, x: string)
    requires Owned(d) && d.ids != {} && id !in d.ids && n in d.users && x in d.users[n]
    ensures Owner(d.ids + {id}, Hash(x)) != Owner(d.ids, Hash(x)) ==> n == Owner(d.ids, id)
  {
    hide Hash, Owner;
    var p := PredecessorExists(d.ids, id);
    AddMoves(d.ids, id, p, Hash(x));
  }

  /** A join keeps every recorded name with its owner, except exactly when the id is a new least
      one and a name at its successor has gone around the circle. */
  lemma JoinKeepsIff(d: Directory, id: int)
    requires Owned(d) && d.ids != {} && id !in d.ids
    ensures Owned(Join(d, id)) <==> !(AllAbove(d.ids, id) && HasWrapped(d, NamesAt(d.users, Owner(d.ids, id))))
  {
    hide Hash;
    var e := Join(d, id);
    var n := Owner(d.ids, id);
    var names := NamesAt(d.users, n);
    assert e.ids == d.ids + {id};
    assert d.users == map[] ==> names == {};
    hide Owner;
    forall m, x | m in d.users && x in d.users[m]
      ensures Owner(d.ids, Hash(x)) == m
      ensures Owner(e.ids, Hash(x)) == m || (m == n && x in Moved(d, names, id)) {
      OnlySuccessorGives(d, id, m, x);
    }
    forall x | x in names ensures Owner(d.ids, Hash(x)) == n && n in d.users {}
    forall x | x in names ensures
        (Owner(e.ids, Hash(x)) == n || x in Handed(names, id))
          <==> !(AllAbove(d.ids, id) && AllBelow(d.ids, Hash(x) + 1)) {
      NameMoves(d, id, x);
    }
    if AllAbove(d.ids, id) && HasWrapped(d, names) {
      var x :| x in names && AllBelow(d.ids, Hash(x) + 1);
      assert x in e.users[n];
    }
  }

  /** Handing over the names between the predecessor and the new id instead, around the circle if
      need be, is exact and keeps ownership for every join. */
  lemma BetweenHandover(d: Directory, id: int, p: int)
    requires Owned(d) && d.ids != {} && id !in d.ids && IsPredecessor(d.ids, id, p)
    ensures var n := Owner(d.ids, id); var names := NamesAt(d.users, n);
      var passed := set x | x in names && Between(p, Hash(x), id);
      && passed == Moved(d, names, id)
      && Owned(Directory(d.ids + {id}, d.users[n := names - passed]))
  {
    hide Hash, Owner;
    var n := Owner(d.ids, id);
    forall m, x | m in d.users && x in d.users[m]
      ensures Owner(d.ids, Hash(x)) == m
      ensures Owner(d.ids + {id}, Hash(x)) == m || (m == n && Between(p, Hash(x), id)) {
      AddMoves(d.ids, id, p, Hash(x));
    }
    forall x | x in NamesAt(d.users, n) ensures Owner(d.ids, Hash(x)) == n
      && (Owner(d.ids + {id}, Hash(x)) != Owner(d.ids, Hash(x)) <==> Between(p, Hash(x), id)) {
      AddMoves(d.ids, id, p, Hash(x));
    }
  }

  // ----- runs

  datatype Event = Asked(name: string) | Joined(id: int)

  ghost function Do(d: Directory, e: Event): Directory {
    match e
    case Asked(name) => Ask(d, name)
    case Joined(id) => Join(d, id)
  }

  /** A join under which ownership survives. */
  ghost predicate Safe(d: Directory, e: Event) {
    e.Joined? && d.ids != {} && e.id !in d.ids && AllAbove(d.ids, e.id) ==>
      !HasWrapped(d, NamesAt(d.users, Owner(d.ids, e.id)))
  }

  /** One step keeps every name at its owner exactly when it is safe. */
  lemma StepKeepsIff(d: Directory, e: Event)
    requires Owned(d)
    ensures Owned(Do(d, e)) <==> Safe(d, e)
  {
    hide Hash, Owner;
    match e {
      case Asked(name) => AskKeeps(d, name);
      case Joined(id) =>
        if d.ids != {} && id !in d.ids {
          JoinKeepsIff(d, id);
        } else if d.ids == {} {
          FirstJoinKeeps(d, id);
        }
    }
  }

  lemma FirstJoinKeeps(d: Directory, id: int)
    requires Owned(d) && d.ids == {}
    ensures Owned(Join(d, id))
  {
    hide Hash, Owner;
    forall n | n in d.users ensures d.users[n] == {} {
      forall x ensures x !in d.users[n] {
        assert x in d.users[n] ==> n == Lookup(d.ids, Hash(x)) && d.ids != {};
      }
    }
  }

  /** Every state the events lead through has each name at its owner. */
  ghost predicate AlwaysOwned(d: Directory, es: seq<Event>)
    decreases |es|
  {
    Owned(d) && (es != [] ==> AlwaysOwned(Do(d, es[0]), es[1..]))
  }

  ghost predicate AllSafe(d: Directory, es: seq<Event>)
    decreases |es|
  {
    es == [] || (Safe(d, es[0]) && AllSafe(Do(d, es[0]), es[1..]))
  }

  lemma {:induction false} RunOwnedIff(d: Directory, es: seq<Event>)
    requires Owned(d)
    ensures AlwaysOwned(d, es) <==> AllSafe(d, es)
    decreases |es|
  {
    hide Owned, Do, Safe;
    if es != [] {
      StepKeepsIff(d, es[0]);
      if Safe(d, es[0]) { RunOwnedIff(Do(d, es[0]), es[1..]); }
    }
  }

  /** From the start, over any lookups and joins: each name is at its owner all the way exactly when
      no join is of a new least id while a name at its successor has gone around the circle. */
  lemma FromStart(es: seq<Event>)
    ensures AlwaysOwned(EMPTY, es) <==> AllSafe(EMPTY, es)
  {
    hide AlwaysOwned, AllSafe;
    assert Owned(EMPTY);
    RunOwnedIff(EMPTY, es);
  }

  // ----- no name is lost

  ghost function Recorded(d: Directory): set<string> { set n, x | n in d.users && x in d.users[n] :: x }

  lemma RecordedAt(d: Directory, x: string)
    ensures x in Recorded(d) <==> exists n :: x in NamesAt(d.users, n)
  {
    if x in Recorded(d) {
      var n :| n in d.users && x in d.users[n];
      assert x in NamesAt(d.users, n);
    }
  }

  ghost function AskedIn(es: seq<Event>): set<string> { set i | 0 <= i < |es| && es[i].Asked? :: es[i].name }

  /** The names in the answers to the joins of a run. */
  ghost function AnsweredIn(d: Directory, es: seq<Event>): set<string>
    decreases |es|
  {
    if es == [] then {}
    else (if es[0].Joined? then Answered(d, es[0].id) else {}) + AnsweredIn(Do(d, es[0]), es[1..])
  }

  lemma AskNames(d: Directory, name: string)
    ensures Recorded(Ask(d, name)) == Recorded(d) + {name}
  {
    hide Hash, Lookup, Ask, Recorded;
    forall x ensures x in Recorded(Ask(d, name)) <==> x in Recorded(d) || x == name {
      RecordedAt(d, x);
      RecordedAt(Ask(d, name), x);
      AskedName(d, name, x);
    }
  }

  lemma JoinNames(d: Directory, id: int)
    ensures Recorded(Join(d, id)) + Answered(d, id) == Recorded(d)
  {
    hide Hash, Lookup, Join, Recorded, Answered;
    forall x ensures x in Recorded(Join(d, id)) || x in Answered(d, id) <==> x in Recorded(d) {
      RecordedAt(d, x);
      RecordedAt(Join(d, id), x);
      JoinedName(d, id, x);
    }
  }

  lemma AskedName(d: Directory, name: string, x: string)
    ensures (exists n :: x in NamesAt(Ask(d, name).users, n)) <==> (exists n :: x in NamesAt(d.users, n)) || x == name
  {
    hide Hash, Lookup, Ask, NamesAt;
    var o := Lookup(d.ids, Hash(name));
    AskAdds(d, name, o);
    if n :| x in NamesAt(d.users, n) { AskAdds(d, name, n); }
    if n :| x in NamesAt(Ask(d, name).users, n) { AskAdds(d, name, n); }
  }

  lemma JoinedName(d: Directory, id: int, x: string)
    ensures (exists n :: x in NamesAt(Join(d, id).users, n)) || x in Answered(d, id)
       <==> (exists n :: x in NamesAt(d.users, n))
  {
    hide Hash, Lookup, Join, NamesAt;
    if n :| x in NamesAt(d.users, n) { JoinTakes(d, id, n); }
    if n :| x in NamesAt(Join(d, id).users, n) { JoinTakes(d, id, n); }
  }

  lemma AskedFirst(es: seq<Event>)
    requires es != []
    ensures AskedIn(es) == (if es[0].Asked? then {es[0].name} else {}) + AskedIn(es[1..])
  {
    var rest := es[1..];
    forall x ensures x in AskedIn(es) <==> (es[0].Asked? && x == es[0].name) || x in AskedIn(rest) {
      if x in AskedIn(rest) {
        var i :| 0 <= i < |rest| && rest[i].Asked? && rest[i].name == x;
        assert es[i + 1] == rest[i];
      }
      if x in AskedIn(es) {
        var i :| 0 <= i < |es| && es[i].Asked? && es[i].name == x;
        if i > 0 { assert rest[i - 1] == es[i]; }
      }
    }
  }

  lemma {:induction false} RunNames(d: Directory, es: seq<Event>)
    ensures Recorded(Through(d, es)) + AnsweredIn(d, es) == Recorded(d) + AskedIn(es)
    decreases |es|
  {
    hide Ask, Join, Recorded, Answered, AskedIn;
    if es == [] {
      NoneAsked();
    } else {
      match es[0] {
        case Asked(name) => AskNames(d, name);
        case Joined(id) => JoinNames(d, id);
      }
      AskedFirst(es);
      RunNames(Do(d, es[0]), es[1..]);
    }
  }

  lemma NoneAsked()
    ensures AskedIn([]) == {}
  {
  }

  ghost function Through(d: Directory, es: seq<Event>): Directory
    decreases |es|
  {
    if es == [] then d else Through(Do(d, es[0]), es[1..])
  }

  /** Over every run from the start the names asked for are exactly those still recorded together
      with those handed over in the answers to joins. */
  lemma NamesFromStart(es: seq<Event>)
    ensures Recorded(Through(EMPTY, es)) + AnsweredIn(EMPTY, es) == AskedIn(es)
  {
    hide Through, AnsweredIn, AskedIn;
    RunNames(EMPTY, es);
    assert Recorded(EMPTY) == {};
  }
}
