/** The master: its tables of servers and recorded names, and the arms that change them. */
module Master {
  import opened Text
  import KeyOrder
  import opened Ring

  datatype Address = Address(ip: string, port: int)

  /** Two servers per id; a default-constructed `Server`, whose address is empty, is `None`. */
  datatype Pair = Pair(primary: Option<Address>, secondary: Option<Address>)

  const NO_PAIR: Pair := Pair(None, None)

  datatype Reply =
    | Backend(at: Option<Address>)
    | Alone
    | Takes(from: Option<Address>, names: seq<string>)
    | SecondaryOf(primary: Option<Address>)

  predicate Up(alive: set<Address>, s: Option<Address>) { s.Some? && s.value in alive }

  function PairAt(servers: map<int, Pair>, n: int): Pair { if n in servers then servers[n] else NO_PAIR }

  /** The loop over a copy of the name set, in name order. */
  function Chosen(names: seq<string>, id: int): seq<string> {
    if names == [] then [] else (if Hash(names[0]) < id then [names[0]] else []) + Chosen(names[1..], id)
  }

  /** The names in the answer to "!" are the ones `Handed` takes out of the table. */
  lemma {:induction false} ChosenMembers(names: seq<string>, id: int)
    ensures forall x :: x in Chosen(names, id) <==> x in names && Hash(x) < id
  {
    hide Hash;
    if names != [] {
      ChosenMembers(names[1..], id);
      forall x ensures x in Chosen(names, id) <==> x in names && Hash(x) < id {
        assert x in names <==> x == names[0] || x in names[1..];
      }
    }
  }

  lemma {:induction false} ChosenAscend(names: seq<string>, id: int)
    requires KeyOrder.Ascending(names)
    ensures KeyOrder.Ascending(Chosen(names, id))
  {
    hide Hash, KeyOrder.LexLess;
    if names != [] {
      var later := Chosen(names[1..], id);
      ChosenAscend(names[1..], id);
      ChosenMembers(names[1..], id);
      forall j | 0 <= j < |later| ensures KeyOrder.LexLess(names[0], later[j]) {
        assert later[j] in later;
        var k :| 0 <= k < |names[1..]| && names[1..][k] == later[j];
        assert names[k + 1] == later[j];
      }
    }
  }

  /** The answer lists the names to be taken, each once, in ascending order. */
  lemma AnswerLists(list: set<string>, id: int)
    ensures var names := Chosen(KeyOrder.SortedKeys(list), id);
      && KeyOrder.Ascending(names) && (forall x :: x in names <==> x in list && Hash(x) < id)
  {
    hide Hash, Chosen, KeyOrder.LexLess, KeyOrder.Ascending, KeyOrder.SortedKeys;
    KeyOrder.SortedKeysAscend(list);
    ChosenAscend(KeyOrder.SortedKeys(list), id);
    ChosenMembers(KeyOrder.SortedKeys(list), id);
  }

  lemma HandBegin(list: set<string>, id: int)
    ensures list - Handed(list - list, id) == list
  {
  }

  lemma HandTurn(list: set<string>, todo: set<string>, id: int)
    requires todo != {} && todo <= list
    ensures var it := KeyOrder.Least(todo); var rest := todo - {it};
      && Chosen(KeyOrder.SortedKeys(todo), id)
           == (if Hash(it) < id then [it] else []) + Chosen(KeyOrder.SortedKeys(rest), id)
      && list - Handed(list - rest, id)
           == if Hash(it) < id then (list - Handed(list - todo, id)) - {it} else list - Handed(list - todo, id)
  {
    hide Hash;
    var it := KeyOrder.Least(todo);
    assert KeyOrder.SortedKeys(todo)[1..] == KeyOrder.SortedKeys(todo - {it});
    assert list - (todo - {it}) == (list - todo) + {it};
  }

  lemma HandEnd(list: set<string>, id: int)
    ensures list - {} == list && Chosen(KeyOrder.SortedKeys({}), id) == []
  {
  }

  class Master {
    var servers: map<int, Pair>
    var users: map<int, set<string>>

    ghost function View(): Directory
      reads this
    {
      Directory(servers.Keys, users)
    }

    constructor ()
      ensures View() == Ring.EMPTY
    {
      servers, users := map[], map[];
    }

    method GetServerId(key: int) returns (id: int)
      ensures id == Lookup(servers.Keys, key)
    {
      id := OwnerLoop(servers.Keys, key);
    }

    /** `get_backend_info`; `alive` are the servers that answer a connection. The secondary steps in
        for a primary that does not answer. */
    method GetBackendInfo(key: int, alive: set<Address>) returns (at: Option<Address>)
      modifies this`servers
      ensures var n := Lookup(old(servers.Keys), key);
        && n in servers && servers == old(servers)[n := servers[n]] && at == servers[n].primary
        && var was := PairAt(old(servers), n);
        if was.primary.Some? && was.primary.value in alive then servers[n] == was
        else servers[n].primary == was.secondary && servers[n].secondary == None
    {
      var serverId := GetServerId(key);
      var pair := PairAt(servers, serverId);
      if !Up(alive, pair.primary) {
        pair := Pair(pair.secondary, None);
      }
      servers := servers[serverId := pair];
      at := pair.primary;
    }

    /** The "?" arm: the name is recorded at the node that owns its hash, and that node's
        primary is the answer. */
    method Ask(content: string, alive: set<Address>) returns (rep: Reply)
      modifies this
      ensures View() == Ring.Ask(old(View()), content)
      ensures var n := Lookup(old(servers.Keys), Hash(content));
        && n in servers && servers == old(servers)[n := servers[n]] && rep == Backend(servers[n].primary)
        && (n in users && users == old(users)[n := NamesAt(old(users), n) + {content}])
        && var was := PairAt(old(servers), n);
        if was.primary.Some? && was.primary.value in alive then servers[n] == was
        else servers[n].primary == was.secondary && servers[n].secondary == None
    {
      hide Hash;
      var key := HashStr(content);
      var nodeId := GetServerId(key);
      if nodeId !in users {
        users := users[nodeId := {content}];
      } else {
        users := users[nodeId := users[nodeId] + {content}];
      }
      var at := GetBackendInfo(key, alive);
      rep := Backend(at);
      assert NamesAt(old(users), nodeId) + {content} == users[nodeId];
    }

    /** The "!" arm. A known id keeps its primary if that answers, else its secondary steps in, and
        the caller becomes secondary; with neither, the caller becomes primary. A new id has the caller
        as primary and is told, unless nothing was ever asked for, whom to take which names from. */
    method Join(id: int, server: Address, alive: set<Address>) returns (rep: Reply)
      modifies this
      ensures View() == Ring.Join(old(View()), id)
      ensures id in servers
      ensures forall n :: n in old(servers) && n != id ==> n in servers && servers[n] == old(servers)[n]
      ensures forall n :: n in servers && n !in old(servers) && n != id ==> servers[n] == NO_PAIR
      ensures id in old(servers) ==>
        var was, now := old(servers)[id], servers[id];
        if was.primary.Some? && was.primary.value in alive then
          now == Pair(was.primary, Some(server)) && rep == SecondaryOf(was.primary)
        else if was.secondary.Some? then
          now == Pair(was.secondary, Some(server)) && rep == SecondaryOf(was.secondary)
        else now == Pair(Some(server), None) && rep == Alone
      ensures id !in old(servers) ==> servers[id] == Pair(Some(server), None)
      ensures id !in old(servers) && old(users) != map[] ==>
        var dest := Lookup(old(servers.Keys), id);
        rep == Takes(PairAt(old(servers), dest).primary,
                     Chosen(KeyOrder.SortedKeys(NamesAt(old(users), dest)), id))
      ensures id !in old(servers) && old(users) == map[] ==> rep == Alone
    {
      hide Hash;
      var pair := NO_PAIR;
      if id !in servers {
        pair := Pair(Some(server), None);
        if users == map[] {
          rep := Alone;
        } else {
          rep := HandOver(id);
        }
      } else {
        pair := servers[id];
        if !Up(alive, pair.primary) {
          if pair.secondary.None? {
            pair := pair.(primary := Some(server));
            rep := Alone;
          } else {
            pair := Pair(pair.secondary, Some(server));
            rep := SecondaryOf(pair.primary);
          }
        } else {
          pair := pair.(secondary := Some(server));
          rep := SecondaryOf(pair.primary);
        }
      }
      servers := servers[id := pair];
    }

    /** What a new id receives from its successor. */
    method HandOver(id: int) returns (rep: Reply)
      requires users != map[]
      modifies this
      ensures var dest := Lookup(old(servers.Keys), id);
        var list := NamesAt(old(users), dest);
        && servers == old(servers)[dest := PairAt(old(servers), dest)]
        && users == old(users)[dest := list - Handed(list, id)]
        && rep == Takes(PairAt(old(servers), dest).primary, Chosen(KeyOrder.SortedKeys(list), id))
    {
      hide Hash, Handed, Chosen, KeyOrder.SortedKeys;
      var dest := GetServerId(id);
      var list := NamesAt(users, dest);
      users := users[dest := list];
      servers := servers[dest := PairAt(servers, dest)];
      var names := EraseHanded(dest, list, id);
      rep := Takes(servers[dest].primary, names);
    }

    /** The loop over a copy of the successor's names. */
    method EraseHanded(dest: int, list: set<string>, id: int) returns (names: seq<string>)
      requires dest in users && users[dest] == list
      modifies this`users
      ensures users == old(users)[dest := list - Handed(list, id)]
      ensures names == Chosen(KeyOrder.SortedKeys(list), id)
    {
      hide Hash, Handed, Chosen, KeyOrder.SortedKeys, KeyOrder.Least;
      var todo := list;
      names := [];
      ghost var goal := Chosen(KeyOrder.SortedKeys(list), id);
      HandBegin(list, id);
      while todo != {}
        invariant todo <= list
        invariant names + Chosen(KeyOrder.SortedKeys(todo), id) == goal
        invariant dest in users && users[dest] == list - Handed(list - todo, id)
        invariant users == old(users)[dest := users[dest]]
        decreases |todo|
      {
        var it := KeyOrder.Least(todo);
        var k := HashStr(it);
        HandTurn(list, todo, id);
        ghost var later := Chosen(KeyOrder.SortedKeys(todo - {it}), id);
        assert names + ([it] + later) == (names + [it]) + later && [] + later == later;
        if k < id {
          names := names + [it];
          ghost var before := users[dest];
          users := users[dest := users[dest] - {it}];
          KeyOrder.SetAgain(old(users), dest, before, users[dest]);
        }
        todo := todo - {it};
      }
      HandEnd(list, id);
    }
  }

  /** A new server's answer, as text, splits back into the handed names when none has a comma. */
  lemma AnswerParses(list: set<string>, id: int)
    requires forall x :: x in list ==> ',' !in x
    ensures var names := Chosen(KeyOrder.SortedKeys(list), id); Tokens(Terminated(names, ','), ',') == names
  {
    hide Hash, Terminated, Tokens;
    var names := Chosen(KeyOrder.SortedKeys(list), id);
    ChosenMembers(KeyOrder.SortedKeys(list), id);
    assert AllFree(names, ',') by {
      forall i | 0 <= i < |names| ensures ',' !in names[i] { assert names[i] in names; }
    }
    TokensRoundTrip(names, ',', "");
    TokensOfFree("", ',');
    assert Terminated(names, ',') + "" == Terminated(names, ',');
    assert names + [] == names;
  }
}
