/** The store as the source has it: heap nodes in a doubly linked list between two sentinels,
    a table from user to node, and chunk files, all updated in place. */
module LruCache {
  import opened KeyOrder
  import opened Text
  import opened RowCodec
  import opened Chunks
  import opened FlatStore
  import opened TieredStore
  import opened Tiering
  import opened Refinement

  /** The `type` argument: which directory, which metadata map, which `chunk_info` entry. */
  datatype Kind = VirtualMemory | Checkpointing

  class Node {
    var prev: Node?
    var next: Node?
    const key: string
    var value: Files

    constructor (key: string)
      ensures this.key == key && value == map[]
    {
      prev, next, this.key, value := null, null, key, map[];
    }
  }

  /** `sp` is a doubly linked chain: `next` walks it forwards, `prev` backwards, and no node
      occurs twice. */
  ghost predicate Chain(sp: seq<Node>)
    reads sp
  {
    && NoDup(sp)
    && (forall i {:trigger sp[i].next} :: 0 <= i < |sp| - 1 ==> sp[i].next == sp[i + 1])
    && (forall i {:trigger sp[i].prev} :: 0 < i < |sp| ==> sp[i].prev == sp[i - 1])
  }

  function KeysOf(nodes: seq<Node>): seq<string> {
    seq(|nodes|, i requires 0 <= i < |nodes| => nodes[i].key)
  }

  /** The keys between the sentinels, least recently used first. */
  function OrderOf(sp: seq<Node>): seq<string>
    requires |sp| >= 2
  {
    KeysOf(sp[1..|sp| - 1])
  }

  /** The nodes strictly between the sentinels are exactly the nodes of `tablets`. */
  ghost predicate Indexes(sp: seq<Node>, tablets: map<string, Node>) {
    && |sp| >= 2
    && (forall i :: 0 < i < |sp| - 1 ==> sp[i].key in tablets && tablets[sp[i].key] == sp[i])
    && (forall u :: u in tablets ==> tablets[u] in sp[1..|sp| - 1] && tablets[u].key == u)
  }

  function Cut(sp: seq<Node>, k: nat): seq<Node>
    requires k < |sp|
  {
    sp[..k] + sp[k + 1..]
  }

  function Linked(sp: seq<Node>, n: Node, tail: Node): seq<Node>
    requires |sp| >= 1
  {
    sp[..|sp| - 1] + [n, tail]
  }

  function Moved(sp: seq<Node>, k: nat, tail: Node): seq<Node>
    requires 0 < k < |sp| - 1
  {
    Linked(Cut(sp, k), sp[k], tail)
  }

  /** Unlinking at `k` and appending is `Touch` on the key list. */
  lemma TouchKeys(sp: seq<Node>, k: nat, tail: Node)
    requires 0 < k < |sp| - 1 && NoDup(OrderOf(sp))
    ensures OrderOf(Moved(sp, k, tail)) == Touch(OrderOf(sp), sp[k].key)
    ensures OrderOf(Cut(sp, k)) == Without(OrderOf(sp), sp[k].key)
  {
    var order, cut, t := OrderOf(sp), Cut(sp, k), Moved(sp, k, tail);
    WithoutAt(order, sp[k].key, k - 1);
    hide NoDup, Without;
    assert cut[1..|cut| - 1] == sp[1..|sp| - 1][..k - 1] + sp[1..|sp| - 1][k..];
    KeysJoin(sp[1..|sp| - 1][..k - 1], sp[1..|sp| - 1][k..]);
    assert KeysOf(sp[1..|sp| - 1][..k - 1]) == order[..k - 1] && KeysOf(sp[1..|sp| - 1][k..]) == order[k..];
    assert t[1..|t| - 1] == cut[1..|cut| - 1] + [sp[k]];
    KeysJoin(cut[1..|cut| - 1], [sp[k]]);
  }

  lemma KeysJoin(a: seq<Node>, b: seq<Node>)
    ensures KeysOf(a + b) == KeysOf(a) + KeysOf(b)
  {
  }

  lemma KeysDistinct(sp: seq<Node>, tablets: map<string, Node>)
    requires NoDup(sp) && Indexes(sp, tablets)
    ensures NoDup(OrderOf(sp))
    ensures forall u :: u in OrderOf(sp) <==> u in tablets
  {
    var order := OrderOf(sp);
    forall i, j | 0 <= i < j < |order| ensures order[i] != order[j] {
      assert tablets[sp[i + 1].key] == sp[i + 1] && tablets[sp[j + 1].key] == sp[j + 1];
      assert sp[i + 1] != sp[j + 1];
    }
    forall u ensures u in order <==> u in tablets {
      if u in tablets {
        var i :| 0 <= i < |sp| - 2 && sp[1..|sp| - 1][i] == tablets[u];
        assert order[i] == u;
      }
      if u in order {
        var i :| 0 <= i < |order| && order[i] == u;
        assert sp[i + 1].key in tablets;
      }
    }
  }

  lemma IndexesMoved(sp: seq<Node>, k: nat, tail: Node, tablets: map<string, Node>)
    requires 0 < k < |sp| - 1 && Indexes(sp, tablets)
    ensures Indexes(Moved(sp, k, tail), tablets)
    ensures forall n :: n in Moved(sp, k, tail) ==> n in sp || n == tail
  {
    var t := Moved(sp, k, tail);
    forall i | 0 < i < |t| - 1 ensures t[i].key in tablets && tablets[t[i].key] == t[i] {
      assert t[i] == if i < k then sp[i] else if i < |sp| - 2 then sp[i + 1] else sp[k];
    }
    forall u | u in tablets ensures tablets[u] in t[1..|t| - 1] {
      var i :| 0 <= i < |sp| - 2 && sp[1..|sp| - 1][i] == tablets[u];
      var j := if i + 1 < k then i else if i + 1 == k then |sp| - 3 else i - 1;
      assert t[1..|t| - 1][j] == sp[i + 1];
    }
  }

  class LRUCache {
    const capacity: nat
    var memoryUsed: int
    const head: Node
    const tail: Node
    var tablets: map<string, Node>
    var userSize: map<string, int>
    var vm: Area
    var cp: Area
    ghost var Spine: seq<Node>

    ghost function Nodes(): set<Node>
      reads this`Spine
    {
      set n | n in Spine
    }

    ghost predicate Links()
      reads this`Spine, Spine
    {
      && |Spine| >= 2 && Spine[0] == head && Spine[|Spine| - 1] == tail
      && Chain(Spine)
    }

    ghost predicate Valid()
      reads this`Spine, this`tablets, Spine
    {
      Links() && Indexes(Spine, tablets)
    }

    ghost function Order(): seq<string>
      reads this`Spine
      requires |Spine| >= 2
    {
      OrderOf(Spine)
    }

    ghost function Contents(): map<string, Files>
      reads this`tablets, tablets.Values`value
    {
      map u | u in tablets :: tablets[u].value
    }

    ghost function View(): Cache
      reads this`memoryUsed, this`tablets, this`userSize, this`vm, this`Spine, tablets.Values`value
      requires |Spine| >= 2
    {
      Cache(capacity, memoryUsed, Order(), Contents(), userSize, vm)
    }

    constructor (capacity: nat, chunkSize: Positive)
      ensures Valid() && fresh(Spine)
      ensures View() == Fresh(capacity, chunkSize) && cp == EmptyArea(chunkSize)
    {
      this.capacity := capacity;
      memoryUsed := 0;
      head := new Node("");
      tail := new Node("");
      tablets, userSize := map[], map[];
      vm, cp := EmptyArea(chunkSize), EmptyArea(chunkSize);
      new;
      tail.prev := head;
      head.next := tail;
      Spine := [head, tail];
    }

    /** `move_to_tail`: links a node that is not in the list before the tail sentinel. */
    method MoveToTail(current: Node)
      requires Links() && current !in Spine
      modifies this`Spine, Nodes()`prev, Nodes()`next, current`prev, current`next
      ensures Links()
      ensures Spine == Linked(old(Spine), current, tail)
    {
      current.prev := tail.prev;
      tail.prev := current;
      current.prev.next := current;
      current.next := tail;
      Spine := Linked(Spine, current, tail);
    }

    /** The first two statements after the lookup in `get_helper`. */
    method Unlink(current: Node, ghost k: nat)
      requires Links() && 0 < k < |Spine| - 1 && Spine[k] == current
      modifies this`Spine, Nodes()`prev, Nodes()`next
      ensures Links()
      ensures Spine == Cut(old(Spine), k)
    {
      assert current.prev == Spine[k - 1] && current.next == Spine[k + 1];
      current.prev.next := current.next;
      current.next.prev := current.prev;
      Spine := Cut(Spine, k);
    }

    /** Moves a linked node to the most recently used end. */
    method TouchNode(current: Node)
      requires Valid() && current.key in tablets && tablets[current.key] == current
      modifies this`Spine, Nodes()`prev, Nodes()`next
      ensures Valid() && Nodes() <= old(Nodes())
      ensures Contents() == old(Contents()) && Order() == Touch(old(Order()), current.key)
    {
      hide Chain, Touch, Indexes, NoDup, OrderOf, Moved;
      ghost var k := MoveNode(current);
      assert Contents() == old(Contents());
    }

    /** `get_helper`'s two steps, on the chain alone. */
    method MoveNode(current: Node) returns (ghost k: nat)
      requires Valid() && current.key in tablets && tablets[current.key] == current
      modifies this`Spine, Nodes()`prev, Nodes()`next
      ensures Valid() && Nodes() <= old(Nodes())
      ensures Order() == Touch(old(Order()), current.key)
    {
      hide Chain, Touch, Indexes, NoDup, OrderOf, Cut, Linked;
      ghost var sp := Spine;
      k := FindNode(sp, tablets, current);
      NoDupOf(sp);
      KeysDistinct(sp, tablets);
      TouchKeys(sp, k, tail);
      IndexesMoved(sp, k, tail, tablets);
      Unlink(current, k);
      NotAfterCut(sp, k);
      MoveToTail(current);
    }

    // ----- chunk files

    function AreaOf(kind: Kind): Area
      reads this
    {
      if kind.VirtualMemory? then vm else cp
    }

    /** `use_virtual_memory`. */
    method UseVirtualMemory()
      requires Valid() && Order() != []
      modifies this`Spine, this`vm, this`tablets, this`memoryUsed, Nodes()`prev, Nodes()`next
      ensures Valid() && Nodes() <= old(Nodes())
      ensures View() == Evict(old(View()))
    {
      hide Chain, WriteRow, Indexes, FormatNode, SizeOf, OrderOf;
      var lruUser := FirstUser();
      ghost var s := View();
      assert Resident(s, lruUser.key) == lruUser.value;
      var row, size := FormatNodeLoop(lruUser.value);
      vm := WriteRowLoop(vm, lruUser.key, row);
      assert View() == s.(vm := vm);
      DropFirstUser(lruUser, size);
    }

    /** The last four statements: out of the table, out of the list, off the count. */
    method DropFirstUser(lruUser: Node, size: nat)
      requires Valid() && |Spine| > 2 && Spine[1] == lruUser
      modifies this`Spine, this`tablets, this`memoryUsed, Nodes()`prev, Nodes()`next
      ensures Valid() && Nodes() <= old(Nodes())
      ensures View() == old(View()).(tablets := old(Contents()) - {lruUser.key}, order := old(Order())[1..],
                                     used := old(memoryUsed) - size)
    {
      hide Chain, Indexes, OrderOf, Cut, NoDup;
      NoDupOf(Spine);
      DropFirst(Spine, tablets);
      tablets := tablets - {lruUser.key};
      assert Contents() == old(Contents()) - {lruUser.key};
      Unlink(lruUser, 1);
      memoryUsed := memoryUsed - size;
    }

    /** `head->next`. */
    method FirstUser() returns (n: Node)
      requires Valid() && Order() != []
      ensures |Spine| > 2 && n == Spine[1] && n.key in tablets && tablets[n.key] == n && Order()[0] == n.key
    {
      HasUser(Spine);
      n := head.next;
    }

    // ----- one user's node

    /** Gives a resident user new files; the list does not change. */
    method SetValue(user: string, files: Files)
      requires Valid() && user in tablets
      modifies Nodes()`value
      ensures Valid() && View() == old(View()).(tablets := old(Contents())[user := files])
    {
      hide OrderOf;
      var n := tablets[user];
      n.value := files;
      assert Contents() == old(Contents())[user := files];
    }

    /** A resident user gets new files and moves to the most recently used end. */
    method WriteResident(user: string, files: Files, delta: int)
      requires Valid() && user in tablets
      modifies this`memoryUsed, this`Spine, Nodes()`prev, Nodes()`next, Nodes()`value
      ensures Valid() && Nodes() <= old(Nodes())
      ensures View() == SetFiles(old(View()), user, files, delta)
    {
      hide Chain, Touch, OrderOf, Indexes;
      KeyIs(Spine, tablets, user);
      SetValue(user, files);
      TouchNode(tablets[user]);
      memoryUsed := memoryUsed + delta;
    }

    /** A new user's node is linked at the most recently used end. */
    method InsertUser(user: string, files: Files, delta: int)
      requires Valid() && user !in tablets
      modifies this`memoryUsed, this`Spine, this`tablets, Nodes()`prev, Nodes()`next
      ensures Valid() && fresh(Nodes() - old(Nodes()))
      ensures View() == SetFiles(old(View()), user, files, delta)
    {
      hide Chain, Touch, Indexes, OrderOf;
      memoryUsed := memoryUsed + delta;
      var insert := new Node(user);
      insert.value := files;
      assert Contents() == old(Contents());
      LinkUser(insert);
    }

    method LinkUser(insert: Node)
      requires Valid() && insert.key !in tablets && insert !in Nodes()
      modifies this`Spine, this`tablets, Nodes()`prev, Nodes()`next, insert`prev, insert`next
      ensures Valid() && Nodes() <= old(Nodes()) + {insert}
      ensures View() == old(View()).(tablets := old(Contents())[insert.key := insert.value],
                                     order := Touch(old(Order()), insert.key))
    {
      hide Chain, Touch, Indexes, NoDup, OrderOf, Linked;
      ghost var sp := Spine;
      NoDupOf(sp);
      InsertKeys(sp, tablets, insert);
      tablets := tablets[insert.key := insert];
      assert Contents() == old(Contents())[insert.key := insert.value];
      MoveToTail(insert);
    }

    /** The assignments of a restart to the sizes and both areas. */
    method SetStart(sizes: map<string, int>, vm: Area, cp: Area)
      requires Valid()
      modifies this`userSize, this`vm, this`cp
      ensures Valid() && View() == old(View()).(userSize := sizes, vm := vm) && this.cp == cp
    {
      hide Chain, Indexes, OrderOf;
      userSize, this.vm, this.cp := sizes, vm, cp;
      assert Contents() == old(Contents());
    }

    /** `clear_dir` and `copy_dir` on the virtual memory directory. */
    method SetDisk(disk: map<nat, string>)
      requires Valid()
      modifies this`vm
      ensures Valid() && View() == old(View()).(vm := old(vm).(disk := disk))
    {
      hide Chain, Indexes, OrderOf;
      vm := vm.(disk := disk);
      assert Contents() == old(Contents());
    }

    method AddSize(user: string, n: nat)
      requires Valid()
      modifies this`userSize
      ensures Valid() && View() == SetSize(old(View()), user, SizeAt(old(userSize), user) + n)
    {
      hide Chain, Indexes, OrderOf;
      userSize := userSize[user := SizeAt(userSize, user) + n];
      assert Contents() == old(Contents());
    }

    // ----- put and reload

    /** The loop over a row's tokens: names and values alternate. */
    method RestoreUser(user: string, row: string, ghost files: Files, ghost ks: seq<string>)
      requires Valid() && CommaFree(files) && (forall k :: k in ks ==> k in files)
      requires Pending(View(), user, files, ks) && row == FormatKeys(files, ks)
      modifies this`memoryUsed, this`tablets, this`userSize, this`vm, this`Spine
      modifies Nodes()`prev, Nodes()`next, Nodes()`value
      ensures Valid() && fresh(Nodes() - old(Nodes()))
      ensures View() == TieredStore.RestoreUser(old(View()), user, KeyTokens(files, ks))
      decreases 1, 1
    {
      hide Chain, Indexes, TieredStore.RestoreUser, InternalPut, Pending, Ready, IndexOf, FormatKeys,
           KeyTokens, OrderOf, CommaFree;
      var s := row;
      var counter: nat := 0;
      var filename := "";
      ghost var todo := ks;
      RowCut(files, todo, s, true);
      while IndexOf(s, ',') < |s|
        invariant Valid() && fresh(Nodes() - old(Nodes()))
        invariant forall k :: k in todo ==> k in files
        invariant Pending(View(), user, files, todo)
        invariant TieredStore.RestoreUser(View(), user, KeyTokens(files, todo))
               == TieredStore.RestoreUser(old(View()), user, KeyTokens(files, ks))
        invariant counter % 2 == 0 ==> s == FormatKeys(files, todo)
        invariant counter % 2 != 0 ==> todo != [] && filename == todo[0]
                                       && s == files[todo[0]] + [','] + FormatKeys(files, todo[1..])
        invariant IndexOf(s, ',') < |s| <==> todo != []
        decreases |s|
      {
        var pos := IndexOf(s, ',');
        RowCut(files, todo, s, counter % 2 == 0);
        counter := counter + 1;
        if counter % 2 != 0 {
          filename := s[..pos];
        } else {
          var value := s[..pos];
          RestoreFile(user, filename, value, files, todo);
          todo := todo[1..];
        }
        s := s[pos + 1..];
        RowCut(files, todo, s, counter % 2 == 0);
      }
      RestoreNone(View(), user);
      NoTokens(files);
    }

    method RestoreFile(user: string, filename: string, value: string, ghost files: Files, ghost todo: seq<string>)
      requires Valid() && Pending(View(), user, files, todo) && (forall k :: k in todo ==> k in files)
      requires todo != [] && filename == todo[0] && value == files[filename]
      modifies this`memoryUsed, this`tablets, this`userSize, this`vm, this`Spine
      modifies Nodes()`prev, Nodes()`next, Nodes()`value
      ensures Valid() && fresh(Nodes() - old(Nodes())) && Pending(View(), user, files, todo[1..])
      ensures TieredStore.RestoreUser(View(), user, KeyTokens(files, todo[1..]))
           == TieredStore.RestoreUser(old(View()), user, KeyTokens(files, todo))
      decreases 1, 0
    {
      hide Chain, Indexes, OrderOf, TieredStore.RestoreUser, InternalPut, Pending, Ready, Inv, KeyTokens;
      RestoreTurn(View(), user, files, todo);
      var _ := Put(user, filename, value, false);
    }

    /** `load_user_from_disk`: a user's pieces are read back, joined and restored. Only the
        virtual memory entry is forgotten. */
    method LoadUserFromDisk(user: string, kind: Kind, ghost files: Files)
      requires Valid() && CommaFree(files) && ReadRow(AreaOf(kind), user) == FormatNode(files)
      requires Pending(Loading(kind, user), user, files, SortedKeys(files.Keys))
      modifies this`memoryUsed, this`tablets, this`userSize, this`vm, this`Spine
      modifies Nodes()`prev, Nodes()`next, Nodes()`value
      ensures Valid() && fresh(Nodes() - old(Nodes()))
      ensures View()
           == TieredStore.RestoreUser(old(Loading(kind, user)), user, KeyTokens(files, SortedKeys(files.Keys)))
      decreases 1, 2, 0
    {
      hide Chain, Indexes, OrderOf, TieredStore.RestoreUser, Pending, KeyTokens, SortedKeys, ReadExtents, CommaFree;
      var userMeta := ExtentsOf(AreaOf(kind), user);
      var disk := AreaOf(kind).disk;
      if kind.VirtualMemory? {
        vm := Forget(vm, user);
      }
      assert Contents() == old(Contents());
      var fnValue := ReadPieces(disk, userMeta);
      assert fnValue == FormatNode(files);
      RestoreUser(user, fnValue, files, SortedKeys(files.Keys));
    }

    /** The state from which a reload starts its puts. */
    ghost function Loading(kind: Kind, user: string): Cache
      reads this, tablets.Values
      requires |Spine| >= 2
    {
      if kind.VirtualMemory? then View().(vm := Forget(vm, user)) else View()
    }

    /** Stores a value that fits: reload if need be, append or rewrite, touch. */
    method StoreValue(user: string, filename: string, value: string, isCput: bool)
      requires Valid()
      requires user in vm.meta ==> Sound(View(), 0) && SizeOf(FilesOf(View(), user)) <= capacity
      modifies this`memoryUsed, this`tablets, this`userSize, this`vm, this`Spine
      modifies Nodes()`prev, Nodes()`next, Nodes()`value
      ensures Valid() && fresh(Nodes() - old(Nodes()))
      ensures View() == StoreIn(old(View()), user, filename, value, isCput)
      decreases if user in vm.meta then 1 else 0, 2, 2
    {
      hide Chain, Indexes, Reload, Sound, FilesOf, OrderOf, SetFiles;
      FirstValue(filename, value);
      if user in vm.meta {
        ReloadUser(user);
        WriteResident(user, AppendTo(tablets[user].value, filename, value), |value|);
      } else if user in tablets {
        if isCput {
          WriteResident(user, tablets[user].value[filename := value], |value|);
        } else {
          WriteResident(user, AppendTo(tablets[user].value, filename, value), |value|);
        }
      } else {
        InsertUser(user, map[filename := value], |value|);
      }
    }

    /** One attempt of a put. Only an external put may find its user on disk. */
    method PutHelper(user: string, filename: string, value: string, external: bool, isCput: bool)
      returns (done: bool, reply: Reply)
      requires Valid()
      requires user in vm.meta ==> external && !isCput && Sound(View(), 0) && SizeOf(FilesOf(View(), user)) <= capacity
      modifies this`memoryUsed, this`tablets, this`userSize, this`vm, this`Spine
      modifies Nodes()`prev, Nodes()`next, Nodes()`value
      ensures Valid() && fresh(Nodes() - old(Nodes()))
      ensures (View(), done, reply) == Attempt(old(View()), user, filename, value, external, isCput)
      decreases if external || isCput then 1 else 0, 3
    {
      hide Chain, Indexes, StoreIn, Sound, OrderOf;
      if external || isCput {
        SetDefaultSize(user);
        if userSize[user] + |value| >= capacity {
          return true, StorageExceeded;
        }
      }
      if memoryUsed + |value| <= capacity {
        StoreInKeeps(View(), user, filename, value, isCput);
        StoreValue(user, filename, value, isCput);
        if external || isCput {
          AddSize(user, |value|);
        }
        return true, Stored;
      }
      return false, Stored;
    }

    /** `user_size[user]` inserts a zero for an unknown user. */
    method SetDefaultSize(user: string)
      requires Valid()
      modifies this`userSize
      ensures Valid() && View() == SetSize(old(View()), user, SizeAt(old(userSize), user))
      ensures old(Sound(View(), 0)) ==> Sound(View(), 0)
      ensures FilesOf(View(), user) == old(FilesOf(View(), user))
    {
      hide Chain, Indexes, OrderOf, Sound;
      ghost var s := View();
      if Sound(s, 0) { SetSizeOk(s, user, SizeAt(userSize, user), 0); }
      userSize := userSize[user := SizeAt(userSize, user)];
      assert Contents() == old(Contents());
    }

    /** `load_user_from_disk("virtual memory", user)` in a sound state. */
    method ReloadUser(user: string)
      requires Valid() && Sound(View(), 0) && user in vm.meta && SizeOf(FilesOf(View(), user)) <= capacity
      modifies this`memoryUsed, this`tablets, this`userSize, this`vm, this`Spine
      modifies Nodes()`prev, Nodes()`next, Nodes()`value
      ensures Valid() && fresh(Nodes() - old(Nodes()))
      ensures View() == Reload(old(View()), user) && user in tablets
      decreases 1, 2, 1
    {
      hide Chain, Indexes, Reload, Sound, FilesOf, Pending, TieredStore.RestoreUser, KeyTokens, SizeOf, OrderOf,
           CommaFree, Restoring, ReadRow, FormatNode, SortedKeys;
      ghost var s := View();
      ReloadReady(s, user);
      LoadUserFromDisk(user, VirtualMemory, FilesOf(s, user));
    }

    /** `put`. */
    method Put(user: string, filename: string, value: string, external: bool) returns (reply: Reply)
      requires Valid()
      requires external ==> Inv(View()) && ',' !in filename && ',' !in value
      requires !external ==> Ready(View(), user, |value|)
      modifies this`memoryUsed, this`tablets, this`userSize, this`vm, this`Spine
      modifies Nodes()`prev, Nodes()`next, Nodes()`value
      ensures Valid() && fresh(Nodes() - old(Nodes()))
      ensures external ==> (View(), reply) == TieredStore.Put(old(View()), user, filename, value)
      ensures !external ==> View() == InternalPut(old(View()), user, filename, value)
      decreases if external then 1 else 0, 4
    {
      hide Chain, Indexes, Sound, InternalPut, TieredStore.Put, PutTodo, PutLeft, Attempt, Evict, FilesOf, SizeOf,
           Ready;
      if |value| > capacity {
        PutTooBig(View(), user, filename, value);
        return FileTooBig;
      }
      ghost var s0 := View();
      PutBegins(s0, user, filename, value, external);
      AttemptMayRun(s0, s0, user, filename, value, external);
      AttemptOk(s0, s0, user, filename, value, external);
      var done;
      done, reply := PutHelper(user, filename, value, external, false);
      while !done
        invariant Valid() && fresh(Nodes() - old(Nodes()))
        invariant !done ==> PutLeft(View(), s0, user, filename, value, external)
        invariant done && external ==> (View(), reply) == TieredStore.Put(s0, user, filename, value)
        invariant done && !external ==> View() == InternalPut(s0, user, filename, value)
        decreases if done then 0 else 1 + |View().order|
      {
        LeftEvict(View(), s0, user, filename, value, external);
        EvictShortens(View());
        UseVirtualMemory();
        AttemptMayRun(View(), s0, user, filename, value, external);
        AttemptOk(View(), s0, user, filename, value, external);
        AttemptKeepsOrder(View(), user, filename, value, external, false);
        done, reply := PutHelper(user, filename, value, external, false);
      }
    }

    // ----- the other operations

    /** Looks a file up; the user is reloaded if need be and becomes the most recent one. */
    method GetHelper(user: string, filename: string) returns (reply: Reply)
      requires Valid()
      requires user in vm.meta ==> Sound(View(), 0) && SizeOf(FilesOf(View(), user)) <= capacity
      modifies this`memoryUsed, this`tablets, this`userSize, this`vm, this`Spine
      modifies Nodes()`prev, Nodes()`next, Nodes()`value
      ensures Valid() && fresh(Nodes() - old(Nodes()))
      ensures (View(), reply) == TieredStore.Get(old(View()), user, filename)
      ensures reply.Value? ==> user in tablets
    {
      hide Chain, OrderOf, Reload, Sound, FilesOf, Touch, SizeOf;
      if user !in tablets && user !in vm.meta {
        return NoSuchUser;
      }
      if user in vm.meta {
        ReloadUser(user);
      }
      TouchNode(tablets[user]);
      if filename in tablets[user].value {
        return Value(tablets[user].value[filename]);
      }
      return NoSuchFile;
    }

    /** `get`. */
    method Get(user: string, filename: string) returns (reply: Reply)
      requires Valid() && Inv(View())
      modifies this`memoryUsed, this`tablets, this`userSize, this`vm, this`Spine
      modifies Nodes()`prev, Nodes()`next, Nodes()`value
      ensures Valid() && fresh(Nodes() - old(Nodes()))
      ensures (View(), reply) == TieredStore.Get(old(View()), user, filename)
      ensures reply.Value? ==> user in tablets
    {
      hide Chain, Indexes, OrderOf, Sound, FilesOf, SizeOf, TieredStore.Get;
      MayReload(View(), user);
      reply := GetHelper(user, filename);
    }

    /** `cput`: compare, then put the new value with the old one's bytes taken off. */
    method Cput(user: string, filename: string, oldValue: string, newValue: string) returns (reply: Reply)
      requires Valid() && Inv(View())
      modifies this`memoryUsed, this`tablets, this`userSize, this`vm, this`Spine
      modifies Nodes()`prev, Nodes()`next, Nodes()`value
      ensures Valid() && fresh(Nodes() - old(Nodes()))
      ensures (View(), reply) == TieredStore.Cput(old(View()), user, filename, oldValue, newValue)
    {
      hide Chain, Indexes, OrderOf, Sound, FilesOf, SizeOf, TieredStore.Get, EvictUntil, SetFiles, SwapTodo, Attempt,
           Inv;
      ghost var s0 := View();
      reply := Get(user, filename);
      if !reply.Value? {
        return;
      }
      GetTouched(s0, user, filename);
      if reply.value != oldValue {
        return VersionCheckFailed;
      }
      if SizeAt(userSize, user) - |oldValue| + |newValue| >= capacity {
        return StorageExceeded;
      }
      SwapBegins(s0, user, filename, oldValue, newValue);
      ghost var goal := TieredStore.Cput(s0, user, filename, oldValue, newValue).0;
      TakeOff(user, |oldValue|);
      reply := SwapIn(user, filename, newValue, goal, |oldValue|);
    }

    /** Attempts with evictions between them, until the new value is stored. */
    method SwapIn(user: string, filename: string, newValue: string, ghost goal: Cache, ghost gone: nat)
      returns (reply: Reply)
      requires Valid() && SwapTodo(View(), goal, user, filename, newValue, gone)
      modifies this`memoryUsed, this`tablets, this`userSize, this`vm, this`Spine
      modifies Nodes()`prev, Nodes()`next, Nodes()`value
      ensures Valid() && fresh(Nodes() - old(Nodes()))
      ensures View() == goal && reply == Stored
    {
      hide Chain, Indexes, OrderOf, SwapTodo, Attempt;
      SwapAttempt(View(), goal, user, filename, newValue, gone);
      var done;
      done, reply := PutHelper(user, filename, newValue, true, true);
      while !done
        invariant Valid() && fresh(Nodes() - old(Nodes()))
        invariant !done ==> SwapTodo(View(), goal, user, filename, newValue, gone)
                            && memoryUsed + |newValue| > capacity
        invariant done ==> View() == goal && reply == Stored
        decreases if done then 0 else 1 + |View().order|
      {
        SwapEvict(View(), goal, user, filename, newValue, gone);
        EvictShortens(View());
        UseVirtualMemory();
        SwapAttempt(View(), goal, user, filename, newValue, gone);
        done, reply := PutHelper(user, filename, newValue, true, true);
      }
    }

    /** A checkpoint starts with an empty area, ... */
    method ClearCheckpoint()
      requires Valid()
      modifies this`cp
      ensures Valid() && View() == old(View()) && cp == EmptyArea(vm.size)
    {
      cp := EmptyArea(vm.size);
    }

    /** ... to which every resident's row is written. */
    method SaveUser(user: string)
      requires Valid() && user in tablets
      modifies this`cp
      ensures Valid() && View() == old(View()) && cp == WriteRow(old(cp), user, FormatNode(View().tablets[user]))
    {
      hide Chain, Indexes, OrderOf, WriteRow, FormatNode, SizeOf;
      var row, _ := FormatNodeLoop(tablets[user].value);
      cp := WriteRowLoop(cp, user, row);
    }

    /** `user_size[user] -= n; memory_used -= n;` */
    method TakeOff(user: string, n: nat)
      requires Valid()
      modifies this`userSize, this`memoryUsed
      ensures Valid()
      ensures View() == SetSize(old(View()).(used := old(memoryUsed) - n), user, SizeAt(old(userSize), user) - n)
    {
      hide Chain, Indexes, OrderOf;
      userSize := userSize[user := SizeAt(userSize, user) - n];
      memoryUsed := memoryUsed - n;
      assert Contents() == old(Contents());
    }

    /** `dele`: a user left without files is removed from the table and the list. */
    method Dele(user: string, filename: string) returns (reply: Reply)
      requires Valid() && Inv(View())
      modifies this`memoryUsed, this`tablets, this`userSize, this`vm, this`Spine
      modifies Nodes()`prev, Nodes()`next, Nodes()`value
      ensures Valid() && fresh(Nodes() - old(Nodes()))
      ensures (View(), reply) == TieredStore.Dele(old(View()), user, filename)
    {
      hide Chain, Indexes, OrderOf, Sound, FilesOf, SizeOf, TieredStore.Get, TieredStore.Dele, Inv,
           TieredStore.RemoveUser;
      ghost var s0 := View();
      DeleShape(s0, user, filename);
      reply := Get(user, filename);
      if !reply.Value? {
        return;
      }
      GetValue(s0, user, filename);
      ghost var a, rest := View(), tablets[user].value - {filename};
      TakeOff(user, |reply.value|);
      SetValue(user, tablets[user].value - {filename});
      assert View() == Rewritten(a, user, rest, |reply.value|);
      hide Rewritten;
      if tablets[user].value == map[] {
        RemoveUser(user);
      }
      reply := Deleted;
    }

    method RemoveUser(user: string)
      requires Valid() && user in tablets
      modifies this`Spine, this`tablets, Nodes()`prev, Nodes()`next
      ensures Valid() && fresh(Nodes() - old(Nodes()))
      ensures View() == TieredStore.RemoveUser(old(View()), user)
    {
      hide Chain, Indexes, OrderOf, NoDup, Cut, Without;
      KeyIs(Spine, tablets, user);
      var current := tablets[user];
      ghost var sp := Spine;
      ghost var k := FindNode(sp, tablets, current);
      NoDupOf(sp);
      KeysDistinct(sp, tablets);
      TouchKeys(sp, k, tail);
      DropIndexes(sp, k, tablets);
      NotAfterCut(sp, k);
      tablets := tablets - {user};
      Unlink(current, k);
      assert Contents() == old(Contents()) - {user};
    }

    /** `rename`. */
    method Rename(user: string, oldName: string, newName: string) returns (reply: Reply)
      requires Valid() && Inv(View())
      modifies this`memoryUsed, this`tablets, this`userSize, this`vm, this`Spine
      modifies Nodes()`prev, Nodes()`next, Nodes()`value
      ensures Valid() && fresh(Nodes() - old(Nodes()))
      ensures (View(), reply) == TieredStore.Rename(old(View()), user, oldName, newName)
    {
      hide Chain, Indexes, OrderOf, Sound, FilesOf, SizeOf, TieredStore.Get, TieredStore.Rename, Inv;
      ghost var s0 := View();
      RenameShape(s0, user, oldName, newName);
      reply := Get(user, oldName);
      if !reply.Value? {
        return;
      }
      var rest := tablets[user].value - {oldName};
      TakeOff(user, |ValueOf(rest, newName)|);
      SetValue(user, rest[newName := reply.value]);
      reply := Renamed;
    }
  }

  lemma KeyIs(sp: seq<Node>, tablets: map<string, Node>, u: string)
    requires Indexes(sp, tablets) && u in tablets
    ensures tablets[u].key == u
  {
  }

  lemma MayReload(s: Cache, u: string)
    requires Inv(s)
    ensures u in s.vm.meta ==> Sound(s, 0) && SizeOf(FilesOf(s, u)) <= s.capacity
  {
    if u in s.vm.meta { UserFits(s, u); }
  }

  /** After a successful lookup, touching the user again changes nothing. */
  lemma GetTouched(s: Cache, u: string, f: string)
    requires TieredStore.Get(s, u, f).1.Value?
    ensures var a := TieredStore.Get(s, u, f).0;
      Touch(a.order, u) == a.order && a.userSize == s.userSize && Exists(s, u)
  {
    hide RestoreUser, Touch, Tokens, ReadRow;
    RestoreUserKeeps(s.(vm := Forget(s.vm, u)), u, Tokens(ReadRow(s.vm, u), ','));
    TouchTwice(if u in s.vm.meta then Reload(s, u).order else s.order, u);
  }

  lemma RestoreTurn(s: Cache, u: string, files: Files, ks: seq<string>)
    requires Pending(s, u, files, ks) && ks != [] && forall k :: k in ks ==> k in files
    ensures var v := files[ks[0]]; var t := InternalPut(s, u, ks[0], v);
      && Ready(s, u, |v|) && ',' !in ks[0] && ',' !in v
      && Pending(t, u, files, ks[1..])
      && TieredStore.RestoreUser(s, u, KeyTokens(files, ks)) == TieredStore.RestoreUser(t, u, KeyTokens(files, ks[1..]))
  {
    hide Pending, Ready, InternalPut, TieredStore.RestoreUser, KeyTokens, CommaFree;
    PendingReady(s, u, files, ks);
    PendingNext(s, u, files, ks);
    RestoreStep(s, u, files, ks);
  }

  /** The loop over a user's pieces. */
  method ReadPieces(disk: map<nat, string>, userMeta: seq<Extent>) returns (fnValue: string)
    ensures fnValue == ReadExtents(disk, userMeta)
  {
    hide ReadExtent;
    fnValue := "";
    assert userMeta[..|userMeta|] == userMeta;
    for i := 0 to |userMeta|
      invariant fnValue == ReadExtents(disk, userMeta[..i])
    {
      assert userMeta[..i + 1][..i] == userMeta[..i];
      fnValue := fnValue + ReadExtent(disk, userMeta[i]);
    }
  }

  /** `a` with new files for `u`, which a lookup has just made the most recent user. */
  function Rewritten(a: Cache, u: string, files: Files, less: nat): Cache {
    SetSize(a.(used := a.used - less), u, SizeAt(a.userSize, u) - less).(tablets := a.tablets[u := files])
  }

  lemma DeleShape(s: Cache, u: string, f: string)
    ensures var (a, r) := TieredStore.Get(s, u, f);
      TieredStore.Dele(s, u, f) ==
        if !r.Value? then (a, r)
        else
          var rest := Resident(a, u) - {f}; var b := Rewritten(a, u, rest, |r.value|);
          (if rest == map[] then TieredStore.RemoveUser(b, u) else b, Deleted)
  {
    if TieredStore.Get(s, u, f).1.Value? { GetTouched(s, u, f); }
    hide TieredStore.Get, Touch;
  }

  lemma RenameShape(s: Cache, u: string, f: string, to: string)
    ensures var (a, r) := TieredStore.Get(s, u, f);
      TieredStore.Rename(s, u, f, to) ==
        if !r.Value? then (a, r)
        else
          var rest := Resident(a, u) - {f};
          (Rewritten(a, u, rest[to := r.value], |ValueOf(rest, to)|), Renamed)
  {
    if TieredStore.Get(s, u, f).1.Value? { GetTouched(s, u, f); }
    hide TieredStore.Get, Touch;
  }

  lemma HasUser(sp: seq<Node>)
    requires |sp| >= 2
    ensures OrderOf(sp) != [] <==> |sp| > 2
  {
  }

  lemma EvictShortens(s: Cache)
    ensures s.order != [] ==> |Evict(s).order| == |s.order| - 1
  {
  }

  lemma ReloadReady(s: Cache, u: string)
    requires Sound(s, 0) && u in s.vm.meta && SizeOf(FilesOf(s, u)) <= s.capacity
    ensures var files := FilesOf(s, u); var r := s.(vm := Forget(s.vm, u));
      && CommaFree(files) && ReadRow(s.vm, u) == FormatNode(files)
      && Pending(r, u, files, SortedKeys(files.Keys))
      && (forall k :: k in SortedKeys(files.Keys) ==> k in files)
      && Reload(s, u) == TieredStore.RestoreUser(r, u, KeyTokens(files, SortedKeys(files.Keys)))
      && u in Reload(s, u).tablets
  {
    hide Sound, Reload, TieredStore.RestoreUser, FilesOf, KeyTokens, SortedKeys, ReadRow, FormatNode, SizeOf, Restoring,
         FlatFiles;
    ReloadPends(s, u);
    ReloadIs(s, u);
    var k := ReloadOk(s, u);
  }

  lemma FirstValue(f: string, v: string)
    ensures AppendTo(map[], f, v) == map[f := v] && map[][f := v] == map[f := v]
  {
    assert "" + v == v;
  }

  lemma NoTokens(files: Files)
    ensures KeyTokens(files, []) == []
  {
  }

  lemma InsertKeys(sp: seq<Node>, tablets: map<string, Node>, n: Node)
    requires Indexes(sp, tablets) && n.key !in tablets && NoDup(sp)
    ensures Indexes(Linked(sp, n, sp[|sp| - 1]), tablets[n.key := n])
    ensures OrderOf(Linked(sp, n, sp[|sp| - 1])) == Touch(OrderOf(sp), n.key)
    ensures forall x :: x in Linked(sp, n, sp[|sp| - 1]) ==> x in sp || x == n
  {
    var t := Linked(sp, n, sp[|sp| - 1]);
    var more := tablets[n.key := n];
    KeysDistinct(sp, tablets);
    TouchTail(OrderOf(sp), n.key);
    assert t[1..|t| - 1] == sp[1..|sp| - 1] + [n];
    assert KeysOf(t[1..|t| - 1]) == KeysOf(sp[1..|sp| - 1]) + [n.key];
    forall i | 0 < i < |t| - 1 ensures t[i].key in more && more[t[i].key] == t[i] {
      if i < |sp| - 1 { assert t[i] == sp[i]; }
    }
    forall u | u in more ensures more[u] in t[1..|t| - 1] {
      if u != n.key {
        var x :| 0 <= x < |sp| - 2 && sp[1..|sp| - 1][x] == tablets[u];
        assert t[1..|t| - 1][x] == tablets[u];
      } else {
        assert t[1..|t| - 1][|sp| - 2] == n;
      }
    }
  }

  /** Removing the first user from the chain and from the table. */
  lemma DropFirst(sp: seq<Node>, tablets: map<string, Node>)
    requires |sp| > 2 && NoDup(sp) && Indexes(sp, tablets)
    ensures OrderOf(sp) != [] && OrderOf(sp)[0] == sp[1].key
    ensures OrderOf(Cut(sp, 1)) == OrderOf(sp)[1..]
    ensures Indexes(Cut(sp, 1), tablets - {sp[1].key})
    ensures forall n :: n in Cut(sp, 1) ==> n in sp
  {
    var cut := Cut(sp, 1);
    assert cut[1..|cut| - 1] == sp[2..|sp| - 1];
    assert KeysOf(sp[1..|sp| - 1])[1..] == KeysOf(sp[2..|sp| - 1]);
    DropIndexes(sp, 1, tablets);
  }

  lemma DropIndexes(sp: seq<Node>, k: nat, tablets: map<string, Node>)
    requires 0 < k < |sp| - 1 && NoDup(sp) && Indexes(sp, tablets)
    ensures Indexes(Cut(sp, k), tablets - {sp[k].key})
  {
    var cut := Cut(sp, k);
    var left := tablets - {sp[k].key};
    forall i | 0 < i < |cut| - 1 ensures cut[i].key in left && left[cut[i].key] == cut[i] {
      var j := if i < k then i else i + 1;
      assert cut[i] == sp[j] && sp[k] != sp[j];
    }
    forall u | u in left ensures left[u] in cut[1..|cut| - 1] {
      var n := tablets[u];
      var j := FindNode(sp, tablets, n);
      assert j != k;
      InMiddle(cut, if j < k then j else j - 1);
    }
  }

  lemma InMiddle(sp: seq<Node>, i: nat)
    requires 0 < i < |sp| - 1
    ensures sp[i] in sp[1..|sp| - 1]
  {
    assert sp[1..|sp| - 1][i - 1] == sp[i];
  }

  lemma FindNode(sp: seq<Node>, tablets: map<string, Node>, n: Node) returns (k: nat)
    requires Indexes(sp, tablets) && n.key in tablets && tablets[n.key] == n
    ensures 0 < k < |sp| - 1 && sp[k] == n
  {
    var j :| 0 <= j < |sp| - 2 && sp[1..|sp| - 1][j] == n;
    k := j + 1;
  }

  lemma NoDupOf(sp: seq<Node>)
    requires Chain(sp)
    ensures NoDup(sp)
  {
  }

  lemma NotAfterCut(sp: seq<Node>, k: nat)
    requires k < |sp| && NoDup(sp)
    ensures sp[k] in sp && sp[k] !in Cut(sp, k)
    ensures forall n :: n in Cut(sp, k) ==> n in sp
  {
  }
}
