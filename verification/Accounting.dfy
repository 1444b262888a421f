/** What the counters say in every reachable state, and how far memory may be overfilled. */
module Accounting {
  import opened KeyOrder
  import opened RowCodec
  import opened Chunks
  import opened FlatStore
  import opened TieredStore
  import opened Refinement
  import opened Overfill

  /** After any operations on an empty store: `memory_used` is the sum of the resident value
      sizes and stays below twice the capacity, and `user_size` is each user's exact total over
      both tiers and stays below capacity. Up to a capacity of 2^30 (the source has
      500 * 1024 * 1024) the `int` that counts memory does not overflow. */
  lemma RunAccounting(capacity: nat, chunkSize: Positive, ops: seq<Op>)
    requires capacity > 0 && forall i :: 0 <= i < |ops| ==> CleanOp(ops[i])
    ensures var t := Execute(Fresh(capacity, chunkSize), ops);
      && t.used == Sum(Sizes(t.tablets)) && 0 <= t.used < 2 * capacity
      && (forall u :: SizeAt(t.userSize, u) == SizeOf(FilesAt(FlatFiles(t), u)))
      && (forall u :: u in FlatFiles(t) ==> u in t.userSize && t.userSize[u] < capacity)
      && (capacity <= 0x4000_0000 ==> t.used < 0x8000_0000)
  {
    hide Execute, FlatFiles, SizeOf, Sum, Sizes;
    FreshInv(capacity, chunkSize);
    RunRefines(Fresh(capacity, chunkSize), ops);
    InvCounts(Execute(Fresh(capacity, chunkSize), ops));
  }

  lemma InvCounts(t: Cache)
    requires Inv(t)
    ensures t.used == Sum(Sizes(t.tablets)) && 0 <= t.used < 2 * t.capacity
    ensures forall u :: SizeAt(t.userSize, u) == SizeOf(FilesAt(FlatFiles(t), u))
    ensures forall u :: u in FlatFiles(t) ==> u in t.userSize && t.userSize[u] < t.capacity
  {
    hide FlatFiles, SizeOf, Sum, Sizes, AreaOk, GoodRow, GoodFiles;
    forall u ensures SizeAt(t.userSize, u) == SizeOf(FilesAt(FlatFiles(t), u))
      && (u in FlatFiles(t) ==> u in t.userSize && t.userSize[u] < t.capacity) {
      assert UserOk(t.capacity, View(t), u);
    }
  }

  // ----- memory above capacity is reachable

  const FILL: seq<Op> := [FlatStore.Put("a", "f", "xxx"), FlatStore.Put("b", "f", "yyyyyy"),
                          FlatStore.Put("c", "f", "zz"), FlatStore.Dele("c", "f"), FlatStore.Put("a", "g", "wwww")]

  lemma FirstTwo(chunkSize: Positive)
    ensures var s := TieredStore.Put(TieredStore.Put(Fresh(10, chunkSize), "a", "f", "xxx").0, "b", "f", "yyyyyy").0;
      && s == Cache(10, 9, ["a", "b"], map["a" := map["f" := "xxx"], "b" := map["f" := "yyyyyy"]],
                    map["a" := 3, "b" := 6], EmptyArea(chunkSize))
  {
    var s := TieredStore.Put(Fresh(10, chunkSize), "a", "f", "xxx").0;
    assert "" + "xxx" == "xxx" && "" + "yyyyyy" == "yyyyyy";
    assert Touch([], "a") == ["a"];
    assert s == Cache(10, 3, ["a"], map["a" := map["f" := "xxx"]], map["a" := 3], EmptyArea(chunkSize));
    WithoutAbsent(["a"], "b");
    assert Touch(["a"], "b") == ["a", "b"];
  }

  lemma EvictA(s: Cache)
    requires s.used == 9 && s.order == ["a", "b"] && s.vm.meta == map[]
    requires s.tablets == map["a" := map["f" := "xxx"], "b" := map["f" := "yyyyyy"]]
    ensures var e := Evict(s);
      && e.used == 6 && e.order == ["b"] && e.tablets == map["b" := map["f" := "yyyyyy"]]
      && e.vm.meta.Keys == {"a"} && e.capacity == s.capacity && e.userSize == s.userSize
  {
    WriteRowKeys(s.vm, "a", FormatNode(map["f" := "xxx"]));
    SizeOfUpdate(map[], "f", "xxx");
    SizeOfNone();
    hide WriteRow, FormatNode, SizeOf;
    assert map[]["f" := "xxx"] == map["f" := "xxx"];
  }

  lemma EvictOnce(s: Cache, need: nat)
    requires s.used + need > s.capacity && s.order != [] && Evict(s).used + need <= Evict(s).capacity
    ensures EvictUntil(s, need) == Evict(s)
  {
    hide Evict;
    assert EvictUntil(s, need) == EvictUntil(Evict(s), need);
  }

  lemma PutFits(s: Cache, e: Cache, u: string, f: string, v: string)
    requires |v| <= s.capacity && SizeAt(s.userSize, u) + |v| < s.capacity
    requires EvictUntil(s, |v|) == e && u !in e.vm.meta
    ensures TieredStore.Put(s, u, f, v).0 == SetSize(Place(e, u, f, v), u, SizeAt(s.userSize, u) + |v|)
  {
    hide EvictUntil, Place, SetSize, Reload;
  }

  lemma PlaceC(e: Cache)
    requires e.used == 6 && e.order == ["b"] && e.tablets == map["b" := map["f" := "yyyyyy"]]
    ensures var t := Place(e, "c", "f", "zz");
      && t.used == 8 && t.order == ["b", "c"] && t.vm == e.vm && t.capacity == e.capacity && t.userSize == e.userSize
      && t.tablets == map["b" := map["f" := "yyyyyy"], "c" := map["f" := "zz"]]
  {
    assert "" + "zz" == "zz";
    WithoutAbsent(["b"], "c");
  }

  /** The third put evicts "a". */
  lemma Third(s: Cache)
    requires s.capacity == 10 && s.used == 9 && s.order == ["a", "b"]
    requires s.tablets == map["a" := map["f" := "xxx"], "b" := map["f" := "yyyyyy"]]
    requires s.userSize == map["a" := 3, "b" := 6] && s.vm.meta == map[]
    ensures var t := TieredStore.Put(s, "c", "f", "zz").0;
      && t.capacity == 10 && t.used == 8 && t.order == ["b", "c"] && t.vm.meta.Keys == {"a"}
      && t.tablets == map["b" := map["f" := "yyyyyy"], "c" := map["f" := "zz"]]
      && t.userSize == map["a" := 3, "b" := 6, "c" := 2]
  {
    var e := Evict(s);
    EvictA(s);
    EvictOnce(s, 2);
    hide Evict, EvictUntil;
    PlaceC(e);
    hide Place;
    PutFits(s, e, "c", "f", "zz");
    hide TieredStore.Put;
  }

  /** Deleting the third user makes room again. */
  lemma Fourth(s: Cache)
    requires s.capacity == 10 && s.used == 8 && s.vm.meta.Keys == {"a"}
    requires s.tablets == map["b" := map["f" := "yyyyyy"], "c" := map["f" := "zz"]]
    requires s.userSize == map["a" := 3, "b" := 6, "c" := 2]
    ensures var t := TieredStore.Dele(s, "c", "f").0;
      t.capacity == 10 && t.used == 6 && t.vm.meta.Keys == {"a"} && t.userSize == map["a" := 3, "b" := 6, "c" := 0]
  {
    assert "c" !in s.vm.meta;
    hide Touch, Without;
    assert Resident(Access(s, "c"), "c") == map["f" := "zz"];
  }

  /** The bound of twice the capacity is not for nothing: a store of 10 bytes ends up with 13 of
      them in memory. */
  lemma OverfillReached(chunkSize: Positive)
    ensures Execute(Fresh(10, chunkSize), FILL).used == 13
  {
    hide TieredStore.Put, TieredStore.Dele, Inv, FlatFiles, SizeOf;
    var s0 := Fresh(10, chunkSize);
    var s1 := TieredStore.Put(s0, "a", "f", "xxx").0;
    var s2 := TieredStore.Put(s1, "b", "f", "yyyyyy").0;
    var s3 := TieredStore.Put(s2, "c", "f", "zz").0;
    var s4 := TieredStore.Dele(s3, "c", "f").0;
    FirstTwo(chunkSize);
    Third(s2);
    Fourth(s3);
    Unroll(s0);
    ReachedInv(chunkSize, s4);
    assert "a" in s4.vm.meta.Keys;
    FitsNow(s4, 4);
    PutUsed(s4, "a", "g", "wwww");
  }

  lemma Unroll(s: Cache)
    ensures var s1 := TieredStore.Step(s, FILL[0]).0; var s2 := TieredStore.Step(s1, FILL[1]).0;
      var s3 := TieredStore.Step(s2, FILL[2]).0; var s4 := TieredStore.Step(s3, FILL[3]).0;
      && Execute(s, FILL) == TieredStore.Step(s4, FILL[4]).0
      && Execute(s, FILL[..4]) == s4
  {
    hide TieredStore.Step;
    var s1 := TieredStore.Step(s, FILL[0]).0;
    var s2 := TieredStore.Step(s1, FILL[1]).0;
    var s3 := TieredStore.Step(s2, FILL[2]).0;
    var s4 := TieredStore.Step(s3, FILL[3]).0;
    assert FILL[1..][1..] == FILL[2..] && FILL[2..][1..] == FILL[3..];
    assert FILL[3..][1..] == FILL[4..] && FILL[4..][1..] == [];
    assert Execute(s, FILL) == Execute(s1, FILL[1..]) == Execute(s2, FILL[2..]);
    assert Execute(s2, FILL[2..]) == Execute(s3, FILL[3..]) == Execute(s4, FILL[4..]);
    var four := FILL[..4];
    assert four[1..][1..] == four[2..] && four[2..][1..] == four[3..] && four[3..][1..] == [];
    assert Execute(s, four) == Execute(s1, four[1..]) == Execute(s2, four[2..]);
    assert Execute(s2, four[2..]) == Execute(s3, four[3..]) == Execute(s4, []);
  }

  lemma ReachedInv(chunkSize: Positive, s4: Cache)
    requires s4 == Execute(Fresh(10, chunkSize), FILL[..4]) && s4.userSize == map["a" := 3, "b" := 6, "c" := 0]
    requires s4.vm.meta.Keys == {"a"}
    ensures Inv(s4) && SizeOf(FilesOf(s4, "a")) == 3
  {
    hide Execute, FlatFiles, SizeOf, FilesOf;
    FreshInv(10, chunkSize);
    RunRefines(Fresh(10, chunkSize), FILL[..4]);
    assert "a" in s4.vm.meta.Keys;
    FlatHas(s4, "a");
    hide Inv, Sound;
    InvCounts(s4);
    assert SizeAt(s4.userSize, "a") == SizeOf(FilesAt(FlatFiles(s4), "a"));
  }
}
