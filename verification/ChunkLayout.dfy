/** Where the allocator puts a row: its extents are consecutive, full between the first and
    the last, and never overlap anyone else's. Also: what happens to a row when the offset is
    not reset on a new chunk, as the shipped statement order has it. */
module ChunkLayout {
  import opened KeyOrder
  import opened RowCodec
  import opened Chunks

  // ----- no two extents overlap

  predicate Apart(e: Extent, f: Extent) {
    e.chunk != f.chunk || e.start + e.length <= f.start || f.start + f.length <= e.start
  }

  ghost predicate AllApart(es: seq<Extent>, fs: seq<Extent>) {
    forall i, j :: 0 <= i < |es| && 0 <= j < |fs| ==> Apart(es[i], fs[j])
  }

  ghost predicate SelfApart(es: seq<Extent>) {
    forall i, j :: 0 <= i < j < |es| ==> Apart(es[i], es[j])
  }

  ghost predicate Disjoint(a: Area) {
    && (forall u :: u in a.meta ==> SelfApart(a.meta[u]))
    && (forall u, v :: u in a.meta && v in a.meta && u != v ==> AllApart(a.meta[u], a.meta[v]))
  }

  /** The end of the current chunk file is past every extent. */
  lemma FrontierApart(a: Area, es: seq<Extent>, length: nat)
    requires FilesOk(a) && AllInFile(a, es)
    ensures forall i :: 0 <= i < |es| ==>
      Apart(es[i], Extent(a.chunk, a.offset, length)) && Apart(Extent(a.chunk, a.offset, length), es[i])
  {
    forall i | 0 <= i < |es|
      ensures Apart(es[i], Extent(a.chunk, a.offset, length)) && Apart(Extent(a.chunk, a.offset, length), es[i])
    {
      assert InFile(a, es[i]);
    }
  }

  lemma AppendDisjoint(a: Area, user: string, piece: string)
    requires AreaOk(a) && Disjoint(a)
    ensures Disjoint(Append(a, user, piece))
  {
    hide ReadRow, FilesOk;
    var b := Append(a, user, piece);
    var x := Extent(a.chunk, a.offset, |piece|);
    var es := ExtentsOf(a, user);
    FrontierApart(a, es, |piece|);
    forall u | u in b.meta ensures SelfApart(b.meta[u]) {
      if u == user { assert b.meta[u] == es + [x]; }
    }
    forall u, v | u in b.meta && v in b.meta && u != v ensures AllApart(b.meta[u], b.meta[v]) {
      if u == user {
        FrontierApart(a, a.meta[v], |piece|);
      } else if v == user {
        FrontierApart(a, a.meta[u], |piece|);
      }
    }
  }

  lemma {:induction false} WriteRestDisjoint(a: Area, user: string, rest: string)
    requires AreaOk(a) && Disjoint(a)
    ensures Disjoint(WriteRest(a, user, rest))
    decreases |rest|
  {
    var n := NextChunk(a);
    NextChunkOk(a);
    hide AreaOk, Append;
    if |rest| <= a.size {
      AppendDisjoint(n, user, rest);
    } else {
      AppendOk(n, user, rest[..a.size]) by { assert n.offset == 0; }
      AppendDisjoint(n, user, rest[..a.size]);
      WriteRestDisjoint(Append(n, user, rest[..a.size]), user, rest[a.size..]);
    }
  }

  /** No two records ever share a byte, whoever's they are. */
  lemma WriteRowDisjoint(a: Area, user: string, row: string)
    requires AreaOk(a) && Disjoint(a)
    ensures AreaOk(WriteRow(a, user, row)) && Disjoint(WriteRow(a, user, row))
  {
    var f := Forget(a, user);
    ForgetOk(a, user);
    WriteRowOk(a, user, row);
    assert Disjoint(f);
    hide AreaOk, Append, Disjoint;
    if Fits(a, row) {
      AppendDisjoint(f, user, row);
    } else {
      var left := a.size - a.offset;
      AppendOk(f, user, row[..left]);
      AppendDisjoint(f, user, row[..left]);
      WriteRestDisjoint(Append(f, user, row[..left]), user, row[left..]);
    }
  }

  // ----- shape

  /** Where `n` bytes go when written from offset `o` of chunk `c` on. */
  function Pieces(size: Positive, c: nat, o: nat, n: nat): seq<Extent>
    requires o <= size
    decreases n, o
  {
    if n <= size - o then [Extent(c, o, n)]
    else [Extent(c, o, size - o)] + Pieces(size, c + 1, 0, n - (size - o))
  }

  lemma PiecesUnfold(size: Positive, c: nat, o: nat, n: nat)
    requires o <= size
    ensures Pieces(size, c, o, n)
      == if n <= size - o then [Extent(c, o, n)] else [Extent(c, o, size - o)] + Pieces(size, c + 1, 0, n - (size - o))
  {
  }

  /** The pieces lie in consecutive chunks; every piece but the last runs to the end of its
      chunk, every piece but the first starts at 0. */
  lemma {:induction false} PiecesShape(size: Positive, c: nat, o: nat, n: nat)
    requires o <= size
    ensures var es := Pieces(size, c, o, n);
      && es != [] && es[0].start == o
      && (forall i :: 0 <= i < |es| ==> es[i].chunk == c + i)
      && (forall i :: 0 < i < |es| ==> es[i].start == 0)
      && (forall i :: 0 <= i < |es| - 1 ==> es[i].start + es[i].length == size)
      && es[|es| - 1].start + es[|es| - 1].length <= size
    decreases n, o
  {
    if n > size - o {
      PiecesShape(size, c + 1, 0, n - (size - o));
    }
  }

  /** The allocator stands at the end of the last piece. */
  ghost predicate EndsAt(b: Area, es: seq<Extent>) {
    es != [] && b.chunk == es[|es| - 1].chunk && b.offset == es[|es| - 1].start + es[|es| - 1].length
  }

  lemma EndsAfter(b: Area, e: Extent, es: seq<Extent>)
    requires EndsAt(b, es)
    ensures EndsAt(b, [e] + es)
  {
  }

  lemma {:induction false} WriteRestPieces(a: Area, user: string, rest: string)
    ensures var b := WriteRest(a, user, rest); var es := Pieces(a.size, a.chunk + 1, 0, |rest|);
      && ExtentsOf(b, user) == ExtentsOf(a, user) + es
      && EndsAt(b, es)
    decreases |rest|
  {
    PiecesUnfold(a.size, a.chunk + 1, 0, |rest|);
    RestUnfold(a, user, rest);
    hide WriteRest, ExtentsOf, Pieces, Append, NextChunk;
    NextRecords(a, user);
    if |rest| <= a.size {
      AppendRecords(NextChunk(a), user, rest, |rest|);
    } else {
      var m := Append(NextChunk(a), user, rest[..a.size]);
      var e, es := Extent(a.chunk + 1, 0, a.size), Pieces(a.size, a.chunk + 2, 0, |rest| - a.size);
      AppendRecords(NextChunk(a), user, rest[..a.size], a.size);
      hide EndsAt;
      WriteRestPieces(m, user, rest[a.size..]);
      assert ExtentsOf(m, user) == ExtentsOf(a, user) + [e];
      GrowPieces(a, m, WriteRest(m, user, rest[a.size..]), user, e, es);
    }
  }

  lemma GrowPieces(a: Area, m: Area, b: Area, user: string, e: Extent, es: seq<Extent>)
    requires ExtentsOf(m, user) == ExtentsOf(a, user) + [e]
    requires ExtentsOf(b, user) == ExtentsOf(m, user) + es && EndsAt(b, es)
    ensures ExtentsOf(b, user) == ExtentsOf(a, user) + ([e] + es) && EndsAt(b, [e] + es)
  {
    hide ExtentsOf;
    assert ExtentsOf(a, user) + [e] + es == ExtentsOf(a, user) + ([e] + es);
  }

  lemma RestUnfold(a: Area, user: string, rest: string)
    ensures |rest| <= a.size ==> WriteRest(a, user, rest) == Append(NextChunk(a), user, rest)
    ensures |rest| > a.size ==>
      && |rest[..a.size]| == a.size && |rest[a.size..]| == |rest| - a.size
      && WriteRest(a, user, rest) == WriteRest(Append(NextChunk(a), user, rest[..a.size]), user, rest[a.size..])
  {
    hide Append, NextChunk;
  }

  lemma AppendRecords(a: Area, user: string, piece: string, n: nat)
    requires |piece| == n
    ensures var b := Append(a, user, piece);
      && ExtentsOf(b, user) == ExtentsOf(a, user) + [Extent(a.chunk, a.offset, n)]
      && b.size == a.size && b.chunk == a.chunk && b.offset == a.offset + n
  {
  }

  lemma NextRecords(a: Area, user: string)
    ensures var b := NextChunk(a);
      ExtentsOf(b, user) == ExtentsOf(a, user) && b.size == a.size && b.chunk == a.chunk + 1 && b.offset == 0
  {
  }

  lemma RestAfter(m: Area, user: string, rest: string, o: nat, n: nat)
    requires o <= m.size && n > m.size - o && |rest| == n - (m.size - o)
    requires ExtentsOf(m, user) == [Extent(m.chunk, o, m.size - o)]
    ensures var b := WriteRest(m, user, rest); var es := Pieces(m.size, m.chunk, o, n);
      ExtentsOf(b, user) == es && EndsAt(b, es)
  {
    PiecesUnfold(m.size, m.chunk, o, n);
    hide WriteRest, ExtentsOf, Pieces;
    WriteRestPieces(m, user, rest);
    EndsAfter(WriteRest(m, user, rest), Extent(m.chunk, o, m.size - o), Pieces(m.size, m.chunk + 1, 0, |rest|));
  }

  lemma FirstRecords(a: Area, user: string, piece: string, n: nat)
    requires |piece| == n
    ensures var b := Append(Forget(a, user), user, piece); var es := [Extent(a.chunk, a.offset, n)];
      ExtentsOf(b, user) == es && EndsAt(b, es) && b.size == a.size && b.chunk == a.chunk
  {
    var b := Forget(a, user);
    AppendRecords(b, user, piece, n);
    assert ExtentsOf(b, user) == [];
    hide Append, ExtentsOf;
    assert [] + [Extent(a.chunk, a.offset, n)] == [Extent(a.chunk, a.offset, n)];
  }

  lemma SpillPieces(a: Area, user: string, row: string)
    requires a.offset <= a.size && !Fits(a, row)
    ensures var b := WriteRow(a, user, row); var es := Pieces(a.size, a.chunk, a.offset, |row|);
      ExtentsOf(b, user) == es && EndsAt(b, es)
  {
    var left := a.size - a.offset;
    RowUnfold(a, user, row);
    FirstRecords(a, user, row[..left], left);
    hide WriteRow, Append, Forget, WriteRest, ExtentsOf, EndsAt, Pieces, Fits;
    RestAfter(Append(Forget(a, user), user, row[..left]), user, row[left..], a.offset, |row|);
  }

  /** A row of any length written at any offset is recorded as exactly these pieces, and the
      allocator then stands at the end of the last one. */
  lemma WriteRowPieces(a: Area, user: string, row: string)
    requires a.offset <= a.size
    ensures var b := WriteRow(a, user, row); var es := Pieces(a.size, a.chunk, a.offset, |row|);
      ExtentsOf(b, user) == es && EndsAt(b, es)
  {
    if Fits(a, row) {
      PiecesUnfold(a.size, a.chunk, a.offset, |row|);
      FirstRecords(a, user, row, |row|);
      hide Append, Forget, ExtentsOf, EndsAt, Pieces;
    } else {
      SpillPieces(a, user, row);
      hide WriteRow, ExtentsOf, EndsAt, Pieces;
    }
  }

  lemma RowUnfold(a: Area, user: string, row: string)
    requires a.offset <= a.size
    ensures Fits(a, row) <==> |row| <= a.size - a.offset
    ensures Fits(a, row) ==> WriteRow(a, user, row) == Append(Forget(a, user), user, row)
    ensures !Fits(a, row) ==> var left := a.size - a.offset;
      && |row[..left]| == left && |row[left..]| == |row| - left
      && WriteRow(a, user, row) == WriteRest(Append(Forget(a, user), user, row[..left]), user, row[left..])
  {
    hide Append, Forget, WriteRest;
  }

  // ----- as shipped: the chunk number advances, the offset does not

  function WriteRestShipped(a: Area, user: string, rest: string): Area
    decreases |rest|
  {
    var n := a.(chunk := a.chunk + 1);
    if |rest| <= a.size then Append(n, user, rest)
    else WriteRestShipped(Append(n, user, rest[..a.size]), user, rest[a.size..])
  }

  function WriteRowShipped(a: Area, user: string, row: string): Area {
    var b := Forget(a, user);
    if Fits(a, row) then Append(b, user, row)
    else
      var left := a.size - a.offset;
      WriteRestShipped(Append(b, user, row[..left]), user, row[left..])
  }

  /** The last piece is recorded at or past the end of its file, so it reads as zeros. */
  lemma {:induction false} ShippedTail(a: Area, user: string, rest: string)
    requires rest != [] && a.offset >= a.size && forall c :: c in a.disk ==> c <= a.chunk
    ensures var row := ReadRow(WriteRestShipped(a, user, rest), user); |row| > 0 && row[|row| - 1] == 0 as char
    decreases |rest|
  {
    hide ReadExtents;
    var n := a.(chunk := a.chunk + 1);
    if |rest| <= a.size {
      var b := Append(n, user, rest);
      ReadSnoc(b.disk, ExtentsOf(a, user), Extent(n.chunk, n.offset, |rest|));
      assert FileOf(n.disk, n.chunk) + rest == rest;
    } else {
      ShippedTail(Append(n, user, rest[..a.size]), user, rest[a.size..]);
    }
  }

  lemma RowEndsInComma(files: Files)
    requires files != map[]
    ensures var row := FormatNode(files); |row| > 0 && row[|row| - 1] == ','
  {
    var ks := SortedKeys(files.Keys);
    assert ks != [] by { var f :| f in files; assert f in ks; }
    FormatEndsInComma(files, ks);
  }

  /** As shipped, a row reads back exactly when it fits in the current chunk. Any row that
      spills over is lost, because rows end in a comma and its tail reads as zeros. */
  lemma ShippedReadsBackIff(a: Area, user: string, files: Files)
    requires AreaOk(a) && files != map[]
    ensures ReadRow(WriteRowShipped(a, user, FormatNode(files)), user) == FormatNode(files)
        <==> |FormatNode(files)| <= a.size - a.offset
  {
    hide FormatNode, ReadRow, WriteRestShipped, WriteRest;
    var row := FormatNode(files);
    RowEndsInComma(files);
    if Fits(a, row) {
      WriteRowReads(a, user, row);
    } else {
      hide AreaOk;
      var left := a.size - a.offset;
      ShippedTail(Append(Forget(a, user), user, row[..left]), user, row[left..]);
    }
  }
}
