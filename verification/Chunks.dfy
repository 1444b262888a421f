/** The append-only chunk files of one directory ("virtual memory" or "checkpointing"),
    the metadata that says where a user's row lies, and the allocator that splits a row
    over several chunk files. */
module Chunks {

  /** One metadata record: chunk number, start index, length. */
  datatype Extent = Extent(chunk: nat, start: nat, length: nat)

  type Positive = n: nat | n > 0 witness 1

  /** `size` is CHUNK_SIZE; `chunk` and `offset` are the two slots of `chunk_info`;
      `disk` maps a chunk number to the bytes of its file. */
  datatype Area = Area(size: Positive, chunk: nat, offset: nat,
                       disk: map<nat, string>, meta: map<string, seq<Extent>>)

  function EmptyArea(size: Positive): Area { Area(size, 0, 0, map[], map[]) }

  function FileOf(disk: map<nat, string>, c: nat): string {
    if c in disk then disk[c] else ""
  }

  function ExtentsOf(a: Area, user: string): seq<Extent> {
    if user in a.meta then a.meta[user] else []
  }

  function Min(x: nat, y: nat): nat { if x < y then x else y }

  function Zeros(n: nat): string { seq(n, _ => 0 as char) }

  /** Seek, resize the buffer to `length`, read: a file that does not open gives the empty
      string, and what lies past the end of the file stays zero. */
  function ReadExtent(disk: map<nat, string>, e: Extent): string {
    if e.chunk !in disk then ""
    else
      var f := disk[e.chunk];
      var got := f[Min(e.start, |f|)..Min(e.start + e.length, |f|)];
      got + Zeros(e.length - |got|)
  }

  /** A piece read is as long as its record says: the bytes of the file there, and zeros past its end;
      nothing at all when there is no such file. */
  lemma ReadExtentIs(disk: map<nat, string>, e: Extent)
    ensures e.chunk !in disk ==> ReadExtent(disk, e) == ""
    ensures e.chunk in disk ==>
      var f, got := disk[e.chunk], ReadExtent(disk, e);
      && |got| == e.length
      && forall i :: 0 <= i < e.length ==> got[i] == if e.start + i < |f| then f[e.start + i] else 0 as char
  {
  }

  function ReadExtents(disk: map<nat, string>, es: seq<Extent>): string {
    if es == [] then "" else ReadExtents(disk, es[..|es| - 1]) + ReadExtent(disk, es[|es| - 1])
  }

  /** The row stored for a user. */
  function ReadRow(a: Area, user: string): string { ReadExtents(a.disk, ExtentsOf(a, user)) }

  function Forget(a: Area, user: string): Area { a.(meta := a.meta - {user}) }

  /** `update_metadata`: append to the current chunk file, record where, advance the offset. */
  function Append(a: Area, user: string, piece: string): Area {
    a.(disk := a.disk[a.chunk := FileOf(a.disk, a.chunk) + piece],
       meta := a.meta[user := ExtentsOf(a, user) + [Extent(a.chunk, a.offset, |piece|)]],
       offset := a.offset + |piece|)
  }

  function NextChunk(a: Area): Area { a.(chunk := a.chunk + 1, offset := 0) }

  /** Every further piece opens a new chunk; all but the last one fill it. */
  function WriteRest(a: Area, user: string, rest: string): Area
    decreases |rest|
  {
    if |rest| <= a.size then Append(NextChunk(a), user, rest)
    else WriteRest(Append(NextChunk(a), user, rest[..a.size]), user, rest[a.size..])
  }

  /** The test `CHUNK_SIZE - offset >= row.size()`. Its left side is converted to an unsigned
      number, so a negative difference passes. */
  predicate Fits(a: Area, row: string) { a.offset > a.size || |row| <= a.size - a.offset }

  /** `write_to_chunk`, with the offset reset when the chunk number advances. */
  function WriteRow(a: Area, user: string, row: string): Area {
    var b := Forget(a, user);
    if Fits(a, row) then Append(b, user, row)
    else
      var left := a.size - a.offset;
      WriteRest(Append(b, user, row[..left]), user, row[left..])
  }

  // ----- invariants

  ghost predicate InFile(a: Area, e: Extent) {
    e.chunk in a.disk && e.chunk <= a.chunk && e.start + e.length <= |a.disk[e.chunk]|
  }

  /** The recorded offset is the length of the current chunk file, no later chunk file
      exists, and no chunk file exceeds the chunk size. */
  ghost predicate FilesOk(a: Area) {
    && a.offset == |FileOf(a.disk, a.chunk)|
    && (forall c :: c in a.disk ==> c <= a.chunk && |a.disk[c]| <= a.size)
    && a.offset <= a.size
  }

  /** Every record of a user lies inside an existing chunk file. */
  ghost predicate AllInFile(a: Area, es: seq<Extent>) {
    forall i :: 0 <= i < |es| ==> InFile(a, es[i])
  }

  ghost predicate AreaOk(a: Area) {
    && FilesOk(a)
    && (forall u :: u in a.meta ==> AllInFile(a, a.meta[u]))
  }

  /** Files only ever grow at the end. */
  ghost predicate Grows(d: map<nat, string>, e: map<nat, string>) {
    forall c :: c in d ==> c in e && d[c] <= e[c]
  }

  // ----- one append

  lemma InFileStays(a: Area, b: Area, es: seq<Extent>)
    requires AllInFile(a, es) && Grows(a.disk, b.disk) && a.chunk <= b.chunk
    ensures AllInFile(b, es)
  {
    forall i | 0 <= i < |es| ensures InFile(b, es[i]) {
      assert InFile(a, es[i]);
    }
  }

  /** `b` is `a` after `text` was appended to the row of `user`. */
  ghost predicate Extended(a: Area, b: Area, user: string, text: string) {
    && b.size == a.size
    && a.chunk <= b.chunk
    && Grows(a.disk, b.disk)
    && b.meta.Keys == a.meta.Keys + {user}
    && (forall u :: u in a.meta && u != user ==> b.meta[u] == a.meta[u])
    && ReadRow(b, user) == ReadRow(a, user) + text
  }

  lemma ExtendedTwice(a: Area, m: Area, b: Area, user: string, s: string, t: string)
    requires Extended(a, m, user, s) && Extended(m, b, user, t)
    ensures Extended(a, b, user, s + t)
  {
    assert ReadRow(a, user) + s + t == ReadRow(a, user) + (s + t);
    forall c | c in a.disk ensures c in b.disk && a.disk[c] <= b.disk[c] {
      assert a.disk[c] <= m.disk[c] <= b.disk[c];
    }
  }

  lemma ReadExtentStable(d: map<nat, string>, e: map<nat, string>, x: Extent)
    requires Grows(d, e) && x.chunk in d && x.start + x.length <= |d[x.chunk]|
    ensures ReadExtent(e, x) == ReadExtent(d, x) == d[x.chunk][x.start..x.start + x.length]
  {
    var f, g := d[x.chunk], e[x.chunk];
    assert f == g[..|f|];
    assert g[x.start..x.start + x.length] == f[x.start..x.start + x.length];
  }

  lemma {:induction false} ReadExtentsStable(a: Area, e: map<nat, string>, es: seq<Extent>)
    requires Grows(a.disk, e) && AllInFile(a, es)
    ensures ReadExtents(e, es) == ReadExtents(a.disk, es)
  {
    if es != [] {
      var last := es[|es| - 1];
      assert AllInFile(a, es[..|es| - 1]);
      ReadExtentsStable(a, e, es[..|es| - 1]);
      assert InFile(a, last);
      ReadExtentStable(a.disk, e, last);
    }
  }

  lemma AppendFiles(a: Area, user: string, piece: string)
    requires FilesOk(a) && a.offset + |piece| <= a.size
    ensures var b := Append(a, user, piece);
      && FilesOk(b) && Grows(a.disk, b.disk)
      && b.disk[a.chunk][a.offset..a.offset + |piece|] == piece
      && InFile(b, Extent(a.chunk, a.offset, |piece|))
  {
  }

  lemma AppendOk(a: Area, user: string, piece: string)
    requires AreaOk(a) && a.offset + |piece| <= a.size
    ensures AreaOk(Append(a, user, piece))
  {
    var b := Append(a, user, piece);
    var es := ExtentsOf(a, user);
    AppendFiles(a, user, piece);
    forall u | u in b.meta ensures AllInFile(b, b.meta[u]) {
      if u == user {
        InFileStays(a, b, es);
      } else {
        InFileStays(a, b, a.meta[u]);
      }
    }
  }

  lemma ReadSnoc(d: map<nat, string>, es: seq<Extent>, x: Extent)
    ensures ReadExtents(d, es + [x]) == ReadExtents(d, es) + ReadExtent(d, x)
  {
    assert (es + [x])[..|es|] == es;
  }

  lemma AppendReads(a: Area, user: string, piece: string)
    requires AreaOk(a) && a.offset + |piece| <= a.size
    ensures ReadRow(Append(a, user, piece), user) == ReadRow(a, user) + piece
  {
    var b := Append(a, user, piece);
    var es := ExtentsOf(a, user);
    var x := Extent(a.chunk, a.offset, |piece|);
    AppendFiles(a, user, piece);
    calc {
      ReadRow(b, user);
      { ReadSnoc(b.disk, es, x); }
      ReadExtents(b.disk, es) + ReadExtent(b.disk, x);
      { ReadExtentStable(b.disk, b.disk, x); }
      ReadExtents(b.disk, es) + piece;
      { ReadExtentsStable(a, b.disk, es); }
      ReadRow(a, user) + piece;
    }
  }

  lemma AppendExtends(a: Area, user: string, piece: string)
    requires AreaOk(a) && a.offset + |piece| <= a.size
    ensures Extended(a, Append(a, user, piece), user, piece)
  {
    AppendReads(a, user, piece);
    AppendFiles(a, user, piece);
  }

  lemma NextChunkExtends(a: Area, b: Area, user: string, text: string)
    requires Extended(NextChunk(a), b, user, text)
    ensures Extended(a, b, user, text)
  {
  }

  lemma NextChunkOk(a: Area)
    requires AreaOk(a)
    ensures AreaOk(NextChunk(a))
  {
    var b := NextChunk(a);
    forall u | u in b.meta ensures AllInFile(b, b.meta[u]) {
      InFileStays(a, b, a.meta[u]);
    }
  }

  // ----- the whole row

  lemma {:induction false} WriteRestOk(a: Area, user: string, rest: string)
    requires AreaOk(a)
    ensures AreaOk(WriteRest(a, user, rest))
    decreases |rest|
  {
    var n := NextChunk(a);
    NextChunkOk(a);
    if |rest| <= a.size {
      AppendOk(n, user, rest);
    } else {
      AppendOk(n, user, rest[..a.size]);
      WriteRestOk(Append(n, user, rest[..a.size]), user, rest[a.size..]);
    }
  }

  lemma {:induction false} WriteRestExtends(a: Area, user: string, rest: string)
    requires AreaOk(a)
    ensures Extended(a, WriteRest(a, user, rest), user, rest)
    decreases |rest|, 0
  {
    var n := NextChunk(a);
    var b := WriteRest(a, user, rest);
    NextChunkOk(a);
    if |rest| <= a.size {
      AppendExtends(n, user, rest);
    } else {
      var piece, more := rest[..a.size], rest[a.size..];
      assert piece + more == rest;
      SplitExtends(n, user, piece, more, b);
    }
    NextChunkExtends(a, b, user, rest);
  }

  /** One full piece, then the rest. */
  lemma SplitExtends(n: Area, user: string, piece: string, more: string, b: Area)
    requires AreaOk(n) && n.offset + |piece| <= n.size
    requires b == WriteRest(Append(n, user, piece), user, more)
    ensures Extended(n, b, user, piece + more)
    decreases |more|, 1
  {
    var m := Append(n, user, piece);
    AppendOk(n, user, piece);
    AppendExtends(n, user, piece);
    WriteRestExtends(m, user, more);
    ExtendedTwice(n, m, b, user, piece, more);
  }

  lemma ForgetOk(a: Area, user: string)
    requires AreaOk(a)
    ensures AreaOk(Forget(a, user))
  {
    var b := Forget(a, user);
    forall u | u in b.meta ensures AllInFile(b, b.meta[u]) {
      InFileStays(a, b, a.meta[u]);
    }
  }

  lemma SplitOk(f: Area, user: string, piece: string, more: string)
    requires AreaOk(f) && f.offset + |piece| <= f.size
    ensures AreaOk(WriteRest(Append(f, user, piece), user, more))
  {
    AppendOk(f, user, piece);
    WriteRestOk(Append(f, user, piece), user, more);
  }

  lemma WriteRowOk(a: Area, user: string, row: string)
    requires AreaOk(a)
    ensures AreaOk(WriteRow(a, user, row))
  {
    var f := Forget(a, user);
    ForgetOk(a, user);
    var left := a.size - a.offset;
    if Fits(a, row) {
      AppendOk(f, user, row);
    } else {
      SplitOk(f, user, row[..left], row[left..]);
    }
  }

  lemma WriteRowExtends(a: Area, user: string, row: string)
    requires AreaOk(a)
    ensures Extended(Forget(a, user), WriteRow(a, user, row), user, row)
  {
    var f := Forget(a, user);
    var b := WriteRow(a, user, row);
    ForgetOk(a, user);
    var left := a.size - a.offset;
    if Fits(a, row) {
      AppendExtends(f, user, row);
    } else {
      var piece, more := row[..left], row[left..];
      assert piece + more == row;
      SplitExtends(f, user, piece, more, b);
    }
  }

  lemma RowStable(a: Area, b: Area, u: string)
    requires AreaOk(a) && Grows(a.disk, b.disk)
    requires u in a.meta && u in b.meta && b.meta[u] == a.meta[u]
    ensures ReadRow(b, u) == ReadRow(a, u)
  {
    ReadExtentsStable(a, b.disk, a.meta[u]);
  }

  /** Whatever the offset and the row length: the row reads back, every other user's row
      still reads the same, and the allocator's invariants hold again. */
  lemma WriteRowReads(a: Area, user: string, row: string)
    requires AreaOk(a)
    ensures var b := WriteRow(a, user, row);
      && AreaOk(b) && b.size == a.size && b.meta.Keys == a.meta.Keys + {user}
      && ReadRow(b, user) == row
      && (forall u :: u in a.meta && u != user ==> ReadRow(b, u) == ReadRow(a, u))
  {
    WriteRowOk(a, user, row);
    WriteRowExtends(a, user, row);
    ForgetOk(a, user);
    var b := WriteRow(a, user, row);
    assert ReadRow(Forget(a, user), user) + row == row;
    forall u | u in a.meta && u != user ensures ReadRow(b, u) == ReadRow(a, u) {
      assert u in Forget(a, user).meta;
      RowStable(a, b, u);
    }
  }

  lemma {:induction false} WriteRestKeys(a: Area, user: string, rest: string)
    ensures WriteRest(a, user, rest).meta.Keys == a.meta.Keys + {user}
    decreases |rest|
  {
    if |rest| > a.size { WriteRestKeys(Append(NextChunk(a), user, rest[..a.size]), user, rest[a.size..]); }
  }

  lemma WriteRowKeys(a: Area, user: string, row: string)
    ensures WriteRow(a, user, row).meta.Keys == a.meta.Keys + {user}
  {
    if !Fits(a, row) {
      var left := a.size - a.offset;
      WriteRestKeys(Append(Forget(a, user), user, row[..left]), user, row[left..]);
    }
  }

  // ----- the number of pieces

  /** Exact value of `ceil(float(n) / float(d))`. */
  function CeilDiv(n: nat, d: Positive): nat { (n + d - 1) / d }

  lemma MulMonotone(a: int, b: int, d: nat)
    ensures a <= b ==> a * d <= b * d
    ensures (a + 1) * d == a * d + d
  {
  }

  lemma QuotientIs(n: nat, d: Positive, q: nat)
    requires q * d <= n < q * d + d
    ensures n / d == q
  {
    var p := n / d;
    assert n == p * d + n % d;
    MulMonotone(p + 1, q, d);
    MulMonotone(p, 0, d);
    MulMonotone(q + 1, p, d);
  }

  lemma CeilDivSmall(n: nat, d: Positive)
    requires 0 < n <= d
    ensures CeilDiv(n, d) == 1
  {
    QuotientIs(n + d - 1, d, 1);
  }

  lemma CeilDivStep(n: nat, d: Positive)
    requires n > d
    ensures CeilDiv(n, d) == CeilDiv(n - d, d) + 1 && CeilDiv(n - d, d) >= 1
  {
    var m := n - d + d - 1;
    var q := m / d;
    assert m == q * d + m % d;
    MulMonotone(q, 0, d);
    QuotientIs(m + d, d, q + 1);
  }

  lemma CeilDivCases(n: nat, d: Positive)
    requires n > 0
    ensures if n <= d then CeilDiv(n, d) == 1 else CeilDiv(n, d) == CeilDiv(n - d, d) + 1 && CeilDiv(n - d, d) >= 1
  {
    hide CeilDiv;
    if n <= d { CeilDivSmall(n, d); } else { CeilDivStep(n, d); }
  }

  lemma SliceTwice(row: string, start: nat, n: nat)
    requires start + n <= |row|
    ensures row[start..][..n] == row[start..start + n] && row[start..][n..] == row[start + n..]
  {
  }

  lemma WriteRestStep(a: Area, user: string, row: string, start: nat)
    requires start < |row|
    ensures CeilDiv(|row| - start, a.size) >= 1
    ensures CeilDiv(|row| - start, a.size) == 1 ==>
      WriteRest(a, user, row[start..]) == Append(NextChunk(a), user, row[start..])
    ensures CeilDiv(|row| - start, a.size) > 1 ==>
      && start + a.size < |row|
      && WriteRest(a, user, row[start..])
         == WriteRest(Append(NextChunk(a), user, row[start..start + a.size]), user, row[start + a.size..])
      && CeilDiv(|row| - (start + a.size), a.size) == CeilDiv(|row| - start, a.size) - 1
      && Append(NextChunk(a), user, row[start..start + a.size]).size == a.size
  {
    hide CeilDiv;
    CeilDivCases(|row| - start, a.size);
    if |row| - start > a.size { SliceTwice(row, start, a.size); }
  }

  lemma WriteRowSplit(a: Area, user: string, row: string)
    ensures Fits(a, row) ==> WriteRow(a, user, row) == Append(Forget(a, user), user, row)
    ensures !Fits(a, row) ==>
      var left := a.size - a.offset;
      var first := Append(Forget(a, user), user, row[..left]);
      && WriteRow(a, user, row) == WriteRest(first, user, row[left..])
      && first.size == a.size && CeilDiv(|row| - left, a.size) >= 1
    ensures Forget(a, user).size == a.size
  {
    if !Fits(a, row) {
      hide CeilDiv;
      CeilDivCases(|row| - (a.size - a.offset), a.size);
    }
  }

  /** `write_to_chunk` as the source loops: the number of chunks is computed first, then the
      first piece fills the current chunk, every middle piece a whole one, and the last piece
      takes what is left. */
  method WriteRowLoop(area: Area, user: string, row: string) returns (a: Area)
    ensures a == WriteRow(area, user, row)
  {
    hide WriteRow, CeilDiv, WriteRest, Append, NextChunk, Forget;
    WriteRowSplit(area, user, row);
    a := Forget(area, user);
    if Fits(area, row) {
      a := Append(a, user, row);
    } else {
      var left := area.size - area.offset;
      ghost var goal := WriteRow(area, user, row);
      var chunkNeeded := CeilDiv(|row| - left, area.size) + 1;
      var start: nat := 0;
      for i := 0 to chunkNeeded
        invariant a.size == area.size || i == chunkNeeded
        invariant i == 0 ==> start == 0 && a == Forget(area, user)
        invariant 0 < i < chunkNeeded ==> start < |row| && CeilDiv(|row| - start, area.size) == chunkNeeded - i
        invariant 0 < i < chunkNeeded ==> WriteRest(a, user, row[start..]) == goal
        invariant i == chunkNeeded ==> a == goal
      {
        if i == 0 {
          a := Append(a, user, row[start..left]);
          start := left;
        } else {
          WriteRestStep(a, user, row, start);
          a := NextChunk(a);
          if i == chunkNeeded - 1 {
            a := Append(a, user, row[start..]);
          } else {
            a := Append(a, user, row[start..start + area.size]);
            start := start + area.size;
          }
        }
      }
    }
  }
}
