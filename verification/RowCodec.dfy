/** The row text a user is evicted as, `name,value,name,value,`, and its reader. */
module RowCodec {
  import opened Text
  import opened KeyOrder

  type Files = map<string, string>

  function Lengths(files: Files): map<string, nat> {
    map k | k in files :: |files[k]|
  }

  /** Total number of value bytes: what `memory_used` and `user_size` count. */
  function SizeOf(files: Files): nat { Sum(Lengths(files)) }

  function ValueOf(files: Files, f: string): string {
    if f in files then files[f] else ""
  }

  /** `value[filename] += value` on a `std::map`. */
  function AppendTo(files: Files, f: string, v: string): Files {
    files[f := ValueOf(files, f) + v]
  }

  lemma SizeOfNone()
    ensures SizeOf(map[]) == 0
  {
    assert Lengths(map[]) == map[];
  }

  lemma SizeOfUpdate(files: Files, f: string, v: string)
    ensures SizeOf(files[f := v]) == SizeOf(files) - |ValueOf(files, f)| + |v|
  {
    SumUpdate(Lengths(files), f, |v|);
    assert Lengths(files[f := v]) == Lengths(files)[f := |v|];
  }

  lemma SizeOfRemove(files: Files, f: string)
    ensures SizeOf(files - {f}) == SizeOf(files) - |ValueOf(files, f)|
  {
    SumRemove(Lengths(files), f);
    assert Lengths(files - {f}) == Lengths(files) - {f};
  }

  lemma SizeOfPart(part: Files, whole: Files)
    requires forall k :: k in part ==> k in whole && part[k] == whole[k]
    ensures SizeOf(part) <= SizeOf(whole)
  {
    SumMonotone(Lengths(part), Lengths(whole));
  }

  ghost predicate CommaFree(files: Files) {
    forall k :: k in files ==> ',' !in k && ',' !in files[k]
  }

  function FormatKeys(files: Files, ks: seq<string>): string
    requires forall k :: k in ks ==> k in files
  {
    if ks == [] then ""
    else ks[0] + [','] + (files[ks[0]] + [','] + FormatKeys(files, ks[1..]))
  }

  function FormatNode(files: Files): string {
    FormatKeys(files, SortedKeys(files.Keys))
  }

  /** The append-puts `restore_user` issues, one for each (name, value) pair of tokens. */
  function RestorePairs(files: Files, toks: seq<string>): Files
    decreases |toks|
  {
    if |toks| < 2 then files
    else RestorePairs(AppendTo(files, toks[0], toks[1]), toks[2..])
  }

  function Decode(row: string): Files {
    RestorePairs(map[], Tokens(row, ','))
  }

  function KeyTokens(files: Files, ks: seq<string>): seq<string>
    requires forall k :: k in ks ==> k in files
  {
    if ks == [] then [] else [ks[0], files[ks[0]]] + KeyTokens(files, ks[1..])
  }

  function Restrict(files: Files, ks: seq<string>): Files
    requires forall k :: k in ks ==> k in files
  {
    map k | k in ks :: files[k]
  }

  lemma {:induction false} TokensOfFormat(files: Files, ks: seq<string>)
    requires forall k :: k in ks ==> k in files
    requires CommaFree(files)
    ensures Tokens(FormatKeys(files, ks), ',') == KeyTokens(files, ks)
    ensures Remainder(FormatKeys(files, ks), ',') == ""
  {
    hide Tokens, Remainder;
    if ks == [] {
      TokensOfFree("", ',');
    } else {
      var k, v, rest := ks[0], files[ks[0]], FormatKeys(files, ks[1..]);
      assert ',' !in k && ',' !in v;
      hide CommaFree;
      TokensOfFormat(files, ks[1..]);
      TokensStep(v, ',', rest);
      TokensStep(k, ',', v + [','] + rest);
      assert [k] + ([v] + Tokens(rest, ',')) == [k, v] + Tokens(rest, ',');
    }
  }

  lemma {:induction false} RestoreKeys(acc: Files, files: Files, ks: seq<string>)
    requires NoDup(ks) && forall k :: k in ks ==> k in files && k !in acc
    ensures RestorePairs(acc, KeyTokens(files, ks)) == acc + Restrict(files, ks)
    decreases |ks|
  {
    if ks == [] {
      assert acc + Restrict(files, ks) == acc;
    } else {
      var next := AppendTo(acc, ks[0], files[ks[0]]);
      assert ks[0] in ks;
      RestoreFirst(acc, files, ks);
      RestrictStep(acc, files, ks);
      hide AppendTo, KeyTokens, RestorePairs, Restrict;
      RestoreKeys(next, files, ks[1..]);
    }
  }

  lemma RestoreFirst(acc: Files, files: Files, ks: seq<string>)
    requires ks != [] && forall k :: k in ks ==> k in files
    ensures RestorePairs(acc, KeyTokens(files, ks))
      == RestorePairs(AppendTo(acc, ks[0], files[ks[0]]), KeyTokens(files, ks[1..]))
  {
    hide AppendTo;
    assert KeyTokens(files, ks)[2..] == KeyTokens(files, ks[1..]);
  }

  lemma RestrictFirst(m: Files, ks: seq<string>)
    requires ks != [] && NoDup(ks) && forall k :: k in ks ==> k in m
    ensures var k, rest := ks[0], Restrict(m, ks[1..]);
      && k in m && k !in rest && Restrict(m, ks) == rest[k := m[k]]
      && SizeOf(Restrict(m, ks)) == |m[k]| + SizeOf(rest)
  {
    assert ks[0] in ks && ks[0] !in ks[1..];
    var rest := Restrict(m, ks[1..]);
    assert Restrict(m, ks) == rest[ks[0] := m[ks[0]]];
    SizeOfUpdate(rest, ks[0], m[ks[0]]);
  }

  lemma RestrictStep(acc: Files, files: Files, ks: seq<string>)
    requires NoDup(ks) && ks != [] && forall k :: k in ks ==> k in files && k !in acc
    ensures var next := AppendTo(acc, ks[0], files[ks[0]]);
      && (forall k :: k in ks[1..] ==> k in files && k !in next)
      && next + Restrict(files, ks[1..]) == acc + Restrict(files, ks)
  {
    var v := files[ks[0]];
    assert ks[0] in ks && "" + v == v;
    assert forall k :: k in ks[1..] ==> k in ks && k != ks[0];
  }

  lemma DecodeFormat(files: Files)
    requires CommaFree(files)
    ensures Decode(FormatNode(files)) == files
  {
    var ks := SortedKeys(files.Keys);
    assert FormatNode(files) == FormatKeys(files, ks);
    assert map[] + Restrict(files, ks) == files;
    hide Restrict, FormatKeys, KeyTokens, RestorePairs, Tokens;
    SortedKeysNoDup(files.Keys);
    TokensOfFormat(files, ks);
    RestoreKeys(map[], files, ks);
  }

  lemma {:induction false} RestoreStaysFree(files: Files, toks: seq<string>)
    requires CommaFree(files) && AllFree(toks, ',')
    ensures CommaFree(RestorePairs(files, toks))
    decreases |toks|
  {
    if |toks| >= 2 {
      var next := AppendTo(files, toks[0], toks[1]);
      RestoreStaysFree(next, toks[2..]);
    }
  }

  /** One turn of the scan over a row, before a name (`atName`) or before a value. */
  lemma RowCut(files: Files, todo: seq<string>, s: string, atName: bool)
    requires CommaFree(files) && forall k :: k in todo ==> k in files
    requires atName ==> s == FormatKeys(files, todo)
    requires !atName ==> todo != [] && s == files[todo[0]] + [','] + FormatKeys(files, todo[1..])
    ensures IndexOf(s, ',') < |s| <==> todo != []
    ensures todo != [] ==>
      var pos := IndexOf(s, ',');
      && s[..pos] == (if atName then todo[0] else files[todo[0]])
      && s[pos + 1..] == (if atName then files[todo[0]] + [','] else "") + FormatKeys(files, todo[1..])
  {
    hide IndexOf;
    if todo != [] {
      assert todo[0] in todo;
      var v, later := files[todo[0]], FormatKeys(files, todo[1..]);
      if atName { CutFirst(todo[0], v + [','] + later); } else { CutFirst(v, later); }
    }
  }

  lemma CutFirst(head: string, rest: string)
    requires ',' !in head
    ensures var s := head + [','] + rest; var pos := IndexOf(s, ',');
      pos < |s| && s[..pos] == head && s[pos + 1..] == rest
  {
    IndexOfFirst(head, ',', rest);
  }

  /** The row of a user reads back as that user's files exactly when no file name and no
      value contains a comma. */
  lemma RowRoundTripIff(files: Files)
    ensures Decode(FormatNode(files)) == files <==> CommaFree(files)
  {
    if CommaFree(files) {
      DecodeFormat(files);
    }
    TokensRebuild(FormatNode(files), ',');
    RestoreStaysFree(map[], Tokens(FormatNode(files), ','));
  }

  /** A row is never empty and always ends in a comma. */
  lemma {:induction false} FormatEndsInComma(files: Files, ks: seq<string>)
    requires forall k :: k in ks ==> k in files
    requires ks != []
    ensures var row := FormatKeys(files, ks); |row| > 0 && row[|row| - 1] == ','
  {
    if |ks| > 1 { FormatEndsInComma(files, ks[1..]); }
  }

  lemma FormatStep(files: Files, todo: set<string>)
    requires todo != {} && todo <= files.Keys
    ensures var k := Least(todo);
      FormatKeys(files, SortedKeys(todo))
        == (k + [','] + files[k] + [',']) + FormatKeys(files, SortedKeys(todo - {k}))
  {
    var k, ks := Least(todo), SortedKeys(todo);
    assert ks[0] == k && ks[1..] == SortedKeys(todo - {k});
    hide Least, SortedKeys;
    Regroup(k, files[k], FormatKeys(files, ks[1..]));
  }

  lemma Regroup(k: string, v: string, rest: string)
    ensures k + [','] + (v + [','] + rest) == (k + [','] + v + [',']) + rest
  {
  }

  /** The loop of `format_node`: the row is built up and the value sizes are added. */
  method FormatNodeLoop(files: Files) returns (row: string, valueSize: nat)
    ensures row == FormatNode(files)
    ensures valueSize == SizeOf(files)
  {
    hide FormatKeys, SortedKeys, Least, Sum;
    row, valueSize := "", 0;
    var todo := files.Keys;
    ghost var left := Lengths(files);
    ghost var all := FormatNode(files);
    assert "" + all == all;
    while todo != {}
      invariant todo <= files.Keys
      invariant all == row + FormatKeys(files, SortedKeys(todo))
      invariant left.Keys == todo
      invariant forall k :: k in left ==> left[k] == |files[k]|
      invariant valueSize + Sum(left) == SizeOf(files)
      decreases |todo|
    {
      var k := Least(todo);
      var line := k + [','] + files[k] + [','];
      FormatStep(files, todo);
      SumRemove(left, k);
      ghost var rest := FormatKeys(files, SortedKeys(todo - {k}));
      assert row + (line + rest) == (row + line) + rest;
      row := row + line;
      valueSize := valueSize + |files[k]|;
      left := left - {k};
      todo := todo - {k};
    }
    NothingToPrint(files, left);
    assert row + "" == row;
  }

  lemma NothingToPrint(files: Files, left: map<string, nat>)
    requires left.Keys == {}
    ensures FormatKeys(files, SortedKeys({})) == "" && Sum(left) == 0
  {
  }

  /** Two more pieces in a row are one more append; a last piece alone is ignored. */
  lemma {:induction false} RestoreMore(files: Files, toks: seq<string>, f: string, v: string)
    requires |toks| % 2 == 0
    ensures RestorePairs(files, toks + [f]) == RestorePairs(files, toks)
    ensures RestorePairs(files, toks + [f, v]) == AppendTo(RestorePairs(files, toks), f, v)
    decreases |toks|
  {
    hide AppendTo;
    var one, two := toks + [f], toks + [f, v];
    if toks == [] {
      assert two[2..] == [];
      assert RestorePairs(files, two) == RestorePairs(AppendTo(files, f, v), []);
    } else {
      assert one[2..] == toks[2..] + [f] && two[2..] == toks[2..] + [f, v];
      RestoreMore(AppendTo(files, toks[0], toks[1]), toks[2..], f, v);
    }
  }

  /** A row by example. */
  lemma SampleRow()
    ensures FormatNode(map["g" := "w", "f" := "v"]) == "f,v,g,w,"
  {
    var files := map["g" := "w", "f" := "v"];
    TwoKeys("f", "g");
    hide SortedKeys;
    assert files.Keys == {"f", "g"};
    assert FormatKeys(files, []) == "" && ["g"][1..] == [] && ["f", "g"][1..] == ["g"];
    assert FormatKeys(files, ["g"]) == "g" + [','] + ("w" + [','] + "") == "g,w,";
    assert FormatKeys(files, ["f", "g"]) == "f" + [','] + ("v" + [','] + "g,w,") == "f,v,g,w,";
  }
}
