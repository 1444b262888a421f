/** `replace_all`: every occurrence of a pattern is replaced, scanning from the left and never
    looking at replaced text again. */
module ReplaceAll {

  /** `from` occurs in `s` at `i`. */
  predicate OccursAt(s: string, from: string, i: nat) {
    i + |from| <= |s| && s[i..i + |from|] == from
  }

  /** `str.find(from, start)`; `|s|` stands for `npos`. */
  function Find(s: string, from: string, start: nat): (i: nat)
    requires from != "" && start <= |s|
    ensures start <= i <= |s|
    ensures forall k :: start <= k < i ==> !OccursAt(s, from, k)
    ensures i < |s| ==> OccursAt(s, from, i)
    decreases |s| - start
  {
    if start == |s| || OccursAt(s, from, start) then start else Find(s, from, start + 1)
  }

  /** `s` cut at the leftmost occurrences that do not overlap. */
  function Cut(s: string, from: string): (parts: seq<string>)
    requires from != ""
    ensures parts != []
    decreases |s|
  {
    var i := Find(s, from, 0);
    if i == |s| then [s] else [s[..i]] + Cut(s[i + |from|..], from)
  }

  function Join(parts: seq<string>, sep: string): string
    requires parts != []
  {
    if |parts| == 1 then parts[0] else parts[0] + sep + Join(parts[1..], sep)
  }

  /** `s` begins with `part`, and right after it comes the first occurrence of `from`. */
  ghost predicate CutHere(part: string, s: string, from: string) {
    && part <= s && OccursAt(s, from, |part|)
    && forall k :: 0 <= k < |part| ==> !OccursAt(s, from, k)
  }

  /** What follows `part` and one separator. */
  function After(part: string, s: string, from: string): string {
    if |part| + |from| <= |s| then s[|part| + |from|..] else ""
  }

  /** `parts` is a cut of `s` at separators `from`, each separator being the first occurrence
      of `from` in what is left there. */
  ghost predicate LeftmostCut(parts: seq<string>, s: string, from: string)
    requires parts != [] && from != ""
    decreases |parts|
  {
    if |parts| == 1 then parts[0] == s && Find(s, from, 0) == |s|
    else CutHere(parts[0], s, from) && LeftmostCut(parts[1..], After(parts[0], s, from), from)
  }

  lemma CutUnfold(s: string, from: string)
    requires from != ""
    ensures var i := Find(s, from, 0);
      if i == |s| then Cut(s, from) == [s]
      else i + |from| <= |s| && Cut(s, from) == [s[..i]] + Cut(s[i + |from|..], from)
  {
    hide Find;
    assert Find(s, from, 0) < |s| ==> OccursAt(s, from, Find(s, from, 0));
    hide OccursAt;
  }

  lemma JoinUnfold(part: string, parts: seq<string>, sep: string)
    requires parts != []
    ensures Join([part] + parts, sep) == part + sep + Join(parts, sep)
  {
    assert ([part] + parts)[1..] == parts;
  }

  /** The first occurrence is unique. */
  lemma FirstCut(part: string, s: string, from: string)
    requires from != ""
    ensures var i := Find(s, from, 0);
      && (CutHere(part, s, from) <==> i < |s| && part == s[..i])
      && (CutHere(part, s, from) ==> i + |from| <= |s| && After(part, s, from) == s[i + |from|..])
  {
    hide Find;
    assert CutHere(part, s, from) ==> |part| < |s|;
    hide OccursAt;
  }

  /** There is exactly one such cut, and `Cut` is it. */
  lemma {:induction false} CutIff(parts: seq<string>, s: string, from: string)
    requires parts != [] && from != ""
    ensures LeftmostCut(parts, s, from) <==> parts == Cut(s, from)
    decreases |parts|
  {
    CutUnfold(s, from);
    FirstCut(parts[0], s, from);
    hide Cut, Find, CutHere, After, OccursAt;
    var i := Find(s, from, 0);
    if |parts| == 1 {
      assert parts == [parts[0]];
    } else {
      CutIff(parts[1..], After(parts[0], s, from), from);
    }
    if i < |s| { ConsIff(parts, s[..i], Cut(s[i + |from|..], from)); }
  }

  lemma ConsIff(parts: seq<string>, first: string, rest: seq<string>)
    requires parts != [] && rest != []
    ensures parts == [first] + rest <==> |parts| > 1 && parts[0] == first && parts[1..] == rest
  {
    assert parts == [parts[0]] + parts[1..];
  }

  /** Joining the parts with the pattern gives the original back, and no part contains it. */
  lemma {:induction false} CutJoin(s: string, from: string)
    requires from != ""
    ensures Join(Cut(s, from), from) == s
    ensures forall p, k :: p in Cut(s, from) && 0 <= k <= |p| ==> !OccursAt(p, from, k)
    decreases |s|
  {
    CutUnfold(s, from);
    hide Cut, Find, Join, OccursAt;
    var i := Find(s, from, 0);
    HeadIsFree(s, from);
    if i < |s| {
      var rest := s[i + |from|..];
      CutJoin(rest, from);
      JoinUnfold(s[..i], Cut(rest, from), from);
      assert s == s[..i] + from + rest by { WholeAt(s, from, i); }
    } else {
      assert s[..i] == s && Join([s], from) == s by { JoinOne(s, from); }
    }
  }

  lemma JoinOne(s: string, sep: string)
    ensures Join([s], sep) == s
  {
  }

  lemma WholeAt(s: string, from: string, i: nat)
    requires OccursAt(s, from, i)
    ensures s == s[..i] + from + s[i + |from|..]
  {
  }

  lemma HeadIsFree(s: string, from: string)
    requires from != ""
    ensures var head := s[..Find(s, from, 0)]; forall k :: 0 <= k <= |head| ==> !OccursAt(head, from, k)
  {
    hide Find;
    var i := Find(s, from, 0);
    forall k | 0 <= k <= |s[..i]| ensures !OccursAt(s[..i], from, k) {
      assert k < i ==> !OccursAt(s, from, k);
      assert k + |from| <= i ==> s[..i][k..k + |from|] == s[k..k + |from|];
    }
  }

  lemma {:induction false} FindShift(pre: string, s: string, from: string, start: nat)
    requires from != "" && start <= |s|
    ensures Find(pre + s, from, |pre| + start) == |pre| + Find(s, from, start)
    decreases |s| - start
  {
    var t := pre + s;
    if start < |s| {
      assert start + |from| <= |s| ==> t[|pre| + start..|pre| + start + |from|] == s[start..start + |from|];
      if !OccursAt(s, from, start) { FindShift(pre, s, from, start + 1); }
    }
  }

  lemma CutFrom(str: string, start: nat, from: string)
    requires from != "" && start <= |str| && Find(str, from, start) < |str|
    ensures var pos := Find(str, from, start);
      pos + |from| <= |str| && Cut(str[start..], from) == [str[start..pos]] + Cut(str[pos + |from|..], from)
  {
    FindFrom(str, start, from);
    var pos := Find(str, from, start);
    assert OccursAt(str, from, pos);
    hide Find, OccursAt;
    CutTail(str, start, pos, from);
    hide Cut;
  }

  lemma CutTail(str: string, start: nat, pos: nat, from: string)
    requires from != "" && start <= pos < |str| && pos + |from| <= |str|
    requires Find(str[start..], from, 0) == pos - start
    ensures Cut(str[start..], from) == [str[start..pos]] + Cut(str[pos + |from|..], from)
  {
    TailSlices(str, start, pos, pos + |from|);
    CutWith(str[start..], from, pos - start, str[start..pos], str[pos + |from|..]);
  }

  lemma CutWith(s: string, from: string, i: nat, part: string, rest: string)
    requires from != "" && i + |from| <= |s| && Find(s, from, 0) == i
    requires s[..i] == part && s[i + |from|..] == rest
    ensures Cut(s, from) == [part] + Cut(rest, from)
  {
    CutUnfold(s, from);
    hide Cut, Find, OccursAt;
  }

  lemma FindFrom(str: string, start: nat, from: string)
    requires from != "" && start <= |str|
    ensures Find(str, from, start) == start + Find(str[start..], from, 0)
  {
    assert str == str[..start] + str[start..];
    FindShift(str[..start], str[start..], from, 0);
    hide Find;
  }

  lemma TailSlices(str: string, start: nat, pos: nat, end: nat)
    requires start <= pos <= end <= |str|
    ensures str[start..][..pos - start] == str[start..pos] && str[start..][end - start..] == str[end..]
  {
  }

  lemma Splice(str: string, start: nat, pos: nat, end: nat, to: string, done: string)
    requires start <= pos <= end <= |str|
    ensures var out := str[..pos] + to + str[end..];
      && out[..pos + |to|] == str[..pos] + to && out[pos + |to|..] == str[end..]
      && str[..start] + (str[start..pos] + to + done) == out[..pos + |to|] + done
  {
    var out := str[..pos] + to + str[end..];
    assert out[..pos + |to|] == str[..pos] + to;
    assert str[..start] + str[start..pos] == str[..pos];
  }

  /** One replacement at `pos`, where the first piece from `start` on ends. */
  lemma ReplaceTurn(str: string, start: nat, pos: nat, from: string, to: string)
    requires from != "" && start <= pos && pos + |from| <= |str|
    requires Cut(str[start..], from) == [str[start..pos]] + Cut(str[pos + |from|..], from)
    ensures var out := str[..pos] + to + str[pos + |from|..];
      str[..start] + Join(Cut(str[start..], from), to)
        == out[..pos + |to|] + Join(Cut(out[pos + |to|..], from), to)
  {
    hide Cut, Join;
    var rest := str[pos + |from|..];
    JoinUnfold(str[start..pos], Cut(rest, from), to);
    Splice(str, start, pos, pos + |from|, to, Join(Cut(rest, from), to));
  }

  lemma ReplaceEnd(str: string, start: nat, from: string, to: string)
    requires from != "" && start <= |str| && Find(str, from, start) == |str|
    ensures str[..start] + Join(Cut(str[start..], from), to) == str
  {
    assert str == str[..start] + str[start..];
    FindFrom(str, start, from);
    hide Find;
  }

  /** `replace_all`. It ends even when `to` contains `from`; an empty pattern changes nothing. */
  method ReplaceAll(text: string, from: string, to: string) returns (str: string)
    ensures from == "" ==> str == text
    ensures from != "" ==> str == Join(Cut(text, from), to)
  {
    hide Cut, Join, Find, OccursAt;
    str := text;
    if from == "" { return; }
    var startPos: nat := 0;
    assert str[..0] == "" && str[0..] == str;
    while Find(str, from, startPos) < |str|
      invariant startPos <= |str|
      invariant str[..startPos] + Join(Cut(str[startPos..], from), to) == Join(Cut(text, from), to)
      decreases |str| - startPos
    {
      var pos := Find(str, from, startPos);
      CutFrom(str, startPos, from);
      ReplaceTurn(str, startPos, pos, from, to);
      str := str[..pos] + to + str[pos + |from|..];
      startPos := pos + |to|;
    }
    ReplaceEnd(str, startPos, from, to);
  }
}
