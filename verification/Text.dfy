/** Delimiter scanning and decimal printing, the two idioms every hand-written
    parser and printer of the storage node is built from. */
module Text {

  datatype Option<+T> = None | Some(value: T)

  /** `std::string::find` of one character; `|s|` stands for `npos`. */
  function IndexOf(s: string, c: char): (i: nat)
    ensures i <= |s|
    ensures forall k :: 0 <= k < i ==> s[k] != c
    ensures i < |s| ==> s[i] == c
  {
    if s == [] || s[0] == c then 0 else 1 + IndexOf(s[1..], c)
  }

  /** The pieces of `s` that are terminated by `c`: what the loops
      `while ((pos = s.find(c)) != npos) { s.substr(0, pos); s.erase(0, pos + 1); }` see. */
  function Tokens(s: string, c: char): seq<string>
    decreases |s|
  {
    var i := IndexOf(s, c);
    if i == |s| then [] else [s[..i]] + Tokens(s[i + 1..], c)
  }

  /** What such a loop leaves in `s`. */
  function Remainder(s: string, c: char): string
    decreases |s|
  {
    var i := IndexOf(s, c);
    if i == |s| then s else Remainder(s[i + 1..], c)
  }

  function Terminated(toks: seq<string>, c: char): string {
    if toks == [] then "" else toks[0] + [c] + Terminated(toks[1..], c)
  }

  ghost predicate AllFree(toks: seq<string>, c: char) {
    forall i :: 0 <= i < |toks| ==> c !in toks[i]
  }

  lemma IndexOfFirst(t: string, c: char, r: string)
    requires c !in t
    ensures IndexOf(t + [c] + r, c) == |t|
  {
    var s := t + [c] + r;
    assert s[|t|] == c;
    assert forall k :: 0 <= k < |t| ==> s[k] == t[k];
  }

  lemma IndexOfNone(t: string, c: char)
    ensures IndexOf(t, c) == |t| <==> c !in t
  {
  }

  /** One scanning step on `t c r`. */
  lemma TokensStep(t: string, c: char, r: string)
    requires c !in t
    ensures Tokens(t + [c] + r, c) == [t] + Tokens(r, c)
    ensures Remainder(t + [c] + r, c) == Remainder(r, c)
  {
    var s := t + [c] + r;
    IndexOfFirst(t, c, r);
    assert s[..|t|] == t;
    assert s[|t| + 1..] == r;
  }

  lemma TokensOfFree(t: string, c: char)
    requires c !in t
    ensures Tokens(t, c) == [] && Remainder(t, c) == t
  {
    IndexOfNone(t, c);
  }

  /** Scanning undoes terminating. */
  lemma {:induction false} TokensRoundTrip(toks: seq<string>, c: char, rest: string)
    requires AllFree(toks, c)
    ensures Tokens(Terminated(toks, c) + rest, c) == toks + Tokens(rest, c)
    ensures Remainder(Terminated(toks, c) + rest, c) == Remainder(rest, c)
  {
    hide Tokens, Remainder;
    if toks == [] {
      assert Terminated(toks, c) + rest == rest;
    } else {
      assert Terminated(toks, c) + rest == toks[0] + [c] + (Terminated(toks[1..], c) + rest);
      TokensStep(toks[0], c, Terminated(toks[1..], c) + rest);
      TokensRoundTrip(toks[1..], c, rest);
    }
  }

  lemma {:induction false} TerminatedConcat(a: seq<string>, b: seq<string>, c: char)
    ensures Terminated(a + b, c) == Terminated(a, c) + Terminated(b, c)
  {
    if a == [] {
      assert a + b == b;
    } else {
      assert (a + b)[0] == a[0] && (a + b)[1..] == a[1..] + b;
      TerminatedConcat(a[1..], b, c);
    }
  }

  /** Terminating undoes scanning, for every string. */
  lemma {:induction false} TokensRebuild(s: string, c: char)
    ensures s == Terminated(Tokens(s, c), c) + Remainder(s, c)
    ensures AllFree(Tokens(s, c), c) && c !in Remainder(s, c)
    decreases |s|
  {
    var i := IndexOf(s, c);
    if i < |s| {
      CutAt(s, c);
      ScanTurn(s, c);
      hide Tokens, Remainder, IndexOf, Terminated;
      var r := s[i + 1..];
      TokensRebuild(r, c);
      Sew(s[..i], Tokens(r, c), c, Remainder(r, c));
    } else {
      ScanEnd(s, c);
    }
  }

  lemma CutAt(s: string, c: char)
    requires IndexOf(s, c) < |s|
    ensures var i := IndexOf(s, c); s == s[..i] + [c] + s[i + 1..] && c !in s[..i]
  {
    hide IndexOf;
    var i := IndexOf(s, c);
    assert s == s[..i] + [s[i]] + s[i + 1..];
  }

  lemma Sew(t: string, toks: seq<string>, c: char, rest: string)
    requires c !in t
    ensures Terminated([t] + toks, c) + rest == t + [c] + (Terminated(toks, c) + rest)
    ensures AllFree(toks, c) ==> AllFree([t] + toks, c)
  {
    TerminatedFirst(t, toks, c);
    hide Terminated;
  }

  lemma NothingTerminated(c: char)
    ensures Terminated([], c) == ""
  {
  }

  lemma TerminatedFirst(t: string, toks: seq<string>, c: char)
    ensures Terminated([t] + toks, c) == t + [c] + Terminated(toks, c)
  {
    assert ([t] + toks)[1..] == toks;
  }

  /** One turn of a scanning loop. */
  lemma ScanTurn(s: string, c: char)
    requires IndexOf(s, c) < |s|
    ensures var i := IndexOf(s, c);
      Tokens(s, c) == [s[..i]] + Tokens(s[i + 1..], c) && Remainder(s, c) == Remainder(s[i + 1..], c)
  {
    CutAt(s, c);
    hide Tokens, Remainder, IndexOf;
    var i := IndexOf(s, c);
    TokensStep(s[..i], c, s[i + 1..]);
  }

  /** A scanning loop's exit. */
  lemma ScanEnd(s: string, c: char)
    requires IndexOf(s, c) == |s|
    ensures Tokens(s, c) == [] && Remainder(s, c) == s
  {
    hide IndexOf;
  }

  /** Characters of a token are characters of the scanned text. */
  lemma {:induction false} TokensKeepFree(s: string, c: char, d: char)
    requires d !in s
    ensures AllFree(Tokens(s, c), d) && d !in Remainder(s, c)
    decreases |s|
  {
    var i := IndexOf(s, c);
    if i < |s| {
      TokensKeepFree(s[i + 1..], c, d);
    }
  }

  // ----- decimal numbers

  predicate IsDigit(c: char) { '0' <= c <= '9' }

  function Digit(d: nat): (c: char)
    requires d < 10
    ensures IsDigit(c)
    ensures c as int - '0' as int == d
  {
    ('0' as int + d) as char
  }

  /** `std::to_string` of a non-negative number. */
  function ToDec(n: nat): (s: string)
    ensures |s| > 0
    ensures forall i :: 0 <= i < |s| ==> IsDigit(s[i])
  {
    if n < 10 then [Digit(n)] else ToDec(n / 10) + [Digit(n % 10)]
  }

  function DigitPrefix(s: string): (k: nat)
    ensures k <= |s|
    ensures forall i :: 0 <= i < k ==> IsDigit(s[i])
    ensures k < |s| ==> !IsDigit(s[k])
  {
    if s == [] || !IsDigit(s[0]) then 0 else 1 + DigitPrefix(s[1..])
  }

  function DigitsValue(s: string): nat
    requires forall i :: 0 <= i < |s| ==> IsDigit(s[i])
  {
    if s == [] then 0
    else
      assert IsDigit(s[|s| - 1]);
      10 * DigitsValue(s[..|s| - 1]) + (s[|s| - 1] as int - '0' as int)
  }

  /** `std::stoi` on text without sign or leading blanks: the longest digit prefix,
      `None` where the original throws. */
  function Stoi(s: string): Option<nat> {
    var k := DigitPrefix(s);
    if k == 0 then None else Some(DigitsValue(s[..k]))
  }

  lemma {:induction false} DigitsValueOfToDec(n: nat)
    ensures DigitsValue(ToDec(n)) == n
  {
    if n < 10 {
      assert ToDec(n)[..0] == [];
    } else {
      DigitsValueOfToDec(n / 10);
      var s := ToDec(n);
      assert s[..|s| - 1] == ToDec(n / 10);
    }
  }

  /** `stoi(to_string(n)) == n` for every number. */
  lemma {:induction false} StoiOfToDec(n: nat)
    ensures Stoi(ToDec(n)) == Some(n)
  {
    var s := ToDec(n);
    var k := DigitPrefix(s);
    assert forall i :: 0 <= i < |s| ==> IsDigit(s[i]);
    assert k == |s|;
    assert s[..k] == s;
    DigitsValueOfToDec(n);
  }

  predicate AllDigits(s: string) { forall i :: 0 <= i < |s| ==> IsDigit(s[i]) }

  /** No number above 0 is printed with a leading zero. */
  lemma {:induction false} ToDecLeads(n: nat)
    ensures ToDec(0) == "0" && (n > 0 ==> ToDec(n)[0] != '0')
  {
    if n >= 10 { ToDecLeads(n / 10); }
  }

  /** The printed form is the only text of digits without a leading zero that has this value. */
  lemma {:induction false} ToDecOnly(s: string)
    requires AllDigits(s) && s != "" && (s[0] == '0' ==> s == "0")
    ensures ToDec(DigitsValue(s)) == s
    ensures s[0] != '0' ==> DigitsValue(s) > 0
  {
    var init, c := s[..|s| - 1], s[|s| - 1];
    assert IsDigit(c);
    var d := c as int - '0' as int;
    assert s == init + [c] && Digit(d) == c;
    if init == "" {
      assert DigitsValue(s) == d;
    } else {
      assert init[0] == s[0];
      ToDecOnly(init);
      ToDecMore(DigitsValue(init), d);
      hide ToDec;
    }
  }

  lemma ToDecMore(m: nat, d: nat)
    requires m > 0 && d < 10
    ensures ToDec(10 * m + d) == ToDec(m) + [Digit(d)]
  {
    TenTimes(m, d);
  }

  lemma TenTimes(m: nat, d: nat)
    requires d < 10
    ensures (10 * m + d) / 10 == m && (10 * m + d) % 10 == d
  {
  }

  /** A number is read up to the first character that is no digit, and there must be one digit. */
  lemma StoiReads(d: string, r: string)
    requires AllDigits(d) && (r != "" ==> !IsDigit(r[0]))
    ensures Stoi(d + r) == if d == "" then None else Some(DigitsValue(d))
  {
    var s := d + r;
    var k := DigitPrefix(s);
    assert forall i :: 0 <= i < |d| ==> s[i] == d[i];
    assert |d| < |s| ==> s[|d|] == r[0];
    assert k == |d|;
    assert s[..k] == d;
  }

  lemma DecFree(n: nat, c: char)
    requires !IsDigit(c)
    ensures c !in ToDec(n)
  {
    var s := ToDec(n);
    assert forall i :: 0 <= i < |s| ==> s[i] != c;
  }
}
