/** The primary's books on its secondary: what it has numbered, what it holds back, and the text
    it sends. */
module Primary {
  import opened Text
  import opened KeyOrder
  import opened FlatStore
  import opened Replication
  import opened Wire

  function TextOf(m: Held): string { PrintMessage(m.number, Render(m.op)) }

  function TextsOf(ms: seq<Held>): seq<string> {
    seq(|ms|, i requires 0 <= i < |ms| => TextOf(ms[i]))
  }

  class Primary {
    /** `seq_num_records` and `primary_holdback`. */
    var count: map<string, nat>
    var held: map<string, seq<Held>>
    /** Everything written to the secondary's socket. */
    var sent: seq<string>

    constructor ()
      ensures count == map[] && held == map[] && sent == []
    {
      count, held, sent := map[], map[], [];
    }

    /** `send_to_secondary`. */
    method SendToSecondary(op: Op)
      modifies this
      ensures var u := op.user; var n := (if u in old(count) then old(count)[u] else 0) + 1;
        && count == old(count)[u := n]
        && held == old(held)[u := HeldOf(old(held), u) + [Held(n, op)]]
        && sent == old(sent) + [TextOf(Held(n, op))]
    {
      var sequence := (if op.user in count then count[op.user] else 0) + 1;
      count := count[op.user := sequence];
      held := held[op.user := HeldOf(held, op.user) + [Held(sequence, op)]];
      sent := sent + [PrintMessage(sequence, Render(op))];
    }

    /** `handle_secondary_report` on a line `stoi` can read. */
    method HandleSecondaryReport(line: string)
      requires |line| >= 5 && ParseReport(line).Some?
      modifies this`held
      ensures var r := ParseReport(line).value; held == Acknowledge(old(held), Done(r.user, r.number))
    {
      hide Tokens, Remainder, Stoi, IndexOf, Strike;
      var s, user := line[5..], "";
      ghost var toks := Tokens(s, ',');
      ghost var seen: seq<string> := [];
      assert seen + toks == toks;
      while IndexOf(s, ',') < |s|
        invariant seen + Tokens(s, ',') == toks && Remainder(s, ',') == Remainder(line[5..], ',')
        invariant held == old(held)
        invariant user == if seen == [] then "" else seen[|seen| - 1]
        decreases |s|
      {
        var pos := IndexOf(s, ',');
        ScanTurn(s, ',');
        assert seen + ([s[..pos]] + Tokens(s[pos + 1..], ',')) == (seen + [s[..pos]]) + Tokens(s[pos + 1..], ',');
        user := s[..pos];
        seen := seen + [user];
        s := s[pos + 1..];
      }
      ScanEnd(s, ',');
      assert seen == toks;
      var number := Stoi(s).value;
      var left := RemoveNumber(HeldOf(held, user), number);
      SetThenForget(held, user, left);
      held := held[user := left];
      if left == [] { held := held - {user}; }
      assert ParseReport(line) == Some(ReportParts(user, number));
    }

    /** `check_primary_holdback`: user by user in name order, each user's entries in order. */
    method CheckPrimaryHoldback()
      modifies this`sent
      ensures sent == old(sent) + TextsOf(Resend(held))
    {
      hide TextsOf, SortedKeys, Least, ResendUsers;
      var todo := held.Keys;
      ghost var done: seq<Held> := [];
      assert [] + ResendUsers(held, SortedKeys(held.Keys)) == Resend(held);
      NoTexts();
      assert sent + [] == sent;
      while todo != {}
        invariant todo <= held.Keys && done + ResendUsers(held, SortedKeys(todo)) == Resend(held)
        invariant sent == old(sent) + TextsOf(done)
        decreases |todo|
      {
        var user := Least(todo);
        ResendTurn(held, todo);
        var temp := held[user];
        SendAll(temp);
        MoreTexts(done, temp);
        assert old(sent) + (TextsOf(done) + TextsOf(temp)) == (old(sent) + TextsOf(done)) + TextsOf(temp);
        ghost var later := ResendUsers(held, SortedKeys(todo - {user}));
        assert done + (temp + later) == (done + temp) + later;
        done := done + temp;
        todo := todo - {user};
      }
      ResendEnd(held);
      assert done + [] == done;
    }

    /** The inner loop, over one user's entries. */
    method SendAll(temp: seq<Held>)
      modifies this`sent
      ensures sent == old(sent) + TextsOf(temp)
    {
      for i := 0 to |temp|
        invariant sent == old(sent) + TextsOf(temp[..i])
      {
        assert temp[..i + 1] == temp[..i] + [temp[i]];
        sent := sent + [TextOf(temp[i])];
      }
      assert temp[..|temp|] == temp;
    }
  }

  lemma SetThenForget(held: map<string, seq<Held>>, user: string, left: seq<Held>)
    ensures held[user := left] - {user} == held - {user}
  {
  }

  /** `erase(remove_if(...))`. */
  method RemoveNumber(hs: seq<Held>, number: nat) returns (left: seq<Held>)
    ensures left == Strike(hs, number)
  {
    left := [];
    assert hs[0..] == hs;
    for i := 0 to |hs|
      invariant left + Strike(hs[i..], number) == Strike(hs, number)
    {
      ghost var later := Strike(hs[i + 1..], number);
      assert hs[i..][0] == hs[i] && hs[i..][1..] == hs[i + 1..];
      assert left + ([hs[i]] + later) == (left + [hs[i]]) + later && [] + later == later;
      if hs[i].number != number { left := left + [hs[i]]; }
    }
    assert hs[|hs|..] == [] && left + [] == left;
  }

  lemma NoTexts()
    ensures TextsOf([]) == []
  {
  }

  lemma MoreTexts(done: seq<Held>, temp: seq<Held>)
    ensures TextsOf(done + temp) == TextsOf(done) + TextsOf(temp)
  {
    hide TextOf;
  }

  lemma ResendTurn(held: map<string, seq<Held>>, todo: set<string>)
    requires todo != {} && todo <= held.Keys
    ensures var u := Least(todo);
      ResendUsers(held, SortedKeys(todo)) == held[u] + ResendUsers(held, SortedKeys(todo - {u}))
  {
    assert SortedKeys(todo)[1..] == SortedKeys(todo - {Least(todo)});
  }

  lemma ResendEnd(held: map<string, seq<Held>>)
    ensures ResendUsers(held, SortedKeys({})) == []
  {
  }

  /** What the secondary reads from a message is the number and the operation the primary held
      back, and the report it answers with reads back as that entry. */
  lemma MessageCarries(m: Held)
    requires Expressible(m.op)
    ensures var (number, line) := ParseMessage(TextOf(m));
      number == Some(m.number) && ParseRequest(line) == Some(m.op)
    ensures ParseReport(PrintReport(m.op.user, m.number)) == Some(ReportParts(m.op.user, m.number))
  {
    hide ParseMessage, ParseRequest, Render, ParseReport;
    MessageRoundTrip(m.number, Render(m.op));
    RequestRoundTripIff(m.op);
    ReportRoundTripIff(m.op.user, m.number);
  }
}
