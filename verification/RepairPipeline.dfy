/** The two repair passes one after the other.  On the alternating lists that
    preflight produces, the fate of a message under pairing repair depends on its
    neighbours alone, and the repaired list answers every tool call in the very
    next message. */
module RepairPipeline {
  import opened Messages
  import opened Preflight
  import opened ToolPairing

  // ---- Arbitrary lists: kept calls are answered by the run that follows ----

  ghost function AllResultIds(run: seq<Message>): set<string> {
    set i, id | 0 <= i < |run| && id in ResultIds(run[i].content) :: id
  }

  ghost predicate RunAnswers(run: seq<Message>, ids: set<string>) {
    && (forall i :: 0 <= i < |run| ==> run[i].role == User && HasToolResult(run[i].content))
    && ids <= AllResultIds(run)
  }

  /** The message at `i` consists of calls with ids only, and the user messages from
      there to `j` answer them all. */
  ghost predicate PairedUpTo(ms: seq<Message>, i: nat, j: nat)
    requires i < j <= |ms|
  {
    Kept(ms[i]) == ms[i] && RunAnswers(ms[i + 1..j], Wanted(ms[i]))
  }

  ghost predicate Paired(ms: seq<Message>) {
    forall i :: 0 <= i < |ms| && IsCall(ms[i]) ==> exists j :: i < j <= |ms| && PairedUpTo(ms, i, j)
  }

  lemma {:induction false} CollectedAnswer(ms: seq<Message>, needed: set<string>)
    ensures var (k, rest) := Collect(ms, needed); RunAnswers(ms[..k], needed - rest)
    decreases |ms|
  {
    if ms != [] && needed != {} && Answers(ms[0], needed) {
      var next := needed - ResultIds(ms[0].content);
      CollectedAnswer(ms[1..], next);
      var (k, rest) := Collect(ms[1..], next);
      RunExtends(ms[0], ms[1..][..k], next - rest, needed - rest);
      assert ms[..k + 1] == [ms[0]] + ms[1..][..k];
    }
  }

  lemma RunExtends(m: Message, run: seq<Message>, ids: set<string>, more: set<string>)
    requires m.role == User && HasToolResult(m.content) && RunAnswers(run, ids)
    requires more <= ids + ResultIds(m.content)
    ensures RunAnswers([m] + run, more)
  {
    var all := [m] + run;
    forall id | id in more
      ensures id in AllResultIds(all)
    {
      if id in ResultIds(m.content) {
        assert id in ResultIds(all[0].content);
      } else {
        var i :| 0 <= i < |run| && id in ResultIds(run[i].content);
        assert id in ResultIds(all[i + 1].content);
      }
    }
  }

  lemma PairedShift(front: seq<Message>, ms: seq<Message>)
    requires Paired(ms)
    requires forall i :: 0 <= i < |front| ==> !IsCall(front[i])
    ensures Paired(front + ms)
  {
    var all := front + ms;
    forall i | 0 <= i < |all| && IsCall(all[i])
      ensures exists j :: i < j <= |all| && PairedUpTo(all, i, j)
    {
      var d := i - |front|;
      assert all[i] == ms[d];
      var j :| d < j <= |ms| && PairedUpTo(ms, d, j);
      assert all[i + 1..|front| + j] == ms[d + 1..j];
      assert PairedUpTo(all, i, |front| + j);
    }
  }

  lemma PairedPair(call: Message, cands: seq<Message>, rest: seq<Message>)
    requires IsCall(call) && Kept(call) == call && RunAnswers(cands, Wanted(call)) && Paired(rest)
    ensures Paired([call] + cands + rest)
  {
    var tail := cands + rest;
    PairedShift(cands, rest);
    var all := [call] + tail;
    assert all == [call] + cands + rest;
    forall i | 0 <= i < |all| && IsCall(all[i])
      ensures exists j :: i < j <= |all| && PairedUpTo(all, i, j)
    {
      if i == 0 {
        assert all[1..1 + |cands|] == cands;
        assert PairedUpTo(all, 0, 1 + |cands|);
      } else {
        var d := i - 1;
        assert all[i] == tail[d];
        var j :| d < j <= |tail| && PairedUpTo(tail, d, j);
        assert all[i + 1..j + 1] == tail[d + 1..j];
        assert PairedUpTo(all, i, j + 1);
      }
    }
  }

  /** Whatever list is repaired, every tool call left in it has an id and is
      answered in the run of tool results right after it. */
  lemma {:induction false} FixPairs(ms: seq<Message>)
    ensures Paired(Fix(ms).out)
    decreases |ms|
  {
    if ms != [] {
      var m := ms[0];
      if IsCall(m) {
        var (k, unanswered) := Collect(ms[1..], Wanted(m));
        FixPairs(ms[1 + k..]);
        FixStep(ms);
        if unanswered == {} {
          KeptIsCall(m);
          CollectedAnswer(ms[1..], Wanted(m));
          assert ms[1..][..k] == ms[1..1 + k];
          assert Wanted(m) - {} == Wanted(m);
          PairedPair(Kept(m), ms[1..1 + k], Fix(ms[1 + k..]).out);
        }
      } else {
        FixPairs(ms[1..]);
        PairedShift([m], Fix(ms[1..]).out);
      }
    }
  }

  // ---- Alternating lists: the fate of each message ----

  predicate NextAnswersAll(ms: seq<Message>, i: nat)
    requires i < |ms|
  {
    i + 1 < |ms| && ms[i + 1].role == User && Wanted(ms[i]) <= ResultIds(ms[i + 1].content)
  }

  predicate NextAnswersSome(ms: seq<Message>, i: nat)
    requires i < |ms|
  {
    i + 1 < |ms| && ms[i + 1].role == User && Wanted(ms[i]) * ResultIds(ms[i + 1].content) != {}
  }

  /** A call stays when the next message answers all of it; a message that answers
      a call only in part goes with it, and so does one whose results have no id. */
  predicate Survives(ms: seq<Message>, i: nat)
    requires i < |ms|
  {
    if IsCall(ms[i]) then NextAnswersAll(ms, i)
    else
      && !IsStray(ms[i])
      && (0 < i && IsCall(ms[i - 1]) && NextAnswersSome(ms, i - 1) ==> NextAnswersAll(ms, i - 1))
  }

  function Repaired(m: Message): Message {
    if IsCall(m) then Kept(m) else m
  }

  /** The chosen items from position `i` on. */
  function Pick<T>(items: seq<T>, keep: seq<bool>, i: nat): seq<T>
    requires i <= |items| == |keep|
    decreases |items| - i
  {
    if i == |items| then []
    else (if keep[i] then [items[i]] else []) + Pick(items, keep, i + 1)
  }

  function Fates(ms: seq<Message>): seq<bool> {
    seq(|ms|, i requires 0 <= i < |ms| => Survives(ms, i))
  }

  function AllRepaired(ms: seq<Message>): seq<Message> {
    seq(|ms|, i requires 0 <= i < |ms| => Repaired(ms[i]))
  }

  /** The survivors from position `i` on. */
  function Survivors(ms: seq<Message>, i: nat): seq<Message>
    requires i <= |ms|
  {
    Pick(AllRepaired(ms), Fates(ms), i)
  }

  lemma CallsWantIds(m: Message)
    requires IsCall(m)
    ensures Wanted(m) != {} && "" !in Wanted(m)
  {
    var calls := Stamp(ToolUses(m.content));
    ToolUsesAreCalls(m.content);
    assert calls[0].id in CallIds(calls);
  }

  /** In an alternating list at most one message is taken as an answer. */
  lemma {:induction false} CollectOne(ms: seq<Message>, i: nat)
    requires Alternating(ms) && i < |ms| && IsCall(ms[i])
    ensures var (k, unanswered) := Collect(ms[i + 1..], Wanted(ms[i]));
            && k == (if NextAnswersSome(ms, i) then 1 else 0)
            && (unanswered == {} <==> NextAnswersAll(ms, i))
  {
    CallsWantIds(ms[i]);
    var tail, wanted := ms[i + 1..], Wanted(ms[i]);
    if i + 1 < |ms| {
      var results := ResultIds(ms[i + 1].content);
      assert tail[0] == ms[i + 1];
      SomeHaveResults(ms[i + 1].content, wanted);
      assert wanted * results == results * wanted;
      if wanted * results == {} {
        Disjoint(wanted, results);
      } else {
        assert Answers(tail[0], wanted) <==> ms[i + 1].role == User;
        if i + 2 < |ms| {
          assert tail[1..][0] == ms[i + 2] && ms[i + 2].role != ms[i + 1].role;
        }
        NothingLeft(wanted, results);
      }
    }
  }

  lemma NothingLeft(wanted: set<string>, results: set<string>)
    ensures wanted - results == {} <==> wanted <= results
  {
    if wanted - results == {} {
      forall id | id in wanted
        ensures id in results
      {
        assert id !in wanted - results;
      }
    }
  }

  lemma Disjoint(wanted: set<string>, results: set<string>)
    requires wanted != {} && wanted * results == {}
    ensures !(wanted <= results)
  {
    var id :| id in wanted;
    assert id !in wanted * results;
  }

  lemma SomeHaveResults(content: seq<Block>, ids: set<string>)
    ensures ResultIds(content) * ids != {} ==> HasToolResult(content)
  {
    if ResultIds(content) * ids != {} {
      var id :| id in ResultIds(content) * ids;
      var i :| 0 <= i < |content| && content[i].ToolResult? && content[i].toolUseId == id;
      assert content[i].ToolResult?;
    }
  }

  lemma AnswerIsNotStray(ms: seq<Message>, i: nat)
    requires i < |ms| && IsCall(ms[i]) && NextAnswersAll(ms, i)
    ensures NextAnswersSome(ms, i) && !IsStray(ms[i + 1]) && !IsCall(ms[i + 1])
  {
    CallsWantIds(ms[i]);
    var id :| id in Wanted(ms[i]);
    assert id in Wanted(ms[i]) * ResultIds(ms[i + 1].content);
  }

  /** Position `i` was not taken as the answer to a call before it. */
  ghost predicate Fresh(ms: seq<Message>, i: nat)
    requires i <= |ms|
  {
    i < |ms| && 0 < i && IsCall(ms[i - 1]) ==> !NextAnswersSome(ms, i - 1)
  }

  /** The step of the repair at a call nothing answers. */
  lemma {:induction false} UnansweredStep(ms: seq<Message>, i: nat)
    requires Alternating(ms) && i < |ms| && IsCall(ms[i]) && !NextAnswersSome(ms, i)
    ensures !NextAnswersAll(ms, i) && Fix(ms[i..]).out == Fix(ms[i + 1..]).out
  {
    CollectOne(ms, i);
    if NextAnswersAll(ms, i) { AnswerIsNotStray(ms, i); }
    var (k, unanswered) := Collect(ms[i + 1..], Wanted(ms[i]));
    FixAtCall(ms, i, i + 1, unanswered);
  }

  /** The step at a call that the next message answers, wholly or in part. */
  lemma {:induction false} AnsweredStep(ms: seq<Message>, i: nat)
    requires Alternating(ms) && i < |ms| && IsCall(ms[i]) && NextAnswersSome(ms, i)
    ensures Fix(ms[i..]).out == (if NextAnswersAll(ms, i) then [Kept(ms[i]), ms[i + 1]] else []) + Fix(ms[i + 2..]).out
  {
    CollectOne(ms, i);
    var (k, unanswered) := Collect(ms[i + 1..], Wanted(ms[i]));
    FixAtCall(ms, i, i + 2, unanswered);
    AfterAnswer(ms[i], ms[i + 1..i + 2], unanswered, Fix(ms[i + 2..]));
    assert ms[i + 1..i + 2] == [ms[i + 1]];
  }

  lemma AfterAnswer(call: Message, answers: seq<Message>, unanswered: set<string>, rest: Repair)
    requires |answers| == 1
    ensures AfterCall(call, answers, unanswered, rest).out
         == (if unanswered == {} then [Kept(call), answers[0]] else []) + rest.out
  {
    assert [Kept(call)] + answers == [Kept(call), answers[0]];
  }

  lemma AnswerSurvivesIff(ms: seq<Message>, i: nat)
    requires Alternating(ms) && i < |ms| && IsCall(ms[i]) && NextAnswersSome(ms, i)
    ensures !IsCall(ms[i + 1]) && (Survives(ms, i + 1) <==> NextAnswersAll(ms, i))
  {
    if NextAnswersAll(ms, i) { AnswerIsNotStray(ms, i); }
  }

  lemma {:induction false} OtherStep(ms: seq<Message>, i: nat)
    requires i < |ms| && !IsCall(ms[i])
    ensures Fix(ms[i..]).out == (if IsStray(ms[i]) then [] else [ms[i]]) + Fix(ms[i + 1..]).out
  {
    FixElsewhere(ms, i);
  }

  lemma {:induction false} SurvivorsStep(ms: seq<Message>, i: nat)
    requires i < |ms|
    ensures Survivors(ms, i) == (if Survives(ms, i) then [Repaired(ms[i])] else []) + Survivors(ms, i + 1)
  {
    assert Fates(ms)[i] == Survives(ms, i) && AllRepaired(ms)[i] == Repaired(ms[i]);
  }

  lemma {:induction false} PickTwo<T>(items: seq<T>, keep: seq<bool>, i: nat)
    requires i + 1 < |items| == |keep| && keep[i] == keep[i + 1]
    ensures Pick(items, keep, i) == (if keep[i] then [items[i], items[i + 1]] else []) + Pick(items, keep, i + 2)
  {
    assert Pick(items, keep, i + 1) == (if keep[i + 1] then [items[i + 1]] else []) + Pick(items, keep, i + 2);
  }

  lemma {:induction false} SurvivorsTwice(ms: seq<Message>, i: nat)
    requires i + 1 < |ms| && IsCall(ms[i]) && !IsCall(ms[i + 1])
    requires Survives(ms, i + 1) <==> NextAnswersAll(ms, i)
    ensures Survivors(ms, i)
         == (if NextAnswersAll(ms, i) then [Kept(ms[i]), ms[i + 1]] else []) + Survivors(ms, i + 2)
  {
    var fates, repaired := Fates(ms), AllRepaired(ms);
    assert fates[i] == Survives(ms, i) && fates[i + 1] == Survives(ms, i + 1);
    assert repaired[i] == Kept(ms[i]) && repaired[i + 1] == ms[i + 1];
    PickTwo(repaired, fates, i);
  }

  lemma KeptPairAnswered(ms: seq<Message>, i: nat)
    requires i < |ms| && IsCall(ms[i]) && NextAnswersAll(ms, i)
    ensures Answered([Kept(ms[i]), ms[i + 1]])
  {
    AnswerIsNotStray(ms, i);
    KeptIsCall(ms[i]);
    ToolUsesAreCalls(ms[i].content);
  }

  /** One step of the repair takes `n` messages and puts out `part`. */
  lemma {:induction false} LocalStep(ms: seq<Message>, i: nat) returns (n: nat, part: seq<Message>)
    requires Alternating(ms) && i < |ms| && Fresh(ms, i)
    ensures 0 < n && i + n <= |ms| && Fresh(ms, i + n)
    ensures Fix(ms[i..]).out == part + Fix(ms[i + n..]).out
    ensures Survivors(ms, i) == part + Survivors(ms, i + n)
    ensures Answered(part)
  {
    if !IsCall(ms[i]) {
      OtherStep(ms, i);
      SurvivorsStep(ms, i);
      n, part := 1, if IsStray(ms[i]) then [] else [ms[i]];
    } else if NextAnswersSome(ms, i) {
      AnsweredStep(ms, i);
      AnswerSurvivesIff(ms, i);
      SurvivorsTwice(ms, i);
      if NextAnswersAll(ms, i) { KeptPairAnswered(ms, i); }
      n, part := 2, if NextAnswersAll(ms, i) then [Kept(ms[i]), ms[i + 1]] else [];
    } else {
      UnansweredStep(ms, i);
      SurvivorsStep(ms, i);
      n, part := 1, [];
    }
  }

  /** No calls at all, or one call with ids and the message that answers it. */
  ghost predicate Answered(part: seq<Message>) {
    || (forall i :: 0 <= i < |part| ==> !IsCall(part[i]))
    || (|part| == 2 && HasIds(part[0]) && NextAnswersAll(part, 0) && !IsCall(part[1]))
  }

  lemma {:induction false} FixIsLocalFrom(ms: seq<Message>, i: nat)
    requires Alternating(ms) && i <= |ms| && Fresh(ms, i)
    ensures Fix(ms[i..]).out == Survivors(ms, i)
    decreases |ms| - i
  {
    if i < |ms| {
      var n, part := LocalStep(ms, i);
      FixIsLocalFrom(ms, i + n);
    }
  }

  /** On what preflight produces, the repair keeps exactly the surviving messages. */
  lemma FixIsLocal(ms: seq<Message>)
    requires Alternating(ms)
    ensures Fix(ms).out == Survivors(ms, 0)
  {
    FixIsLocalFrom(ms, 0);
    assert ms[0..] == ms;
  }

  // ---- What the repair drops, and what every call left finds ----

  function Drops(ms: seq<Message>): nat {
    Fix(ms).droppedCalls + Fix(ms).droppedStrays
  }

  /** Nothing is dropped if and only if every message survives. */
  lemma DropsNothingIff(ms: seq<Message>)
    requires Alternating(ms)
    ensures Drops(ms) == 0 <==> forall i :: 0 <= i < |ms| ==> Survives(ms, i)
  {
    FixConserves(ms);
    FixIsLocal(ms);
    SurvivorCount(ms);
  }

  lemma SurvivorCount(ms: seq<Message>)
    ensures |Survivors(ms, 0)| == |ms| <==> forall j :: 0 <= j < |ms| ==> Survives(ms, j)
  {
    var fates := Fates(ms);
    PickCount(AllRepaired(ms), fates, 0);
    forall j | 0 <= j < |ms|
      ensures fates[j] == Survives(ms, j)
    {
    }
  }

  lemma {:induction false} PickCount<T>(items: seq<T>, keep: seq<bool>, i: nat)
    requires i <= |items| == |keep|
    ensures |Pick(items, keep, i)| <= |items| - i
    ensures |Pick(items, keep, i)| == |items| - i <==> forall j :: i <= j < |items| ==> keep[j]
    decreases |items| - i
  {
    if i < |items| {
      PickCount(items, keep, i + 1);
    }
  }

  predicate HasIds(m: Message) {
    var calls := ToolUses(m.content);
    forall i :: 0 <= i < |calls| ==> !NeedsId(calls[i])
  }

  ghost predicate AnsweredAt(ms: seq<Message>, i: nat)
    requires i < |ms|
  {
    IsCall(ms[i]) ==> HasIds(ms[i]) && NextAnswersAll(ms, i)
  }

  /** Every tool call has an id and is answered by the very next message. */
  ghost predicate AllAnsweredNext(ms: seq<Message>) {
    forall i :: 0 <= i < |ms| ==> AnsweredAt(ms, i)
  }

  lemma AnsweredShift(front: seq<Message>, ms: seq<Message>)
    requires AllAnsweredNext(ms)
    requires forall i :: 0 <= i < |front| ==> !IsCall(front[i])
    ensures AllAnsweredNext(front + ms)
  {
    var all := front + ms;
    forall i | 0 <= i < |all| && IsCall(all[i])
      ensures AnsweredAt(all, i)
    {
      var d := i - |front|;
      assert all[i] == ms[d] && AnsweredAt(ms, d);
      assert all[i + 1] == ms[d + 1];
    }
  }

  lemma AnsweredJoin(part: seq<Message>, rest: seq<Message>)
    requires Answered(part) && AllAnsweredNext(rest)
    ensures AllAnsweredNext(part + rest)
  {
    if forall i :: 0 <= i < |part| ==> !IsCall(part[i]) {
      AnsweredShift(part, rest);
    } else {
      AnsweredShift([part[1]], rest);
      var all, tail := part + rest, [part[1]] + rest;
      forall i | 0 <= i < |all| && IsCall(all[i])
        ensures AnsweredAt(all, i)
      {
        if i > 0 {
          assert all[i] == tail[i - 1] && AnsweredAt(tail, i - 1);
        }
      }
    }
  }

  lemma LocalPart(ms: seq<Message>, i: nat) returns (n: nat, part: seq<Message>)
    requires Alternating(ms) && i < |ms| && Fresh(ms, i)
    ensures 0 < n && i + n <= |ms| && Fresh(ms, i + n)
    ensures Survivors(ms, i) == part + Survivors(ms, i + n)
    ensures Answered(part)
  {
    n, part := LocalStep(ms, i);
  }

  lemma {:induction false} SurvivorsAnswered(ms: seq<Message>, i: nat)
    requires Alternating(ms) && i <= |ms| && Fresh(ms, i)
    ensures AllAnsweredNext(Survivors(ms, i))
    decreases |ms| - i
  {
    if i < |ms| {
      var n, part := LocalPart(ms, i);
      SurvivorsAnswered(ms, i + n);
      AnsweredJoin(part, Survivors(ms, i + n));
    }
  }

  /** After both passes every tool call has an id and its answers are in the single
      message right after it. */
  lemma FixAnswersNext(ms: seq<Message>)
    requires Alternating(ms)
    ensures AllAnsweredNext(Fix(ms).out)
  {
    FixIsLocal(ms);
    SurvivorsAnswered(ms, 0);
  }
}
