/** The `Compactor` gate: when LLM compaction is attempted, and what whole runs of
    calls and setters can look like.

    The model of one call is a function on states; the class refines it. */
module CompactorGate {
  import opened Reals

  /** What the LLM call comes back with: a failure, or a summary and the token
      counts before and after. */
  datatype Outcome = Failed | Done(summary: string, preTokens: int, postTokens: int)

  datatype State = State(
    maxTokens: int,
    failedCount: nat,
    disabled: bool,
    lastSummary: string,
    lastSavings: seq<real>,
    postCompactTokens: int)

  const MAX_FAILURES: nat := 3

  function Initial(): State {
    State(200_000, 0, false, "", [], 0)
  }

  /** Three quarters of the window, truncated toward zero. */
  function Threshold(maxTokens: int): int {
    if maxTokens >= 0 then maxTokens * 3 / 4 else -(-maxTokens * 3 / 4)
  }

  /** The count is high enough, and half as much again as after the last compaction. */
  predicate Due(s: State, tokens: int) {
    && tokens >= Threshold(s.maxTokens)
    && (s.postCompactTokens > 0 ==> tokens >= s.postCompactTokens + s.postCompactTokens / 2)
  }

  predicate Low(savings: real) {
    savings < 0.10
  }

  predicate Thrashing(savings: seq<real>) {
    |savings| >= 2 && Low(savings[|savings| - 1]) && Low(savings[|savings| - 2])
  }

  /** The LLM is called. */
  predicate Attempts(s: State, tokens: int) {
    !s.disabled && s.failedCount < MAX_FAILURES && Due(s, tokens) && !Thrashing(s.lastSavings)
  }

  function Saving(pre: int, post: int): real
    requires pre > 0
  {
    (pre - post) as real / pre as real
  }

  function LastTwo(savings: seq<real>): seq<real> {
    if |savings| > 2 then savings[|savings| - 2..] else savings
  }

  function AfterOutcome(s: State, outcome: Outcome): State {
    match outcome
    case Failed => s.(failedCount := s.failedCount + 1, disabled := s.disabled || s.failedCount + 1 >= MAX_FAILURES)
    case Done(summary, pre, post) =>
      s.(failedCount := 0,
      lastSummary := summary,
      lastSavings := if pre > 0 then LastTwo(s.lastSavings + [Saving(pre, post)]) else s.lastSavings,
      postCompactTokens := post)
  }

  function AfterCall(s: State, tokens: int, outcome: Outcome): State {
    if Attempts(s, tokens) then AfterOutcome(s, outcome)
    else if !s.disabled && s.failedCount >= MAX_FAILURES then s.(disabled := true)
    else s
  }

  // ---- The class ----

  class Compactor {
    var maxTokens: int
    var llmCompactFailedCount: nat
    var maxLLMCompactFailures: nat
    var disabled: bool
    var lastSummary: string
    var lastCompactSavings: seq<real>
    var postCompactTokens: int

    ghost predicate Valid()
      reads this
    {
      maxLLMCompactFailures == MAX_FAILURES
    }

    ghost function Abs(): State
      reads this
    {
      State(maxTokens, llmCompactFailedCount, disabled, lastSummary, lastCompactSavings, postCompactTokens)
    }

    constructor ()
      ensures Valid() && Abs() == Initial()
    {
      maxTokens := 200_000;
      llmCompactFailedCount := 0;
      maxLLMCompactFailures := 3;
      disabled := false;
      lastSummary := "";
      lastCompactSavings := [];
      postCompactTokens := 0;
    }

    method SetMaxTokens(tokens: int)
      requires Valid()
      modifies this
      ensures Valid() && Abs() == old(Abs()).(maxTokens := tokens)
    {
      maxTokens := tokens;
    }

    method SetPostCompactTokens(tokens: int)
      requires Valid()
      modifies this
      ensures Valid() && Abs() == old(Abs()).(postCompactTokens := tokens)
    {
      postCompactTokens := tokens;
    }

    method CompactThreshold() returns (threshold: int)
      ensures threshold == Threshold(maxTokens)
    {
      var scaled := maxTokens * 3;
      if scaled >= 0 {
        return scaled / 4;
      }
      return -(-scaled / 4);
    }

    method ShouldCompact(tokens: int) returns (should: bool)
      ensures should == Due(Abs(), tokens)
    {
      var threshold := CompactThreshold();
      if tokens < threshold {
        return false;
      }
      if postCompactTokens > 0 {
        var cooldownThreshold := postCompactTokens + postCompactTokens / 2;
        if tokens < cooldownThreshold {
          return false;
        }
      }
      return true;
    }

    /** `llm` is what the LLM would answer; it is used only if it is called. */
    method Compact(tokens: int, llm: Outcome) returns (summary: string, performed: bool)
      requires Valid()
      modifies this
      ensures Valid() && Abs() == AfterCall(old(Abs()), tokens, llm)
      ensures performed == (old(Attempts(Abs(), tokens)) && llm.Done?)
      ensures summary == if performed then llm.summary else ""
    {
      if disabled {
        return "", false;
      }
      if llmCompactFailedCount >= maxLLMCompactFailures {
        disabled := true;
        return "", false;
      }
      var should := ShouldCompact(tokens);
      if !should {
        return "", false;
      }
      if |lastCompactSavings| >= 2 {
        if lastCompactSavings[|lastCompactSavings| - 1] < 0.10 && lastCompactSavings[|lastCompactSavings| - 2] < 0.10 {
          return "", false;
        }
      }
      match llm
      case Failed =>
        llmCompactFailedCount := llmCompactFailedCount + 1;
        if llmCompactFailedCount >= maxLLMCompactFailures {
          disabled := true;
        }
        return "", false;
      case Done(text, pre, post) =>
        llmCompactFailedCount := 0;
        lastSummary := text;
        if pre > 0 {
          var savingsRatio := Saving(pre, post);
          lastCompactSavings := lastCompactSavings + [savingsRatio];
          if |lastCompactSavings| > 2 {
            lastCompactSavings := lastCompactSavings[|lastCompactSavings| - 2..];
          }
        }
        postCompactTokens := post;
        return text, true;
    }
  }

  // ---- Runs ----

  datatype Event =
    | SetMax(tokens: int)
    | SetPost(tokens: int)
    | Call(tokens: int, outcome: Outcome)

  function Step(s: State, e: Event): State {
    match e
    case SetMax(tokens) => s.(maxTokens := tokens)
    case SetPost(tokens) => s.(postCompactTokens := tokens)
    case Call(tokens, outcome) => AfterCall(s, tokens, outcome)
  }

  /** The state after the first `n` events of a run. */
  function StateAt(run: seq<Event>, n: nat): State
    requires n <= |run|
  {
    if n == 0 then Initial() else Step(StateAt(run, n - 1), run[n - 1])
  }

  /** Event `n` of the run calls the LLM. */
  predicate Invokes(run: seq<Event>, n: nat)
    requires n < |run|
  {
    run[n].Call? && Attempts(StateAt(run, n), run[n].tokens)
  }

  /** What the LLM answered in the first `n` events, in order. */
  function Answers(run: seq<Event>, n: nat): seq<Outcome>
    requires n <= |run|
  {
    if n == 0 then []
    else if Invokes(run, n - 1) then Answers(run, n - 1) + [run[n - 1].outcome]
    else Answers(run, n - 1)
  }

  /** The savings recorded for these answers. */
  function Recorded(answers: seq<Outcome>): seq<real> {
    if answers == [] then []
    else
      Recorded(answers[..|answers| - 1]) + NewSaving(answers[|answers| - 1])
  }

  /** What one answer adds to the record: a failure nothing, nor a success that started
      from no tokens. */
  function NewSaving(answer: Outcome): seq<real> {
    match answer
    case Failed => []
    case Done(_, pre, post) => if pre > 0 then [Saving(pre, post)] else []
  }

  /** How many of the latest answers are failures, with no success after them. */
  function TrailingFailures(answers: seq<Outcome>): nat {
    if answers == [] || answers[|answers| - 1].Done? then 0
    else 1 + TrailingFailures(answers[..|answers| - 1])
  }

  /** The state remembers just enough of the answers. */
  ghost predicate Remembers(s: State, answers: seq<Outcome>) {
    && s.failedCount == TrailingFailures(answers) <= MAX_FAILURES
    && (s.disabled <==> s.failedCount == MAX_FAILURES)
    && s.lastSavings == LastTwo(Recorded(answers))
  }

  lemma {:induction false} OutcomeRemembered(s: State, answers: seq<Outcome>, outcome: Outcome)
    requires Remembers(s, answers) && !s.disabled
    ensures Remembers(AfterOutcome(s, outcome), answers + [outcome])
  {
    assert (answers + [outcome])[..|answers|] == answers;
  }

  lemma {:induction false} StateRemembers(run: seq<Event>, n: nat)
    requires n <= |run|
    ensures Remembers(StateAt(run, n), Answers(run, n))
  {
    if n > 0 {
      StateRemembers(run, n - 1);
      if Invokes(run, n - 1) {
        OutcomeRemembered(StateAt(run, n - 1), Answers(run, n - 1), run[n - 1].outcome);
      }
    }
  }

  /** Three failures in a row end the run's calls: they are the last answers ever. */
  lemma {:induction false} ThreeFailuresAreLast(run: seq<Event>, n: nat, i: nat)
    requires n <= |run| && i + 3 <= |Answers(run, n)|
    requires Answers(run, n)[i].Failed? && Answers(run, n)[i + 1].Failed? && Answers(run, n)[i + 2].Failed?
    ensures i + 3 == |Answers(run, n)|
  {
    if n > 0 && Invokes(run, n - 1) {
      var before := Answers(run, n - 1);
      if i + 3 < |Answers(run, n)| {
        ThreeFailuresAreLast(run, n - 1, i);
        TrailingThree(before);
        StateRemembers(run, n - 1);
        assert false;
      }
    } else if n > 0 {
      ThreeFailuresAreLast(run, n - 1, i);
    }
  }

  lemma {:induction false} TrailingThree(answers: seq<Outcome>)
    requires |answers| >= 3
    requires answers[|answers| - 1].Failed? && answers[|answers| - 2].Failed? && answers[|answers| - 3].Failed?
    ensures TrailingFailures(answers) >= 3
  {
    var a := answers[..|answers| - 1];
    assert TrailingFailures(answers) == 1 + TrailingFailures(a);
    assert TrailingFailures(a) == 1 + TrailingFailures(a[..|a| - 1]);
  }

  /** Two low savings in a row are the last ever recorded. */
  lemma {:induction false} TwoLowAreLast(run: seq<Event>, n: nat, i: nat)
    requires n <= |run| && i + 2 <= |Recorded(Answers(run, n))|
    requires Low(Recorded(Answers(run, n))[i]) && Low(Recorded(Answers(run, n))[i + 1])
    ensures i + 2 == |Recorded(Answers(run, n))|
  {
    if n > 0 {
      var before := Recorded(Answers(run, n - 1));
      RecordedGrows(run, n);
      if i + 2 <= |before| && Low(before[i]) && Low(before[i + 1]) {
        TwoLowAreLast(run, n - 1, i);
      }
      LastPairStays(before, Recorded(Answers(run, n)), i);
    }
  }

  /** What may be recorded after `before`: nothing, or one saving unless the last two are low. */
  predicate Grows(before: seq<real>, after: seq<real>) {
    || after == before
    || (|after| == |before| + 1 && after[..|before|] == before && !Thrashing(before))
  }

  lemma LastPairStays(before: seq<real>, after: seq<real>, i: nat)
    requires Grows(before, after) && i + 2 <= |after| && Low(after[i]) && Low(after[i + 1])
    requires i + 2 <= |before| && Low(before[i]) && Low(before[i + 1]) ==> i + 2 == |before|
    ensures i + 2 == |after|
  {
  }

  /** A saving is recorded only while the record does not end in two low ones. */
  lemma {:induction false} RecordedGrows(run: seq<Event>, n: nat)
    requires 0 < n <= |run|
    ensures Grows(Recorded(Answers(run, n - 1)), Recorded(Answers(run, n)))
  {
    var answers := Answers(run, n - 1);
    if Invokes(run, n - 1) {
      NotThrashing(run, n - 1);
      RecordedSnoc(answers, run[n - 1].outcome);
    }
  }

  lemma {:induction false} RecordedSnoc(answers: seq<Outcome>, answer: Outcome)
    ensures Recorded(answers + [answer]) == Recorded(answers) + NewSaving(answer)
  {
    assert (answers + [answer])[..|answers|] == answers;
  }

  lemma {:induction false} NotThrashing(run: seq<Event>, n: nat)
    requires n < |run| && Invokes(run, n)
    ensures !Thrashing(Recorded(Answers(run, n)))
  {
    StateRemembers(run, n);
    var r := Recorded(Answers(run, n));
    assert Thrashing(LastTwo(r)) <==> Thrashing(r);
  }

  /** So never do three recorded compactions in a row save less than a tenth. */
  lemma NeverThreeLow(run: seq<Event>, n: nat, i: nat)
    requires n <= |run| && i + 2 < |Recorded(Answers(run, n))|
    ensures var r := Recorded(Answers(run, n)); !(Low(r[i]) && Low(r[i + 1]) && Low(r[i + 2]))
  {
    var r := Recorded(Answers(run, n));
    if Low(r[i]) && Low(r[i + 1]) {
      TwoLowAreLast(run, n, i);
      assert false;
    }
  }

  /** A state in which the LLM is never called again, whatever is set or asked. */
  predicate Wedged(s: State) {
    s.disabled || Thrashing(s.lastSavings)
  }

  /** Three failures in a row, or two low savings in a row, stop compaction for good:
      no setter and no number of tokens brings it back. */
  lemma {:induction false} WedgedForever(run: seq<Event>, m: nat, n: nat)
    requires m <= n < |run| && Wedged(StateAt(run, m))
    ensures Wedged(StateAt(run, n)) && !Invokes(run, n)
    decreases n
  {
    if m < n {
      WedgedForever(run, m, n - 1);
    }
  }

  /** The exact condition: a due call is refused if and only if the answers so far end
      in three failures or their savings end in two low ones. */
  lemma RefusedIff(run: seq<Event>, n: nat)
    requires n < |run| && run[n].Call? && Due(StateAt(run, n), run[n].tokens)
    ensures !Invokes(run, n) <==>
            TrailingFailures(Answers(run, n)) == MAX_FAILURES || Thrashing(Recorded(Answers(run, n)))
  {
    StateRemembers(run, n);
    var r := Recorded(Answers(run, n));
    assert Thrashing(LastTwo(r)) <==> Thrashing(r);
  }

  predicate Performs(run: seq<Event>, n: nat)
    requires n < |run|
  {
    Invokes(run, n) && run[n].outcome.Done?
  }

  /** The token count stored last, by a setter or by a compaction; 0 if none was. */
  function LastStored(run: seq<Event>, n: nat): int
    requires n <= |run|
  {
    if n == 0 then 0
    else if run[n - 1].SetPost? then run[n - 1].tokens
    else if Performs(run, n - 1) then run[n - 1].outcome.postTokens
    else LastStored(run, n - 1)
  }

  /** The window set last; the default one if none was. */
  function LastWindow(run: seq<Event>, n: nat): int
    requires n <= |run|
  {
    if n == 0 then 200_000
    else if run[n - 1].SetMax? then run[n - 1].tokens
    else LastWindow(run, n - 1)
  }

  lemma {:induction false} StateKeepsLast(run: seq<Event>, n: nat)
    requires n <= |run|
    ensures StateAt(run, n).postCompactTokens == LastStored(run, n)
    ensures StateAt(run, n).maxTokens == LastWindow(run, n)
  {
    if n > 0 {
      StateKeepsLast(run, n - 1);
    }
  }

  /** Every compaction starts from at least the threshold of the window set last and,
      if the count `p` stored last is positive, whoever stored it, from at least
      `p + p / 2` tokens. */
  lemma CompactionsAreSpaced(run: seq<Event>, n: nat)
    requires n < |run| && Performs(run, n)
    ensures run[n].tokens >= Threshold(LastWindow(run, n))
    ensures var p := LastStored(run, n); p > 0 ==> run[n].tokens >= p + p / 2
  {
    StateKeepsLast(run, n);
  }

  /** When the LLM is called, in terms of what happened before: the window and the
      count set last are reached, and the answers so far end neither in three
      failures nor in two low savings. */
  lemma InvokedIff(run: seq<Event>, n: nat)
    requires n < |run| && run[n].Call?
    ensures Invokes(run, n) <==>
            && run[n].tokens >= Threshold(LastWindow(run, n))
            && (LastStored(run, n) > 0 ==> run[n].tokens >= LastStored(run, n) + LastStored(run, n) / 2)
            && TrailingFailures(Answers(run, n)) < MAX_FAILURES
            && !Thrashing(Recorded(Answers(run, n)))
  {
    StateKeepsLast(run, n);
    StateRemembers(run, n);
    var r := Recorded(Answers(run, n));
    assert Thrashing(LastTwo(r)) <==> Thrashing(r);
  }

  // ---- The same laws on token counts ----

  /** The answers whose savings are recorded: the successes that started from tokens. */
  function Counted(answers: seq<Outcome>): seq<Outcome> {
    if answers == [] then []
    else
      var last := answers[|answers| - 1];
      Counted(answers[..|answers| - 1]) + if last.Done? && last.preTokens > 0 then [last] else []
  }

  /** More than nine tenths of the tokens were left. */
  predicate SavedLittle(answer: Outcome) {
    answer.Done? && 10 * answer.postTokens > 9 * answer.preTokens
  }

  lemma Tenth(x: int, p: int)
    ensures x as real < 0.10 * p as real <==> 10 * x < p
  {
  }

  lemma SavingTimes(pre: int, post: int)
    requires pre > 0
    ensures Saving(pre, post) * pre as real == (pre - post) as real
  {
  }

  lemma LowIff(pre: int, post: int)
    requires pre > 0
    ensures Low(Saving(pre, post)) <==> 10 * post > 9 * pre
  {
    SavingTimes(pre, post);
    LowShare(Saving(pre, post), pre, post);
  }

  lemma LowShare(share: real, pre: int, post: int)
    requires pre > 0 && share * pre as real == (pre - post) as real
    ensures share < 0.10 <==> 10 * post > 9 * pre
  {
    BelowTenth(share, pre - post, pre);
    Tenth(pre - post, pre);
  }

  lemma BelowTenth(share: real, x: int, p: int)
    requires p > 0 && share * p as real == x as real
    ensures share < 0.10 <==> x as real < 0.10 * p as real
  {
    TimesPositive(share, 0.10, p as real);
  }

  lemma {:induction false} RecordedIsCounted(answers: seq<Outcome>)
    ensures |Recorded(answers)| == |Counted(answers)|
    ensures forall i :: 0 <= i < |Counted(answers)| ==>
                          (Low(Recorded(answers)[i]) <==> SavedLittle(Counted(answers)[i]))
  {
    if answers != [] {
      var last := answers[|answers| - 1];
      RecordedIsCounted(answers[..|answers| - 1]);
      if last.Done? && last.preTokens > 0 {
        LowIff(last.preTokens, last.postTokens);
      }
    }
  }

  predicate EndsInThreeFailures(answers: seq<Outcome>) {
    var n := |answers|;
    n >= 3 && answers[n - 1].Failed? && answers[n - 2].Failed? && answers[n - 3].Failed?
  }

  predicate EndsInTwoSmallSavings(answers: seq<Outcome>) {
    var counted := Counted(answers);
    |counted| >= 2 && SavedLittle(counted[|counted| - 1]) && SavedLittle(counted[|counted| - 2])
  }

  lemma {:induction false} ThreeFailuresIff(answers: seq<Outcome>)
    ensures TrailingFailures(answers) >= 3 <==> EndsInThreeFailures(answers)
  {
    if answers != [] {
      var a := answers[..|answers| - 1];
      assert answers[|answers| - 1].Failed? ==> TrailingFailures(answers) == 1 + TrailingFailures(a);
      if a != [] {
        var b := a[..|a| - 1];
        assert a[|a| - 1].Failed? ==> TrailingFailures(a) == 1 + TrailingFailures(b);
      }
    }
  }

  lemma TwoSmallSavingsIff(answers: seq<Outcome>)
    ensures Thrashing(Recorded(answers)) <==> EndsInTwoSmallSavings(answers)
  {
    RecordedIsCounted(answers);
  }

  /** At least three quarters of the window, whole tokens not reached being cut off. */
  predicate ReachesThreeQuarters(tokens: int, window: int) {
    if window >= 0 then 4 * tokens + 3 >= 3 * window else 4 * tokens >= 3 * window
  }

  /** A request to compact reaches the LLM exactly when three quarters of the window set
      last are reached, and half as much again as the count stored last, if that is
      positive, and the answers so far end neither in three failures nor, among those
      that started from tokens, in two that left more than nine tenths of them. */
  lemma CompactsIff(run: seq<Event>, n: nat)
    requires n < |run| && run[n].Call?
    ensures Invokes(run, n) <==>
            && ReachesThreeQuarters(run[n].tokens, LastWindow(run, n))
            && (LastStored(run, n) > 0 ==> run[n].tokens >= LastStored(run, n) + LastStored(run, n) / 2)
            && !EndsInThreeFailures(Answers(run, n)) && !EndsInTwoSmallSavings(Answers(run, n))
  {
    InvokedIff(run, n);
    ThreeFailuresIff(Answers(run, n));
    TwoSmallSavingsIff(Answers(run, n));
  }

  /** In no run do three counted answers in a row leave more than nine tenths. */
  lemma NeverThreeSmallSavings(run: seq<Event>, n: nat, i: nat)
    requires n <= |run| && i + 2 < |Counted(Answers(run, n))|
    ensures var c := Counted(Answers(run, n)); !(SavedLittle(c[i]) && SavedLittle(c[i + 1]) && SavedLittle(c[i + 2]))
  {
    RecordedIsCounted(Answers(run, n));
    NeverThreeLow(run, n, i);
  }
}
