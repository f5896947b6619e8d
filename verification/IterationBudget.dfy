/** `IterationBudget`: compare-and-swap loops on a shared counter, as atomic steps
    that any number of threads take in any order.

    The reference is the same budget with whole operations as single steps; every
    interleaving answers as it would. */
module IterationBudget {

  type Thread = nat

  datatype Operation = Consume | Refund | GraceCall

  /** What a finished operation did. */
  datatype Answer = Consumed(ok: bool) | Refunded(effective: bool) | Graced(first: bool)

  /** Where a thread is: idle, about to load the counter, or about to compare and swap
      with the value it loaded. */
  datatype Pc = Idle | Loading(op: Operation) | Swapping(op: Operation, loaded: int)

  /** An operation that `thread` has finished. */
  datatype Entry = Entry(thread: Thread, answer: Answer)

  /** `log` lists the finished operations in the order they took effect. */
  datatype State = State(
    max: int,
    consumed: int,
    graceCalled: bool,
    pcs: map<Thread, Pc>,
    log: seq<Entry>)

  datatype Event = Begin(thread: Thread, op: Operation) | Advance(thread: Thread)

  function Initial(max: int): State {
    State(max, 0, false, map[], [])
  }

  function PcOf(s: State, t: Thread): Pc {
    if t in s.pcs then s.pcs[t] else Idle
  }

  function Finish(s: State, t: Thread, answer: Answer): State {
    s.(pcs := s.pcs[t := Idle], log := s.log + [Entry(t, answer)])
  }

  // ---- Atomic steps ----

  function Load(s: State, t: Thread, op: Operation): State {
    match op
    case Consume =>
      if s.consumed >= s.max then Finish(s, t, Consumed(false)) else s.(pcs := s.pcs[t := Swapping(op, s.consumed)])
    case Refund =>
      if s.consumed <= 0 then Finish(s, t, Refunded(false)) else s.(pcs := s.pcs[t := Swapping(op, s.consumed)])
    case GraceCall =>
      Finish(s, t, Graced(!s.graceCalled)).(graceCalled := true)
  }

  function CompareAndSwap(s: State, t: Thread, op: Operation, loaded: int): State {
    if s.consumed != loaded then s.(pcs := s.pcs[t := Loading(op)])
    else
      match op
      case Consume => Finish(s, t, Consumed(true)).(consumed := loaded + 1)
      case Refund => Finish(s, t, Refunded(true)).(consumed := loaded - 1)
      case GraceCall => s
  }

  function Step(s: State, e: Event): State {
    match e
    case Begin(t, op) => if PcOf(s, t).Idle? then s.(pcs := s.pcs[t := Loading(op)]) else s
    case Advance(t) =>
      match PcOf(s, t)
      case Idle => s
      case Loading(op) => Load(s, t, op)
      case Swapping(op, loaded) => CompareAndSwap(s, t, op, loaded)
  }

  /** The state after the first `n` events. */
  function StateAt(max: int, run: seq<Event>, n: nat): State
    requires n <= |run|
  {
    if n == 0 then Initial(max) else Step(StateAt(max, run, n - 1), run[n - 1])
  }

  // ---- The reference: whole operations, one at a time ----

  datatype Budget = Budget(max: int, count: int, graced: bool)

  /** What an operation answers when nothing interferes. */
  function Answered(b: Budget, op: Operation): Answer {
    match op
    case Consume => Consumed(b.count < b.max)
    case Refund => Refunded(b.count > 0)
    case GraceCall => Graced(!b.graced)
  }

  function After(b: Budget, answer: Answer): Budget {
    match answer
    case Consumed(ok) => if ok then b.(count := b.count + 1) else b
    case Refunded(effective) => if effective then b.(count := b.count - 1) else b
    case Graced(first) => b.(graced := true)
  }

  function OperationOf(answer: Answer): Operation {
    match answer
    case Consumed(_) => Consume
    case Refunded(_) => Refund
    case Graced(_) => GraceCall
  }

  /** The budget after all the answers of a log. */
  function Replay(max: int, log: seq<Entry>): Budget {
    if log == [] then Budget(max, 0, false) else After(Replay(max, log[..|log| - 1]), log[|log| - 1].answer)
  }

  /** Every answer is what the operation answers at its place in the log. */
  predicate Legal(max: int, log: seq<Entry>) {
    log == [] ||
    var before, last := log[..|log| - 1], log[|log| - 1].answer;
    Legal(max, before) && last == Answered(Replay(max, before), OperationOf(last))
  }

  // ---- Every interleaving is one of these ----

  /** A thread about to swap loaded a value its operation may go on from. */
  ghost predicate Sound(s: State) {
    && Legal(s.max, s.log)
    && Replay(s.max, s.log) == Budget(s.max, s.consumed, s.graceCalled)
    && forall t :: t in s.pcs ==> MayGoOn(s.max, s.pcs[t])
  }

  predicate MayGoOn(max: int, pc: Pc) {
    match pc
    case Swapping(Consume, loaded) => loaded < max
    case Swapping(Refund, loaded) => loaded > 0
    case Swapping(GraceCall, loaded) => false
    case _ => true
  }

  lemma {:induction false} LogGrows(max: int, log: seq<Entry>, e: Entry)
    requires Legal(max, log) && e.answer == Answered(Replay(max, log), OperationOf(e.answer))
    ensures Legal(max, log + [e]) && Replay(max, log + [e]) == After(Replay(max, log), e.answer)
  {
    assert (log + [e])[..|log|] == log;
  }

  lemma MoveSound(s: State, t: Thread, pc: Pc)
    requires Sound(s) && MayGoOn(s.max, pc)
    ensures Sound(s.(pcs := s.pcs[t := pc]))
  {
  }

  lemma FinishSound(s: State, t: Thread, answer: Answer, consumed: int, graceCalled: bool)
    requires Sound(s)
    requires var b := Budget(s.max, s.consumed, s.graceCalled);
             answer == Answered(b, OperationOf(answer)) && After(b, answer) == Budget(s.max, consumed, graceCalled)
    ensures Sound(Finish(s, t, answer).(consumed := consumed, graceCalled := graceCalled))
  {
    LogGrows(s.max, s.log, Entry(t, answer));
    MoveSound(s, t, Idle);
  }

  lemma LoadSound(s: State, t: Thread, op: Operation)
    requires Sound(s)
    ensures Sound(Load(s, t, op))
  {
    match op
    case Consume =>
      if s.consumed >= s.max { FinishSound(s, t, Consumed(false), s.consumed, s.graceCalled); }
      else { MoveSound(s, t, Swapping(op, s.consumed)); }
    case Refund =>
      if s.consumed <= 0 { FinishSound(s, t, Refunded(false), s.consumed, s.graceCalled); }
      else { MoveSound(s, t, Swapping(op, s.consumed)); }
    case GraceCall =>
      FinishSound(s, t, Graced(!s.graceCalled), s.consumed, true);
  }

  lemma SwapSound(s: State, t: Thread, op: Operation, loaded: int)
    requires Sound(s) && MayGoOn(s.max, Swapping(op, loaded))
    ensures Sound(CompareAndSwap(s, t, op, loaded))
  {
    if s.consumed != loaded {
      MoveSound(s, t, Loading(op));
    } else if op == Consume {
      FinishSound(s, t, Consumed(true), loaded + 1, s.graceCalled);
    } else if op == Refund {
      FinishSound(s, t, Refunded(true), loaded - 1, s.graceCalled);
    }
  }

  lemma StepSound(s: State, e: Event)
    requires Sound(s)
    ensures Sound(Step(s, e)) && Step(s, e).max == s.max
  {
    match e
    case Begin(t, op) => MoveSound(s, t, Loading(op));
    case Advance(t) =>
      match PcOf(s, t)
      case Idle =>
      case Loading(op) => LoadSound(s, t, op);
      case Swapping(op, loaded) => SwapSound(s, t, op, loaded);
  }

  /** Under every interleaving the operations answer as if each had run alone at the
      moment it took effect, and the counter is what they leave. */
  lemma {:induction false} Linearizable(max: int, run: seq<Event>, n: nat)
    requires n <= |run|
    ensures Sound(StateAt(max, run, n)) && StateAt(max, run, n).max == max
  {
    if n > 0 {
      Linearizable(max, run, n - 1);
      StepSound(StateAt(max, run, n - 1), run[n - 1]);
    }
  }

  // ---- Each thread gets the answers to what it asked ----

  /** The operations that `t` began in the first `n` events, in order. */
  function Begun(max: int, run: seq<Event>, n: nat, t: Thread): seq<Operation>
    requires n <= |run|
  {
    if n == 0 then []
    else
      Begun(max, run, n - 1, t) + NewlyBegun(StateAt(max, run, n - 1), run[n - 1], t)
  }

  function NewlyBegun(s: State, e: Event, t: Thread): seq<Operation> {
    if e.Begin? && e.thread == t && PcOf(s, t).Idle? then [e.op] else []
  }

  /** The operations that the log says `t` has finished, in order. */
  function Finished(log: seq<Entry>, t: Thread): seq<Operation> {
    if log == [] then []
    else
      var last := log[|log| - 1];
      Finished(log[..|log| - 1], t) + if last.thread == t then [OperationOf(last.answer)] else []
  }

  function Unfinished(pc: Pc): seq<Operation> {
    if pc.Idle? then [] else [pc.op]
  }

  lemma {:induction false} FinishedGrows(log: seq<Entry>, e: Entry, t: Thread)
    ensures Finished(log + [e], t) == Finished(log, t) + if e.thread == t then [OperationOf(e.answer)] else []
  {
    assert (log + [e])[..|log|] == log;
  }

  /** Of the operations `begun`, `t` has been answered for all but one that is under way. */
  ghost predicate InProgramOrder(begun: seq<Operation>, s: State, t: Thread) {
    begun == Finished(s.log, t) + Unfinished(PcOf(s, t))
  }

  lemma {:induction false} StepOrder(begun: seq<Operation>, s: State, e: Event, t: Thread,
                                     later: seq<Operation>, v: State)
    requires MayGoOn(s.max, PcOf(s, e.thread)) && InProgramOrder(begun, s, t)
    requires later == begun + NewlyBegun(s, e, t) && v == Step(s, e)
    ensures InProgramOrder(later, v, t)
  {
    match e
    case Begin(_, _) =>
    case Advance(u) =>
      match PcOf(s, u)
      case Idle =>
      case Loading(op) =>
        LoadAdvances(s, u, op);
        AdvanceOrder(s, Load(s, u, op), u, t);
      case Swapping(op, loaded) =>
        SwapAdvances(s, u, op, loaded);
        AdvanceOrder(s, CompareAndSwap(s, u, op, loaded), u, t);
  }

  /** A step of `u` that has not finished leaves its operation under way; one that has logs it. */
  ghost predicate Advances(s: State, v: State, u: Thread) {
    && (forall t :: t != u ==> PcOf(v, t) == PcOf(s, t))
    && if PcOf(v, u).Idle? then |v.log| == |s.log| + 1 && v.log == s.log + [v.log[|s.log|]]
                                && v.log[|s.log|].thread == u
                                && [OperationOf(v.log[|s.log|].answer)] == Unfinished(PcOf(s, u))
       else v.log == s.log && Unfinished(PcOf(v, u)) == Unfinished(PcOf(s, u))
  }

  lemma LoadAdvances(s: State, u: Thread, op: Operation)
    requires PcOf(s, u) == Loading(op)
    ensures Advances(s, Load(s, u, op), u)
  {
  }

  lemma SwapAdvances(s: State, u: Thread, op: Operation, loaded: int)
    requires PcOf(s, u) == Swapping(op, loaded) && MayGoOn(s.max, PcOf(s, u))
    ensures Advances(s, CompareAndSwap(s, u, op, loaded), u)
  {
  }

  lemma AdvanceOrder(s: State, v: State, u: Thread, t: Thread)
    requires Advances(s, v, u)
    ensures Finished(v.log, t) + Unfinished(PcOf(v, t)) == Finished(s.log, t) + Unfinished(PcOf(s, t))
  {
    if v.log != s.log {
      FinishedGrows(s.log, v.log[|s.log|], t);
    }
  }

  lemma {:induction false} AlwaysMayGoOn(max: int, run: seq<Event>, n: nat, u: Thread)
    requires n <= |run|
    ensures MayGoOn(StateAt(max, run, n).max, PcOf(StateAt(max, run, n), u))
  {
    Linearizable(max, run, n);
  }

  /** At every moment of every interleaving a thread has been answered for the
      operations it began, in the order it began them, all but one still under way.
      So each takes effect after it began and before the thread goes on. */
  lemma {:induction false} AnswersInProgramOrder(max: int, run: seq<Event>, n: nat, t: Thread)
    requires n <= |run|
    ensures InProgramOrder(Begun(max, run, n, t), StateAt(max, run, n), t)
  {
    if n > 0 {
      AnswersInProgramOrder(max, run, n - 1, t);
      OrderGoesOn(max, run, n - 1, n, t);
    } else {
      OrderAtStart(max, run, t);
    }
  }

  lemma {:induction false} OrderAtStart(max: int, run: seq<Event>, t: Thread)
    ensures InProgramOrder(Begun(max, run, 0, t), StateAt(max, run, 0), t)
  {
    assert PcOf(Initial(max), t) == Idle;
  }

  lemma {:induction false} OrderGoesOn(max: int, run: seq<Event>, m: nat, n: nat, t: Thread)
    requires m + 1 == n <= |run| && InProgramOrder(Begun(max, run, m, t), StateAt(max, run, m), t)
    ensures InProgramOrder(Begun(max, run, n, t), StateAt(max, run, n), t)
  {
    AlwaysMayGoOn(max, run, m, run[m].thread);
    StepOrder(Begun(max, run, m, t), StateAt(max, run, m), run[m], t, Begun(max, run, n, t), StateAt(max, run, n));
  }

  // ---- What linearizability gives ----

  function Count(log: seq<Entry>, answer: Answer): nat {
    if log == [] then 0
    else Count(log[..|log| - 1], answer) + if log[|log| - 1].answer == answer then 1 else 0
  }

  /** What legal logs guarantee: the budget is never overdrawn, the counter is
      successes less effective refunds, and the grace call succeeds at most once. */
  lemma {:induction false} LegalLogs(max: int, log: seq<Entry>)
    requires Legal(max, log)
    ensures 0 <= Replay(max, log).count <= if max < 0 then 0 else max
    ensures Replay(max, log).max == max
    ensures Replay(max, log).count == Count(log, Consumed(true)) - Count(log, Refunded(true))
    ensures Count(log, Graced(true)) == if Replay(max, log).graced then 1 else 0
  {
    if log != [] {
      LegalLogs(max, log[..|log| - 1]);
    }
  }

  /** In every run: `0 <= consumed <= max`, conservation, and one grace call at most. */
  lemma BudgetHolds(max: int, run: seq<Event>, n: nat)
    requires n <= |run|
    ensures var s := StateAt(max, run, n);
            && 0 <= s.consumed <= (if max < 0 then 0 else max)
            && s.consumed == Count(s.log, Consumed(true)) - Count(s.log, Refunded(true))
            && Count(s.log, Graced(true)) == (if s.graceCalled then 1 else 0)
  {
    Linearizable(max, run, n);
    LegalLogs(max, StateAt(max, run, n).log);
  }

  /** What was taken before operation `i` and not given back. */
  function InUse(log: seq<Entry>, i: nat): int
    requires i <= |log|
  {
    Count(log[..i], Consumed(true)) - Count(log[..i], Refunded(true))
  }

  /** A unit is granted exactly while fewer than the maximum are in use, and a refund
      has an effect exactly while some unit is. */
  lemma {:induction false} GrantedIffLeft(max: int, log: seq<Entry>, i: nat)
    requires Legal(max, log) && i < |log|
    ensures log[i].answer.Consumed? ==> (log[i].answer.ok <==> InUse(log, i) < max)
    ensures log[i].answer.Refunded? ==> (log[i].answer.effective <==> InUse(log, i) > 0)
  {
    var before := log[..|log| - 1];
    if i < |before| {
      GrantedIffLeft(max, before, i);
      assert before[..i] == log[..i];
    } else {
      LegalLogs(max, before);
    }
  }

  lemma {:induction false} GracedIff(max: int, log: seq<Entry>)
    ensures Replay(max, log).graced <==> exists k :: 0 <= k < |log| && log[k].answer.Graced?
  {
    if log != [] {
      GracedIff(max, log[..|log| - 1]);
    }
  }

  /** A grace call is granted exactly if it is the first one; how much of the budget
      is left does not matter. */
  lemma {:induction false} GrantedIffFirst(max: int, log: seq<Entry>, i: nat)
    requires Legal(max, log) && i < |log| && log[i].answer.Graced?
    ensures log[i].answer.first <==> forall k :: 0 <= k < i ==> !log[k].answer.Graced?
  {
    var before := log[..|log| - 1];
    if i < |before| {
      GrantedIffFirst(max, before, i);
    } else {
      GracedIff(max, before);
    }
  }

  /** So one is granted while the whole budget is left, which is the last there is. */
  lemma GrantedBeforeExhaustion(max: int, t: Thread)
    requires max > 0
    ensures var s := StateAt(max, [Begin(t, GraceCall), Advance(t)], 2);
            s.consumed < max && s.log == [Entry(t, Graced(true))]
  {
    var run := [Begin(t, GraceCall), Advance(t)];
    var s0 := StateAt(max, run, 0);
    var s1 := StateAt(max, run, 1);
    assert s1 == Step(s0, run[0]) && StateAt(max, run, 2) == Step(s1, run[1]);
  }

  // ---- Retries ----

  /** A thread only has to retry because another one got through: between a load and
      a failed swap some operation changed the counter. */
  lemma {:induction false} RetryMeansProgress(max: int, run: seq<Event>, m: nat, n: nat, t: Thread)
    requires m < n < |run|
    requires run[m] == Advance(t) && PcOf(StateAt(max, run, m), t).Loading?
    requires forall k :: m < k < n ==> run[k] != Advance(t)
    requires run[n] == Advance(t) && PcOf(StateAt(max, run, n), t).Swapping?
    requires PcOf(StateAt(max, run, n + 1), t).Loading?
    ensures exists k :: m < k < n && StateAt(max, run, k).consumed != StateAt(max, run, k + 1).consumed
  {
    LoadedStays(max, run, m, n, t);
    if forall k :: m < k < n ==> StateAt(max, run, k).consumed == StateAt(max, run, k + 1).consumed {
      NothingChanged(max, run, m + 1, n);
      assert false;
    }
  }

  lemma {:induction false} LoadedStays(max: int, run: seq<Event>, m: nat, n: nat, t: Thread)
    requires m < n <= |run|
    requires run[m] == Advance(t) && PcOf(StateAt(max, run, m), t).Loading?
    requires forall k :: m < k < n ==> run[k] != Advance(t)
    requires PcOf(StateAt(max, run, n), t).Swapping?
    ensures PcOf(StateAt(max, run, n), t).loaded == StateAt(max, run, m + 1).consumed
    decreases n
  {
    if m + 1 < n {
      LoadedStays(max, run, m, n - 1, t);
    }
  }

  lemma {:induction false} NothingChanged(max: int, run: seq<Event>, a: nat, b: nat)
    requires a <= b <= |run|
    requires forall k :: a <= k < b ==> StateAt(max, run, k).consumed == StateAt(max, run, k + 1).consumed
    ensures StateAt(max, run, a).consumed == StateAt(max, run, b).consumed
    decreases b
  {
    if a < b {
      NothingChanged(max, run, a, b - 1);
    }
  }
}
