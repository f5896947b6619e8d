/** The prompt-too-long loop of LLM compaction: when the API rejects a prompt for
    its length, the oldest rounds are dropped and the rest is sent again. */
module PromptRetry {
  import opened Wrappers
  import opened Lists
  import opened Messages
  import opened Reals

  type Rounds = seq<seq<Message>>

  predicate IsSystemMessage(m: Message) {
    m.role == OtherRole("system")
  }

  // ---- Rounds ----

  /** A user message and what follows it up to the next one. */
  ghost predicate IsTail(round: seq<Message>) {
    forall j :: 0 < j < |round| ==> round[j].role != User
  }

  /** Rounds start at the first message and at every user message after it. */
  ghost predicate AreRounds(rs: Rounds) {
    && (forall k :: 0 <= k < |rs| ==> rs[k] != [] && IsTail(rs[k]))
    && (forall k :: 0 < k < |rs| ==> rs[k][0].role == User)
  }

  ghost predicate GroupsInto(ms: seq<Message>, rs: Rounds) {
    AreRounds(rs) && Flatten(rs) == ms
  }

  /** Only one list of rounds flattens to `ms`. */
  lemma {:induction false} GroupsUnique(ms: seq<Message>, a: Rounds, b: Rounds)
    requires GroupsInto(ms, a) && GroupsInto(ms, b)
    ensures a == b
    decreases |a|
  {
    if a == [] || b == [] {
      NoRounds(a);
      NoRounds(b);
    } else {
      var p, q := a[..|a| - 1], b[..|b| - 1];
      SameLast(ms, a, b);
      GroupsUnique(Flatten(p), p, q);
      assert a == p + [a[|a| - 1]] && b == q + [b[|b| - 1]];
    }
  }

  lemma NoRounds(rs: Rounds)
    requires AreRounds(rs)
    ensures rs == [] <==> Flatten(rs) == []
  {
  }

  lemma {:induction false} SameLast(ms: seq<Message>, a: Rounds, b: Rounds)
    requires GroupsInto(ms, a) && GroupsInto(ms, b) && a != [] && b != []
    ensures a[|a| - 1] == b[|b| - 1] && Flatten(a[..|a| - 1]) == Flatten(b[..|b| - 1])
  {
    var m, n := |Flatten(a[..|a| - 1])|, |Flatten(b[..|b| - 1])|;
    LastStart(ms, a, b);
    LastStart(ms, b, a);
    assert ms[..m] == Flatten(a[..|a| - 1]) && ms[m..] == a[|a| - 1];
    assert ms[..n] == Flatten(b[..|b| - 1]) && ms[n..] == b[|b| - 1];
  }

  /** The last round of `b` does not start after that of `a`. */
  lemma {:induction false} LastStart(ms: seq<Message>, a: Rounds, b: Rounds)
    requires GroupsInto(ms, a) && GroupsInto(ms, b) && a != [] && b != []
    ensures |Flatten(b[..|b| - 1])| <= |Flatten(a[..|a| - 1])|
  {
    var m, n := |Flatten(a[..|a| - 1])|, |Flatten(b[..|b| - 1])|;
    var last := a[|a| - 1];
    assert ms[m..] == last && ms[n..] == b[|b| - 1];
    assert n > 0 ==> ms[n].role == User;
  }

  method GroupMessageParamsByRound(messages: seq<Message>) returns (rounds: Rounds)
    ensures GroupsInto(messages, rounds)
  {
    rounds := [];
    var current: seq<Message> := [];
    var firstMsg := true;
    for i := 0 to |messages|
      invariant firstMsg <==> i == 0
      invariant firstMsg ==> rounds == [] && current == []
      invariant !firstMsg ==> current != [] && GroupsInto(messages[..i], rounds + [current])
    {
      var msg := messages[i];
      assert messages[..i + 1] == messages[..i] + [msg];
      if msg.role == User || firstMsg {
        if firstMsg {
          FlattenOne([msg]);
          assert [] + [[msg]] == [[msg]];
        } else {
          StartRound(messages[..i], rounds + [current], msg);
        }
        if |current| > 0 {
          rounds := rounds + [current];
        }
        current := [msg];
        firstMsg := false;
      } else {
        ExtendRound(messages[..i], rounds, current, msg);
        current := current + [msg];
      }
    }
    assert messages[..|messages|] == messages;
    if |current| > 0 {
      rounds := rounds + [current];
    }
  }

  lemma StartRound(ms: seq<Message>, rs: Rounds, msg: Message)
    requires GroupsInto(ms, rs) && msg.role == User
    ensures GroupsInto(ms + [msg], rs + [[msg]])
  {
    FlattenSnoc(rs, [msg]);
  }

  lemma ExtendRound(ms: seq<Message>, rs: Rounds, current: seq<Message>, msg: Message)
    requires GroupsInto(ms, rs + [current]) && msg.role != User && current != []
    ensures GroupsInto(ms + [msg], rs + [current + [msg]])
  {
    FlattenSnoc(rs, current);
    FlattenSnoc(rs, current + [msg]);
    assert Flatten(rs) + current + [msg] == Flatten(rs) + (current + [msg]);
    var before: Rounds, after: Rounds := rs + [current], rs + [current + [msg]];
    assert before[|rs|] == current;
    forall k | 0 <= k < |after|
      ensures after[k] != [] && IsTail(after[k]) && (k > 0 ==> after[k][0].role == User)
    {
      assert k < |rs| ==> after[k] == before[k];
    }
  }

  // ---- How much is dropped ----

  datatype Outcome<R> =
    | Summary(value: R)
    | TooLong(gap: Option<(int, int)>)
    | OtherError(message: string)

  /** The share of the messages to drop: what the token gap asks for, but a fifth at
      least; a fifth also when the gap is unknown. */
  function DropFraction(gap: Option<(int, int)>, total: nat): (fraction: real)
    ensures fraction == 0.0 || fraction >= 0.2
  {
    if gap.Some? && gap.value.0 > 0 then
      if total == 0 then 0.0
      else
        var fraction := (gap.value.0 - gap.value.1) as real / total as real;
        if fraction < 0.2 then 0.2 else fraction
    else 0.2
  }

  function DropCount(n: nat, fraction: real): nat
    requires fraction >= 0.0
  {
    ShareNonNegative(n, fraction);
    var wanted := (n as real * fraction).Floor;
    var some := if wanted < 1 then 1 else wanted;
    if some > n / 2 then n / 2 else some
  }

  lemma ShareNonNegative(n: nat, fraction: real)
    requires fraction >= 0.0
    ensures n as real * fraction >= 0.0
  {
    ProductNonNegative(n as real, fraction);
  }

  // ---- One step of dropping ----

  /** A leading system round is never dropped. */
  function LeadRounds(rs: Rounds): nat
    requires AreRounds(rs)
  {
    if rs != [] && IsSystemMessage(rs[0][0]) then 1 else 0
  }

  function CountFrom(rs: Rounds, from: nat, n: nat): nat
    requires from + n <= |rs|
  {
    if n == 0 then 0 else CountFrom(rs, from, n - 1) + |rs[from + n - 1]|
  }

  /** `d` is the least number of rounds after the lead that hold `dropCount` messages. */
  ghost predicate LeastDrop(rs: Rounds, dropCount: nat, d: nat)
    requires AreRounds(rs)
  {
    var lead := LeadRounds(rs);
    && 0 < d && lead + d <= |rs|
    && CountFrom(rs, lead, d) >= dropCount && CountFrom(rs, lead, d - 1) < dropCount
  }

  /** That many rounds can go and leave two after them. */
  ghost predicate CanDrop(rs: Rounds, dropCount: nat, d: nat)
    requires AreRounds(rs)
  {
    |rs| > 3 && LeastDrop(rs, dropCount, d) && LeadRounds(rs) + d + 2 <= |rs|
  }

  function Without(rs: Rounds, from: nat, d: nat): Rounds
    requires from + d <= |rs|
  {
    rs[..from] + rs[from + d..]
  }

  lemma {:induction false} CountGrows(rs: Rounds, from: nat, m: nat, n: nat)
    requires m <= n && from + n <= |rs| && AreRounds(rs)
    ensures CountFrom(rs, from, m) + (n - m) <= CountFrom(rs, from, n)
    decreases n
  {
    if m < n {
      CountGrows(rs, from, m, n - 1);
    }
  }

  lemma LeastDropUnique(rs: Rounds, dropCount: nat, d: nat, e: nat)
    requires AreRounds(rs) && LeastDrop(rs, dropCount, d) && LeastDrop(rs, dropCount, e)
    ensures d == e
  {
    var lead := LeadRounds(rs);
    if d < e {
      CountGrows(rs, lead, d, e - 1);
    } else if e < d {
      CountGrows(rs, lead, e, d - 1);
    }
  }

  /** The number of rounds to drop, counted as the code counts it. */
  method CountDrops(rounds: Rounds, dropCount: nat) returns (dropRounds: nat)
    requires AreRounds(rounds) && |rounds| > 3 && dropCount > 0
    ensures LeadRounds(rounds) + dropRounds <= |rounds| && dropRounds > 0
    ensures LeastDrop(rounds, dropCount, dropRounds)
            || (LeadRounds(rounds) + dropRounds == |rounds|
                && CountFrom(rounds, LeadRounds(rounds), dropRounds) < dropCount)
  {
    dropRounds := 0;
    var droppedMsgs := 0;
    ghost var lead := LeadRounds(rounds);
    for i := 0 to |rounds|
      invariant dropRounds == (if i <= lead then 0 else i - lead)
      invariant droppedMsgs == CountFrom(rounds, lead, dropRounds)
      invariant droppedMsgs < dropCount
    {
      if i == 0 && |rounds| > 1 && rounds[0][0].role == OtherRole("system") {
        continue;
      }
      dropRounds := dropRounds + 1;
      droppedMsgs := droppedMsgs + |rounds[i]|;
      if droppedMsgs >= dropCount {
        break;
      }
    }
    // At least one round has been counted, so the fallback to one never applies.
  }

  /** `next` is `ms` without the least number of rounds after the lead that hold
      `dropCount` messages. */
  ghost predicate DropsTo(ms: seq<Message>, dropCount: nat, next: seq<Message>) {
    exists rs, d ::
      && GroupsInto(ms, rs) && CanDrop(rs, dropCount, d)
      && next == Flatten(Without(rs, LeadRounds(rs), d))
  }

  /** Nothing can be dropped from `ms`. */
  ghost predicate Stuck(ms: seq<Message>, dropCount: nat) {
    forall rs, d :: GroupsInto(ms, rs) ==> !CanDrop(rs, dropCount, d)
  }

  lemma NoDrop(ms: seq<Message>, dropCount: nat, rs: Rounds)
    requires GroupsInto(ms, rs) && forall d :: !CanDrop(rs, dropCount, d)
    ensures Stuck(ms, dropCount)
  {
    forall other, d | GroupsInto(ms, other)
      ensures !CanDrop(other, dropCount, d)
    {
      GroupsUnique(ms, rs, other);
    }
  }

  /** One pass of the loop body after a length error: the messages to send next, or
      nothing when too little would be left. */
  method DropOldest(messages: seq<Message>, fraction: real) returns (next: Option<seq<Message>>)
    requires fraction >= 0.0 && messages != []
    ensures next.Some? ==> DropsTo(messages, DropCount(|messages|, fraction), next.value) && next.value != []
    ensures next.None? ==> Stuck(messages, DropCount(|messages|, fraction))
  {
    ShareNonNegative(|messages|, fraction);
    var dropCount := (|messages| as real * fraction).Floor;
    if dropCount < 1 {
      dropCount := 1;
    }
    if dropCount > |messages| / 2 {
      dropCount := |messages| / 2;
    }
    var rounds := GroupMessageParamsByRound(messages);
    if |rounds| <= 3 {
      NoDrop(messages, dropCount, rounds);
      return None;
    }
    ManyMessages(rounds);
    var dropRounds := CountDrops(rounds, dropCount);
    ghost var counted := dropRounds;
    var startIdx := 0;
    if |rounds| > 1 && rounds[0][0].role == OtherRole("system") {
      startIdx := 1;
      if dropRounds >= |rounds| - 2 {
        dropRounds := |rounds| - 2;
      }
    }
    if dropRounds <= 0 || startIdx + dropRounds >= |rounds| - 1 {
      OnlyThatDrop(rounds, dropCount, counted);
      NoDrop(messages, dropCount, rounds);
      return None;
    }
    var kept := KeepOthers(rounds, startIdx, dropRounds);
    ManyLeft(rounds, startIdx, dropRounds);
    if |kept| < 2 {
      return None;
    }
    assert CanDrop(rounds, dropCount, dropRounds);
    return Some(kept);
  }

  method KeepOthers(rounds: Rounds, startIdx: nat, dropRounds: nat) returns (kept: seq<Message>)
    requires startIdx + dropRounds <= |rounds|
    ensures kept == Flatten(Without(rounds, startIdx, dropRounds))
  {
    kept := [];
    for i := 0 to |rounds|
      invariant kept == Flatten(KeptTo(rounds, startIdx, dropRounds, i))
    {
      KeptStep(rounds, startIdx, dropRounds, i);
      if startIdx <= i < startIdx + dropRounds {
        continue;
      }
      kept := kept + rounds[i];
    }
    assert rounds[startIdx + dropRounds..|rounds|] == rounds[startIdx + dropRounds..];
    assert KeptTo(rounds, startIdx, dropRounds, |rounds|) == Without(rounds, startIdx, dropRounds);
  }

  /** The rounds kept among the first `i`. */
  ghost function KeptTo(rs: Rounds, from: nat, d: nat, i: nat): Rounds
    requires from + d <= |rs| && i <= |rs|
  {
    if i <= from then rs[..i]
    else rs[..from] + if i <= from + d then [] else rs[from + d..i]
  }

  lemma KeptStep(rs: Rounds, from: nat, d: nat, i: nat)
    requires from + d <= |rs| && i < |rs|
    ensures Flatten(KeptTo(rs, from, d, i + 1))
         == Flatten(KeptTo(rs, from, d, i)) + if from <= i < from + d then [] else rs[i]
  {
    var before, after := KeptTo(rs, from, d, i), KeptTo(rs, from, d, i + 1);
    if from <= i < from + d {
      assert rs[..from] + [] == rs[..from];
      assert before == after;
    } else {
      assert after == before + [rs[i]];
      FlattenSnoc(before, rs[i]);
    }
  }

  lemma {:induction false} RoundsHoldMessages(rs: Rounds)
    requires AreRounds(rs)
    ensures |Flatten(rs)| >= |rs|
  {
    if rs != [] {
      RoundsHoldMessages(rs[..|rs| - 1]);
    }
  }

  lemma ManyMessages(rs: Rounds)
    requires AreRounds(rs) && |rs| > 3
    ensures |Flatten(rs)| > 3
  {
    RoundsHoldMessages(rs);
  }

  lemma WithoutAreRounds(rs: Rounds, from: nat, d: nat)
    requires AreRounds(rs) && from + d <= |rs|
    ensures AreRounds(Without(rs, from, d))
  {
  }

  lemma ManyLeft(rs: Rounds, from: nat, d: nat)
    requires AreRounds(rs) && from + d + 2 <= |rs|
    ensures |Flatten(Without(rs, from, d))| >= 2
  {
    WithoutAreRounds(rs, from, d);
    RoundsHoldMessages(Without(rs, from, d));
  }

  lemma OnlyThatDrop(rs: Rounds, dropCount: nat, d: nat)
    requires AreRounds(rs) && LeadRounds(rs) + d <= |rs| && d > 0 && LeadRounds(rs) + d + 2 > |rs|
    requires LeastDrop(rs, dropCount, d)
             || (LeadRounds(rs) + d == |rs| && CountFrom(rs, LeadRounds(rs), d) < dropCount)
    ensures forall e :: !CanDrop(rs, dropCount, e)
  {
    forall e | LeastDrop(rs, dropCount, e)
      ensures LeadRounds(rs) + e + 2 > |rs|
    {
      if LeastDrop(rs, dropCount, d) {
        LeastDropUnique(rs, dropCount, d, e);
      } else {
        CountGrows(rs, LeadRounds(rs), e, d);
      }
    }
  }

  // ---- The loop ----

  const MAX_PTL_RETRIES: nat := 3

  /** What the retries leave of `rs`: the lead and everything from round `e` on, with
      two rounds at least if anything was dropped. */
  ghost predicate Leaves(rs: Rounds, e: nat, ms: seq<Message>)
    requires AreRounds(rs)
  {
    var lead := LeadRounds(rs);
    && lead <= e <= |rs| && (e == lead || e + 2 <= |rs|)
    && ms == Flatten(Without(rs, lead, e - lead))
  }

  /** Grouping what was kept gives back the very rounds that were kept. */
  lemma RegroupsToKept(rs: Rounds, from: nat, d: nat, regrouped: Rounds)
    requires AreRounds(rs) && from + d <= |rs| && GroupsInto(Flatten(Without(rs, from, d)), regrouped)
    ensures regrouped == Without(rs, from, d)
  {
    WithoutAreRounds(rs, from, d);
    GroupsUnique(Flatten(Without(rs, from, d)), regrouped, Without(rs, from, d));
  }

  lemma {:induction false} CountIsFlat(rs: Rounds, from: nat, n: nat)
    requires from + n <= |rs|
    ensures CountFrom(rs, from, n) == |Flatten(rs[from..from + n])|
  {
    if n > 0 {
      CountIsFlat(rs, from, n - 1);
      assert rs[from..from + n] == rs[from..from + n - 1] + [rs[from + n - 1]];
      FlattenSnoc(rs[from..from + n - 1], rs[from + n - 1]);
    }
  }

  lemma WithoutSize(rs: Rounds, from: nat, d: nat)
    requires from + d <= |rs|
    ensures |Flatten(Without(rs, from, d))| == |Flatten(rs)| - CountFrom(rs, from, d)
  {
    SplitParts(rs, from);
    assert rs[from..][..d] == rs[from..from + d] && rs[from..][d..] == rs[from + d..];
    SplitParts(rs[from..], d);
    FlattenConcat(rs[..from], rs[from + d..]);
    CountIsFlat(rs, from, d);
  }

  /** One more drop leaves less, and still what `Leaves` asks for. */
  lemma {:induction false} DropLeaves(rs: Rounds, e: nat, ms: seq<Message>, cur: Rounds, d: nat)
    requires AreRounds(rs) && Leaves(rs, e, ms) && GroupsInto(ms, cur)
    requires 0 < d && LeadRounds(cur) + d + 2 <= |cur|
    ensures e + d <= |rs| && Leaves(rs, e + d, Flatten(Without(cur, LeadRounds(cur), d)))
    ensures |Flatten(Without(cur, LeadRounds(cur), d))| < |ms|
  {
    KeptRounds(rs, e, ms, cur);
    LeavesLess(rs, e, d, cur);
    Shrinks(cur, LeadRounds(rs), d);
  }

  lemma {:induction false} KeptRounds(rs: Rounds, e: nat, ms: seq<Message>, cur: Rounds)
    requires AreRounds(rs) && Leaves(rs, e, ms) && GroupsInto(ms, cur)
    ensures cur == Without(rs, LeadRounds(rs), e - LeadRounds(rs)) && ms == Flatten(cur)
    ensures AreRounds(cur) && LeadRounds(cur) == LeadRounds(rs)
  {
    RegroupsToKept(rs, LeadRounds(rs), e - LeadRounds(rs), cur);
    SameLead(rs, e);
  }

  lemma {:induction false} LeavesLess(rs: Rounds, e: nat, d: nat, cur: Rounds)
    requires AreRounds(rs) && LeadRounds(rs) <= e <= |rs|
    requires cur == Without(rs, LeadRounds(rs), e - LeadRounds(rs)) && LeadRounds(rs) + d + 2 <= |cur|
    ensures e + d <= |rs| && Leaves(rs, e + d, Flatten(Without(cur, LeadRounds(rs), d)))
  {
    WithoutTwice(rs, LeadRounds(rs), e - LeadRounds(rs), d);
  }

  lemma SameLead(rs: Rounds, e: nat)
    requires AreRounds(rs) && LeadRounds(rs) <= e <= |rs| && (e == LeadRounds(rs) || e + 2 <= |rs|)
    ensures AreRounds(Without(rs, LeadRounds(rs), e - LeadRounds(rs)))
    ensures LeadRounds(Without(rs, LeadRounds(rs), e - LeadRounds(rs))) == LeadRounds(rs)
  {
    var lead := LeadRounds(rs);
    WithoutAreRounds(rs, lead, e - lead);
    if lead == 0 && e > 0 {
      assert Without(rs, lead, e - lead)[0] == rs[e];
    }
  }

  lemma WithoutTwice(rs: Rounds, from: nat, d: nat, more: nat)
    requires from + d <= |rs| && from + more <= |Without(rs, from, d)|
    ensures from + d + more <= |rs| && Without(Without(rs, from, d), from, more) == Without(rs, from, d + more)
  {
  }

  lemma Shrinks(rs: Rounds, from: nat, d: nat)
    requires AreRounds(rs) && from + d <= |rs| && 0 < d
    ensures |Flatten(Without(rs, from, d))| < |Flatten(rs)|
  {
    WithoutSize(rs, from, d);
    CountGrows(rs, from, 0, d);
  }

  /** A sequence of attempts the loop may make.  Each is answered by the API, all but
      the last with a length error; each next one is the one before it less the
      rounds that error asks to drop. */
  ghost predicate Attempts<R(!new)>(
    api: (nat, seq<Message>) -> Outcome<R>, estimate: seq<Message> -> nat,
    messages: seq<Message>, sent: seq<seq<Message>>)
  {
    && 0 < |sent| <= MAX_PTL_RETRIES + 1
    && sent[0] == messages
    && forall k, j {:trigger Follows(api, estimate, k, sent[k], sent[j])} ::
         0 <= k < j < |sent| && j == k + 1 ==> Follows(api, estimate, k, sent[k], sent[j])
  }

  /** `next` is what is sent after the API found `ms`, attempt `k`, too long. */
  ghost predicate Follows<R(!new)>(
    api: (nat, seq<Message>) -> Outcome<R>, estimate: seq<Message> -> nat,
    k: nat, ms: seq<Message>, next: seq<Message>)
  {
    api(k, ms).TooLong? && DropsTo(ms, WantedDrop(estimate, ms, api(k, ms).gap), next)
  }

  function WantedDrop(estimate: seq<Message> -> nat, ms: seq<Message>, gap: Option<(int, int)>): nat {
    DropCount(|ms|, DropFraction(gap, estimate(ms)))
  }

  /** How the loop ends: with the outcome of the last attempt, which may only be a
      length error if no retries are left or nothing more can be dropped. */
  ghost predicate Concludes<R(!new)>(
    api: (nat, seq<Message>) -> Outcome<R>, estimate: seq<Message> -> nat,
    sent: seq<seq<Message>>, result: Result<R, string>)
    requires sent != []
  {
    var n := |sent| - 1;
    match api(n, sent[n])
    case Summary(value) => result == Success(value)
    case OtherError(message) => result == Failure(message)
    case TooLong(gap) => result.Failure? && (n == MAX_PTL_RETRIES || Stuck(sent[n], WantedDrop(estimate, sent[n], gap)))
  }

  lemma Extends<R(!new)>(
    api: (nat, seq<Message>) -> Outcome<R>, estimate: seq<Message> -> nat,
    messages: seq<Message>, sent: seq<seq<Message>>, next: seq<Message>)
    requires |sent| <= MAX_PTL_RETRIES
    requires sent == [] ==> next == messages
    requires sent != [] ==> Attempts(api, estimate, messages, sent)
    requires sent != [] ==> Follows(api, estimate, |sent| - 1, sent[|sent| - 1], next)
    ensures Attempts(api, estimate, messages, sent + [next])
  {
  }

  /** `sent` lists what was passed to the API, in order. */
  method CompactConversationLLM<R(!new)>(
    messages: seq<Message>, api: (nat, seq<Message>) -> Outcome<R>, estimate: seq<Message> -> nat)
    returns (result: Result<R, string>, sent: seq<seq<Message>>)
    ensures messages == [] ==> result.Failure? && sent == []
    ensures |sent| <= 4
    ensures messages != [] ==> Attempts(api, estimate, messages, sent)
    ensures messages != [] ==> Concludes(api, estimate, sent, result)
  {
    sent := [];
    if |messages| == 0 {
      return Failure("no messages to compact"), sent;
    }
    var current := messages;
    var attempt := 0;
    while attempt <= MAX_PTL_RETRIES
      invariant attempt <= MAX_PTL_RETRIES + 1
      invariant |sent| == attempt && current != []
      invariant attempt == 0 ==> current == messages
      invariant attempt > 0 ==> Attempts(api, estimate, messages, sent)
      invariant attempt > 0 ==> Follows(api, estimate, attempt - 1, sent[attempt - 1], current)
    {
      var outcome := api(attempt, current);
      Extends(api, estimate, messages, sent, current);
      sent := sent + [current];
      match outcome {
        case Summary(value) =>
          return Success(value), sent;
        case OtherError(message) =>
          return Failure(message), sent;
        case TooLong(gap) =>
          var fraction := DropFraction(gap, estimate(current));
          var next := DropOldest(current, fraction);
          if next.None? {
            break;
          }
          assert Follows(api, estimate, attempt, current, next.value);
          current := next.value;
      }
      attempt := attempt + 1;
    }
    return Failure("compact API error: prompt too long"), sent;
  }

  // ---- What every attempt keeps ----

  lemma AllLeft(ms: seq<Message>, rs: Rounds)
    requires GroupsInto(ms, rs)
    ensures Leaves(rs, LeadRounds(rs), ms)
  {
    assert Without(rs, LeadRounds(rs), 0) == rs;
  }

  /** Every attempt sends the leading system round, if there is one, and a run of the
      last rounds. */
  lemma {:induction false} EveryAttemptLeaves<R(!new)>(
    api: (nat, seq<Message>) -> Outcome<R>, estimate: seq<Message> -> nat,
    messages: seq<Message>, sent: seq<seq<Message>>, rs: Rounds, k: nat) returns (e: nat)
    requires Attempts(api, estimate, messages, sent) && GroupsInto(messages, rs) && k < |sent|
    ensures Leaves(rs, e, sent[k])
  {
    if k == 0 {
      e := LeadRounds(rs);
      AllLeft(messages, rs);
    } else {
      var before := EveryAttemptLeaves(api, estimate, messages, sent, rs, k - 1);
      e := StepLeaves(api, estimate, messages, sent, rs, k - 1, before);
    }
  }

  lemma {:induction false} StepLeaves<R(!new)>(
    api: (nat, seq<Message>) -> Outcome<R>, estimate: seq<Message> -> nat,
    messages: seq<Message>, sent: seq<seq<Message>>, rs: Rounds, k: nat, before: nat) returns (e: nat)
    requires Attempts(api, estimate, messages, sent) && GroupsInto(messages, rs)
    requires k + 1 < |sent| && Leaves(rs, before, sent[k])
    ensures Leaves(rs, e, sent[k + 1]) && |sent[k + 1]| < |sent[k]|
  {
    var j := k + 1;
    assert Follows(api, estimate, k, sent[k], sent[j]);
    e := NextLeaves(api, estimate, k, sent[k], sent[k + 1], rs, before);
  }

  lemma DroppedRounds(ms: seq<Message>, dropCount: nat, next: seq<Message>) returns (cur: Rounds, d: nat)
    requires DropsTo(ms, dropCount, next)
    ensures GroupsInto(ms, cur) && 0 < d && LeadRounds(cur) + d + 2 <= |cur|
    ensures next == Flatten(Without(cur, LeadRounds(cur), d))
  {
    cur, d :|
      && GroupsInto(ms, cur) && CanDrop(cur, dropCount, d)
      && next == Flatten(Without(cur, LeadRounds(cur), d));
  }

  lemma {:induction false} NextLeaves<R(!new)>(
    api: (nat, seq<Message>) -> Outcome<R>, estimate: seq<Message> -> nat,
    k: nat, ms: seq<Message>, next: seq<Message>, rs: Rounds, before: nat) returns (e: nat)
    requires Follows(api, estimate, k, ms, next) && AreRounds(rs) && Leaves(rs, before, ms)
    ensures Leaves(rs, e, next) && |next| < |ms|
  {
    e := DropsToLeaves(rs, before, ms, WantedDrop(estimate, ms, api(k, ms).gap), next);
  }

  lemma {:induction false} DropsToLeaves(rs: Rounds, before: nat, ms: seq<Message>, dropCount: nat, next: seq<Message>)
    returns (e: nat)
    requires AreRounds(rs) && Leaves(rs, before, ms) && DropsTo(ms, dropCount, next)
    ensures Leaves(rs, e, next) && |next| < |ms|
  {
    var cur, d := DroppedRounds(ms, dropCount, next);
    DropLeaves(rs, before, ms, cur, d);
    e := before + d;
  }

  /** Attempts get strictly shorter. */
  lemma AttemptsShrink<R(!new)>(
    api: (nat, seq<Message>) -> Outcome<R>, estimate: seq<Message> -> nat,
    messages: seq<Message>, sent: seq<seq<Message>>, rs: Rounds, k: nat)
    requires Attempts(api, estimate, messages, sent) && GroupsInto(messages, rs) && k + 1 < |sent|
    ensures |sent[k + 1]| < |sent[k]|
  {
    var before := EveryAttemptLeaves(api, estimate, messages, sent, rs, k);
    var e := StepLeaves(api, estimate, messages, sent, rs, k, before);
  }

  /** In terms of messages: an attempt is a prefix of the original that holds the
      leading system round and nothing else, followed by a suffix of the original
      that holds its last two rounds, unless it is the original itself. */
  lemma AttemptKeepsEnds<R(!new)>(
    api: (nat, seq<Message>) -> Outcome<R>, estimate: seq<Message> -> nat,
    messages: seq<Message>, sent: seq<seq<Message>>, rs: Rounds, k: nat)
    returns (c: nat)
    requires Attempts(api, estimate, messages, sent) && GroupsInto(messages, rs) && k < |sent|
    ensures var lead := |Flatten(rs[..LeadRounds(rs)])|;
            && lead <= c <= |messages|
            && sent[k] == messages[..lead] + messages[c..]
            && (sent[k] == messages || (|rs| >= 2 && c <= |Flatten(rs[..|rs| - 2])|))
  {
    var e := EveryAttemptLeaves(api, estimate, messages, sent, rs, k);
    c := LeavesEnds(rs, e, sent[k]);
  }

  lemma LeavesEnds(rs: Rounds, e: nat, ms: seq<Message>) returns (c: nat)
    requires AreRounds(rs) && Leaves(rs, e, ms)
    ensures var lead, all := |Flatten(rs[..LeadRounds(rs)])|, Flatten(rs);
            && lead <= c <= |all|
            && ms == all[..lead] + all[c..]
            && (ms == all || (|rs| >= 2 && c <= |Flatten(rs[..|rs| - 2])|))
  {
    var lead := LeadRounds(rs);
    c := |Flatten(rs[..e])|;
    SplitParts(rs, lead);
    SplitParts(rs, e);
    FlattenConcat(rs[..lead], rs[e..]);
    PrefixGrows(rs, lead, e);
    if e == lead {
      assert rs[..lead] + rs[e..] == rs;
    } else {
      PrefixGrows(rs, e, |rs| - 2);
    }
  }

  lemma PrefixGrows(rs: Rounds, a: nat, b: nat)
    requires a <= b <= |rs|
    ensures |Flatten(rs[..a])| <= |Flatten(rs[..b])|
  {
    assert rs[..b][..a] == rs[..a];
    SplitParts(rs[..b], a);
  }

  // ---- How much an attempt drops, in whole numbers ----

  /** Dropping `m` of `n` messages is enough for a gap `(actual, limit)`, when `total`
      tokens are estimated: half of them always is; otherwise it takes one message, a
      fifth of them and the share that the tokens over the limit have in the total.
      A fifth it is also when the gap is unknown. */
  predicate Enough(n: nat, gap: Option<(int, int)>, total: nat, m: nat) {
    2 * m + 1 >= n || (m >= 1 && CoversGap(n, gap, total, m))
  }

  predicate CoversGap(n: nat, gap: Option<(int, int)>, total: nat, m: nat) {
    if gap.Some? && gap.value.0 > 0 then
      total == 0 || (5 * m + 4 >= n && n * (gap.value.0 - gap.value.1) < (m + 1) * total)
    else 5 * m + 4 >= n
  }

  lemma FloorBelow(x: real, m: nat)
    ensures x.Floor <= m <==> x < (m + 1) as real
  {
  }

  /** Both sides of a share are multiplied by the total. */
  lemma ShareBelow(n: nat, needed: int, total: nat, c: nat)
    requires total > 0
    ensures n as real * (needed as real / total as real) < c as real <==> n * needed < c * total
  {
    var share := needed as real / total as real;
    assert share * total as real == needed as real;
    TimesPositive(n as real * share, c as real, total as real);
    Associate(n as real, share, total as real);
    Exact(n, needed);
    Exact(c, total);
  }

  lemma Associate(x: real, y: real, z: real)
    ensures (x * y) * z == x * (y * z)
  {
  }

  lemma Exact(x: int, y: int)
    ensures (x * y) as real == x as real * y as real
  {
  }

  lemma ShareGrows(n: nat, a: real, b: real)
    requires a <= b
    ensures n as real * a <= n as real * b
  {
    ProductNonNegative(n as real, b - a);
    assert n as real * (b - a) == n as real * b - n as real * a;
  }

  lemma FifthBelow(n: nat, m: nat)
    ensures n as real * 0.2 < (m + 1) as real <==> 5 * m + 4 >= n
  {
  }

  lemma AtLeastFifth(n: nat, needed: int, total: nat, m: nat, fraction: real)
    requires total > 0
    requires fraction == if needed as real / total as real < 0.2 then 0.2 else needed as real / total as real
    ensures n as real * fraction < (m + 1) as real <==> 5 * m + 4 >= n && n * needed < (m + 1) * total
  {
    var share := needed as real / total as real;
    ShareBelow(n, needed, total, m + 1);
    FifthBelow(n, m);
    if share < 0.2 {
      ShareGrows(n, share, 0.2);
    } else {
      ShareGrows(n, 0.2, share);
    }
  }

  lemma CoversIff(n: nat, gap: Option<(int, int)>, total: nat, m: nat)
    ensures n as real * DropFraction(gap, total) < (m + 1) as real <==> CoversGap(n, gap, total, m)
  {
    if gap.Some? && gap.value.0 > 0 {
      if total > 0 {
        AtLeastFifth(n, gap.value.0 - gap.value.1, total, m, DropFraction(gap, total));
      } else {
        assert n as real * 0.0 == 0.0;
      }
    } else {
      FifthBelow(n, m);
    }
  }

  lemma CountIff(n: nat, fraction: real, m: nat)
    requires fraction >= 0.0
    ensures m >= DropCount(n, fraction) <==> 2 * m + 1 >= n || (m >= 1 && n as real * fraction < (m + 1) as real)
  {
    FloorBelow(n as real * fraction, m);
  }

  /** The floating-point share comes to exactly this. */
  lemma EnoughIff(n: nat, gap: Option<(int, int)>, total: nat, m: nat)
    ensures m >= DropCount(n, DropFraction(gap, total)) <==> Enough(n, gap, total, m)
  {
    CountIff(n, DropFraction(gap, total), m);
    CoversIff(n, gap, total, m);
  }

  /** What separates an attempt from the one before: the rounds `rs[lead..lead + d]`,
      which hold enough messages, while one round fewer would not. */
  ghost predicate DropsJustEnough(ms: seq<Message>, gap: Option<(int, int)>, total: nat, next: seq<Message>,
                                  rs: Rounds, d: nat) {
    && GroupsInto(ms, rs) && 0 < d && LeadRounds(rs) + d + 2 <= |rs|
    && next == Flatten(Without(rs, LeadRounds(rs), d))
    && var m := |ms| - |next|;
    var last := |rs[LeadRounds(rs) + d - 1]|;
    && 0 < last <= m
    && Enough(|ms|, gap, total, m) && !Enough(|ms|, gap, total, m - last)
  }

  lemma DropsToJustEnough(ms: seq<Message>, gap: Option<(int, int)>, total: nat, next: seq<Message>)
    returns (rs: Rounds, d: nat)
    requires DropsTo(ms, DropCount(|ms|, DropFraction(gap, total)), next)
    ensures DropsJustEnough(ms, gap, total, next, rs, d)
  {
    var dropCount := DropCount(|ms|, DropFraction(gap, total));
    rs, d :| GroupsInto(ms, rs) && CanDrop(rs, dropCount, d) && next == Flatten(Without(rs, LeadRounds(rs), d));
    LeastIsJustEnough(ms, gap, total, rs, d);
  }

  lemma {:induction false} LeastIsJustEnough(ms: seq<Message>, gap: Option<(int, int)>, total: nat, rs: Rounds, d: nat)
    requires GroupsInto(ms, rs) && CanDrop(rs, DropCount(|ms|, DropFraction(gap, total)), d)
    ensures DropsJustEnough(ms, gap, total, Flatten(Without(rs, LeadRounds(rs), d)), rs, d)
  {
    var lead := LeadRounds(rs);
    WithoutSize(rs, lead, d);
    EnoughIff(|ms|, gap, total, CountFrom(rs, lead, d));
    EnoughIff(|ms|, gap, total, CountFrom(rs, lead, d - 1));
  }

  /** Every retry, for any API and any estimate, drops just enough. */
  lemma AttemptDropsJustEnough<R(!new)>(
    api: (nat, seq<Message>) -> Outcome<R>, estimate: seq<Message> -> nat,
    messages: seq<Message>, sent: seq<seq<Message>>, k: nat)
    returns (rs: Rounds, d: nat)
    requires Attempts(api, estimate, messages, sent) && k + 1 < |sent|
    ensures api(k, sent[k]).TooLong?
    ensures DropsJustEnough(sent[k], api(k, sent[k]).gap, estimate(sent[k]), sent[k + 1], rs, d)
  {
    var j := k + 1;
    assert Follows(api, estimate, k, sent[k], sent[j]);
    rs, d := DropsToJustEnough(sent[k], api(k, sent[k]).gap, estimate(sent[k]), sent[j]);
  }

  /** No number of rounds that may go would be enough, or there are at most three rounds. */
  ghost predicate NothingIsEnough(ms: seq<Message>, gap: Option<(int, int)>, total: nat, rs: Rounds)
    requires AreRounds(rs)
  {
    var lead := LeadRounds(rs);
    |rs| <= 3 || forall d :: 0 < d && lead + d + 2 <= |rs| ==> !Enough(|ms|, gap, total, CountFrom(rs, lead, d))
  }

  lemma {:induction false} FirstDrop(rs: Rounds, dropCount: nat, d: nat) returns (e: nat)
    requires AreRounds(rs) && LeadRounds(rs) + d <= |rs| && 0 < dropCount <= CountFrom(rs, LeadRounds(rs), d)
    ensures e <= d && LeastDrop(rs, dropCount, e)
  {
    if CountFrom(rs, LeadRounds(rs), d - 1) >= dropCount {
      e := FirstDrop(rs, dropCount, d - 1);
    } else {
      e := d;
    }
  }

  lemma SomeIsWanted(ms: seq<Message>, gap: Option<(int, int)>, total: nat, rs: Rounds)
    requires GroupsInto(ms, rs) && |rs| > 3
    ensures DropCount(|ms|, DropFraction(gap, total)) > 0
  {
    EnoughIff(|ms|, gap, total, 0);
    RoundsHoldMessages(rs);
  }

  /** The loop is stuck exactly then. */
  lemma StuckIff(ms: seq<Message>, gap: Option<(int, int)>, total: nat, rs: Rounds)
    requires GroupsInto(ms, rs)
    ensures Stuck(ms, DropCount(|ms|, DropFraction(gap, total))) <==> NothingIsEnough(ms, gap, total, rs)
  {
    var dropCount, lead := DropCount(|ms|, DropFraction(gap, total)), LeadRounds(rs);
    if !NothingIsEnough(ms, gap, total, rs) {
      var d :| 0 < d && lead + d + 2 <= |rs| && Enough(|ms|, gap, total, CountFrom(rs, lead, d));
      EnoughIff(|ms|, gap, total, CountFrom(rs, lead, d));
      SomeIsWanted(ms, gap, total, rs);
      var e := FirstDrop(rs, dropCount, d);
      assert CanDrop(rs, dropCount, e);
    } else {
      forall d
        ensures !CanDrop(rs, dropCount, d)
      {
        if CanDrop(rs, dropCount, d) {
          EnoughIff(|ms|, gap, total, CountFrom(rs, lead, d));
        }
      }
      NoDrop(ms, dropCount, rs);
    }
  }

  /** The loop gives up on a length error only after the fourth attempt or when nothing
      that may be dropped is enough. */
  lemma GivesUpOnlyIfStuck<R(!new)>(
    api: (nat, seq<Message>) -> Outcome<R>, estimate: seq<Message> -> nat,
    sent: seq<seq<Message>>, result: Result<R, string>, rs: Rounds)
    requires sent != [] && Concludes(api, estimate, sent, result)
    requires var n := |sent| - 1; api(n, sent[n]).TooLong? && GroupsInto(sent[n], rs)
    ensures var n := |sent| - 1;
            n == MAX_PTL_RETRIES || NothingIsEnough(sent[n], api(n, sent[n]).gap, estimate(sent[n]), rs)
  {
    var n := |sent| - 1;
    StuckIff(sent[n], api(n, sent[n]).gap, estimate(sent[n]), rs);
  }
}
