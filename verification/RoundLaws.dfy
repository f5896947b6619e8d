/** What the definition of a grouping settles: the grouping itself, the number of
    its rounds, and where the last `k` rounds begin. */
module RoundLaws {
  import opened Lists
  import opened Rounds

  function UserCount(ms: Messages): nat {
    if ms == [] then 0
    else UserCount(ms[..|ms| - 1]) + if IsUser(ms[|ms| - 1]) then 1 else 0
  }

  lemma UserCountSnoc(ms: Messages, m: CompactionMessage)
    ensures UserCount(ms + [m]) == UserCount(ms) + if IsUser(m) then 1 else 0
  {
    assert (ms + [m])[..|ms|] == ms;
  }

  lemma {:induction false} UserCountConcat(a: Messages, b: Messages)
    ensures UserCount(a + b) == UserCount(a) + UserCount(b)
    decreases |b|
  {
    if b == [] {
      assert a + b == a;
    } else {
      var init, last := b[..|b| - 1], b[|b| - 1];
      UserCountConcat(a, init);
      assert a + b == (a + init) + [last];
      UserCountSnoc(a + init, last);
    }
  }

  lemma {:induction false} NoUsers(ms: Messages)
    ensures UserCount(ms) == 0 <==> !HasUser(ms)
  {
    if ms != [] {
      NoUsers(ms[..|ms| - 1]);
    }
  }

  lemma OpenedCount(round: Messages)
    requires Opened(round)
    ensures UserCount(round) == 1
  {
    assert round == [round[0]] + round[1..];
    UserCountConcat([round[0]], round[1..]);
    UserCountSnoc([], round[0]);
    assert [] + [round[0]] == [round[0]];
    NoUsers(round[1..]);
  }

  lemma OnlyUser(round: Messages, j: nat)
    requires Leading(round) && j < |round| && IsUser(round[j])
    ensures !HasUser(round[..j]) && Opened(round[j..])
  {
  }

  lemma CountFrom(round: Messages, j: nat)
    requires j < |round| && !HasUser(round[..j]) && Opened(round[j..])
    ensures UserCount(round) == 1
  {
    var before, after := round[..j], round[j..];
    assert round == before + after;
    NoUsers(before);
    OpenedCount(after);
    UserCountConcat(before, after);
  }

  lemma {:induction false} LeadingCount(round: Messages)
    requires Leading(round)
    ensures UserCount(round) == if HasUser(round) then 1 else 0
  {
    if HasUser(round) {
      var j :| 0 <= j < |round| && IsUser(round[j]);
      OnlyUser(round, j);
      CountFrom(round, j);
    } else {
      NoUsers(round);
    }
  }

  /** Each round opened by a user message counts once. */
  lemma {:induction false} OpenedRoundsCount(rs: seq<Messages>)
    requires forall k :: 0 <= k < |rs| ==> Opened(rs[k])
    ensures UserCount(Flatten(rs)) == |rs|
  {
    if rs != [] {
      var init, last := rs[..|rs| - 1], rs[|rs| - 1];
      OpenedRoundsCount(init);
      OpenedCount(last);
      UserCountConcat(Flatten(init), last);
    }
  }

  /** Message `c` is a user message and `k` of them are left from it on. */
  ghost predicate StartsLast(ms: Messages, k: nat, c: nat) {
    c < |ms| && IsUser(ms[c]) && UserCount(ms[c..]) == k
  }

  lemma StartsLastUnique(ms: Messages, k: nat, c: nat, d: nat)
    requires StartsLast(ms, k, c) && StartsLast(ms, k, d)
    ensures c == d
  {
    if c < d {
      LaterStart(ms, c, d);
    } else if d < c {
      LaterStart(ms, d, c);
    }
  }

  lemma LaterStart(ms: Messages, c: nat, d: nat)
    requires c < d < |ms| && IsUser(ms[c])
    ensures UserCount(ms[d..]) < UserCount(ms[c..])
  {
    assert ms[c..] == ms[c..d] + ms[d..];
    UserCountConcat(ms[c..d], ms[d..]);
    NoUsers(ms[c..d]);
    assert ms[c..d][0] == ms[c];
  }

  /** The last `k` rounds, not counting the first, are the messages from the `k`-th
      last user message on. */
  lemma LastRounds(ms: Messages, rs: seq<Messages>, k: nat)
    requires IsGrouping(ms, rs) && 0 < k < |rs|
    ensures var c := |Flatten(rs[..|rs| - k])|;
            StartsLast(ms, k, c) && ms[c..] == Flatten(rs[|rs| - k..])
  {
    var tail := rs[|rs| - k..];
    SplitParts(rs, |rs| - k);
    OpenedRoundsCount(tail);
    FirstOfFirst(tail);
  }

  /** The first user message follows an assistant message. */
  ghost predicate AssistantLeads(ms: Messages) {
    exists j :: 0 < j < |ms| && IsUser(ms[j]) && !HasUser(ms[..j]) && EndsWithAssistant(ms[..j])
  }

  /** How many rounds a history has: one per user message, and one more for what an
      assistant says before the first of them. */
  ghost function RoundCount(ms: Messages): nat {
    if ms == [] then 0
    else if !HasUser(ms) then 1
    else UserCount(ms) + if AssistantLeads(ms) then 1 else 0
  }

  lemma FirstRoundLeads(ms: Messages, rs: seq<Messages>)
    requires IsGrouping(ms, rs) && rs != []
    ensures |rs[0]| <= |ms| && ms[..|rs[0]|] == rs[0]
    ensures ms == rs[0] + Flatten(rs[1..])
    ensures |rs| > 1 ==> |rs[0]| < |ms| && IsUser(ms[|rs[0]|])
    ensures HasUser(rs[0]) ==> !AssistantLeads(ms)
    ensures |rs| > 1 && !HasUser(rs[0]) ==> AssistantLeads(ms)
  {
    SplitParts(rs, 1);
    assert rs[..1] == [rs[0]];
    FlattenOne(rs[0]);
    if |rs| > 1 {
      FirstOfFirst(rs[1..]);
    }
    if HasUser(rs[0]) {
      LeadingUser(ms, rs[0]);
    }
  }

  lemma LeadingUser(ms: Messages, first: Messages)
    requires Leading(first) && HasUser(first) && first <= ms
    ensures !AssistantLeads(ms)
  {
    var i :| 0 <= i < |first| && IsUser(first[i]);
    forall j | 0 < j < |ms| && IsUser(ms[j]) && !HasUser(ms[..j])
      ensures !EndsWithAssistant(ms[..j])
    {
      NotBefore(ms, i, j);
      assert first[j] == ms[j];
      assert ms[..j][|ms[..j]| - 1] == first[j - 1];
    }
  }

  lemma NotBefore(ms: Messages, i: nat, j: nat)
    requires i < |ms| && j <= |ms| && IsUser(ms[i]) && !HasUser(ms[..j])
    ensures j <= i
  {
  }

  lemma RoundCountIs(ms: Messages, rs: seq<Messages>)
    requires IsGrouping(ms, rs)
    ensures |rs| == RoundCount(ms)
  {
    if rs != [] {
      FirstRoundLeads(ms, rs);
      var rest := rs[1..];
      OpenedRoundsCount(rest);
      UserCountConcat(rs[0], Flatten(rest));
      LeadingCount(rs[0]);
      NoUsers(ms);
    }
  }

  /** No other grouping meets the definition. */
  lemma {:induction false} GroupingUnique(ms: Messages, a: seq<Messages>, b: seq<Messages>)
    requires IsGrouping(ms, a) && IsGrouping(ms, b)
    ensures a == b
    decreases |a|
  {
    RoundCountIs(ms, a);
    RoundCountIs(ms, b);
    if |a| <= 1 {
      AtMostOneRound(ms, a, b);
    } else {
      SameLastRound(ms, a, b);
      GroupingUnique(ms[..|Flatten(a[..|a| - 1])|], a[..|a| - 1], b[..|b| - 1]);
      SameRounds(a, b);
    }
  }

  lemma AtMostOneRound(ms: Messages, a: seq<Messages>, b: seq<Messages>)
    requires Flatten(a) == ms == Flatten(b) && |a| == |b| <= 1
    ensures a == b
  {
    if |a| == 1 {
      FlattenOne(a[0]);
      FlattenOne(b[0]);
      assert a == [a[0]] && b == [b[0]];
    }
  }

  lemma SameRounds(a: seq<Messages>, b: seq<Messages>)
    requires a != [] && b != [] && a[..|a| - 1] == b[..|b| - 1] && a[|a| - 1] == b[|b| - 1]
    ensures a == b
  {
    assert a == a[..|a| - 1] + [a[|a| - 1]] && b == b[..|b| - 1] + [b[|b| - 1]];
  }

  lemma SameLastRound(ms: Messages, a: seq<Messages>, b: seq<Messages>)
    requires IsGrouping(ms, a) && IsGrouping(ms, b) && |a| > 1 && |b| > 1
    ensures a[|a| - 1] == b[|b| - 1]
    ensures var init := ms[..|Flatten(a[..|a| - 1])|];
            IsGrouping(init, a[..|a| - 1]) && IsGrouping(init, b[..|b| - 1])
  {
    LastRoundIs(ms, a);
    LastRoundIs(ms, b);
    var c, d := |Flatten(a[..|a| - 1])|, |Flatten(b[..|b| - 1])|;
    StartsLastUnique(ms, 1, c, d);
    InitGrouping(ms, a);
    InitGrouping(ms, b);
  }

  lemma LastRoundIs(ms: Messages, a: seq<Messages>)
    requires IsGrouping(ms, a) && |a| > 1
    ensures var c := |Flatten(a[..|a| - 1])|;
            StartsLast(ms, 1, c) && ms[..c] == Flatten(a[..|a| - 1]) && ms[c..] == a[|a| - 1]
  {
    LastRounds(ms, a, 1);
    LastIs(a);
  }

  lemma InitGrouping(ms: Messages, a: seq<Messages>)
    requires IsGrouping(ms, a) && |a| > 1
    ensures IsGrouping(Flatten(a[..|a| - 1]), a[..|a| - 1])
  {
  }

  lemma LastIs(a: seq<Messages>)
    requires |a| > 1
    ensures Flatten(a[|a| - 1..]) == a[|a| - 1]
    ensures Flatten(a) == Flatten(a[..|a| - 1]) + a[|a| - 1]
  {
    assert a[|a| - 1..] == [a[|a| - 1]];
    FlattenOne(a[|a| - 1]);
  }

  /** No round is empty, none has two user messages, and all but the first start with
      their only one. */
  lemma RoundShape(ms: Messages, rs: seq<Messages>, k: nat)
    requires IsGrouping(ms, rs) && k < |rs|
    ensures rs[k] != [] && UserCount(rs[k]) <= 1
    ensures 0 < k ==> IsUser(rs[k][0]) && UserCount(rs[k]) == 1
  {
    if k == 0 {
      LeadingCount(rs[0]);
    } else {
      OpenedCount(rs[k]);
    }
  }
}
