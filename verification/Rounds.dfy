/** Rounds of a conversation: grouping messages into rounds and choosing where a
    history may be cut. */
module Rounds {
  import opened Lists

  datatype Role = User | Assistant | System | OtherRole(name: string)

  datatype CompactionMessage = CompactionMessage(
    role: Role,
    content: string,
    toolUseId: string,
    toolName: string,
    timestamp: string)

  type Messages = seq<CompactionMessage>

  datatype ApiRound = ApiRound(messages: Messages, isToolCall: bool, toolPairId: string)

  predicate IsUser(m: CompactionMessage) {
    m.role == User
  }

  predicate IsAssistant(m: CompactionMessage) {
    m.role == Assistant
  }

  predicate Contains(s: string, part: string) {
    exists i :: 0 <= i <= |s| && part <= s[i..]
  }

  predicate HasToolCalls(m: CompactionMessage) {
    || m.toolUseId != "" || m.toolName != ""
    || Contains(m.content, "\"type\":\"tool_use\"") || Contains(m.content, "\"type\": \"tool_use\"")
  }

  /** A message has tool calls if it names a tool or a call, or if its text holds the
      mark of a call, with or without a space. */
  lemma HasToolCallsIff(m: CompactionMessage)
    ensures HasToolCalls(m) <==>
            || m.toolUseId != "" || m.toolName != ""
            || (exists a, b :: m.content == a + "\"type\":\"tool_use\"" + b)
            || (exists a, b :: m.content == a + "\"type\": \"tool_use\"" + b)
  {
    ContainsIff(m.content, "\"type\":\"tool_use\"");
    ContainsIff(m.content, "\"type\": \"tool_use\"");
  }

  lemma ContainsIff(s: string, part: string)
    ensures Contains(s, part) <==> exists a, b :: s == a + part + b
  {
    if Contains(s, part) {
      var i :| 0 <= i <= |s| && part <= s[i..];
      assert s == s[..i] + part + s[i + |part|..];
    }
    if exists a, b :: s == a + part + b {
      var a, b :| s == a + part + b;
      assert part <= s[|a|..];
    }
  }

  predicate HasUser(ms: Messages) {
    exists i :: 0 <= i < |ms| && IsUser(ms[i])
  }

  predicate HasToolCallMessages(ms: Messages) {
    exists i :: 0 <= i < |ms| && HasToolCalls(ms[i])
  }

  predicate EndsWithAssistant(ms: Messages) {
    ms != [] && IsAssistant(ms[|ms| - 1])
  }

  // ---- What a grouping is ----

  /** A user message and what follows it up to the next user message. */
  ghost predicate Opened(round: Messages) {
    round != [] && IsUser(round[0]) && forall j :: 0 < j < |round| ==> !IsUser(round[j])
  }

  /** What may come first: at most one user message, and none right after an
      assistant message. */
  ghost predicate Leading(round: Messages) {
    && round != []
    && (forall i, j :: 0 <= i < j < |round| ==> !(IsUser(round[i]) && IsUser(round[j])))
    && (forall i, j :: 0 <= i < j < |round| && j == i + 1 && IsAssistant(round[i]) ==> !IsUser(round[j]))
  }

  ghost predicate IsGrouping(ms: Messages, rs: seq<Messages>) {
    && Flatten(rs) == ms
    && (rs != [] ==> Leading(rs[0]))
    && (forall k :: 0 < k < |rs| ==> Opened(rs[k]))
    && (|rs| > 1 && !HasUser(rs[0]) ==> EndsWithAssistant(rs[0]))
  }

  /** A user message may open a new round after a round that already has one or that
      ends with an assistant message. */
  lemma OpenRound(ms: Messages, rs: seq<Messages>, m: CompactionMessage)
    requires IsGrouping(ms, rs) && rs != [] && IsUser(m)
    requires HasUser(rs[|rs| - 1]) || EndsWithAssistant(rs[|rs| - 1])
    ensures IsGrouping(ms + [m], rs + [[m]])
  {
    FlattenSnoc(rs, [m]);
  }

  lemma FirstMessage(m: CompactionMessage)
    ensures IsGrouping([m], [[m]])
  {
    assert [[m]][..0] == [];
    assert Flatten([[m]]) == [] + [m];
  }

  /** Any other message joins the last round. */
  lemma JoinRound(ms: Messages, rs: seq<Messages>, last: Messages, m: CompactionMessage)
    requires IsGrouping(ms, rs + [last])
    requires IsUser(m) ==> !HasUser(last) && !EndsWithAssistant(last)
    ensures IsGrouping(ms + [m], rs + [last + [m]])
  {
    FlattenSnoc(rs, last);
    FlattenSnoc(rs, last + [m]);
    assert Flatten(rs) + last + [m] == Flatten(rs) + (last + [m]);
    var before, after := rs + [last], rs + [last + [m]];
    assert before[|rs|] == last && after[|rs|] == last + [m];
    if rs == [] {
      assert Leading(last);
      assert Leading(last + [m]) by {
        if IsUser(m) {
          assert forall i :: 0 <= i < |last| ==> !IsUser(last[i]);
        }
      }
    } else {
      assert before[0] == after[0] == rs[0];
      assert Opened(last) && IsUser(last[0]);
      assert Opened(last + [m]);
    }
  }

  // ---- The code ----

  method HasUserMessage(ms: Messages) returns (found: bool)
    ensures found == HasUser(ms)
  {
    for i := 0 to |ms|
      invariant forall k :: 0 <= k < i ==> !IsUser(ms[k])
    {
      if ms[i].role == User {
        return true;
      }
    }
    return false;
  }

  method AnyToolCalls(ms: Messages) returns (found: bool)
    ensures found == HasToolCallMessages(ms)
  {
    for i := 0 to |ms|
      invariant forall k :: 0 <= k < i ==> !HasToolCalls(ms[k])
    {
      if HasToolCalls(ms[i]) {
        return true;
      }
    }
    return false;
  }

  function Parts(rounds: seq<ApiRound>): seq<Messages> {
    seq(|rounds|, i requires 0 <= i < |rounds| => rounds[i].messages)
  }

  /** All parts so far, the round being built last. */
  ghost function WithCurrent(rounds: seq<ApiRound>, current: Messages): seq<Messages> {
    Parts(rounds) + if current == [] then [] else [current]
  }

  ghost predicate Marked(rounds: seq<ApiRound>) {
    forall k :: 0 <= k < |rounds| ==>
                  rounds[k].isToolCall == HasToolCallMessages(rounds[k].messages) && rounds[k].toolPairId == ""
  }

  /** The state of the grouping loop before message `i`. */
  ghost predicate GroupedTo(ms: Messages, i: nat, rounds: seq<ApiRound>, current: Messages) {
    && i <= |ms|
    && IsGrouping(ms[..i], WithCurrent(rounds, current))
    && Marked(rounds)
    && (current == [] ==> i == 0 || (IsAssistant(ms[i - 1]) && (i < |ms| ==> IsUser(ms[i]))))
    && (current != [] ==> current[|current| - 1] == ms[i - 1])
    && (current != [] && IsAssistant(ms[i - 1]) ==> i < |ms| && !IsUser(ms[i]))
  }

  /** Message `i` is the last of the current round. */
  ghost predicate TakenTo(ms: Messages, i: nat, rounds: seq<ApiRound>, current: Messages) {
    && i < |ms|
    && IsGrouping(ms[..i + 1], Parts(rounds) + [current])
    && Marked(rounds)
    && current != [] && current[|current| - 1] == ms[i]
  }

  /** Message `i` joins the current round or opens one. */
  lemma {:induction false} TakeMessage(ms: Messages, i: nat, rounds: seq<ApiRound>, current: Messages)
    requires i < |ms| && GroupedTo(ms, i, rounds, current)
    requires current != [] && IsUser(ms[i]) ==> !HasUser(current)
    ensures TakenTo(ms, i, rounds, current + [ms[i]])
  {
    if current != [] {
      TakeAlong(ms, i, rounds, current);
    } else if i == 0 {
      TakeFirst(ms, rounds);
    } else {
      TakeNext(ms, i, rounds);
    }
  }

  lemma {:induction false} TakeAlong(ms: Messages, i: nat, rounds: seq<ApiRound>, current: Messages)
    requires i < |ms| && GroupedTo(ms, i, rounds, current) && current != []
    requires IsUser(ms[i]) ==> !HasUser(current)
    ensures TakenTo(ms, i, rounds, current + [ms[i]])
  {
    assert ms[..i + 1] == ms[..i] + [ms[i]];
    JoinRound(ms[..i], Parts(rounds), current, ms[i]);
  }

  lemma {:induction false} TakeFirst(ms: Messages, rounds: seq<ApiRound>)
    requires ms != [] && GroupedTo(ms, 0, rounds, [])
    ensures TakenTo(ms, 0, rounds, [] + [ms[0]])
  {
    assert WithCurrent(rounds, []) == Parts(rounds);
    assert ms[..0] == [];
    EmptyGrouping(Parts(rounds));
    FirstMessage(ms[0]);
    assert Parts(rounds) + [[] + [ms[0]]] == [[ms[0]]];
    assert ms[..1] == [ms[0]];
  }

  lemma {:induction false} TakeNext(ms: Messages, i: nat, rounds: seq<ApiRound>)
    requires 0 < i < |ms| && GroupedTo(ms, i, rounds, [])
    ensures TakenTo(ms, i, rounds, [] + [ms[i]])
  {
    var before, parts := ms[..i], Parts(rounds);
    assert WithCurrent(rounds, []) == parts;
    LastMessage(before, parts);
    assert before[|before| - 1] == ms[i - 1];
    OpenRound(before, parts, ms[i]);
    assert ms[..i + 1] == before + [ms[i]];
    assert [] + [ms[i]] == [ms[i]];
  }

  lemma EmptyGrouping(rs: seq<Messages>)
    requires IsGrouping([], rs)
    ensures rs == []
  {
  }

  lemma LastMessage(ms: Messages, rs: seq<Messages>)
    requires IsGrouping(ms, rs) && ms != []
    ensures rs != [] && rs[|rs| - 1] != []
    ensures rs[|rs| - 1][|rs[|rs| - 1]| - 1] == ms[|ms| - 1]
  {
    assert rs == rs[..|rs| - 1] + [rs[|rs| - 1]];
    FlattenSnoc(rs[..|rs| - 1], rs[|rs| - 1]);
  }

  /** A user message that finds one in the current round closes that round first. */
  lemma {:induction false} CloseForUser(ms: Messages, i: nat, rounds: seq<ApiRound>, current: Messages)
    requires i < |ms| && GroupedTo(ms, i, rounds, current)
    requires current != [] && IsUser(ms[i]) && HasUser(current)
    ensures TakenTo(ms, i, rounds + [Closed(current)], [ms[i]])
  {
    PartsSnoc(rounds, Closed(current));
    assert ms[..i + 1] == ms[..i] + [ms[i]];
    OpenRound(ms[..i], Parts(rounds) + [current], ms[i]);
  }

  /** A round as it is recorded when it closes. */
  ghost function Closed(current: Messages): ApiRound {
    ApiRound(current, HasToolCallMessages(current), "")
  }

  lemma {:induction false} CloseAfter(ms: Messages, i: nat, rounds: seq<ApiRound>, current: Messages)
    requires TakenTo(ms, i, rounds, current)
    requires IsAssistant(ms[i]) && (i + 1 < |ms| ==> IsUser(ms[i + 1]))
    ensures GroupedTo(ms, i + 1, rounds + [Closed(current)], [])
  {
    PartsSnoc(rounds, Closed(current));
    assert WithCurrent(rounds + [Closed(current)], []) == Parts(rounds) + [current];
  }

  lemma {:induction false} NothingGrouped(ms: Messages)
    ensures GroupedTo(ms, 0, [], [])
  {
    assert ms[..0] == [] && WithCurrent([], []) == [];
  }

  lemma {:induction false} StayOpen(ms: Messages, i: nat, rounds: seq<ApiRound>, current: Messages)
    requires TakenTo(ms, i, rounds, current)
    requires IsAssistant(ms[i]) ==> i + 1 < |ms| && !IsUser(ms[i + 1])
    ensures GroupedTo(ms, i + 1, rounds, current)
  {
  }

  lemma {:induction false} AllGrouped(ms: Messages, rounds: seq<ApiRound>, current: Messages)
    requires ms != [] && GroupedTo(ms, |ms|, rounds, current)
    ensures var all := if current == [] then rounds else rounds + [ApiRound(current, false, "")];
            IsGrouping(ms, Parts(all)) && MarkedRounds(all, ms)
  {
    assert ms[..|ms|] == ms;
    PartsSnoc(rounds, ApiRound(current, false, ""));
    if current == [] {
      assert WithCurrent(rounds, current) == Parts(rounds);
    }
  }

  /** What each round records: whether it holds tool calls, except that a last round
      no assistant message closes is never marked. */
  ghost predicate MarkedRounds(rounds: seq<ApiRound>, ms: Messages) {
    forall k :: 0 <= k < |rounds| ==>
                  && rounds[k].toolPairId == ""
                  && rounds[k].isToolCall == (HasToolCallMessages(rounds[k].messages)
                                              && (k < |rounds| - 1 || EndsWithAssistant(ms)))
  }

  lemma PartsSnoc(rounds: seq<ApiRound>, r: ApiRound)
    ensures Parts(rounds + [r]) == Parts(rounds) + [r.messages]
  {
  }

  method CloseRound(rounds: seq<ApiRound>, current: Messages) returns (closed: seq<ApiRound>)
    ensures closed == rounds + [Closed(current)]
  {
    var toolCall := AnyToolCalls(current);
    closed := rounds + [ApiRound(current, toolCall, "")];
  }

  /** Message `i` joins the current round; if it is a user message and the round
      already has one, that round is closed first. */
  method AddMessage(ghost messages: Messages, ghost i: nat, msg: CompactionMessage, rounds: seq<ApiRound>,
                    current: Messages)
    returns (rounds': seq<ApiRound>, current': Messages)
    requires i < |messages| && msg == messages[i] && GroupedTo(messages, i, rounds, current)
    ensures TakenTo(messages, i, rounds', current')
  {
    var hasUser := HasUserMessage(current);
    if msg.role == User && |current| > 0 && hasUser {
      CloseForUser(messages, i, rounds, current);
      rounds' := CloseRound(rounds, current);
      current' := [msg];
    } else {
      TakeMessage(messages, i, rounds, current);
      rounds', current' := rounds, current + [msg];
    }
  }

  method GroupMessagesByRound(messages: Messages) returns (rounds: seq<ApiRound>)
    ensures IsGrouping(messages, Parts(rounds))
    ensures MarkedRounds(rounds, messages)
  {
    if |messages| == 0 {
      return [];
    }
    rounds := [];
    var currentRound: Messages := [];
    NothingGrouped(messages);
    for i := 0 to |messages|
      invariant GroupedTo(messages, i, rounds, currentRound)
    {
      var msg := messages[i];
      rounds, currentRound := AddMessage(messages, i, msg, rounds, currentRound);
      var isLast := i == |messages| - 1;
      var nextIsUser := !isLast && messages[i + 1].role == User;
      if msg.role == Assistant && (isLast || nextIsUser) {
        CloseAfter(messages, i, rounds, currentRound);
        rounds := CloseRound(rounds, currentRound);
        currentRound := [];
      } else {
        StayOpen(messages, i, rounds, currentRound);
      }
    }
    rounds := AddRemaining(messages, rounds, currentRound);
  }

  /** The messages of a round that was never closed form the last round. */
  method AddRemaining(ghost messages: Messages, rounds: seq<ApiRound>, current: Messages) returns (all: seq<ApiRound>)
    requires messages != [] && GroupedTo(messages, |messages|, rounds, current)
    ensures IsGrouping(messages, Parts(all)) && MarkedRounds(all, messages)
  {
    AllGrouped(messages, rounds, current);
    all := rounds;
    if |current| > 0 {
      all := all + [ApiRound(current, false, "")];
    }
  }
}
