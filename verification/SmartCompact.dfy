/** `SmartCompact`: keeps the first and the last turns of a conversation and
    collapses the turns between them into a marker. */
module SmartCompact {
  import opened GoStrings
  import opened Lists
  import opened Rounds

  predicate IsSystem(m: CompactionMessage) {
    m.role == System
  }

  function Systems(ms: Messages): Messages {
    if ms == [] then []
    else if IsSystem(ms[|ms| - 1]) then Systems(ms[..|ms| - 1]) + [ms[|ms| - 1]]
    else Systems(ms[..|ms| - 1])
  }

  function Conversation(ms: Messages): Messages {
    if ms == [] then []
    else if IsSystem(ms[|ms| - 1]) then Conversation(ms[..|ms| - 1])
    else Conversation(ms[..|ms| - 1]) + [ms[|ms| - 1]]
  }

  // ---- Turns by position ----

  /** A turn starts at the first message and wherever a user message follows an
      assistant message. */
  predicate TurnAt(conv: Messages, p: nat)
    requires p < |conv|
  {
    p == 0 || (IsUser(conv[p]) && IsAssistant(conv[p - 1]))
  }

  /** How many turns start among the first `n` messages. */
  function TurnCount(conv: Messages, n: nat): nat
    requires n <= |conv|
  {
    if n == 0 then 0 else TurnCount(conv, n - 1) + if TurnAt(conv, n - 1) then 1 else 0
  }

  /** The turn with `k` turns before it starts at `p`; the end counts as the start of
      the turn after the last. */
  ghost predicate TurnStart(conv: Messages, k: nat, p: nat) {
    p <= |conv| && TurnCount(conv, p) == k && (p < |conv| ==> TurnAt(conv, p))
  }

  lemma {:induction false} TurnCountGrows(conv: Messages, p: nat, q: nat)
    requires p <= q <= |conv|
    ensures TurnCount(conv, p) <= TurnCount(conv, q)
    ensures p < q && TurnAt(conv, p) ==> TurnCount(conv, p) < TurnCount(conv, q)
    decreases q
  {
    if p < q {
      TurnCountGrows(conv, p, q - 1);
    }
  }

  /** There is only one such position. */
  lemma TurnStartUnique(conv: Messages, k: nat, p: nat, q: nat)
    requires TurnStart(conv, k, p) && TurnStart(conv, k, q)
    ensures p == q
  {
    if p < q {
      TurnCountGrows(conv, p, q);
    } else if q < p {
      TurnCountGrows(conv, q, p);
    }
  }

  // ---- The code ----

  /** Turn `k` of `turns` is where it should be. */
  ghost predicate InPlace(conv: Messages, i: nat, turns: seq<Messages>, k: nat)
    requires k < |turns|
  {
    turns[k] != [] && |Flatten(turns[..k])| < i && TurnStart(conv, k, |Flatten(turns[..k])|)
  }

  /** The turns found so far end at message `i`. */
  ghost predicate TurnsTo(conv: Messages, i: nat, turns: seq<Messages>) {
    && i <= |conv|
    && Flatten(turns) == conv[..i]
    && |turns| == TurnCount(conv, i)
    && forall k :: 0 <= k < |turns| ==> InPlace(conv, i, turns, k)
  }

  /** As above, with the last turn still being collected. */
  ghost predicate CollectedTo(conv: Messages, i: nat, turns: seq<Messages>, cur: Messages) {
    (cur == [] ==> i == 0 && turns == []) && TurnsTo(conv, i, if cur == [] then turns else turns + [cur])
  }

  lemma {:induction false} LastOf(conv: Messages, i: nat, turns: seq<Messages>, cur: Messages)
    requires CollectedTo(conv, i, turns, cur) && cur != []
    ensures 0 < i && cur[|cur| - 1] == conv[i - 1]
  {
    assert InPlace(conv, i, turns + [cur], |turns|);
    FlattenSnoc(turns, cur);
    var all := conv[..i];
    assert all == Flatten(turns) + cur;
    assert all[|all| - 1] == cur[|cur| - 1];
  }

  lemma NewTurn(conv: Messages, i: nat, turns: seq<Messages>)
    requires i < |conv| && TurnsTo(conv, i, turns) && TurnAt(conv, i)
    ensures TurnsTo(conv, i + 1, turns + [[conv[i]]])
  {
    var more := turns + [[conv[i]]];
    FlattenSnoc(turns, [conv[i]]);
    assert conv[..i + 1] == conv[..i] + [conv[i]];
    var n := i + 1;
    forall k: nat | k < |more|
      ensures InPlace(conv, n, more, k)
    {
      assert more[..k] == turns[..k];
      if k == |turns| {
        assert turns[..k] == turns;
      } else {
        assert InPlace(conv, i, turns, k);
      }
    }
  }

  lemma SameTurn(conv: Messages, i: nat, turns: seq<Messages>, cur: Messages)
    requires i < |conv| && cur != [] && TurnsTo(conv, i, turns + [cur]) && !TurnAt(conv, i)
    ensures TurnsTo(conv, i + 1, turns + [cur + [conv[i]]])
  {
    var before, after := turns + [cur], turns + [cur + [conv[i]]];
    FlattenSnoc(turns, cur);
    FlattenSnoc(turns, cur + [conv[i]]);
    assert conv[..i + 1] == conv[..i] + [conv[i]];
    assert Flatten(turns) + cur + [conv[i]] == Flatten(turns) + (cur + [conv[i]]);
    var n := i + 1;
    forall k: nat | k < |after|
      ensures InPlace(conv, n, after, k)
    {
      assert InPlace(conv, i, before, k);
      assert after[..k] == before[..k];
    }
  }

  lemma StepTurns(conv: Messages, i: nat, turns: seq<Messages>, cur: Messages)
    requires i < |conv| && CollectedTo(conv, i, turns, cur)
    ensures cur != [] && IsUser(conv[i]) && IsAssistant(cur[|cur| - 1]) ==>
              CollectedTo(conv, i + 1, turns + [cur], [conv[i]])
    ensures !(cur != [] && IsUser(conv[i]) && IsAssistant(cur[|cur| - 1])) ==>
              CollectedTo(conv, i + 1, turns, cur + [conv[i]])
  {
    if cur == [] {
      NewTurn(conv, i, []);
      assert [] + [conv[i]] == [conv[i]];
    } else {
      LastOf(conv, i, turns, cur);
      if TurnAt(conv, i) {
        NewTurn(conv, i, turns + [cur]);
      } else {
        SameTurn(conv, i, turns, cur);
      }
    }
  }

  method Separate(messages: Messages) returns (systemMsgs: Messages, conversational: Messages)
    ensures systemMsgs == Systems(messages) && conversational == Conversation(messages)
  {
    systemMsgs, conversational := [], [];
    for i := 0 to |messages|
      invariant systemMsgs == Systems(messages[..i]) && conversational == Conversation(messages[..i])
    {
      assert messages[..i + 1][..i] == messages[..i];
      if messages[i].role == System {
        systemMsgs := systemMsgs + [messages[i]];
      } else {
        conversational := conversational + [messages[i]];
      }
    }
    assert messages[..|messages|] == messages;
  }

  method GroupTurns(conv: Messages) returns (turns: seq<Messages>)
    ensures TurnsTo(conv, |conv|, turns)
  {
    turns := [];
    var cur: Messages := [];
    for i := 0 to |conv|
      invariant CollectedTo(conv, i, turns, cur)
    {
      var m := conv[i];
      StepTurns(conv, i, turns, cur);
      if m.role == User && |cur| > 0 {
        var lastRole := cur[|cur| - 1].role;
        if lastRole == Assistant {
          turns := turns + [cur];
          cur := [];
          assert cur + [m] == [m];
        }
      }
      cur := cur + [m];
    }
    if |cur| > 0 {
      turns := turns + [cur];
    }
  }

  method JoinTurns(turns: seq<Messages>, from: nat, to: nat) returns (messages: Messages)
    requires from <= to <= |turns|
    ensures messages == Flatten(turns[from..to])
  {
    messages := [];
    for i := from to to
      invariant messages == Flatten(turns[from..i])
    {
      assert turns[from..i + 1] == turns[from..i] + [turns[i]];
      FlattenSnoc(turns[from..i], turns[i]);
      messages := messages + turns[i];
    }
  }

  datatype SmartCompactResult = SmartCompactResult(messages: Messages, keptTurns: nat, collapsedTurns: nat)

  function OrTwo(n: int): (m: nat)
    ensures m > 0
  {
    if n <= 0 then 2 else n
  }

  function OmissionMarker(collapsed: nat): CompactionMessage {
    var text := "<!-- " + Itoa(collapsed) + " earlier conversation rounds omitted to save context -->";
    CompactionMessage(System, text, "", "", "")
  }

  /** The first `first` and the last `last` turns of `conv` are the messages before
      `h` and those from `t` on. */
  ghost predicate Ends(conv: Messages, first: nat, last: nat, h: nat, t: nat) {
    && first + last < TurnCount(conv, |conv|)
    && TurnStart(conv, first, h) && TurnStart(conv, TurnCount(conv, |conv|) - last, t)
    && 0 < h < t < |conv|
  }

  lemma TurnBegins(conv: Messages, turns: seq<Messages>, k: nat)
    requires TurnsTo(conv, |conv|, turns) && k < |turns|
    ensures var p := |Flatten(turns[..k])|;
            p < |conv| && TurnStart(conv, k, p) && Flatten(turns[..k]) == conv[..p] && Flatten(turns[k..]) == conv[p..]
  {
    assert conv[..|conv|] == conv;
    SplitParts(turns, k);
    assert InPlace(conv, |conv|, turns, k);
  }

  lemma EndsOfTurns(conv: Messages, turns: seq<Messages>, first: nat, last: nat)
    requires TurnsTo(conv, |conv|, turns) && 0 < first && 0 < last && first + last < |turns|
    ensures var h, t := |Flatten(turns[..first])|, |Flatten(turns[..|turns| - last])|;
            && Ends(conv, first, last, h, t)
            && Flatten(turns[..first]) == conv[..h] && Flatten(turns[|turns| - last..]) == conv[t..]
  {
    TurnBegins(conv, turns, first);
    TurnBegins(conv, turns, |turns| - last);
    TurnStartsGrow(conv, |Flatten(turns[..first])|, |Flatten(turns[..|turns| - last])|);
  }

  lemma TurnStartsGrow(conv: Messages, h: nat, t: nat)
    requires h <= |conv| && t <= |conv| && 0 < TurnCount(conv, h) < TurnCount(conv, t)
    ensures 0 < h < t
  {
    if t <= h {
      TurnCountGrows(conv, t, h);
    }
  }

  /** The middle turns of `conv` give way to the marker. */
  ghost predicate Collapses(systemMsgs: Messages, conv: Messages, first: nat, last: nat, r: SmartCompactResult) {
    && r.keptTurns == first + last
    && r.keptTurns + r.collapsedTurns == TurnCount(conv, |conv|)
    && exists h: nat, t: nat :: Ends(conv, first, last, h, t)
                                && r.messages == systemMsgs + conv[..h] + [OmissionMarker(r.collapsedTurns)] + conv[t..]
  }

  /** What is put out: everything when there are no more turns than are kept;
      otherwise one contiguous block of whole turns gives way to the marker. */
  ghost predicate Compacts(messages: Messages, first: nat, last: nat, r: SmartCompactResult) {
    var conv := Conversation(messages);
    var total := TurnCount(conv, |conv|);
    && r.keptTurns + r.collapsedTurns == total
    && (total <= first + last ==> r.collapsedTurns == 0 && r.messages == Systems(messages) + conv)
    && (total > first + last ==> Collapses(Systems(messages), conv, first, last, r))
  }

  method SmartCompact(messages: Messages, keepFirst: int, keepLast: int) returns (r: SmartCompactResult)
    ensures Compacts(messages, OrTwo(keepFirst), OrTwo(keepLast), r)
  {
    if |messages| == 0 {
      return SmartCompactResult([], 0, 0);
    }
    var first := if keepFirst <= 0 then 2 else keepFirst;
    var last := if keepLast <= 0 then 2 else keepLast;
    var systemMsgs, conversational := Separate(messages);
    var turns := GroupTurns(conversational);
    var totalTurns := |turns|;
    if totalTurns <= first + last {
      return SmartCompactResult(systemMsgs + conversational, totalTurns, 0);
    }
    r := Collapse(systemMsgs, conversational, turns, first, last);
  }

  method Collapse(systemMsgs: Messages, conversational: Messages, turns: seq<Messages>, first: nat, last: nat)
    returns (r: SmartCompactResult)
    requires TurnsTo(conversational, |conversational|, turns) && 0 < first && 0 < last && first + last < |turns|
    ensures Collapses(systemMsgs, conversational, first, last, r)
  {
    var totalTurns := |turns|;
    var collapsed := totalTurns - first - last;
    var head := JoinTurns(turns, 0, first);
    var tail := JoinTurns(turns, totalTurns - last, totalTurns);
    assert turns[0..first] == turns[..first] && turns[totalTurns - last..totalTurns] == turns[totalTurns - last..];
    r := SmartCompactResult(systemMsgs + head + [OmissionMarker(collapsed)] + tail, first + last, collapsed);
    CollapsesIs(systemMsgs, conversational, turns, first, last, r);
  }

  lemma CollapsesIs(systemMsgs: Messages, conv: Messages, turns: seq<Messages>, first: nat, last: nat,
                    r: SmartCompactResult)
    requires TurnsTo(conv, |conv|, turns) && 0 < first && 0 < last && first + last < |turns|
    requires r.keptTurns == first + last && r.keptTurns + r.collapsedTurns == |turns|
    requires r.messages == systemMsgs + Flatten(turns[..first]) + [OmissionMarker(r.collapsedTurns)]
                           + Flatten(turns[|turns| - last..])
    ensures Collapses(systemMsgs, conv, first, last, r)
  {
    EndsOfTurns(conv, turns, first, last);
  }

  // ---- The system messages ----

  /** The positions of the system messages, in order. */
  ghost predicate SystemPositions(ms: Messages, ks: seq<nat>) {
    && (forall j :: 0 <= j < |ks| ==> ks[j] < |ms| && ms[ks[j]].role == System)
    && (forall i, j :: 0 <= i < j < |ks| ==> ks[i] < ks[j])
    && (forall p: nat :: p < |ms| && ms[p].role == System ==> p in ks)
  }

  /** Every system message is taken, once and in order. */
  lemma {:induction false} SystemsInOrder(ms: Messages) returns (ks: seq<nat>)
    ensures SystemPositions(ms, ks) && |Systems(ms)| == |ks|
    ensures forall j :: 0 <= j < |ks| ==> Systems(ms)[j] == ms[ks[j]]
  {
    ks := [];
    if ms != [] {
      var n := |ms| - 1;
      ks := SystemsInOrder(ms[..n]);
      if ms[n].role == System {
        var more := ks + [n];
        assert forall p: nat :: p in more <==> p in ks || p == n;
        ks := more;
      }
    }
  }

  lemma {:induction false} SystemsConcat(a: Messages, b: Messages)
    ensures Systems(a + b) == Systems(a) + Systems(b)
    decreases |b|
  {
    if b == [] {
      assert a + b == a;
    } else {
      SystemsConcat(a, b[..|b| - 1]);
      assert (a + b)[..|a + b| - 1] == a + b[..|b| - 1];
    }
  }

  lemma {:induction false} AllSystem(ms: Messages)
    ensures Systems(Systems(ms)) == Systems(ms)
  {
    if ms != [] {
      AllSystem(ms[..|ms| - 1]);
      if IsSystem(ms[|ms| - 1]) {
        var init, last := Systems(ms[..|ms| - 1]), ms[|ms| - 1];
        assert (init + [last])[..|init|] == init;
      }
    }
  }

  lemma {:induction false} NoSystemSystems(ms: Messages)
    requires NoSystem(ms)
    ensures Systems(ms) == []
  {
    if ms != [] {
      NoSystemSystems(ms[..|ms| - 1]);
    }
  }

  /** The system messages that are put out are those put in, and the marker after them
      if turns were collapsed. */
  lemma SystemsSurvive(messages: Messages, keepFirst: int, keepLast: int, r: SmartCompactResult)
    requires Compacts(messages, OrTwo(keepFirst), OrTwo(keepLast), r)
    ensures Systems(r.messages) ==
            Systems(messages) + if r.collapsedTurns > 0 then [OmissionMarker(r.collapsedTurns)] else []
  {
    var conv := Conversation(messages);
    var first, last := OrTwo(keepFirst), OrTwo(keepLast);
    ConversationHasNoSystem(messages);
    AllSystem(messages);
    if TurnCount(conv, |conv|) <= first + last {
      SystemsConcat(Systems(messages), conv);
      NoSystemSystems(conv);
    } else {
      var h: nat, t: nat :| Ends(conv, first, last, h, t)
                            && r.messages ==
                               Systems(messages) + conv[..h] + [OmissionMarker(r.collapsedTurns)] + conv[t..];
      SystemsOfParts(Systems(messages), conv[..h], OmissionMarker(r.collapsedTurns), conv[t..]);
    }
  }

  lemma {:induction false} SystemsOfParts(systems: Messages, head: Messages, marker: CompactionMessage, tail: Messages)
    requires Systems(systems) == systems && IsSystem(marker) && NoSystem(head) && NoSystem(tail)
    ensures Systems(systems + head + [marker] + tail) == systems + [marker]
  {
    SystemsConcat(systems + head + [marker], tail);
    SystemsConcat(systems + head, [marker]);
    SystemsConcat(systems, head);
    NoSystemSystems(head);
    NoSystemSystems(tail);
    assert Systems([marker]) == Systems([]) + [marker];
  }

  // ---- What stays true of the conversation ----

  lemma {:induction false} ConversationSnoc(ms: Messages, m: CompactionMessage)
    ensures Conversation(ms + [m]) == Conversation(ms) + if IsSystem(m) then [] else [m]
  {
    assert (ms + [m])[..|ms|] == ms;
  }

  lemma {:induction false} ConversationConcat(a: Messages, b: Messages)
    ensures Conversation(a + b) == Conversation(a) + Conversation(b)
    decreases |b|
  {
    if b == [] {
      assert a + b == a;
    } else {
      ConversationConcat(a, b[..|b| - 1]);
      assert (a + b)[..|a + b| - 1] == a + b[..|b| - 1];
    }
  }

  ghost predicate NoSystem(ms: Messages) {
    forall i :: 0 <= i < |ms| ==> !IsSystem(ms[i])
  }

  lemma {:induction false} NoSystemConversation(ms: Messages)
    requires NoSystem(ms)
    ensures Conversation(ms) == ms
  {
    if ms != [] {
      var init, last := ms[..|ms| - 1], ms[|ms| - 1];
      NoSystemConversation(init);
      assert Conversation(ms) == init + [last];
      assert init + [last] == ms;
    }
  }

  lemma {:induction false} ConversationHasNoSystem(ms: Messages)
    ensures NoSystem(Conversation(ms)) && Conversation(Systems(ms)) == []
  {
    if ms != [] {
      ConversationHasNoSystem(ms[..|ms| - 1]);
      if IsSystem(ms[|ms| - 1]) {
        ConversationSnoc(Systems(ms[..|ms| - 1]), ms[|ms| - 1]);
      }
    }
  }

  /** No two neighbours have the same role. */
  ghost predicate NoRepeats(ms: Messages) {
    forall i, j :: 0 <= i < j < |ms| && j == i + 1 ==> ms[i].role != ms[j].role
  }

  /** The conversation that is put out is the two ends of the one put in. */
  lemma {:induction false} OutputConversation(messages: Messages, h: nat, t: nat, marker: CompactionMessage)
    requires h <= t <= |Conversation(messages)| && IsSystem(marker)
    ensures var conv := Conversation(messages);
            Conversation(Systems(messages) + conv[..h] + [marker] + conv[t..]) == conv[..h] + conv[t..]
  {
    var conv := Conversation(messages);
    ConversationHasNoSystem(messages);
    OnlyEnds(Systems(messages), conv[..h], marker, conv[t..]);
  }

  lemma {:induction false} OnlyEnds(systems: Messages, head: Messages, marker: CompactionMessage, tail: Messages)
    requires Conversation(systems) == [] && IsSystem(marker) && NoSystem(head) && NoSystem(tail)
    ensures Conversation(systems + head + [marker] + tail) == head + tail
  {
    NoSystemConversation(head);
    NoSystemConversation(tail);
    FourParts(systems, head, marker, tail);
  }

  lemma {:induction false} FourParts(a: Messages, b: Messages, m: CompactionMessage, c: Messages)
    requires IsSystem(m)
    ensures Conversation(a + b + [m] + c) == Conversation(a) + Conversation(b) + Conversation(c)
  {
    ConversationConcat(a, b);
    ConversationSnoc(a + b, m);
    ConversationConcat(a + b + [m], c);
  }

  /** If no role repeats among the non-system messages that go in, none repeats among
      those that come out: the two ends meet at an assistant and a user message. */
  lemma SmartCompactKeepsAlternation(messages: Messages, keepFirst: int, keepLast: int, r: SmartCompactResult)
    requires Compacts(messages, OrTwo(keepFirst), OrTwo(keepLast), r)
    requires NoRepeats(Conversation(messages))
    ensures NoRepeats(Conversation(r.messages))
  {
    var conv := Conversation(messages);
    var first, last := OrTwo(keepFirst), OrTwo(keepLast);
    if TurnCount(conv, |conv|) <= first + last {
      ConversationHasNoSystem(messages);
      ConversationConcat(Systems(messages), conv);
      NoSystemConversation(conv);
    } else {
      var h: nat, t: nat :| Ends(conv, first, last, h, t)
                            && r.messages ==
                               Systems(messages) + conv[..h] + [OmissionMarker(r.collapsedTurns)] + conv[t..];
      OutputConversation(messages, h, t, OmissionMarker(r.collapsedTurns));
      EndsMeet(conv, h, t);
    }
  }

  lemma EndsMeet(conv: Messages, h: nat, t: nat)
    requires NoRepeats(conv) && 0 < h < t < |conv| && TurnAt(conv, h) && TurnAt(conv, t)
    ensures NoRepeats(conv[..h] + conv[t..])
  {
  }
}
