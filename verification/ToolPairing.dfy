/** `fixToolCallPairing`: an assistant message with tool calls survives only if
    the user messages right after it answer every call. */
module ToolPairing {
  import opened Messages
  import opened GoStrings

  /** The tool calls among the first `n` blocks. */
  function ToolUsesTo(content: seq<Block>, n: nat): seq<Block>
    requires n <= |content|
  {
    if n == 0 then []
    else ToolUsesTo(content, n - 1) + if content[n - 1].ToolUse? then [content[n - 1]] else []
  }

  function ToolUses(content: seq<Block>): seq<Block> {
    ToolUsesTo(content, |content|)
  }

  predicate AllCalls(calls: seq<Block>) {
    forall i :: 0 <= i < |calls| ==> calls[i].ToolUse?
  }

  lemma {:induction false} ToolUsesToAreCalls(content: seq<Block>, n: nat)
    requires n <= |content|
    ensures AllCalls(ToolUsesTo(content, n))
    ensures ToolUsesTo(content, n) != [] <==> exists i :: 0 <= i < n && content[i].ToolUse?
  {
    if n > 0 {
      ToolUsesToAreCalls(content, n - 1);
    }
  }

  lemma ToolUsesAreCalls(content: seq<Block>)
    ensures AllCalls(ToolUses(content))
    ensures ToolUses(content) != [] <==> HasToolUse(content)
  {
    ToolUsesToAreCalls(content, |content|);
  }

  predicate HasToolUse(content: seq<Block>) {
    exists i :: 0 <= i < |content| && content[i].ToolUse?
  }

  predicate IsCall(m: Message) {
    m.role == Assistant && HasToolUse(m.content)
  }

  predicate HasToolResult(content: seq<Block>) {
    exists i :: 0 <= i < |content| && content[i].ToolResult?
  }

  function ResultIds(content: seq<Block>): set<string> {
    set i | 0 <= i < |content| && content[i].ToolResult? :: content[i].toolUseId
  }

  /** The id given to the `n`-th call that has none. */
  function StampedId(n: nat): (id: string)
    ensures id != ""
  {
    "z-ext-" + Itoa(n)
  }

  predicate NeedsId(block: Block) {
    block.ToolUse? && block.id == ""
  }

  /** How many of the first `n` calls have no id. */
  function Missing(calls: seq<Block>, n: nat): nat
    requires n <= |calls|
  {
    if n == 0 then 0 else Missing(calls, n - 1) + if NeedsId(calls[n - 1]) then 1 else 0
  }

  /** Calls without an id get numbered ones, in order. */
  function Stamp(calls: seq<Block>): seq<Block> {
    seq(|calls|, i requires 0 <= i < |calls| =>
      if NeedsId(calls[i]) then calls[i].(id := StampedId(Missing(calls, i))) else calls[i])
  }

  function CallIds(calls: seq<Block>): set<string> {
    set i | 0 <= i < |calls| && calls[i].ToolUse? :: calls[i].id
  }

  /** The ids an assistant message asks results for. */
  function Wanted(m: Message): set<string> {
    CallIds(Stamp(ToolUses(m.content)))
  }

  /** A user message can answer some of `needed`. */
  predicate Answers(m: Message, needed: set<string>) {
    m.role == User && HasToolResult(m.content) && ResultIds(m.content) * needed != {}
  }

  /** How many of the leading messages are taken as answers, and what stays unanswered. */
  function Collect(messages: seq<Message>, needed: set<string>): (r: (nat, set<string>))
    ensures r.0 <= |messages|
  {
    if messages == [] || needed == {} || !Answers(messages[0], needed) then (0, needed)
    else
      var (k, rest) := Collect(messages[1..], needed - ResultIds(messages[0].content));
      (k + 1, rest)
  }

  /** A user message whose tool results all lack an id. */
  predicate IsStray(m: Message) {
    m.role == User && HasToolResult(m.content)
    && forall i :: 0 <= i < |m.content| && m.content[i].ToolResult? ==> m.content[i].toolUseId == ""
  }

  /** What is kept of a message with tool calls: the calls alone, all with ids. */
  function Kept(m: Message): Message {
    Message(Assistant, Stamp(ToolUses(m.content)))
  }

  datatype Repair = Repair(out: seq<Message>, droppedCalls: nat, droppedStrays: nat)

  function Fix(messages: seq<Message>): Repair
    decreases |messages|
  {
    if messages == [] then Repair([], 0, 0)
    else if IsCall(messages[0]) then
      var (k, unanswered) := Collect(messages[1..], Wanted(messages[0]));
      var rest := Fix(messages[1 + k..]);
      if unanswered == {} then
        rest.(out := [Kept(messages[0])] + messages[1..1 + k] + rest.out)
      else
        rest.(droppedCalls := rest.droppedCalls + 1, droppedStrays := rest.droppedStrays + k)
    else
      var rest := Fix(messages[1..]);
      if IsStray(messages[0]) then rest.(droppedStrays := rest.droppedStrays + 1)
      else rest.(out := [messages[0]] + rest.out)
  }

  // ---- The code ----

  method CollectToolCalls(content: seq<Block>) returns (toolCalls: seq<Block>)
    ensures toolCalls == ToolUses(content) && AllCalls(toolCalls)
    ensures |toolCalls| > 0 <==> HasToolUse(content)
  {
    toolCalls := [];
    for i := 0 to |content|
      invariant toolCalls == ToolUsesTo(content, i)
    {
      if content[i].ToolUse? {
        toolCalls := toolCalls + [content[i]];
      }
    }
    ToolUsesAreCalls(content);
  }

  method StampMissingIds(calls: seq<Block>) returns (stamped: seq<Block>)
    requires AllCalls(calls)
    ensures stamped == Stamp(calls)
  {
    stamped := calls;
    var n := 0;
    for i := 0 to |calls|
      invariant |stamped| == |calls| && n == Missing(calls, i)
      invariant forall k :: 0 <= k < |calls| ==> stamped[k] == if k < i then Stamp(calls)[k] else calls[k]
    {
      if stamped[i].id == "" {
        stamped := stamped[i := stamped[i].(id := "z-ext-" + Itoa(n))];
        n := n + 1;
      }
    }
  }

  method MatchResults(content: seq<Block>, needed: set<string>) returns (hasResults: bool, matched: set<string>)
    ensures hasResults == HasToolResult(content)
    ensures matched == ResultIds(content) * needed
  {
    hasResults, matched := false, {};
    for i := 0 to |content|
      invariant hasResults <==> exists j :: 0 <= j < i && content[j].ToolResult?
      invariant matched == (set j | 0 <= j < i && content[j].ToolResult? :: content[j].toolUseId) * needed
    {
      if content[i].ToolResult? {
        hasResults := true;
        if content[i].toolUseId in needed {
          matched := matched + {content[i].toolUseId};
        }
      }
    }
  }

  method IsStrayMessage(msg: Message) returns (stray: bool)
    ensures stray == IsStray(msg)
  {
    if msg.role != User {
      return false;
    }
    var hasToolResult, hasValidId := false, false;
    for i := 0 to |msg.content|
      invariant hasToolResult <==> exists j :: 0 <= j < i && msg.content[j].ToolResult?
      invariant !hasValidId && forall j :: 0 <= j < i && msg.content[j].ToolResult? ==> msg.content[j].toolUseId == ""
    {
      if msg.content[i].ToolResult? {
        hasToolResult := true;
        if msg.content[i].toolUseId != "" {
          return false;
        }
      }
    }
    return hasToolResult;
  }

  /** Up to `j` the messages answer, and `needed` is what they leave of `wanted`. */
  ghost predicate Scanned(messages: seq<Message>, start: nat, wanted: set<string>, j: nat, needed: set<string>) {
    && start <= j <= |messages|
    && var later := Collect(messages[j..], needed);
    Collect(messages[start..], wanted) == (j - start + later.0, later.1)
  }

  lemma {:induction false} ScanAdvances(messages: seq<Message>, start: nat, wanted: set<string>, j: nat,
                                        needed: set<string>)
    requires Scanned(messages, start, wanted, j, needed)
    requires j < |messages| && needed != {} && Answers(messages[j], needed)
    ensures Scanned(messages, start, wanted, j + 1, needed - ResultIds(messages[j].content))
  {
    assert messages[j..][1..] == messages[j + 1..];
  }

  lemma {:induction false} ScanEnds(messages: seq<Message>, start: nat, wanted: set<string>, j: nat,
                                    needed: set<string>)
    requires Scanned(messages, start, wanted, j, needed)
    requires j == |messages| || needed == {} || !Answers(messages[j], needed)
    ensures Collect(messages[start..], wanted) == (j - start, needed)
  {
  }

  /** The inner loop: the messages from `start` on that answer `wanted`, up to
      `j`, and the ids still unanswered there. */
  method ScanResults(messages: seq<Message>, start: nat, wanted: set<string>) returns (j: nat, needed: set<string>)
    requires start <= |messages|
    ensures start <= j <= |messages|
    ensures Collect(messages[start..], wanted) == (j - start, needed)
  {
    needed := wanted;
    j := start;
    while j < |messages| && |needed| > 0
      invariant Scanned(messages, start, wanted, j, needed)
      decreases |messages| - j
    {
      var nextMsg := messages[j];
      if nextMsg.role != User {
        break;
      }
      var hasToolResults, matchedIds := MatchResults(nextMsg.content, needed);
      if !hasToolResults {
        break;
      }
      if |matchedIds| == 0 {
        break;
      }
      ScanAdvances(messages, start, wanted, j, needed);
      assert needed - matchedIds == needed - ResultIds(nextMsg.content);
      needed := needed - matchedIds;
      j := j + 1;
    }
    ScanEnds(messages, start, wanted, j, needed);
  }

  lemma {:induction false} FixStep(messages: seq<Message>)
    requires messages != [] && IsCall(messages[0])
    ensures var (k, unanswered) := Collect(messages[1..], Wanted(messages[0]));
            Fix(messages) == AfterCall(messages[0], messages[1..1 + k], unanswered, Fix(messages[1 + k..]))
  {
  }

  ghost function Plus(out: seq<Message>, calls: nat, strays: nat, rest: Repair): Repair {
    Repair(out + rest.out, calls + rest.droppedCalls, strays + rest.droppedStrays)
  }

  lemma PlusOut(out: seq<Message>, part: seq<Message>, calls: nat, strays: nat, rest: Repair)
    ensures Plus(out, calls, strays, rest.(out := part + rest.out)) == Plus(out + part, calls, strays, rest)
  {
    assert out + (part + rest.out) == (out + part) + rest.out;
  }

  ghost function AfterCall(call: Message, answers: seq<Message>, unanswered: set<string>, rest: Repair): Repair {
    if unanswered == {} then rest.(out := [Kept(call)] + answers + rest.out)
    else rest.(droppedCalls := rest.droppedCalls + 1, droppedStrays := rest.droppedStrays + |answers|)
  }

  ghost function AfterOther(m: Message, rest: Repair): Repair {
    if IsStray(m) then rest.(droppedStrays := rest.droppedStrays + 1)
    else rest.(out := [m] + rest.out)
  }

  /** One step of `Fix` at a message with tool calls, `j` being where its answers end. */
  lemma {:induction false} FixAtCall(messages: seq<Message>, i: nat, j: nat, needed: set<string>)
    requires i < j <= |messages| && IsCall(messages[i])
    requires Collect(messages[i + 1..], Wanted(messages[i])) == (j - (i + 1), needed)
    ensures Fix(messages[i..]) == AfterCall(messages[i], messages[i + 1..j], needed, Fix(messages[j..]))
  {
    var k := j - (i + 1);
    var tail := messages[i..];
    assert tail[0] == messages[i] && tail[1..] == messages[i + 1..];
    assert tail[1 + k..] == messages[j..] && tail[1..1 + k] == messages[i + 1..j];
    FixStep(tail);
  }

  lemma FixElsewhere(messages: seq<Message>, i: nat)
    requires i < |messages| && !IsCall(messages[i])
    ensures Fix(messages[i..]) == AfterOther(messages[i], Fix(messages[i + 1..]))
  {
    assert messages[i..][1..] == messages[i + 1..];
  }

  /** The first `i` messages have been repaired into `out` and the two counts. */
  ghost predicate Progress(messages: seq<Message>, i: nat, out: seq<Message>, calls: nat, strays: nat) {
    i <= |messages| && Fix(messages) == Plus(out, calls, strays, Fix(messages[i..]))
  }

  lemma CallAdvances(messages: seq<Message>, i: nat, j: nat, needed: set<string>, out: seq<Message>, calls: nat,
                     strays: nat)
    requires Progress(messages, i, out, calls, strays)
    requires i < j <= |messages| && IsCall(messages[i])
    requires Collect(messages[i + 1..], Wanted(messages[i])) == (j - (i + 1), needed)
    ensures needed == {} ==>
              Progress(messages, j, out + ([Kept(messages[i])] + messages[i + 1..j]), calls, strays)
    ensures needed != {} ==> Progress(messages, j, out, calls + 1, strays + (j - (i + 1)))
  {
    FixAtCall(messages, i, j, needed);
    PlusOut(out, [Kept(messages[i])] + messages[i + 1..j], calls, strays, Fix(messages[j..]));
  }

  lemma OtherAdvances(messages: seq<Message>, i: nat, out: seq<Message>, calls: nat, strays: nat)
    requires Progress(messages, i, out, calls, strays)
    requires i < |messages| && !IsCall(messages[i])
    ensures IsStray(messages[i]) ==> Progress(messages, i + 1, out, calls, strays + 1)
    ensures !IsStray(messages[i]) ==> Progress(messages, i + 1, out + [messages[i]], calls, strays)
  {
    FixElsewhere(messages, i);
    PlusOut(out, [messages[i]], calls, strays, Fix(messages[i + 1..]));
  }

  /** Stamps the calls of message `i` and looks for their results: the message to keep,
      where its answers end and which ids they leave unanswered. */
  method MatchCalls(messages: seq<Message>, i: nat, toolCalls: seq<Block>)
    returns (stamped: Message, j: nat, needed: set<string>)
    requires i < |messages| && IsCall(messages[i]) && toolCalls == ToolUses(messages[i].content) && AllCalls(toolCalls)
    ensures stamped == Kept(messages[i])
    ensures i < j <= |messages|
    ensures Collect(messages[i + 1..], Wanted(messages[i])) == (j - (i + 1), needed)
  {
    var calls := StampMissingIds(toolCalls);
    stamped := Message(messages[i].role, calls);
    j, needed := ScanResults(messages, i + 1, CallIds(calls));
  }

  /** One turn of the loop below at a message with tool calls: it is kept with its
      answers, or dropped with them. */
  method RepairCall(messages: seq<Message>, i: nat, toolCalls: seq<Block>,
                    out: seq<Message>, calls: nat, strays: nat)
    returns (j: nat, longer: seq<Message>, droppedCalls: nat, droppedStrays: nat)
    requires Progress(messages, i, out, calls, strays) && i < |messages|
    requires IsCall(messages[i]) && toolCalls == ToolUses(messages[i].content) && AllCalls(toolCalls)
    ensures i < j && Progress(messages, j, longer, droppedCalls, droppedStrays)
  {
    var stamped, needed;
    stamped, j, needed := MatchCalls(messages, i, toolCalls);
    var candidates := messages[i + 1..j];
    CallAdvances(messages, i, j, needed, out, calls, strays);
    if |needed| == 0 {
      return j, out + ([stamped] + candidates), calls, strays;
    } else {
      return j, out, calls + 1, strays + |candidates|;
    }
  }

  method FixToolCallPairing(messages: seq<Message>)
    returns (filtered: seq<Message>, droppedAssistantCalls: nat, droppedStrayTools: nat)
    ensures Repair(filtered, droppedAssistantCalls, droppedStrayTools) == Fix(messages)
  {
    var out: seq<Message> := [];
    droppedAssistantCalls, droppedStrayTools := 0, 0;
    var i := 0;
    assert messages[0..] == messages;
    while i < |messages|
      invariant 0 <= i <= |messages|
      invariant Progress(messages, i, out, droppedAssistantCalls, droppedStrayTools)
    {
      var msg := messages[i];
      if msg.role == Assistant && |msg.content| > 0 {
        var toolCalls := CollectToolCalls(msg.content);
        if |toolCalls| > 0 {
          i, out, droppedAssistantCalls, droppedStrayTools :=
            RepairCall(messages, i, toolCalls, out, droppedAssistantCalls, droppedStrayTools);
          continue;
        }
      }
      OtherAdvances(messages, i, out, droppedAssistantCalls, droppedStrayTools);
      var stray := IsStrayMessage(msg);
      if stray {
        droppedStrayTools := droppedStrayTools + 1;
        i := i + 1;
        continue;
      }
      out := out + [msg];
      i := i + 1;
    }
    filtered := out;
  }

  // ---- What the repair guarantees for every list ----

  ghost function Total(r: Repair): nat {
    |r.out| + r.droppedCalls + r.droppedStrays
  }

  /** Every message is kept or counted as dropped. */
  lemma {:induction false} FixConserves(messages: seq<Message>)
    ensures |messages| == Total(Fix(messages))
    decreases |messages|
  {
    if messages != [] {
      if IsCall(messages[0]) {
        var (k, unanswered) := Collect(messages[1..], Wanted(messages[0]));
        FixStep(messages);
        FixConserves(messages[1 + k..]);
      } else {
        FixConserves(messages[1..]);
      }
    }
  }

  predicate IsTextOnly(m: Message) {
    !HasToolResult(m.content) && !HasToolUse(m.content)
  }

  function TextOnly(messages: seq<Message>): seq<Message> {
    if messages == [] then []
    else (if IsTextOnly(messages[0]) then [messages[0]] else []) + TextOnly(messages[1..])
  }

  lemma {:induction false} TextOnlyConcat(a: seq<Message>, b: seq<Message>)
    ensures TextOnly(a + b) == TextOnly(a) + TextOnly(b)
  {
    if a == [] {
      assert a + b == b;
    } else {
      assert (a + b)[1..] == a[1..] + b;
      TextOnlyConcat(a[1..], b);
    }
  }

  lemma {:induction false} CollectedHaveResults(messages: seq<Message>, needed: set<string>)
    ensures TextOnly(messages[..Collect(messages, needed).0]) == []
    ensures forall i :: 0 <= i < Collect(messages, needed).0 ==>
                          messages[i].role == User && HasToolResult(messages[i].content)
    decreases |messages|
  {
    if messages != [] && needed != {} && Answers(messages[0], needed) {
      var rest := messages[1..];
      var next := needed - ResultIds(messages[0].content);
      CollectedHaveResults(rest, next);
      var k := Collect(rest, next).0;
      assert messages[..1 + k][1..] == rest[..k];
    }
  }

  lemma {:induction false} CallsAreCalls(calls: seq<Block>, n: nat)
    requires AllCalls(calls) && n <= |calls|
    ensures ToolUsesTo(calls, n) == calls[..n]
  {
    if n > 0 {
      CallsAreCalls(calls, n - 1);
    }
  }

  /** Neither a kept call nor its answers hold a text-only message. */
  lemma PairHasNoText(call: Message, cands: seq<Message>, tail: seq<Message>)
    requires IsCall(call) && TextOnly(cands) == []
    ensures TextOnly([call] + cands + tail) == TextOnly(tail)
  {
    assert [call] + cands + tail == [call] + (cands + tail);
    TextOnlyConcat([call], cands + tail);
    TextOnlyConcat(cands, tail);
  }

  lemma KeptIsCall(m: Message)
    requires IsCall(m)
    ensures IsCall(Kept(m)) && ToolUses(Kept(m).content) == Kept(m).content
    ensures Kept(Kept(m)) == Kept(m) && Wanted(Kept(m)) == Wanted(m)
  {
    ToolUsesAreCalls(m.content);
    var calls := Kept(m).content;
    CallsAreCalls(calls, |calls|);
    assert calls[0].ToolUse?;
    assert Stamp(calls) == calls;
  }

  lemma {:induction false} KeepsTextAtCall(messages: seq<Message>, k: nat, unanswered: set<string>)
    requires messages != [] && IsCall(messages[0]) && k < |messages|
    requires Collect(messages[1..], Wanted(messages[0])) == (k, unanswered)
    requires TextOnly(Fix(messages[1 + k..]).out) == TextOnly(messages[1 + k..])
    ensures TextOnly(Fix(messages).out) == TextOnly(messages)
  {
    var m, cands, rest := messages[0], messages[1..1 + k], messages[1 + k..];
    CollectedHaveResults(messages[1..], Wanted(m));
    assert messages[1..][..k] == cands;
    assert messages == [m] + cands + rest;
    PairHasNoText(m, cands, rest);
    KeptIsCall(m);
    PairHasNoText(Kept(m), cands, Fix(rest).out);
    FixStep(messages);
  }

  /** No text-only message is lost or moved. */
  lemma {:induction false} FixKeepsText(messages: seq<Message>)
    ensures TextOnly(Fix(messages).out) == TextOnly(messages)
    decreases |messages|
  {
    if messages != [] {
      var m := messages[0];
      if IsCall(m) {
        var (k, unanswered) := Collect(messages[1..], Wanted(m));
        FixKeepsText(messages[1 + k..]);
        KeepsTextAtCall(messages, k, unanswered);
      } else {
        FixKeepsText(messages[1..]);
        TextOnlyConcat([m], Fix(messages[1..]).out);
      }
    }
  }

  // ---- Idempotence ----

  /** What answers every call does so whatever follows it. */
  lemma {:induction false} CollectPrefix(messages: seq<Message>, needed: set<string>, tail: seq<Message>)
    requires Collect(messages, needed).1 == {}
    ensures var k := Collect(messages, needed).0; Collect(messages[..k] + tail, needed) == (k, {})
    decreases |messages|
  {
    var k := Collect(messages, needed).0;
    if k == 0 {
      assert messages[..0] + tail == tail;
    } else {
      var rest := messages[1..];
      var next := needed - ResultIds(messages[0].content);
      CollectPrefix(rest, next, tail);
      assert (messages[..k] + tail)[1..] == rest[..k - 1] + tail;
    }
  }

  /** A second pass changes nothing and drops nothing. */
  lemma {:induction false} FixIdempotent(messages: seq<Message>)
    ensures var out := Fix(messages).out; Fix(out) == Repair(out, 0, 0)
    decreases |messages|
  {
    if messages != [] {
      if IsCall(messages[0]) {
        var (k, unanswered) := Collect(messages[1..], Wanted(messages[0]));
        FixIdempotent(messages[1 + k..]);
        if unanswered == {} {
          KeptPairKept(messages, k, Fix(messages[1 + k..]).out);
        }
      } else {
        FixIdempotent(messages[1..]);
        if !IsStray(messages[0]) {
          var rest := Fix(messages[1..]).out;
          assert ([messages[0]] + rest)[1..] == rest;
        }
      }
    }
  }

  /** A pair that needs no repair is passed on as it is. */
  lemma {:induction false} PairStays(call: Message, cands: seq<Message>, rest: seq<Message>)
    requires IsCall(call) && Kept(call) == call
    requires Collect(cands + rest, Wanted(call)) == (|cands|, {})
    requires Fix(rest) == Repair(rest, 0, 0)
    ensures Fix([call] + cands + rest) == Repair([call] + cands + rest, 0, 0)
  {
    var out := [call] + cands + rest;
    PairParts(call, cands, rest);
    FixAtCall(out, 0, 1 + |cands|, {});
    assert out[0..] == out;
  }

  lemma PairParts(call: Message, cands: seq<Message>, rest: seq<Message>)
    ensures var out := [call] + cands + rest;
            && out[0] == call && out[1..] == cands + rest
            && out[1..1 + |cands|] == cands && out[1 + |cands|..] == rest
  {
  }

  lemma KeptPairKept(messages: seq<Message>, k: nat, rest: seq<Message>)
    requires messages != [] && IsCall(messages[0]) && k < |messages|
    requires Collect(messages[1..], Wanted(messages[0])) == (k, {})
    requires rest == Fix(messages[1 + k..]).out && Fix(rest) == Repair(rest, 0, 0)
    ensures Fix(Fix(messages).out) == Repair(Fix(messages).out, 0, 0)
  {
    var call, cands := Kept(messages[0]), messages[1..1 + k];
    FixStep(messages);
    KeptIsCall(messages[0]);
    assert messages[1..][..k] == cands;
    CollectPrefix(messages[1..], Wanted(messages[0]), rest);
    PairStays(call, cands, rest);
  }
}
