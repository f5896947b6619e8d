/** What the agent loop sends: the cleaned list, or the repaired one if the repair
    dropped something.  So every tool call in it is answered exactly when something
    was dropped or no tool call came without an id. */
module MessageSending {
  import opened Messages
  import opened GoStrings
  import opened Preflight
  import opened ToolPairing
  import opened RepairPipeline

  // ---- Tool calls without an id ----

  predicate IsBlankCall(role: Role, block: Block) {
    role == Assistant && block.ToolUse? && block.id == ""
  }

  /** Some assistant message makes a tool call without an id. */
  predicate HasBlankCall(messages: seq<Message>) {
    exists i, j :: 0 <= i < |messages| && 0 <= j < |messages[i].content|
                   && IsBlankCall(messages[i].role, messages[i].content[j])
  }

  predicate BlankTag(tags: seq<(Role, Block)>) {
    exists i :: 0 <= i < |tags| && IsBlankCall(tags[i].0, tags[i].1)
  }

  lemma BlankTagConcat(a: seq<(Role, Block)>, b: seq<(Role, Block)>)
    ensures BlankTag(a + b) <==> BlankTag(a) || BlankTag(b)
  {
    if BlankTag(a) {
      var i :| 0 <= i < |a| && IsBlankCall(a[i].0, a[i].1);
      assert (a + b)[i] == a[i];
    }
    if BlankTag(b) {
      var i :| 0 <= i < |b| && IsBlankCall(b[i].0, b[i].1);
      assert (a + b)[|a| + i] == b[i];
    }
  }

  lemma BlankTagMessage(m: Message)
    ensures BlankTag(TaggedMessage(m)) <==> exists j :: 0 <= j < |m.content| && IsBlankCall(m.role, m.content[j])
  {
    if j :| 0 <= j < |m.content| && IsBlankCall(m.role, m.content[j]) {
      assert TaggedMessage(m)[j] == (m.role, m.content[j]);
    }
  }

  predicate BlankMessage(m: Message) {
    exists j :: 0 <= j < |m.content| && IsBlankCall(m.role, m.content[j])
  }

  lemma {:induction false} BlankTagIff(ms: seq<Message>)
    ensures BlankTag(Tagged(ms)) <==> HasBlankCall(ms)
    ensures HasBlankCall(ms) <==> exists i :: 0 <= i < |ms| && BlankMessage(ms[i])
  {
    if ms != [] {
      var rest := ms[1..];
      BlankTagIff(rest);
      BlankTagMessage(ms[0]);
      BlankTagConcat(TaggedMessage(ms[0]), Tagged(rest));
      if i :| 0 <= i < |rest| && BlankMessage(rest[i]) {
        assert ms[i + 1] == rest[i];
      }
      if i :| 0 <= i < |ms| && BlankMessage(ms[i]) {
        assert i == 0 || rest[i - 1] == ms[i];
      }
    }
  }

  lemma {:induction false} CallsOf(content: seq<Block>, n: nat)
    requires n <= |content|
    ensures forall j :: 0 <= j < n && content[j].ToolUse? ==> content[j] in ToolUsesTo(content, n)
    ensures forall i :: 0 <= i < |ToolUsesTo(content, n)| ==> ToolUsesTo(content, n)[i] in content[..n]
  {
    if n > 0 {
      CallsOf(content, n - 1);
      assert content[..n] == content[..n - 1] + [content[n - 1]];
    }
  }

  lemma BlankMessageIff(m: Message)
    ensures BlankMessage(m) <==> IsCall(m) && !HasIds(m)
  {
    CallsOf(m.content, |m.content|);
  }

  lemma HasBlankCallIff(messages: seq<Message>, cleaned: seq<Message>)
    requires Tagged(cleaned) == Tagged(messages)
    ensures HasBlankCall(messages) <==> exists i :: 0 <= i < |cleaned| && IsCall(cleaned[i]) && !HasIds(cleaned[i])
  {
    BlankTagIff(messages);
    BlankTagIff(cleaned);
    forall i | 0 <= i < |cleaned|
      ensures BlankMessage(cleaned[i]) <==> IsCall(cleaned[i]) && !HasIds(cleaned[i])
    {
      BlankMessageIff(cleaned[i]);
    }
  }

  /** The list that is sent: the repaired one, but only if the repair dropped something. */
  ghost function Sent(messages: seq<Message>): seq<Message> {
    var cleaned := Preflighted(messages);
    if Drops(cleaned) > 0 then Fix(cleaned).out else cleaned
  }

  /** The sent list answers every call exactly when some message of the cleaned list
      does not survive the repair or no call came without an id: a blank id alone is
      not repaired. */
  lemma SentIsAnsweredIff(messages: seq<Message>)
    ensures AllAnsweredNext(Sent(messages)) <==> SomeFails(Preflighted(messages)) || !HasBlankCall(messages)
  {
    var cleaned := Preflighted(messages);
    DropsNothingIff(cleaned);
    if SomeFails(cleaned) {
      FixAnswersNext(cleaned);
    } else {
      SurvivorsAnsweredIff(cleaned);
      HasBlankCallIff(messages, cleaned);
    }
  }

  /** A call the next message does not answer in full, an answer to part of a call, or
      results without ids. */
  predicate SomeFails(ms: seq<Message>) {
    exists i :: 0 <= i < |ms| && !Survives(ms, i)
  }

  lemma SurvivorsAnsweredIff(ms: seq<Message>)
    requires forall i :: 0 <= i < |ms| ==> Survives(ms, i)
    ensures AllAnsweredNext(ms) <==> !exists i :: 0 <= i < |ms| && IsCall(ms[i]) && !HasIds(ms[i])
  {
    forall i | 0 <= i < |ms|
      ensures AnsweredAt(ms, i) <==> !(IsCall(ms[i]) && !HasIds(ms[i]))
    {
      assert Survives(ms, i);
    }
  }

  lemma FirstStamp(call: Block)
    requires NeedsId(call)
    ensures Stamp([call]) == [call.(id := "z-ext-0")]
  {
    assert Itoa(0) == "0";
    assert "z-ext-" + "0" == "z-ext-0";
    assert Missing([call], 0) == 0;
  }

  lemma BlankCallWants(name: string, input: string)
    ensures var call := Message(Assistant, [ToolUse("", name, input)]);
            IsCall(call) && !HasIds(call) && Wanted(call) == {"z-ext-0"}
  {
    var blank := ToolUse("", name, input);
    var call := Message(Assistant, [blank]);
    assert ToolUsesTo(call.content, 0) == [];
    assert ToolUses(call.content) == [blank];
    FirstStamp(blank);
    var stamped := Stamp([blank]);
    assert stamped[0].id in CallIds(stamped);
    assert NeedsId(ToolUses(call.content)[0]);
  }

  /** A call without an id, answered under the id the repair would have given it:
      nothing is dropped, so it is sent as it came. */
  lemma {:induction false} BlankCallIsSent(name: string, input: string, result: seq<ResultPart>)
    ensures var call := Message(Assistant, [ToolUse("", name, input)]);
            var answer := Message(User, [ToolResult("z-ext-0", result, false)]);
            Sent([call, answer]) == [call, answer] && !AllAnsweredNext([call, answer])
  {
    var call := Message(Assistant, [ToolUse("", name, input)]);
    var answer := Message(User, [ToolResult("z-ext-0", result, false)]);
    var ms := [call, answer];
    BlankCallWants(name, input);
    assert answer.content[0].ToolResult?;
    assert answer.content[0].toolUseId in ResultIds(answer.content);
    assert Alternating(ms) && IsCall(ms[0]);
    assert NextAnswersAll(ms, 0);
    AnswerIsNotStray(ms, 0);
    assert Survives(ms, 0) && Survives(ms, 1) && !AnsweredAt(ms, 0);
    DropsNothingIff(ms);
    AlternatingUnique(Preflighted(ms), ms);
  }

  method PrepareMessages(messages: seq<Message>) returns (sent: seq<Message>)
    ensures sent == Sent(messages)
    ensures AllAnsweredNext(sent) <==> SomeFails(Preflighted(messages)) || !HasBlankCall(messages)
  {
    SentIsAnsweredIff(messages);
    sent := PreflightValidateMessages(messages);
    var filtered, droppedCalls, droppedTools := FixToolCallPairing(sent);
    if droppedCalls > 0 || droppedTools > 0 {
      sent := filtered;
    }
  }
}
