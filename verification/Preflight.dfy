/** `preflightValidateMessages`: drops empty messages and messages of unknown
    roles and merges neighbours of the same role.  Its result is pinned down
    without reference to the code: it is the one strictly alternating list of
    non-empty messages that carries the same blocks under the same roles. */
module Preflight {
  import opened Messages

  predicate KnownRole(role: Role) {
    role == User || role == Assistant
  }

  /** The blocks of all messages with known roles, in order, each with its role. */
  function Tagged(messages: seq<Message>): seq<(Role, Block)> {
    if messages == [] then []
    else TaggedMessage(messages[0]) + Tagged(messages[1..])
  }

  function TaggedMessage(m: Message): seq<(Role, Block)> {
    if KnownRole(m.role) then seq(|m.content|, i requires 0 <= i < |m.content| => (m.role, m.content[i])) else []
  }

  /** Non-empty messages of known roles, no two neighbours sharing one. */
  ghost predicate Alternating(messages: seq<Message>) {
    && (forall i :: 0 <= i < |messages| ==> KnownRole(messages[i].role) && messages[i].content != [])
    && (forall i, j :: 0 <= i < j < |messages| && j == i + 1 ==> messages[i].role != messages[j].role)
  }

  lemma {:induction false} TaggedConcat(a: seq<Message>, b: seq<Message>)
    ensures Tagged(a + b) == Tagged(a) + Tagged(b)
  {
    if a == [] {
      assert a + b == b;
    } else {
      assert (a + b)[1..] == a[1..] + b;
      TaggedConcat(a[1..], b);
    }
  }

  lemma TaggedSnoc(a: seq<Message>, m: Message)
    ensures Tagged(a + [m]) == Tagged(a) + TaggedMessage(m)
  {
    TaggedConcat(a, [m]);
    assert Tagged([m]) == TaggedMessage(m) + Tagged([]);
  }

  /** `cleaned` is a clean list of what the first `i` messages carry. */
  ghost predicate CleanPrefix(cleaned: seq<Message>, messages: seq<Message>, i: nat) {
    i <= |messages| && Alternating(cleaned) && Tagged(cleaned) == Tagged(messages[..i])
  }

  lemma DropKeeps(cleaned: seq<Message>, messages: seq<Message>, i: nat)
    requires i < |messages| && CleanPrefix(cleaned, messages, i)
    requires messages[i].content == [] || !KnownRole(messages[i].role)
    ensures CleanPrefix(cleaned, messages, i + 1)
  {
    assert messages[..i + 1] == messages[..i] + [messages[i]];
    TaggedSnoc(messages[..i], messages[i]);
    assert TaggedMessage(messages[i]) == [];
  }

  lemma MergeKeeps(cleaned: seq<Message>, messages: seq<Message>, i: nat)
    requires i < |messages| && CleanPrefix(cleaned, messages, i)
    requires cleaned != [] && cleaned[|cleaned| - 1].role == messages[i].role
    ensures CleanPrefix(Merged(cleaned, messages[i]), messages, i + 1)
  {
    assert messages[..i + 1] == messages[..i] + [messages[i]];
    TaggedSnoc(messages[..i], messages[i]);
    MergedAlternates(cleaned, messages[i]);
    MergeLast(cleaned, messages[i]);
  }

  lemma AppendKeeps(cleaned: seq<Message>, messages: seq<Message>, i: nat)
    requires i < |messages| && CleanPrefix(cleaned, messages, i)
    requires messages[i].content != [] && KnownRole(messages[i].role)
    requires cleaned != [] ==> cleaned[|cleaned| - 1].role != messages[i].role
    ensures CleanPrefix(cleaned + [messages[i]], messages, i + 1)
  {
    assert messages[..i + 1] == messages[..i] + [messages[i]];
    TaggedSnoc(messages[..i], messages[i]);
    TaggedSnoc(cleaned, messages[i]);
    AppendAlternates(cleaned, messages[i]);
  }

  lemma {:induction false} AppendAlternates(cleaned: seq<Message>, msg: Message)
    requires Alternating(cleaned) && msg.content != [] && KnownRole(msg.role)
    requires cleaned != [] ==> cleaned[|cleaned| - 1].role != msg.role
    ensures Alternating(cleaned + [msg])
  {
  }

  method PreflightValidateMessages(messages: seq<Message>) returns (cleaned: seq<Message>)
    ensures Alternating(cleaned)
    ensures Tagged(cleaned) == Tagged(messages)
    ensures cleaned == Preflighted(messages)
  {
    cleaned := [];
    for i := 0 to |messages|
      invariant CleanPrefix(cleaned, messages, i)
    {
      var msg := messages[i];
      if |msg.content| == 0 {
        DropKeeps(cleaned, messages, i);
        continue;
      }
      if msg.role != User && msg.role != Assistant {
        DropKeeps(cleaned, messages, i);
        continue;
      }
      var last := |cleaned| - 1;
      if |cleaned| > 0 && cleaned[last].role == msg.role {
        MergeKeeps(cleaned, messages, i);
        cleaned := cleaned[last := cleaned[last].(content := cleaned[last].content + msg.content)];
        continue;
      }
      AppendKeeps(cleaned, messages, i);
      cleaned := cleaned + [msg];
    }
    assert messages[..|messages|] == messages;
    AlternatingUnique(cleaned, Preflighted(messages));
  }

  /** The blocks of `msg` added to the last message. */
  ghost function Merged(cleaned: seq<Message>, msg: Message): seq<Message>
    requires cleaned != []
  {
    var last := |cleaned| - 1;
    cleaned[last := cleaned[last].(content := cleaned[last].content + msg.content)]
  }

  lemma {:induction false} MergedAlternates(cleaned: seq<Message>, msg: Message)
    requires cleaned != [] && Alternating(cleaned)
    ensures Alternating(Merged(cleaned, msg))
  {
  }

  lemma {:induction false} MergeLast(cleaned: seq<Message>, msg: Message)
    requires cleaned != [] && cleaned[|cleaned| - 1].role == msg.role && KnownRole(msg.role)
    ensures Tagged(Merged(cleaned, msg)) == Tagged(cleaned) + TaggedMessage(msg)
  {
    var last := |cleaned| - 1;
    var m := cleaned[last];
    var joined := m.(content := m.content + msg.content);
    assert cleaned == cleaned[..last] + [m];
    assert cleaned[last := joined] == cleaned[..last] + [joined];
    TaggedSnoc(cleaned[..last], m);
    TaggedSnoc(cleaned[..last], joined);
    assert TaggedMessage(joined) == TaggedMessage(m) + TaggedMessage(msg);
  }

  /** Alternating lists with the same tagged blocks are the same list, so the two
      postconditions of the method leave it no choice. */
  lemma {:induction false} AlternatingUnique(a: seq<Message>, b: seq<Message>)
    requires Alternating(a) && Alternating(b) && Tagged(a) == Tagged(b)
    ensures a == b
    decreases |a|
  {
    if a == [] || b == [] {
      NonEmptyTags(a);
      NonEmptyTags(b);
    } else {
      FirstRun(a);
      FirstRun(b);
      var m, n := a[0], b[0];
      RunUnique(Tagged(a), m.role, |m.content|, n.role, |n.content|);
      forall i | 0 <= i < |m.content|
        ensures m.content[i] == n.content[i]
      {
        assert Tagged(a)[i] == (m.role, m.content[i]);
        assert Tagged(b)[i] == (n.role, n.content[i]);
      }
      assert m.content == n.content;
      assert Tagged(a)[|m.content|..] == Tagged(a[1..]);
      assert Tagged(b)[|m.content|..] == Tagged(b[1..]);
      AlternatingUnique(a[1..], b[1..]);
    }
  }

  lemma NonEmptyTags(a: seq<Message>)
    requires Alternating(a)
    ensures a != [] ==> Tagged(a) != []
  {
  }

  /** The first `k` entries have role `r` and the next one, if any, another role. */
  ghost predicate Leads(s: seq<(Role, Block)>, r: Role, k: nat) {
    && 0 < k <= |s|
    && (forall i :: 0 <= i < k ==> s[i].0 == r)
    && (k < |s| ==> s[k].0 != r)
  }

  lemma {:induction false} RunUnique(s: seq<(Role, Block)>, r: Role, k: nat, q: Role, l: nat)
    requires Leads(s, r, k) && Leads(s, q, l)
    ensures r == q && k == l
  {
    assert s[0].0 == r;
  }

  /** The first message takes exactly the leading blocks of its role. */
  lemma {:induction false} FirstRun(a: seq<Message>)
    requires Alternating(a) && a != []
    ensures Leads(Tagged(a), a[0].role, |a[0].content|)
  {
    var k := |a[0].content|;
    assert Tagged(a)[k..] == Tagged(a[1..]);
    if |a| > 1 {
      assert Tagged(a)[k] == TaggedMessage(a[1])[0];
    }
  }

  lemma {:induction false} CleanStep(cleaned: seq<Message>, messages: seq<Message>, i: nat) returns (next: seq<Message>)
    requires i < |messages| && CleanPrefix(cleaned, messages, i)
    ensures CleanPrefix(next, messages, i + 1)
  {
    var msg := messages[i];
    if msg.content == [] || !KnownRole(msg.role) {
      DropKeeps(cleaned, messages, i);
      next := cleaned;
    } else if cleaned != [] && cleaned[|cleaned| - 1].role == msg.role {
      MergeKeeps(cleaned, messages, i);
      next := Merged(cleaned, msg);
    } else {
      AppendKeeps(cleaned, messages, i);
      next := cleaned + [msg];
    }
  }

  lemma {:induction false} CleanList(messages: seq<Message>, i: nat) returns (cleaned: seq<Message>)
    requires i <= |messages|
    ensures CleanPrefix(cleaned, messages, i)
  {
    cleaned := [];
    if i > 0 {
      var before := CleanList(messages, i - 1);
      cleaned := CleanStep(before, messages, i - 1);
    }
  }

  lemma {:induction false} CleanExists(messages: seq<Message>)
    ensures exists cleaned :: CleanPrefix(cleaned, messages, |messages|)
  {
    var cleaned := CleanList(messages, |messages|);
  }

  /** The clean list of a list of messages. */
  ghost function Preflighted(messages: seq<Message>): (cleaned: seq<Message>)
    ensures Alternating(cleaned) && Tagged(cleaned) == Tagged(messages)
  {
    CleanExists(messages);
    assert messages[..|messages|] == messages;
    var cleaned :| CleanPrefix(cleaned, messages, |messages|);
    cleaned
  }

  /** A second pass changes nothing. */
  lemma PreflightIdempotent(messages: seq<Message>)
    ensures Preflighted(Preflighted(messages)) == Preflighted(messages)
  {
    AlternatingUnique(Preflighted(Preflighted(messages)), Preflighted(messages));
  }
}
