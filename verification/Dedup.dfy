/** `dedupToolResults`: a tool result whose text hashes like that of an earlier one
    is replaced by a reference to it. */
module Dedup {
  import opened Wrappers
  import opened Lists
  import opened Messages

  // ---- The hash ----

  function TextOf(content: seq<ResultPart>): string {
    if content == [] then ""
    else TextOf(content[..|content| - 1]) + match content[|content| - 1]
                                            case TextPart(text) => text
                                            case OtherPart(data) => ""
  }

  /** Bitwise exclusive or. */
  function Xor(a: nat, b: nat): nat {
    if a == 0 then b else (if a % 2 == b % 2 then 0 else 1) + 2 * Xor(a / 2, b / 2)
  }

  function FnvStep(h: nat, c: char): nat {
    (Xor(h, c as int) * 16777619) % 0x1_0000_0000
  }

  /** 32-bit FNV-1a over the characters of a text. */
  function Fnv(s: string): nat {
    if s == "" then 2166136261 else FnvStep(Fnv(s[..|s| - 1]), s[|s| - 1])
  }

  method JoinText(content: seq<ResultPart>) returns (text: string)
    ensures text == TextOf(content)
  {
    text := "";
    for i := 0 to |content|
      invariant text == TextOf(content[..i])
    {
      assert content[..i + 1][..i] == content[..i];
      if content[i].TextPart? {
        text := text + content[i].text;
      }
    }
    assert content[..|content|] == content;
  }

  method HashToolResultContent(content: seq<ResultPart>) returns (h: nat)
    ensures h == Fnv(TextOf(content))
  {
    var text := JoinText(content);
    h := 2166136261;
    for i := 0 to |text|
      invariant h == Fnv(text[..i])
    {
      assert text[..i + 1][..i] == text[..i];
      h := FnvStep(h, text[i]);
    }
    assert text[..|text|] == text;
  }

  // ---- What becomes of each block ----

  /** Results that take part: errors never do. */
  predicate Eligible(b: Block) {
    b.ToolResult? && !b.isError
  }

  function KeyOf(b: Block): Option<nat> {
    if Eligible(b) then Some(Fnv(TextOf(b.content))) else None
  }

  function Keys(blocks: seq<Block>): seq<Option<nat>> {
    seq(|blocks|, i requires 0 <= i < |blocks| => KeyOf(blocks[i]))
  }

  function Reference(id: string): seq<ResultPart> {
    [TextPart("[duplicate result, see tool_use_id " + id + "]")]
  }

  /** The first of the first `n` positions with key `h`. */
  function FirstWith(keys: seq<Option<nat>>, n: nat, h: nat): (m: Option<nat>)
    requires n <= |keys|
    ensures m.Some? ==> m.value < n && keys[m.value] == Some(h)
    ensures m.None? ==> forall i :: 0 <= i < n ==> keys[i] != Some(h)
  {
    if n == 0 then None
    else
      var earlier := FirstWith(keys, n - 1, h);
      if earlier.Some? then earlier
      else if keys[n - 1] == Some(h) then Some(n - 1)
      else None
  }

  /** Block `k` of the result. */
  function Deduped(blocks: seq<Block>, keys: seq<Option<nat>>, k: nat): Block
    requires k < |blocks| == |keys|
  {
    match keys[k]
    case None => blocks[k]
    case Some(h) => Replaced(blocks, blocks[k], FirstWith(keys, k, h))
  }

  function Replaced(blocks: seq<Block>, b: Block, first: Option<nat>): Block
    requires first.Some? ==> first.value < |blocks|
  {
    match first
    case None => b
    case Some(m) =>
      if blocks[m].ToolResult? && b.ToolResult? && blocks[m].toolUseId != b.toolUseId
      then b.(content := Reference(blocks[m].toolUseId))
      else b
  }

  ghost predicate DedupedBy(blocks: seq<Block>, keys: seq<Option<nat>>, out: seq<Block>) {
    |out| == |blocks| == |keys| && forall k :: 0 <= k < |blocks| ==> out[k] == Deduped(blocks, keys, k)
  }

  ghost predicate IsDeduped(blocks: seq<Block>, out: seq<Block>) {
    DedupedBy(blocks, Keys(blocks), out)
  }

  lemma {:induction false} FirstWithPrefix(a: seq<Option<nat>>, b: seq<Option<nat>>, n: nat, h: nat)
    requires n <= |a|
    ensures FirstWith(a + b, n, h) == FirstWith(a, n, h)
  {
    if n > 0 {
      FirstWithPrefix(a, b, n - 1, h);
    }
  }

  // ---- The code ----

  /** `seen` gives, for every key so far, the id of the first result that has it. */
  ghost predicate SeenAt(blocks: seq<Block>, keys: seq<Option<nat>>, seen: map<nat, string>, h: nat)
    requires |blocks| == |keys|
  {
    match FirstWith(keys, |keys|, h)
    case None => h !in seen
    case Some(m) => h in seen && blocks[m].ToolResult? && seen[h] == blocks[m].toolUseId
  }

  ghost predicate SeenIn(blocks: seq<Block>, keys: seq<Option<nat>>, seen: map<nat, string>) {
    |blocks| == |keys| && forall h :: SeenAt(blocks, keys, seen, h)
  }

  /** A block without a key changes nothing. */
  lemma SeenSkip(blocks: seq<Block>, keys: seq<Option<nat>>, seen: map<nat, string>, b: Block)
    requires SeenIn(blocks, keys, seen)
    ensures SeenIn(blocks + [b], keys + [None], seen)
  {
    forall h
      ensures SeenAt(blocks + [b], keys + [None], seen, h)
    {
      assert SeenAt(blocks, keys, seen, h);
      FirstWithPrefix(keys, [None], |keys|, h);
    }
  }

  lemma SeenAdd(blocks: seq<Block>, keys: seq<Option<nat>>, before: map<nat, string>, after: map<nat, string>,
                b: Block, key: nat)
    requires SeenIn(blocks, keys, before) && b.ToolResult?
    requires after == if key in before && before[key] != b.toolUseId then before else before[key := b.toolUseId]
    ensures SeenIn(blocks + [b], keys + [Some(key)], after)
  {
    forall h
      ensures SeenAt(blocks + [b], keys + [Some(key)], after, h)
    {
      assert SeenAt(blocks, keys, before, h);
      FirstWithPrefix(keys, [Some(key)], |keys|, h);
    }
  }

  lemma {:induction false} DedupedSnoc(blocks: seq<Block>, keys: seq<Option<nat>>, out: seq<Block>, b: Block,
                                       key: Option<nat>, c: Block)
    requires DedupedBy(blocks, keys, out)
    requires c == match key
                  case None => b
                  case Some(h) => Replaced(blocks, b, FirstWith(keys, |keys|, h))
    ensures DedupedBy(blocks + [b], keys + [key], out + [c])
  {
    var n := |keys|;
    forall k | 0 <= k < n + 1
      ensures (out + [c])[k] == Deduped(blocks + [b], keys + [key], k)
    {
      var here := (keys + [key])[k];
      if here.Some? {
        FirstWithPrefix(keys, [key], k, here.value);
      }
    }
  }

  /** The state of the pass after some of the blocks. */
  ghost predicate PassedOver(blocks: seq<Block>, out: seq<Block>, seen: map<nat, string>) {
    IsDeduped(blocks, out) && SeenIn(blocks, Keys(blocks), seen)
  }

  lemma PassSkip(blocks: seq<Block>, out: seq<Block>, seen: map<nat, string>, b: Block)
    requires PassedOver(blocks, out, seen) && !Eligible(b)
    ensures PassedOver(blocks + [b], out + [b], seen)
  {
    assert Keys(blocks + [b]) == Keys(blocks) + [None];
    SeenSkip(blocks, Keys(blocks), seen, b);
    DedupedSnoc(blocks, Keys(blocks), out, b, None, b);
  }

  lemma PassResult(blocks: seq<Block>, out: seq<Block>, before: map<nat, string>, b: Block, key: nat,
                   after: map<nat, string>, c: Block)
    requires PassedOver(blocks, out, before) && KeyOf(b) == Some(key)
    requires (c, after) == if key in before && before[key] != b.toolUseId
                           then (b.(content := Reference(before[key])), before)
                           else (b, before[key := b.toolUseId])
    ensures PassedOver(blocks + [b], out + [c], after)
  {
    var keys := Keys(blocks);
    assert Keys(blocks + [b]) == keys + [Some(key)];
    SeenAdd(blocks, keys, before, after, b, key);
    assert SeenAt(blocks, keys, before, key);
    DedupedSnoc(blocks, keys, out, b, Some(key), c);
  }

  method DedupContent(ghost before: seq<Block>, ghost outBefore: seq<Block>, content: seq<Block>,
                      seen: map<nat, string>)
    returns (out: seq<Block>, seen': map<nat, string>)
    requires PassedOver(before, outBefore, seen)
    ensures |out| == |content|
    ensures PassedOver(before + content, outBefore + out, seen')
  {
    out := [];
    seen' := seen;
    assert before + content[..0] == before && outBefore + out == outBefore;
    for j := 0 to |content|
      invariant |out| == j
      invariant PassedOver(before + content[..j], outBefore + out, seen')
    {
      var block := content[j];
      ghost var done, outDone := before + content[..j], outBefore + out;
      assert before + content[..j + 1] == done + [block];
      assert forall c :: outBefore + (out + [c]) == outDone + [c];
      if !block.ToolResult? {
        PassSkip(done, outDone, seen', block);
        out := out + [block];
        continue;
      }
      var contentHash := HashToolResultContent(block.content);
      var toolUseId := block.toolUseId;
      if block.isError {
        PassSkip(done, outDone, seen', block);
        out := out + [block];
        continue;
      }
      if contentHash in seen' && seen'[contentHash] != toolUseId {
        var reference := block.(content := Reference(seen'[contentHash]));
        PassResult(done, outDone, seen', block, contentHash, seen', reference);
        out := out + [reference];
      } else {
        PassResult(done, outDone, seen', block, contentHash, seen'[contentHash := toolUseId], block);
        out := out + [block];
        seen' := seen'[contentHash := toolUseId];
      }
    }
    assert content[..|content|] == content;
  }

  function Contents(ms: seq<Message>): seq<seq<Block>> {
    seq(|ms|, i requires 0 <= i < |ms| => ms[i].content)
  }

  function AllBlocks(ms: seq<Message>): seq<Block> {
    Flatten(Contents(ms))
  }

  lemma AllBlocksSnoc(ms: seq<Message>, m: Message)
    ensures AllBlocks(ms + [m]) == AllBlocks(ms) + m.content
  {
    assert Contents(ms + [m]) == Contents(ms) + [m.content];
    FlattenSnoc(Contents(ms), m.content);
  }

  /** Only the contents of results change; the blocks of all messages together are
      deduplicated in order. */
  method DedupToolResults(messages: seq<Message>) returns (out: seq<Message>)
    ensures |out| == |messages|
    ensures forall i :: 0 <= i < |out| ==> out[i].role == messages[i].role && |out[i].content| == |messages[i].content|
    ensures IsDeduped(AllBlocks(messages), AllBlocks(out))
  {
    var seen: map<nat, string> := map[];
    out := [];
    for i := 0 to |messages|
      invariant |out| == i
      invariant forall k :: 0 <= k < i ==> out[k].role == messages[k].role && |out[k].content| == |messages[k].content|
      invariant PassedOver(AllBlocks(messages[..i]), AllBlocks(out), seen)
    {
      var content;
      content, seen := DedupContent(AllBlocks(messages[..i]), AllBlocks(out), messages[i].content, seen);
      var m := messages[i].(content := content);
      assert messages[..i + 1] == messages[..i] + [messages[i]];
      AllBlocksSnoc(messages[..i], messages[i]);
      AllBlocksSnoc(out, m);
      out := out + [m];
    }
    assert messages[..|messages|] == messages;
  }

  // ---- When nothing is lost ----

  /** Block `k` with its reference resolved: a result that refers to an earlier one
      gets that one's content back. */
  ghost function Expanded(out: seq<Block>, k: nat): Block
    requires k < |out|
  {
    if exists j: nat :: RefersTo(out, k, j) then
      var j: nat :| RefersTo(out, k, j);
      out[k].(content := out[j].content)
    else out[k]
  }

  ghost predicate RefersTo(out: seq<Block>, k: nat, j: nat) {
    j < k < |out| && Eligible(out[j]) && Eligible(out[k]) && out[k].content == Reference(out[j].toolUseId)
  }

  /** No two results share an id. */
  ghost predicate DistinctIds(blocks: seq<Block>) {
    forall i, j :: 0 <= i < j < |blocks| && Eligible(blocks[i]) && Eligible(blocks[j]) ==>
                     blocks[i].toolUseId != blocks[j].toolUseId
  }

  /** No result already reads like a reference to an earlier one. */
  ghost predicate NoReferences(blocks: seq<Block>) {
    forall k: nat, j: nat :: !RefersTo(blocks, k, j)
  }

  ghost predicate SameKey(a: Block, b: Block) {
    KeyOf(a).Some? && KeyOf(a) == KeyOf(b)
  }

  /** Results with the same key have the same content. */
  ghost predicate KeysDecide(blocks: seq<Block>) {
    forall i, j :: 0 <= i < j < |blocks| && SameKey(blocks[i], blocks[j]) ==> blocks[i].content == blocks[j].content
  }

  lemma ReferenceInjective(a: string, b: string)
    requires Reference(a) == Reference(b)
    ensures a == b
  {
    var front, back := "[duplicate result, see tool_use_id ", "]";
    var s, t := front + a + back, front + b + back;
    assert Reference(a)[0].text == s && Reference(b)[0].text == t;
    assert s[|front|..|s| - 1] == a && t[|front|..|t| - 1] == b;
  }

  ghost predicate Lossless(blocks: seq<Block>, out: seq<Block>) {
    |out| == |blocks| && forall k :: 0 <= k < |blocks| ==> Expanded(out, k) == blocks[k]
  }

  lemma {:induction false} FirstIsFirst(keys: seq<Option<nat>>, n: nat, h: nat)
    requires n <= |keys| && FirstWith(keys, n, h).Some?
    ensures FirstWith(keys, FirstWith(keys, n, h).value, h) == None
  {
    if FirstWith(keys, n - 1, h).Some? {
      FirstIsFirst(keys, n - 1, h);
    }
  }

  /** Deduplication changes contents only. */
  lemma SameButContent(blocks: seq<Block>, out: seq<Block>, k: nat)
    requires IsDeduped(blocks, out) && k < |blocks|
    ensures Eligible(out[k]) == Eligible(blocks[k])
    ensures Eligible(blocks[k]) ==>
              out[k].toolUseId == blocks[k].toolUseId && out[k] == blocks[k].(content := out[k].content)
  {
  }

  /** The position a result with key `h` is resolved to: the first with that key. */
  function Original(blocks: seq<Block>, k: nat, h: nat): (m: nat)
    requires k < |blocks| && KeyOf(blocks[k]) == Some(h)
    ensures m <= k && KeyOf(blocks[m]) == Some(h)
  {
    match FirstWith(Keys(blocks), k, h)
    case None => k
    case Some(m) => m
  }

  lemma Unreferenced(blocks: seq<Block>, out: seq<Block>, k: nat)
    requires NoReferences(blocks) && IsDeduped(blocks, out) && k < |blocks| && out[k] == blocks[k]
    ensures Expanded(out, k) == blocks[k]
  {
    forall j: nat
      ensures !RefersTo(out, k, j)
    {
      if j < k {
        SameButContent(blocks, out, j);
        assert !RefersTo(blocks, k, j);
      }
    }
  }

  lemma Referenced(blocks: seq<Block>, out: seq<Block>, k: nat, m: nat)
    requires DistinctIds(blocks) && IsDeduped(blocks, out) && m < k < |blocks|
    requires Eligible(blocks[m]) && Eligible(blocks[k]) && out[m] == blocks[m]
    requires out[k].content == Reference(blocks[m].toolUseId)
    ensures Expanded(out, k) == blocks[k].(content := blocks[m].content)
  {
    SameButContent(blocks, out, k);
    assert RefersTo(out, k, m);
    forall j: nat | RefersTo(out, k, j)
      ensures j == m
    {
      SameButContent(blocks, out, j);
      ReferenceInjective(out[j].toolUseId, blocks[m].toolUseId);
    }
  }

  /** Expanding gives every result the content of the first one with its key. */
  lemma ExpandsToOriginal(blocks: seq<Block>, out: seq<Block>, k: nat)
    requires DistinctIds(blocks) && NoReferences(blocks) && IsDeduped(blocks, out) && k < |blocks|
    ensures Expanded(out, k) == match KeyOf(blocks[k])
                                case None => blocks[k]
                                case Some(h) => blocks[k].(content := blocks[Original(blocks, k, h)].content)
  {
    match KeyOf(blocks[k])
    case None => Unreferenced(blocks, out, k);
    case Some(h) =>
      var keys := Keys(blocks);
      match FirstWith(keys, k, h) {
        case None => Unreferenced(blocks, out, k);
        case Some(m) =>
          FirstIsFirst(keys, k, h);
          assert keys[m] == KeyOf(blocks[m]);
          assert out[m] == Deduped(blocks, keys, m) == blocks[m];
          assert blocks[m].toolUseId != blocks[k].toolUseId;
          assert out[k] == Deduped(blocks, keys, k);
          Referenced(blocks, out, k, m);
      }
  }

  /** Each reference names an earlier result that is no error, was not replaced itself
      and has the same key. */
  lemma ReferencesAreSound(blocks: seq<Block>, out: seq<Block>, k: nat) returns (m: nat)
    requires IsDeduped(blocks, out) && k < |blocks| && out[k] != blocks[k]
    ensures m < k && SameKey(blocks[m], blocks[k]) && out[m] == blocks[m]
    ensures out[k] == blocks[k].(content := Reference(blocks[m].toolUseId))
  {
    var keys := Keys(blocks);
    assert keys[k] == KeyOf(blocks[k]) && out[k] == Deduped(blocks, keys, k);
    var h := keys[k].value;
    m := FirstWith(keys, k, h).value;
    FirstIsFirst(keys, k, h);
    assert keys[m] == KeyOf(blocks[m]) && out[m] == Deduped(blocks, keys, m);
  }

  /** With distinct ids and nothing that reads like a reference beforehand, references
      resolve to the original blocks exactly when equal keys mean equal contents. */
  lemma LosslessIff(blocks: seq<Block>, out: seq<Block>)
    requires DistinctIds(blocks) && NoReferences(blocks) && IsDeduped(blocks, out)
    ensures Lossless(blocks, out) <==> KeysDecide(blocks)
  {
    forall k | 0 <= k < |blocks|
      ensures Expanded(out, k) == match KeyOf(blocks[k])
                                  case None => blocks[k]
                                  case Some(h) => blocks[k].(content := blocks[Original(blocks, k, h)].content)
    {
      ExpandsToOriginal(blocks, out, k);
    }
    if Lossless(blocks, out) {
      forall i, j | 0 <= i < j < |blocks| && SameKey(blocks[i], blocks[j])
        ensures blocks[i].content == blocks[j].content
      {
        SameOriginal(blocks, i, j, KeyOf(blocks[i]).value);
        assert Expanded(out, i) == blocks[i] && Expanded(out, j) == blocks[j];
      }
    }
  }

  lemma SameOriginal(blocks: seq<Block>, i: nat, j: nat, h: nat)
    requires i < j < |blocks| && KeyOf(blocks[i]) == KeyOf(blocks[j]) == Some(h)
    ensures Original(blocks, i, h) == Original(blocks, j, h)
  {
    var keys := Keys(blocks);
    assert keys[i] == KeyOf(blocks[i]);
    FirstStays(keys, i, j, h);
  }

  lemma {:induction false} FirstStays(keys: seq<Option<nat>>, i: nat, j: nat, h: nat)
    requires i < j <= |keys| && keys[i] == Some(h)
    ensures FirstWith(keys, j, h) == match FirstWith(keys, i, h) case None => Some(i) case Some(m) => Some(m)
    decreases j
  {
    if i + 1 < j {
      FirstStays(keys, i, j - 1, h);
    }
  }

  /** If no two of the texts collide and every result is one text, nothing is lost. */
  lemma CollisionFreeIsLossless(blocks: seq<Block>, out: seq<Block>)
    requires DistinctIds(blocks) && NoReferences(blocks) && IsDeduped(blocks, out)
    requires forall i :: 0 <= i < |blocks| && Eligible(blocks[i]) ==>
                           |blocks[i].content| == 1 && blocks[i].content[0].TextPart?
    requires forall i, j :: 0 <= i < j < |blocks| && SameKey(blocks[i], blocks[j]) ==>
                              TextOf(blocks[i].content) == TextOf(blocks[j].content)
    ensures Lossless(blocks, out)
  {
    forall i, j | 0 <= i < j < |blocks| && SameKey(blocks[i], blocks[j])
      ensures blocks[i].content == blocks[j].content
    {
      OneText(blocks[i].content);
      OneText(blocks[j].content);
    }
    LosslessIff(blocks, out);
  }

  lemma OneText(content: seq<ResultPart>)
    requires |content| == 1 && content[0].TextPart?
    ensures content == [TextPart(TextOf(content))]
  {
    assert content[..0] == [] && TextOf([]) == "";
    assert "" + content[0].text == content[0].text;
    assert TextOf(content) == content[0].text;
  }

  lemma NoText(data: string)
    ensures TextOf([OtherPart(data)]) == ""
  {
    assert [OtherPart(data)][..0] == [] && TextOf([]) == "";
  }

  /** Only text is hashed: of two results without text the second is lost, whatever
      it holds. */
  lemma ImagesAreLost(a: string, b: string, first: string, second: string, out: seq<Block>)
    requires a != b && first != second
    requires IsDeduped([ToolResult(a, [OtherPart(first)], false), ToolResult(b, [OtherPart(second)], false)], out)
    ensures !Lossless([ToolResult(a, [OtherPart(first)], false), ToolResult(b, [OtherPart(second)], false)], out)
  {
    var blocks := [ToolResult(a, [OtherPart(first)], false), ToolResult(b, [OtherPart(second)], false)];
    NoText(first);
    NoText(second);
    assert blocks[0].content[0] == OtherPart(first) && blocks[1].content[0] == OtherPart(second);
    assert SameKey(blocks[0], blocks[1]);
    LosslessIff(blocks, out);
  }
}
