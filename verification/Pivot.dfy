/** Partial compaction: where a history is cut in two without separating a tool
    call from its result, and what is summarised and what is kept. */
module Pivot {
  import opened Wrappers
  import opened Tokens

  datatype UseBlock = ToolUse(id: string) | OtherBlock(text: string)

  datatype Entry =
    | ToolUses(blocks: seq<UseBlock>)
    | ToolResults(ids: seq<string>)
    | Plain(text: string)
    | Boundary(preCompactTokens: nat)
    | Summary(text: string)

  datatype Direction = UpTo | From | OtherDirection(name: string)

  predicate Uses(e: Entry, id: string) {
    e.ToolUses? && exists k :: 0 <= k < |e.blocks| && e.blocks[k].ToolUse? && e.blocks[k].id == id
  }

  predicate Returns(e: Entry, id: string) {
    e.ToolResults? && id in e.ids
  }

  /** No tool call before position `c` has a result at or after it. */
  ghost predicate Closed(entries: seq<Entry>, c: int) {
    forall a, b, id :: 0 <= a < c <= b < |entries| && Uses(entries[a], id) ==> !Returns(entries[b], id)
  }

  /** Entry `a` holds a call and entry `b` a result for it. */
  ghost predicate IsPair(entries: seq<Entry>, a: nat, b: nat) {
    a < |entries| && b < |entries| && exists id :: Uses(entries[a], id) && Returns(entries[b], id)
  }

  /** The latest closed cut at or before `pivot`. */
  ghost predicate LatestClosed(entries: seq<Entry>, pivot: int, cut: int) {
    cut <= pivot && Closed(entries, cut) && forall c :: cut < c <= pivot ==> !Closed(entries, c)
  }

  /** The earliest closed cut at or after `pivot`. */
  ghost predicate EarliestClosed(entries: seq<Entry>, pivot: int, cut: int) {
    pivot <= cut && Closed(entries, cut) && forall c :: pivot <= c < cut ==> !Closed(entries, c)
  }

  // ---- The direction "from" ----

  /** Block `k` of entry `i` has no result in `entries[from..to]`. */
  ghost predicate NoResult(entries: seq<Entry>, block: UseBlock, from: int, to: int) {
    block.ToolUse? ==> forall b :: 0 <= from <= b < to <= |entries| ==> !Returns(entries[b], block.id)
  }

  lemma CutMoves(entries: seq<Entry>, i: int, id: string, j: int, c: int)
    requires 0 <= i < c <= j < |entries| && Uses(entries[i], id) && Returns(entries[j], id)
    ensures !Closed(entries, c)
  {
  }

  /** The body of the outer loop: entry `i`, and the cut moved back to it if one of
      its calls has a result at or after the cut. */
  method PullBack(entries: seq<Entry>, i: nat, pivot: nat) returns (cut: nat)
    requires i < pivot < |entries|
    ensures cut == pivot || cut == i
    ensures cut == i ==> forall c :: i < c <= pivot ==> !Closed(entries, c)
    ensures cut == pivot ==> forall b, id :: pivot <= b < |entries| && Uses(entries[i], id) ==> !Returns(entries[b], id)
  {
    cut := pivot;
    if entries[i].ToolUses? {
      var blocks := entries[i].blocks;
      for k := 0 to |blocks|
        invariant cut == pivot || cut == i
        invariant cut == i ==> forall c :: i < c <= pivot ==> !Closed(entries, c)
        invariant cut == pivot ==> forall k' :: 0 <= k' < k ==> NoResult(entries, blocks[k'], pivot, |entries|)
      {
        if blocks[k].ToolUse? {
          var j := cut;
          while j < |entries|
            invariant i <= j <= |entries|
            invariant cut == pivot || cut == i
            invariant cut == i ==> forall c :: i < c <= pivot ==> !Closed(entries, c)
            invariant cut == pivot ==> pivot <= j && NoResult(entries, blocks[k], pivot, j)
            invariant cut == pivot ==> forall k' :: 0 <= k' < k ==> NoResult(entries, blocks[k'], pivot, |entries|)
          {
            if entries[j].ToolResults? && blocks[k].id in entries[j].ids {
              if cut == pivot {
                assert Uses(entries[i], blocks[k].id);
                forall c | i < c <= pivot
                  ensures !Closed(entries, c)
                {
                  CutMoves(entries, i, blocks[k].id, j, c);
                }
              }
              cut := i;
            }
            j := j + 1;
          }
        }
      }
    }
  }

  method AdjustFrom(entries: seq<Entry>, pivot: nat) returns (cut: nat)
    requires 0 < pivot < |entries|
    ensures LatestClosed(entries, pivot, cut)
  {
    cut := pivot;
    var i: int := pivot - 1;
    while i >= 0
      invariant -1 <= i < pivot && i < cut <= pivot
      invariant forall a, b, id :: i < a < cut <= b < |entries| && Uses(entries[a], id) ==> !Returns(entries[b], id)
      invariant forall c :: cut < c <= pivot ==> !Closed(entries, c)
    {
      cut := PullBack(entries, i, cut);
      i := i - 1;
    }
  }

  // ---- The direction "up_to" ----

  /** What the index says about one id after the first `n` entries: the last entry
      that calls it, for every id that is not blank. */
  ghost predicate IndexAt(entries: seq<Entry>, n: nat, index: map<string, nat>, id: string)
    requires n <= |entries|
  {
    if id in index then
      && id != "" && index[id] < n && Uses(entries[index[id]], id)
      && forall a :: index[id] < a < n ==> !Uses(entries[a], id)
    else
      id == "" || forall a :: 0 <= a < n ==> !Uses(entries[a], id)
  }

  ghost predicate IsCallIndex(entries: seq<Entry>, n: nat, index: map<string, nat>) {
    n <= |entries| && forall id :: IndexAt(entries, n, index, id)
  }

  method IndexCalls(entries: seq<Entry>) returns (index: map<string, nat>)
    ensures IsCallIndex(entries, |entries|, index)
  {
    index := map[];
    for i := 0 to |entries|
      invariant IsCallIndex(entries, i, index)
    {
      if entries[i].ToolUses? {
        ghost var before := index;
        assert IndexAt(entries, i, index, "");
        index := IndexEntry(entries, i, index);
        IndexGrows(entries, i, before, index);
      } else {
        IndexSame(entries, i, index);
      }
    }
  }

  predicate CallsWithin(blocks: seq<UseBlock>, n: nat, id: string)
    requires n <= |blocks|
  {
    exists k :: 0 <= k < n && blocks[k].ToolUse? && blocks[k].id == id
  }

  /** The calls of entry `e`, at position `i`, are added to an index. */
  ghost predicate Indexed(e: Entry, i: nat, before: map<string, nat>, index: map<string, nat>) {
    && (forall id :: id in index <==> id in before || (id != "" && Uses(e, id)))
    && (forall id :: id in index ==> index[id] == if Uses(e, id) then i else before[id])
  }

  /** One id at a time: its last call is entry `i`, or still the one before. */
  lemma IndexGrowsAt(entries: seq<Entry>, i: nat, before: map<string, nat>, index: map<string, nat>, id: string)
    requires i < |entries| && IndexAt(entries, i, before, id)
    requires id in index <==> id in before || (id != "" && Uses(entries[i], id))
    requires id in index ==> index[id] == if Uses(entries[i], id) then i else before[id]
    ensures IndexAt(entries, i + 1, index, id)
  {
    if Uses(entries[i], id) {
      assert id != "" ==> index[id] == i;
    } else {
      assert id in index <==> id in before;
    }
  }

  lemma IndexGrows(entries: seq<Entry>, i: nat, before: map<string, nat>, index: map<string, nat>)
    requires i < |entries| && IsCallIndex(entries, i, before)
    requires Indexed(entries[i], i, before, index)
    ensures IsCallIndex(entries, i + 1, index)
  {
    var n := i + 1;
    forall id
      ensures IndexAt(entries, n, index, id)
    {
      assert IndexAt(entries, i, before, id);
      IndexGrowsAt(entries, i, before, index, id);
    }
  }

  lemma IndexSame(entries: seq<Entry>, i: nat, index: map<string, nat>)
    requires i < |entries| && IsCallIndex(entries, i, index) && !entries[i].ToolUses?
    ensures IsCallIndex(entries, i + 1, index)
  {
    assert Indexed(entries[i], i, index, index);
    IndexGrows(entries, i, index, index);
  }

  method IndexEntry(entries: seq<Entry>, i: nat, before: map<string, nat>) returns (index: map<string, nat>)
    requires i < |entries| && entries[i].ToolUses? && "" !in before
    ensures Indexed(entries[i], i, before, index)
  {
    index := before;
    var blocks := entries[i].blocks;
    for k := 0 to |blocks|
      invariant forall id :: id in index <==> id in before || (id != "" && CallsWithin(blocks, k, id))
      invariant forall id :: id in index ==> index[id] == if CallsWithin(blocks, k, id) then i else before[id]
    {
      forall id
        ensures CallsWithin(blocks, k + 1, id) <==> CallsWithin(blocks, k, id) || blocks[k] == ToolUse(id)
      {
        assert blocks[k] == ToolUse(id) <==> blocks[k].ToolUse? && blocks[k].id == id;
      }
      if blocks[k].ToolUse? && blocks[k].id != "" {
        index := index[blocks[k].id := i];
      }
    }
    assert forall id :: CallsWithin(blocks, |blocks|, id) <==> Uses(entries[i], id);
  }

  /** Entry `p` is the last to call some id that is not blank, and entry `b` holds a
      result for it. */
  ghost predicate Answers(entries: seq<Entry>, p: nat, b: nat) {
    && p < |entries| && b < |entries|
    && exists id :: id != "" && LastUse(entries, p, id) && Returns(entries[b], id)
  }

  /** No entry in `entries[lo..hi]` answers entry `p`. */
  ghost predicate NoneAnswers(entries: seq<Entry>, p: nat, lo: nat, hi: nat) {
    forall b :: lo <= b < hi ==> !Answers(entries, p, b)
  }

  ghost predicate LastUse(entries: seq<Entry>, p: nat, id: string) {
    p < |entries| && Uses(entries[p], id) && forall a :: p < a < |entries| ==> !Uses(entries[a], id)
  }

  /** Where "up_to" cuts: at the pivot if no later entry answers the call right before
      it, and otherwise right after the first that does.  It moves once at most. */
  ghost predicate UpToCut(entries: seq<Entry>, pivot: int, cut: int) {
    if 0 < pivot < |entries| then
      && pivot <= cut <= |entries|
      && (cut > pivot ==> Answers(entries, pivot - 1, cut - 1))
      && NoneAnswers(entries, pivot - 1, pivot, if cut == pivot then |entries| else cut - 1)
    else cut == pivot
  }

  lemma UpToCutUnique(entries: seq<Entry>, pivot: int, c: int, d: int)
    requires UpToCut(entries, pivot, c) && UpToCut(entries, pivot, d)
    ensures c == d
  {
    if 0 < pivot < |entries| {
      assert c > pivot ==> Answers(entries, pivot - 1, c - 1);
      assert d > pivot ==> Answers(entries, pivot - 1, d - 1);
    }
  }

  /** The index points to `p` for an id exactly when `p` is the last to call it. */
  lemma IndexIsLastUse(entries: seq<Entry>, index: map<string, nat>, p: nat, id: string)
    requires IsCallIndex(entries, |entries|, index) && p < |entries|
    ensures id in index && index[id] == p <==> id != "" && LastUse(entries, p, id)
  {
    assert IndexAt(entries, |entries|, index, id);
  }

  method AnswersCallAt(entries: seq<Entry>, index: map<string, nat>, i: nat, p: nat) returns (found: bool)
    requires IsCallIndex(entries, |entries|, index) && i < |entries| && p < |entries| && entries[i].ToolResults?
    ensures found <==> Answers(entries, p, i)
  {
    var ids := entries[i].ids;
    for l := 0 to |ids|
      invariant forall l' :: 0 <= l' < l ==> !(ids[l'] in index && index[ids[l']] == p)
    {
      IndexIsLastUse(entries, index, p, ids[l]);
      if ids[l] in index && index[ids[l]] == p {
        assert Returns(entries[i], ids[l]);
        return true;
      }
    }
    forall id | id != "" && LastUse(entries, p, id)
      ensures !Returns(entries[i], id)
    {
      IndexIsLastUse(entries, index, p, id);
    }
    return false;
  }

  method AdjustUpTo(entries: seq<Entry>, pivot: nat) returns (cut: nat)
    requires 0 < pivot < |entries|
    ensures UpToCut(entries, pivot, cut)
  {
    var toolUseIds := IndexCalls(entries);
    cut := pivot;
    for i := pivot to |entries|
      invariant pivot <= cut <= i
      invariant cut > pivot ==> Answers(entries, pivot - 1, cut - 1)
      invariant NoneAnswers(entries, pivot - 1, pivot, if cut == pivot then i else cut - 1)
    {
      if entries[i].ToolResults? {
        var answers := AnswersCallAt(entries, toolUseIds, i, cut - 1);
        if cut > pivot {
          ResultsHaveNoAnswer(entries, pivot - 1, cut - 1, i);
        }
        if answers {
          cut := i + 1;
        }
      }
    }
  }

  /** An entry that answers a call makes none, so nothing answers it. */
  lemma ResultsHaveNoAnswer(entries: seq<Entry>, p: nat, b: nat, i: nat)
    requires Answers(entries, p, b)
    ensures !Answers(entries, b, i)
  {
  }

  // ---- When "up_to" is sound ----

  /** Whatever lies between a call and its result is itself a call that the same entry
      answers, and so is the call, by ids that are not blank and not called again. */
  ghost predicate AnsweredTogether(entries: seq<Entry>) {
    forall a: nat, c: nat, b: nat :: a <= c < b && IsPair(entries, a, b) ==> Answers(entries, c, b)
  }

  lemma PairSplits(entries: seq<Entry>, a: nat, b: nat, c: int)
    requires IsPair(entries, a, b) && a < c <= b
    ensures !Closed(entries, c)
  {
    var id :| Uses(entries[a], id) && Returns(entries[b], id);
    CutMoves(entries, a, id, b, c);
  }

  lemma SplitPair(entries: seq<Entry>, c: int) returns (a: nat, b: nat)
    requires !Closed(entries, c)
    ensures a < c <= b && IsPair(entries, a, b)
  {
    var a', b', id :| 0 <= a' < c <= b' < |entries| && Uses(entries[a'], id) && Returns(entries[b'], id);
    a, b := a', b';
  }

  lemma AnswersIsPair(entries: seq<Entry>, p: nat, b: nat)
    requires Answers(entries, p, b)
    ensures IsPair(entries, p, b) && entries[b].ToolResults? && entries[p].ToolUses?
  {
  }

  /** A closed "up_to" cut is the earliest closed cut from the pivot on. */
  lemma ClosedUpToIsEarliest(entries: seq<Entry>, pivot: int, cut: int)
    requires UpToCut(entries, pivot, cut) && Closed(entries, cut)
    ensures EarliestClosed(entries, pivot, cut)
  {
    if cut > pivot {
      AnswersIsPair(entries, pivot - 1, cut - 1);
      forall c | pivot <= c < cut
        ensures !Closed(entries, c)
      {
        PairSplits(entries, pivot - 1, cut - 1, c);
      }
    }
  }

  ghost predicate SoundAtEveryPivot(entries: seq<Entry>) {
    forall pivot, cut :: UpToCut(entries, pivot, cut) ==> Closed(entries, cut)
  }

  /** "up_to" separates no pair at any pivot exactly when whatever lies between a call
      and its result is answered together with it. */
  lemma UpToSoundIff(entries: seq<Entry>)
    ensures SoundAtEveryPivot(entries) <==> AnsweredTogether(entries)
  {
    if AnsweredTogether(entries) {
      forall pivot, cut | UpToCut(entries, pivot, cut)
        ensures Closed(entries, cut)
      {
        TogetherIsSound(entries, pivot, cut);
      }
    }
    if SoundAtEveryPivot(entries) {
      forall a: nat, c: nat, b: nat | a <= c < b && IsPair(entries, a, b)
        ensures Answers(entries, c, b)
      {
        SoundIsTogether(entries, a, c, b);
      }
    }
  }

  lemma LaterTogether(entries: seq<Entry>, a: nat, c: nat, b: nat)
    requires AnsweredTogether(entries) && a <= c < b && IsPair(entries, a, b)
    ensures Answers(entries, c, b)
  {
  }

  lemma TogetherIsSound(entries: seq<Entry>, pivot: int, cut: int)
    requires AnsweredTogether(entries) && UpToCut(entries, pivot, cut)
    ensures Closed(entries, cut)
  {
    if 0 < pivot < |entries| && !Closed(entries, cut) {
      var a, b := SplitPair(entries, cut);
      LaterTogether(entries, a, cut - 1, b);
      assert false;
    }
  }

  lemma SoundIsTogether(entries: seq<Entry>, a: nat, c: nat, b: nat)
    requires SoundAtEveryPivot(entries) && a <= c < b && IsPair(entries, a, b)
    ensures Answers(entries, c, b)
  {
    var cut := CutExists(entries, c + 1);
    if cut <= b {
      PairSplits(entries, a, b, cut);
      assert false;
    }
    if b + 1 < cut {
      // Entry `b` makes no call, so a pivot right after it stays, inside the pair that moved `cut`.
      AnswersIsPair(entries, c, cut - 1);
      ResultsNeverMove(entries, b);
      assert false;
    }
  }

  lemma ResultsNeverMove(entries: seq<Entry>, b: nat)
    requires b + 1 < |entries| && entries[b].ToolResults?
    ensures UpToCut(entries, b + 1, b + 1)
  {
    assert NoneAnswers(entries, b, b + 1, |entries|);
  }

  lemma CutExists(entries: seq<Entry>, pivot: nat) returns (cut: nat)
    requires 0 < pivot < |entries|
    ensures UpToCut(entries, pivot, cut)
  {
    var b := FirstAnswer(entries, pivot - 1, pivot, |entries|);
    cut := if b == |entries| then pivot else b + 1;
  }

  lemma {:induction false} FirstAnswer(entries: seq<Entry>, p: nat, lo: nat, hi: nat) returns (b: nat)
    requires lo <= hi
    ensures lo <= b <= hi && NoneAnswers(entries, p, lo, b) && (b < hi ==> Answers(entries, p, b))
    decreases hi - lo
  {
    if lo == hi || Answers(entries, p, lo) {
      b := lo;
    } else {
      b := FirstAnswer(entries, p, lo + 1, hi);
    }
  }

  /** No id is blank or called by two entries. */
  ghost predicate DistinctCalls(entries: seq<Entry>) {
    && (forall a, id :: 0 <= a < |entries| && Uses(entries[a], id) ==> id != "")
    && (forall a, b, id :: 0 <= a < |entries| && 0 <= b < |entries| && Uses(entries[a], id) && Uses(entries[b], id) ==>
                             a == b)
  }

  /** With such ids the condition is about pairs alone. */
  lemma UpToSoundForDistinctCalls(entries: seq<Entry>)
    requires DistinctCalls(entries)
    ensures SoundAtEveryPivot(entries) <==>
            forall a: nat, c: nat, b: nat :: a < c < b && IsPair(entries, a, b) ==> IsPair(entries, c, b)
  {
    UpToSoundIff(entries);
    forall a: nat, b: nat
      ensures IsPair(entries, a, b) <==> Answers(entries, a, b)
    {
    }
    assert forall a: nat, c: nat, b: nat :: a < c < b && IsPair(entries, a, b) ==>
                                              (IsPair(entries, c, b) <==> Answers(entries, c, b));
  }

  /** Every call is answered in the very next entry only. */
  ghost predicate WellPaired(entries: seq<Entry>) {
    DistinctCalls(entries) && forall a: nat, b: nat :: IsPair(entries, a, b) ==> b == a + 1
  }

  /** On well paired histories "up_to" finds the earliest closed cut. */
  lemma UpToIsEarliest(entries: seq<Entry>, pivot: int, cut: int)
    requires WellPaired(entries) && UpToCut(entries, pivot, cut)
    ensures EarliestClosed(entries, pivot, cut)
  {
    UpToSoundForDistinctCalls(entries);
    ClosedUpToIsEarliest(entries, pivot, cut);
  }

  /** "up_to" separates a call from its second result: the cut moves past the result
      of the call right before it, and only of that one. */
  lemma UpToSplits(a: string, b: string)
    requires a != b && a != "" && b != ""
    ensures var entries := [ToolUses([ToolUse(a)]), ToolUses([ToolUse(b)]), ToolResults([a]), ToolResults([b])];
            UpToCut(entries, 1, 3) && !Closed(entries, 3)
  {
    var entries := [ToolUses([ToolUse(a)]), ToolUses([ToolUse(b)]), ToolResults([a]), ToolResults([b])];
    assert entries[0].blocks[0] == ToolUse(a) && entries[1].blocks[0] == ToolUse(b);
    assert Uses(entries[0], a) && Uses(entries[1], b);
    assert entries[2].ids[0] == a && entries[3].ids[0] == b;
    assert LastUse(entries, 0, a) && Returns(entries[2], a);
    assert !Answers(entries, 0, 1);
    CutMoves(entries, 1, b, 3, 3);
  }

  // ---- The partition ----

  method AdjustPivotForToolPairs(entries: seq<Entry>, pivot: int, direction: Direction) returns (cut: int)
    ensures direction == UpTo ==> UpToCut(entries, pivot, cut)
    ensures direction != UpTo && 0 <= pivot <= |entries| ==> LatestClosed(entries, pivot, cut) && 0 <= cut
    ensures !(0 < pivot < |entries|) ==> cut == pivot
  {
    if pivot <= 0 || pivot >= |entries| {
      return pivot;
    }
    if direction == UpTo {
      cut := AdjustUpTo(entries, pivot);
    } else {
      cut := AdjustFrom(entries, pivot);
    }
  }

  function Clamp(pivot: int, n: nat): (p: nat)
    ensures p <= n
  {
    if pivot < 0 then 0 else if pivot > n then n else pivot
  }

  function TailStart(n: nat, keepTail: int): (t: nat)
    ensures t <= n
  {
    var keep := if keepTail <= 0 then 3 else keepTail;
    if n < keep then 0 else n - keep
  }

  datatype Partition = Partition(summarize: seq<Entry>, keep: seq<Entry>)

  /** What "up_to" summarises and keeps for a cut, or why there is nothing to do. */
  function UpToPartition(entries: seq<Entry>, cut: nat): Result<Partition, string>
    requires cut <= |entries|
  {
    if cut <= 1 then Failure("not enough messages to summarize before pivot")
    else Success(Partition(entries[..cut], entries[cut..]))
  }

  /** The same for "from", with the start of the tail that is kept in any case. */
  function FromPartition(entries: seq<Entry>, cut: nat, tail: nat): Result<Partition, string>
    requires tail <= |entries|
  {
    if cut >= tail then Failure("pivot too close to end; not enough to summarize")
    else Success(Partition(entries[cut..tail], entries[..cut] + entries[tail..]))
  }

  /** A partition is refused if what it summarises is estimated to hold no tokens. */
  function Costed(r: Result<Partition, string>, estimate: seq<Entry> -> nat): Result<Partition, string> {
    if r.Success? && estimate(r.value.summarize) == 0 then Failure("no tokens to save in entries to summarize") else r
  }

  method PartitionUpTo(entries: seq<Entry>, pivot: nat) returns (r: Result<Partition, string>, ghost cut: nat)
    requires pivot <= |entries|
    ensures cut <= |entries| && UpToCut(entries, pivot, cut) && r == UpToPartition(entries, cut)
  {
    var adjustedPivot := AdjustPivotForToolPairs(entries, pivot, UpTo);
    cut := adjustedPivot;
    if adjustedPivot <= 1 {
      return Failure("not enough messages to summarize before pivot"), cut;
    }
    return Success(Partition(entries[..adjustedPivot], entries[adjustedPivot..])), cut;
  }

  method PartitionFrom(entries: seq<Entry>, pivot: nat, keepTail: nat)
    returns (r: Result<Partition, string>, ghost cut: nat)
    requires pivot <= |entries| && keepTail > 0
    ensures cut <= |entries| && LatestClosed(entries, pivot, cut)
    ensures r == FromPartition(entries, cut, TailStart(|entries|, keepTail))
  {
    var adjustedPivot := AdjustPivotForToolPairs(entries, pivot, From);
    cut := adjustedPivot;
    var tailStart := |entries| - keepTail;
    if tailStart < 0 {
      tailStart := 0;
    }
    if adjustedPivot >= tailStart {
      return Failure("pivot too close to end; not enough to summarize"), cut;
    }
    var summarize := entries[adjustedPivot..tailStart];
    if |summarize| == 0 {
      return Failure("no messages to summarize in from direction"), cut;
    }
    return Success(Partition(summarize, entries[..adjustedPivot] + entries[tailStart..])), cut;
  }

  /** The partition that `PartialCompact` goes by, or the reason there is none, together
      with its cut; `estimate` counts tokens. */
  method ChooseEntries(entries: seq<Entry>, direction: Direction, pivot: nat, keepTail: nat,
                       estimate: seq<Entry> -> nat)
    returns (r: Result<Partition, string>, ghost cut: nat)
    requires pivot <= |entries| && keepTail > 0
    ensures cut <= |entries|
    ensures Chosen(entries, direction, pivot, keepTail, estimate, cut, r)
  {
    cut := 0;
    match direction {
      case UpTo => r, cut := PartitionUpTo(entries, pivot);
      case From => r, cut := PartitionFrom(entries, pivot, keepTail);
      case OtherDirection(name) => r := Failure("unknown partial compact direction: " + name);
    }
    if r.Failure? {
      return r, cut;
    }
    var tokensBefore := estimate(r.value.summarize);
    if tokensBefore == 0 {
      return Failure("no tokens to save in entries to summarize"), cut;
    }
  }

  ghost predicate Chosen(entries: seq<Entry>, direction: Direction, pivot: nat, keepTail: int,
                         estimate: seq<Entry> -> nat, cut: nat, r: Result<Partition, string>)
    requires cut <= |entries|
  {
    match direction
    case UpTo => UpToCut(entries, pivot, cut) && r == Costed(UpToPartition(entries, cut), estimate)
    case From =>
      && LatestClosed(entries, pivot, cut)
      && r == Costed(FromPartition(entries, cut, TailStart(|entries|, keepTail)), estimate)
    case OtherDirection(name) => r == Failure("unknown partial compact direction: " + name)
  }

  /** The history before it is validated, and what is reported. */
  datatype PartialResult = PartialResult(
    entries: seq<Entry>,
    summary: string,
    direction: Direction,
    pivotIndex: nat,
    messagesKept: nat,
    messagesSummarized: nat,
    tokensBefore: nat,
    tokensAfter: nat,
    tokensSaved: int)

  /** How entries are estimated, summarised in text and announced to the model. */
  datatype Texts = Texts(
    estimate: seq<Entry> -> nat,
    summarise: seq<Entry> -> string,
    announce: (Direction, nat, string) -> string)

  /** A boundary and the summary stand for what was summarised, and all else is kept:
      every entry is counted once. */
  ghost predicate Replaces(entries: seq<Entry>, direction: Direction, pivot: nat, texts: Texts,
                           p: Partition, r: PartialResult) {
    && |r.entries| == 2 + r.messagesKept && r.entries[2..] == p.keep
    && r.messagesKept + r.messagesSummarized == |entries| && r.messagesSummarized == |p.summarize| > 0
    && r.pivotIndex == pivot && r.direction == direction && r.summary == texts.summarise(p.summarize)
    && r.tokensBefore == texts.estimate(p.summarize) > 0
    && r.tokensAfter == EstimateTokens(r.summary)
    && r.tokensSaved == r.tokensBefore - r.tokensAfter
    && r.entries[0] == Boundary(r.tokensBefore)
    && r.entries[1] == Summary(texts.announce(direction, r.tokensBefore, r.summary))
  }

  /** Partial compaction up to the validation of the new history, together with the
      cut it goes by. */
  method PartialCompact(entries: seq<Entry>, direction: Direction, pivotIndex: int, keepTail: int, texts: Texts)
    returns (r: Result<PartialResult, string>, ghost cut: nat, ghost p: Result<Partition, string>)
    ensures entries == [] ==> r == Failure("no entries to partially compact")
    ensures cut <= |entries|
    ensures entries != [] ==>
              && Chosen(entries, direction, Clamp(pivotIndex, |entries|), keepTail, texts.estimate, cut, p)
              && match p
                 case Failure(error) => r == Failure(error)
                 case Success(parts) =>
                   r.Success? && Replaces(entries, direction, Clamp(pivotIndex, |entries|), texts, parts, r.value)
  {
    cut := 0;
    p := Failure("");
    if |entries| == 0 {
      return Failure("no entries to partially compact"), cut, p;
    }
    var pivot := pivotIndex;
    if pivot < 0 {
      pivot := 0;
    }
    if pivot > |entries| {
      pivot := |entries|;
    }
    var keep := keepTail;
    if keep <= 0 {
      keep := 3;
    }
    var parts;
    parts, cut := ChooseEntries(entries, direction, pivot, keep, texts.estimate);
    p := parts;
    if parts.Failure? {
      return Failure(parts.error), cut, p;
    }
    ChosenCounts(entries, direction, pivot, keep, texts.estimate, cut, p);
    return Success(Replace(direction, pivot, texts, parts.value)), cut, p;
  }

  function Replace(direction: Direction, pivot: nat, texts: Texts, p: Partition): PartialResult {
    var text := texts.summarise(p.summarize);
    var before, after := texts.estimate(p.summarize), EstimateTokens(text);
    PartialResult([Boundary(before), Summary(texts.announce(direction, before, text))] + p.keep,
                  text, direction, pivot, |p.keep|, |p.summarize|, before, after, before - after)
  }

  /** A partition leaves nothing out and summarises something. */
  lemma ChosenCounts(entries: seq<Entry>, direction: Direction, pivot: nat, keepTail: int,
                     estimate: seq<Entry> -> nat, cut: nat, p: Result<Partition, string>)
    requires cut <= |entries| && p.Success? && Chosen(entries, direction, pivot, keepTail, estimate, cut, p)
    ensures |p.value.keep| + |p.value.summarize| == |entries| && |p.value.summarize| > 0
    ensures estimate(p.value.summarize) > 0
  {
  }

  /** Nothing is reordered: the kept entries are those before and after the summarised
      ones, "up_to" keeping none before. */
  lemma ChosenInOrder(entries: seq<Entry>, direction: Direction, pivot: nat, keepTail: int,
                      estimate: seq<Entry> -> nat, cut: nat, p: Result<Partition, string>)
    requires cut <= |entries| && p.Success? && Chosen(entries, direction, pivot, keepTail, estimate, cut, p)
    ensures var k := if direction == UpTo then 0 else cut;
            && k <= |p.value.keep|
            && entries == p.value.keep[..k] + p.value.summarize + p.value.keep[k..]
    ensures direction == UpTo ==> |p.value.summarize| == cut > 1
    ensures direction == From ==> |entries| - |p.value.summarize| - cut == if keepTail <= 0 then 3 else keepTail
  {
    if direction == From {
      var tail := TailStart(|entries|, keepTail);
      assert p.value.keep[..cut] == entries[..cut] && p.value.keep[cut..] == entries[tail..];
    }
  }

  // ---- Which pairs the partition separates ----

  /** No call that is summarised has its result kept after it, and no call kept at
      the front has its result summarised. */
  ghost predicate SeparatesNone(entries: seq<Entry>, cut: nat, tail: nat) {
    forall a: nat, b: nat | a < b && IsPair(entries, a, b) ::
      !(a < cut <= b < tail) && !(cut <= a < tail <= b)
  }

  /** "from" only adjusts its first cut; its second one is where the caller asks for
      it.  A pair is separated exactly when that second cut splits one. */
  lemma FromSeparatesNoneIff(entries: seq<Entry>, pivot: nat, cut: nat, tail: nat)
    requires LatestClosed(entries, pivot, cut) && cut < tail <= |entries|
    ensures SeparatesNone(entries, cut, tail) <==> Closed(entries, tail)
  {
    if !Closed(entries, tail) {
      var a, b, id :| 0 <= a < tail <= b < |entries| && Uses(entries[a], id) && Returns(entries[b], id);
      assert IsPair(entries, a, b);
      assert cut <= a;
    }
  }

  /** The tail of a "from" partition can keep a result whose call is summarised. */
  lemma FromTailSplits(a: string)
    ensures var entries := [Plain(""), ToolUses([ToolUse(a)]), ToolResults([a]), Plain(""), Plain("")];
            LatestClosed(entries, 1, 1) && TailStart(5, 3) == 2 && !SeparatesNone(entries, 1, 2)
  {
    var entries := [Plain(""), ToolUses([ToolUse(a)]), ToolResults([a]), Plain(""), Plain("")];
    assert entries[1].blocks[0] == ToolUse(a);
    assert Uses(entries[1], a) && Returns(entries[2], a);
    assert Closed(entries, 1);
    assert IsPair(entries, 1, 2);
  }
}
