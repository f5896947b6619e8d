/** `Compact`: the oldest rounds are cut off at a safe boundary and replaced by a
    marker. */
module Compaction {
  import opened Wrappers
  import opened GoStrings
  import opened Lists
  import opened Tokens
  import opened Rounds
  import opened RoundLaws

  // ---- Where to cut ----

  /** Cutting before round `c` would separate two rounds of one tool pair. */
  predicate Splits(rounds: seq<ApiRound>, c: int) {
    && 0 < c < |rounds|
    && rounds[c].isToolCall && rounds[c - 1].isToolCall
    && rounds[c - 1].toolPairId != ""
    && rounds[c].toolPairId == rounds[c - 1].toolPairId
  }

  predicate StartsWithSystem(rounds: seq<ApiRound>) {
    rounds != [] && rounds[0].messages != [] && rounds[0].messages[0].role == System
  }

  /** The latest cut that leaves at least `keepN` rounds and separates no pair. */
  ghost predicate LatestCut(rounds: seq<ApiRound>, keepN: nat, c: nat) {
    && c <= |rounds| - keepN
    && !Splits(rounds, c)
    && forall d :: c < d <= |rounds| - keepN ==> Splits(rounds, d)
  }

  /** `cut` is the boundary: nothing is cut from a short history, and a leading
      system round is cut off alone when no later cut is safe. */
  ghost predicate SafeBoundary(rounds: seq<ApiRound>, keepN: nat, cut: nat) {
    if |rounds| <= keepN + 1 then cut == 0
    else if LatestCut(rounds, keepN, 0) && StartsWithSystem(rounds) then cut == 1
    else LatestCut(rounds, keepN, cut)
  }

  lemma LatestCutUnique(rounds: seq<ApiRound>, keepN: nat, a: nat, b: nat)
    requires LatestCut(rounds, keepN, a) && LatestCut(rounds, keepN, b)
    ensures a == b
  {
  }

  method FindSafeCompactionBoundary(rounds: seq<ApiRound>, keepN: nat) returns (cutPoint: nat)
    ensures SafeBoundary(rounds, keepN, cutPoint)
  {
    if |rounds| <= keepN + 1 {
      return 0;
    }
    cutPoint := |rounds| - keepN;
    while cutPoint < |rounds|
      invariant cutPoint <= |rounds| - keepN
      invariant forall d :: cutPoint < d <= |rounds| - keepN ==> Splits(rounds, d)
      decreases cutPoint
    {
      if cutPoint > 0 && rounds[cutPoint].isToolCall {
        if rounds[cutPoint - 1].isToolCall && rounds[cutPoint - 1].toolPairId != "" {
          if rounds[cutPoint].toolPairId == rounds[cutPoint - 1].toolPairId {
            cutPoint := cutPoint - 1;
            continue;
          }
        }
      }
      break;
    }
    assert LatestCut(rounds, keepN, cutPoint);
    if LatestCut(rounds, keepN, 0) {
      LatestCutUnique(rounds, keepN, 0, cutPoint);
    }
    if cutPoint == 0 && |rounds| > 1 {
      if |rounds[0].messages| > 0 && rounds[0].messages[0].role == System {
        cutPoint := 1;
      }
    }
  }

  // ---- Token counts ----

  function MessageTokens(m: CompactionMessage): nat {
    EstimateTokens(m.content) + (if m.toolUseId != "" then 10 else 0) + 3
  }

  function TokensOf(ms: Messages): nat {
    if ms == [] then 0 else TokensOf(ms[..|ms| - 1]) + MessageTokens(ms[|ms| - 1])
  }

  lemma {:induction false} TokensConcat(a: Messages, b: Messages)
    ensures TokensOf(a + b) == TokensOf(a) + TokensOf(b)
    decreases |b|
  {
    if b == [] {
      assert a + b == a;
    } else {
      var init, last := b[..|b| - 1], b[|b| - 1];
      TokensConcat(a, init);
      assert (a + b)[..|a + b| - 1] == a + init;
    }
  }

  /** The messages that carry a tool id. */
  function WithToolId(ms: Messages): set<int> {
    set i | 0 <= i < |ms| && ms[i].toolUseId != ""
  }

  /** The contents of all messages, estimated one by one. */
  function ContentTokens(ms: Messages): nat {
    if ms == [] then 0 else ContentTokens(ms[..|ms| - 1]) + EstimateTokens(ms[|ms| - 1].content)
  }

  lemma WithToolIdSnoc(init: Messages, m: CompactionMessage)
    ensures |WithToolId(init + [m])| == |WithToolId(init)| + if m.toolUseId != "" then 1 else 0
  {
    var ms, n := init + [m], |init|;
    assert forall i :: 0 <= i < n ==> ms[i] == init[i];
    assert WithToolId(ms) == if m.toolUseId != "" then WithToolId(init) + {n} else WithToolId(init);
  }

  /** Besides its content every message costs three tokens, and ten more with a tool id. */
  lemma {:induction false} TokensAre(ms: Messages)
    ensures TokensOf(ms) == ContentTokens(ms) + 3 * |ms| + 10 * |WithToolId(ms)|
  {
    if ms != [] {
      var init, last := ms[..|ms| - 1], ms[|ms| - 1];
      TokensAre(init);
      WithToolIdSnoc(init, last);
      assert ms == init + [last];
    }
  }

  method TotalTokens(ms: Messages) returns (total: nat)
    ensures total == TokensOf(ms)
  {
    total := 0;
    for i := 0 to |ms|
      invariant total == TokensOf(ms[..i])
    {
      assert ms[..i + 1][..i] == ms[..i];
      total := total + MessageTokens(ms[i]);
    }
    assert ms[..|ms|] == ms;
  }

  // ---- Compaction ----

  /** `archive` writes messages to the archive directory, if there is one, and says
      where, or what went wrong. */
  datatype CompactionConfig = CompactionConfig(
    keepRounds: nat,
    omissionMarker: Option<nat -> string>,
    archive: Option<Messages -> Result<string, string>>)

  datatype CompactionResult = CompactionResult(
    messages: Messages,
    omittedCount: nat,
    keptCount: nat,
    tokensBefore: nat,
    tokensAfter: nat,
    tokensSaved: int,
    compactionRatio: real,
    archivePath: string,
    compactionTrigger: string)

  /** The first message that is kept: the `k`-th last user message, or the end for
      `k == 0`. */
  ghost predicate KeptFrom(ms: Messages, k: nat, c: nat) {
    if k == 0 then c == |ms| else StartsLast(ms, k, c)
  }

  function Marker(cfg: CompactionConfig, omitted: nat, now: string): Messages {
    match cfg.omissionMarker
    case None => []
    case Some(render) => [CompactionMessage(System, render(omitted), "", "", now)]
  }

  function ArchivePath(cfg: CompactionConfig, omitted: Messages): string {
    match cfg.archive
    case None => ""
    case Some(write) =>
      match write(omitted)
      case Success(path) => path
      case Failure(error) => "archive_error: " + error
  }

  /** The rounds of a grouping carry no pair ids, so they are cut as late as allowed. */
  lemma GroupedCut(rounds: seq<ApiRound>, ms: Messages, keepN: nat, cut: nat)
    requires MarkedRounds(rounds, ms) && SafeBoundary(rounds, keepN, cut)
    ensures cut == if |rounds| <= keepN + 1 then 0 else |rounds| - keepN
  {
    var c := |rounds| - keepN;
    if |rounds| > keepN + 1 {
      assert forall d :: 0 <= d < |rounds| ==> rounds[d].toolPairId == "";
      assert !Splits(rounds, c);
    }
  }

  method FlattenRounds(rounds: seq<ApiRound>) returns (messages: Messages)
    ensures messages == Flatten(Parts(rounds))
  {
    messages := [];
    for i := 0 to |rounds|
      invariant messages == Flatten(Parts(rounds[..i]))
    {
      assert Parts(rounds[..i + 1]) == Parts(rounds[..i]) + [rounds[i].messages];
      FlattenSnoc(Parts(rounds[..i]), rounds[i].messages);
      messages := messages + rounds[i].messages;
    }
    assert rounds[..|rounds|] == rounds;
  }

  method CountMessages(rounds: seq<ApiRound>) returns (n: nat)
    ensures n == |Flatten(Parts(rounds))|
  {
    n := 0;
    for i := 0 to |rounds|
      invariant n == |Flatten(Parts(rounds[..i]))|
    {
      assert Parts(rounds[..i + 1]) == Parts(rounds[..i]) + [rounds[i].messages];
      FlattenSnoc(Parts(rounds[..i]), rounds[i].messages);
      n := n + |rounds[i].messages|;
    }
    assert rounds[..|rounds|] == rounds;
  }

  /** The cut before round `cut` falls before message `c`, the first one to be kept. */
  ghost predicate FallsBefore(ms: Messages, rounds: seq<ApiRound>, keepN: nat, cut: nat, c: nat) {
    && 0 < cut <= |rounds| && 0 < c <= |ms| && KeptFrom(ms, keepN, c)
    && Flatten(Parts(rounds[..cut])) == ms[..c] && Flatten(Parts(rounds[cut..])) == ms[c..]
  }

  /** Where the boundary falls in the messages. */
  lemma CutInMessages(ms: Messages, rounds: seq<ApiRound>, keepN: nat, cut: nat)
    requires IsGrouping(ms, Parts(rounds)) && MarkedRounds(rounds, ms)
    requires SafeBoundary(rounds, keepN, cut)
    ensures cut == 0 <==> RoundCount(ms) <= keepN + 1
    ensures cut > 0 ==> cut <= |rounds| && FallsBefore(ms, rounds, keepN, cut, |Flatten(Parts(rounds[..cut]))|)
  {
    var rs := Parts(rounds);
    GroupedCut(rounds, ms, keepN, cut);
    RoundCountIs(ms, rs);
    if cut > 0 {
      PartsCut(rounds, cut);
      CutStart(ms, rs, keepN);
    }
  }

  lemma PartsCut(rounds: seq<ApiRound>, cut: nat)
    requires cut <= |rounds|
    ensures Parts(rounds[..cut]) == Parts(rounds)[..cut] && Parts(rounds[cut..]) == Parts(rounds)[cut..]
  {
  }

  lemma CutStart(ms: Messages, rs: seq<Messages>, keepN: nat)
    requires IsGrouping(ms, rs) && keepN < |rs|
    ensures var cut := |rs| - keepN;
            var c := |Flatten(rs[..cut])|;
            0 < c <= |ms| && KeptFrom(ms, keepN, c) && Flatten(rs[..cut]) == ms[..c] && Flatten(rs[cut..]) == ms[c..]
  {
    var cut := |rs| - keepN;
    SplitParts(rs, cut);
    FirstOfFirst(rs[..cut]);
    if keepN > 0 {
      LastRounds(ms, rs, keepN);
    } else {
      assert rs[cut..] == [];
    }
  }

  function Ratio(before: nat, after: nat): real {
    if before > 0 then after as real / before as real else 1.0
  }

  function Trigger(keepRounds: nat): string {
    if keepRounds > 0 then "keep_last_" + Itoa(keepRounds) + "_rounds" else "token_threshold"
  }

  /** The omitted messages are those before the `keepRounds`-th last user message; they
      are archived, the marker stands for them, and what is saved is their tokens less
      the marker's. */
  ghost predicate CutOff(ms: Messages, cfg: CompactionConfig, now: string, r: CompactionResult) {
    var c := r.omittedCount;
    && 0 < c <= |ms|
    && KeptFrom(ms, cfg.keepRounds, c)
    && r.messages == Marker(cfg, c, now) + ms[c..]
    && r.keptCount == |r.messages|
    && r.tokensBefore == TokensOf(ms) && r.tokensAfter == TokensOf(r.messages)
    && r.tokensSaved == TokensOf(ms[..c]) - TokensOf(Marker(cfg, c, now))
    && r.compactionRatio == Ratio(r.tokensBefore, r.tokensAfter)
    && r.archivePath == ArchivePath(cfg, ms[..c])
    && r.compactionTrigger == Trigger(cfg.keepRounds)
  }

  /** `Compact` in terms of the messages alone: with more than `keepRounds + 1`
      rounds the messages before the `keepRounds`-th last user message give way to
      the marker; otherwise nothing changes. */
  method Compact(messages: Messages, cfg: CompactionConfig, now: string)
    returns (result: Result<CompactionResult, string>)
    ensures messages == [] <==> result.Failure?
    ensures messages != [] && RoundCount(messages) <= cfg.keepRounds + 1 ==>
              var t := TokensOf(messages);
              result == Success(CompactionResult(messages, 0, |messages|, t, t, 0, 1.0, "", "none_needed"))
    ensures messages != [] && RoundCount(messages) > cfg.keepRounds + 1 ==> CutOff(messages, cfg, now, result.value)
  {
    if |messages| == 0 {
      return Failure("no messages to compact");
    }
    var tokensBefore := TotalTokens(messages);
    var rounds := GroupMessagesByRound(messages);
    RoundCountIs(messages, Parts(rounds));
    if |rounds| == 0 {
      return Failure("no rounds found after grouping");
    }
    var cutPoint := FindSafeCompactionBoundary(rounds, cfg.keepRounds);
    CutInMessages(messages, rounds, cfg.keepRounds, cutPoint);
    if cutPoint == 0 {
      return Success(CompactionResult(messages, 0, |messages|, tokensBefore, tokensBefore, 0, 1.0, "", "none_needed"));
    }
    var r := CutAt(messages, rounds, cutPoint, cfg, now, tokensBefore);
    return Success(r);
  }

  method CutAt(ghost messages: Messages, rounds: seq<ApiRound>, cutPoint: nat,
               cfg: CompactionConfig, now: string, tokensBefore: nat)
    returns (r: CompactionResult)
    requires 0 < cutPoint <= |rounds| && tokensBefore == TokensOf(messages)
    requires FallsBefore(messages, rounds, cfg.keepRounds, cutPoint, |Flatten(Parts(rounds[..cutPoint]))|)
    ensures CutOff(messages, cfg, now, r)
  {
    var omittedMsgCount := CountMessages(rounds[..cutPoint]);
    var archivePath := Archive(cfg, rounds[..cutPoint]);
    var compacted := MarkerMessages(cfg, omittedMsgCount, now);
    var kept := FlattenRounds(rounds[cutPoint..]);
    compacted := compacted + kept;
    var tokensAfter := TotalTokens(compacted);
    SavedTokens(messages, omittedMsgCount, Marker(cfg, omittedMsgCount, now));
    var compactionRatio := 1.0;
    if tokensBefore > 0 {
      compactionRatio := tokensAfter as real / tokensBefore as real;
    }
    var trigger := "token_threshold";
    if cfg.keepRounds > 0 {
      trigger := "keep_last_" + Itoa(cfg.keepRounds) + "_rounds";
    }
    r := CompactionResult(compacted, omittedMsgCount, |compacted|, tokensBefore, tokensAfter,
                          tokensBefore - tokensAfter, compactionRatio, archivePath, trigger);
  }

  method Archive(cfg: CompactionConfig, omittedRounds: seq<ApiRound>) returns (archivePath: string)
    requires omittedRounds != []
    ensures archivePath == ArchivePath(cfg, Flatten(Parts(omittedRounds)))
  {
    archivePath := "";
    if cfg.archive.Some? && |omittedRounds| > 0 {
      var messages := FlattenRounds(omittedRounds);
      var written := cfg.archive.value(messages);
      archivePath := if written.Success? then written.value else "archive_error: " + written.error;
    }
  }

  method MarkerMessages(cfg: CompactionConfig, omittedMsgCount: nat, now: string) returns (marker: Messages)
    requires omittedMsgCount > 0
    ensures marker == Marker(cfg, omittedMsgCount, now)
  {
    marker := [];
    if cfg.omissionMarker.Some? && omittedMsgCount > 0 {
      marker := marker + [CompactionMessage(System, cfg.omissionMarker.value(omittedMsgCount), "", "", now)];
    }
  }

  lemma SavedTokens(ms: Messages, c: nat, marker: Messages)
    requires c <= |ms|
    ensures TokensOf(ms) - TokensOf(marker + ms[c..]) == TokensOf(ms[..c]) - TokensOf(marker)
  {
    assert ms == ms[..c] + ms[c..];
    TokensConcat(ms[..c], ms[c..]);
    TokensConcat(marker, ms[c..]);
  }
}
