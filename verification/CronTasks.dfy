/** Tasks and their fire times: `nextCronRunMs`, the jittered times of recurring
    and one-shot tasks, missed and aged tasks, and the session store.

    Times are integer milliseconds since the epoch and the local zone is a fixed
    number of minutes ahead of UTC. */
module CronTasks {
  import opened Wrappers
  import opened Calendar
  import opened CronParse
  import opened CronNext
  import opened Reals

  datatype CronTask = CronTask(
    id: string,
    cron: string,
    prompt: string,
    createdAt: int,
    lastFiredAt: int,
    recurring: bool,
    permanent: bool)

  datatype JitterConfig = JitterConfig(
    recurringFrac: real,
    recurringCapMs: int,
    oneShotMaxMs: int,
    oneShotFloorMs: int,
    oneShotMinuteMod: int,
    recurringMaxAgeMs: int)

  const DEFAULT_JITTER := JitterConfig(0.1, 15 * 60 * 1000, 90 * 1000, 0, 30, 7 * 24 * 60 * 60 * 1000)

  /** What a jitter configuration must satisfy for the bounds below; the default does. */
  predicate SaneConfig(cfg: JitterConfig) {
    && 0.0 <= cfg.recurringFrac <= 1.0
    && 0 <= cfg.recurringCapMs
    && 0 <= cfg.oneShotFloorMs <= cfg.oneShotMaxMs
    && cfg.oneShotMinuteMod != 0
  }

  lemma DefaultIsSane()
    ensures SaneConfig(DEFAULT_JITTER)
  {
  }

  /** The entries of the file that `readCronTasks` does not skip. */
  ghost predicate Readable(t: CronTask) {
    t.id != "" && t.cron != "" && t.prompt != "" && t.createdAt != 0 && Parsed(t.cron).Some?
  }

  // ---- Cron slots ----

  /** A slot of a schedule: a whole minute, in milliseconds, that the expression matches. */
  ghost predicate IsSlot(cron: string, zone: int, ms: int) {
    Parsed(cron).Some? && ms % 60000 == 0 && Matches(Parsed(cron).value, ms / 60000 + zone)
  }

  ghost function NextMs(cron: string, fromMs: int, zone: int): Option<int> {
    match Parsed(cron)
    case None => None
    case Some(f) =>
      match NextRun(f, fromMs + zone * 60000)
      case None => None
      case Some(t) => Some((t - zone) * 60000)
  }

  method NextCronRunMs(cron: string, fromMs: int, zone: int) returns (r: Option<int>)
    ensures r == NextMs(cron, fromMs, zone)
  {
    var fields := ParseCronExpression(cron);
    if fields.None? {
      return None;
    }
    var next := ComputeNextCronRun(fields.value, fromMs + zone * 60000);
    if next.None? {
      return None;
    }
    return Some((next.value - zone) * 60000);
  }

  /** `NextMs` is the first slot strictly later than `fromMs`, if there is any. */
  lemma NextSlot(cron: string, fromMs: int, zone: int)
    ensures match NextMs(cron, fromMs, zone)
            case Some(s) => fromMs < s && IsSlot(cron, zone, s) && forall u :: fromMs < u < s ==> !IsSlot(cron, zone, u)
            case None => forall u :: fromMs < u ==> !IsSlot(cron, zone, u)
  {
    if Parsed(cron).Some? {
      var f := Parsed(cron).value;
      var from := fromMs + zone * 60000;
      NextRunIsFirstMatch(f, from);
      if NextRun(f, from).Some? {
        MinuteToMs(NextRun(f, from).value, zone);
        MsAfter(fromMs, zone, NextMs(cron, fromMs, zone).value);
      }
      forall u | fromMs < u && (NextMs(cron, fromMs, zone).None? || u < NextMs(cron, fromMs, zone).value)
        ensures !IsSlot(cron, zone, u)
      {
        if u % 60000 == 0 {
          MsAfter(fromMs, zone, u);
          assert u / 60000 + zone >= FirstCandidate(from);
        }
      }
    }
  }

  /** Minute boundaries later than `fromMs` are those from the first candidate minute on. */
  lemma MsAfter(fromMs: int, zone: int, u: int)
    requires u % 60000 == 0
    ensures fromMs < u <==> FirstCandidate(fromMs + zone * 60000) <= u / 60000 + zone
  {
    assert FirstCandidate(fromMs + zone * 60000) == fromMs / 60000 + zone + 1;
  }

  lemma MinuteToMs(t: int, zone: int)
    ensures ((t - zone) * 60000) % 60000 == 0 && ((t - zone) * 60000) / 60000 + zone == t
  {
  }

  /** The next `n` slots after `fromMs`, or fewer when the schedule runs out. */
  ghost function Slots(cron: string, fromMs: int, zone: int, n: nat): seq<int>
    decreases n
  {
    if n == 0 then []
    else
      match NextMs(cron, fromMs, zone)
      case None => []
      case Some(s) => [s] + Slots(cron, s, zone, n - 1)
  }

  /** Slots of the schedule, later than `fromMs`, in strictly increasing order. */
  ghost predicate SlotsInOrder(cron: string, fromMs: int, zone: int, slots: seq<int>) {
    && (forall i :: 0 <= i < |slots| ==> fromMs < slots[i] && IsSlot(cron, zone, slots[i]))
    && (forall i, j :: 0 <= i < j < |slots| ==> slots[i] < slots[j])
  }

  lemma {:induction false} SlotsIncrease(cron: string, fromMs: int, zone: int, n: nat)
    ensures SlotsInOrder(cron, fromMs, zone, Slots(cron, fromMs, zone, n))
    decreases n
  {
    if n > 0 {
      NextSlot(cron, fromMs, zone);
      if NextMs(cron, fromMs, zone).Some? {
        var s := NextMs(cron, fromMs, zone).value;
        SlotsIncrease(cron, s, zone, n - 1);
        Prepend(cron, fromMs, zone, s, Slots(cron, s, zone, n - 1));
      }
    }
  }

  lemma Prepend(cron: string, fromMs: int, zone: int, s: int, rest: seq<int>)
    requires fromMs < s && IsSlot(cron, zone, s) && SlotsInOrder(cron, s, zone, rest)
    ensures SlotsInOrder(cron, fromMs, zone, [s] + rest)
  {
    var slots := [s] + rest;
    forall i | 0 <= i < |slots|
      ensures fromMs < slots[i] && IsSlot(cron, zone, slots[i])
    {
      assert slots[i] == if i == 0 then s else rest[i - 1];
    }
  }

  lemma {:induction false} SlotListed(cron: string, fromMs: int, zone: int, n: nat, u: int)
    requires fromMs < u && IsSlot(cron, zone, u)
    ensures var slots := Slots(cron, fromMs, zone, n);
            u in slots || (|slots| == n && (n == 0 || slots[n - 1] < u))
    decreases n
  {
    if n > 0 {
      NextSlot(cron, fromMs, zone);
      var s := NextMs(cron, fromMs, zone).value;
      var rest := Slots(cron, s, zone, n - 1);
      assert Slots(cron, fromMs, zone, n) == [s] + rest;
      if u != s {
        SlotListed(cron, s, zone, n - 1, u);
      }
    }
  }

  /** Iterating the next-run function lists every slot once, in order, and misses none. */
  lemma SlotsEnumerate(cron: string, fromMs: int, zone: int, n: nat)
    ensures var slots := Slots(cron, fromMs, zone, n);
            && SlotsInOrder(cron, fromMs, zone, slots)
            && (forall u :: fromMs < u && IsSlot(cron, zone, u) ==>
                              u in slots || (|slots| == n && (n == 0 || slots[n - 1] < u)))
  {
    SlotsIncrease(cron, fromMs, zone, n);
    forall u | fromMs < u && IsSlot(cron, zone, u)
      ensures var slots := Slots(cron, fromMs, zone, n);
              u in slots || (|slots| == n && (n == 0 || slots[n - 1] < u))
    {
      SlotListed(cron, fromMs, zone, n, u);
    }
  }

  // ---- Jitter ----

  function HexDigit(c: char): Option<int> {
    if '0' <= c <= '9' then Some(c as int - '0' as int)
    else if 'a' <= c <= 'f' then Some(c as int - 'a' as int + 10)
    else if 'A' <= c <= 'F' then Some(c as int - 'A' as int + 10)
    else None
  }

  function HexValue(s: string): (v: Option<int>)
    decreases |s|
  {
    if s == "" then Some(0)
    else
      match (HexValue(s[..|s| - 1]), HexDigit(s[|s| - 1]))
      case (Some(v), Some(d)) => Some(16 * v + d)
      case _ => None
  }

  /** The numerator over 2^32 of the task's jitter fraction; 0 for malformed ids. */
  function JitterUnits(id: string): int {
    if |id| < 8 then 0
    else
      match HexValue(id[..8])
      case Some(v) => v
      case None => 0
  }

  const UNITS: int := 0x1_0000_0000

  function Power16(k: nat): int { if k == 0 then 1 else 16 * Power16(k - 1) }

  lemma {:induction false} HexValueBound(s: string)
    ensures HexValue(s).Some? ==> 0 <= HexValue(s).value < Power16(|s|)
    decreases |s|
  {
    if s != "" {
      HexValueBound(s[..|s| - 1]);
    }
  }

  lemma JitterUnitsBound(id: string)
    ensures 0 <= JitterUnits(id) < UNITS
  {
    if |id| >= 8 {
      HexValueBound(id[..8]);
      assert Power16(8) == 16 * 16 * 16 * 16 * Power16(4);
    }
  }

  function JitterFrac(id: string): real { JitterUnits(id) as real / UNITS as real }

  lemma JitterFracBound(id: string)
    ensures 0.0 <= JitterFrac(id) < 1.0
  {
    JitterUnitsBound(id);
  }

  /** `int64(x)` on a float: truncation toward zero. */
  function Trunc(x: real): int { if x >= 0.0 then x.Floor else -(-x).Floor }

  /** The forward delay for a jitter fraction and the gap to the following slot. */
  function Delay(frac: real, cfg: JitterConfig, gap: int): int {
    var jitter := Trunc(frac * cfg.recurringFrac * gap as real);
    if jitter > cfg.recurringCapMs then cfg.recurringCapMs else jitter
  }

  ghost function JitteredMs(cron: string, fromMs: int, id: string, cfg: JitterConfig, zone: int): Option<int> {
    match NextMs(cron, fromMs, zone)
    case None => None
    case Some(t1) =>
      match NextMs(cron, t1, zone)
      case None => Some(t1)
      case Some(t2) => Some(t1 + Delay(JitterFrac(id), cfg, t2 - t1))
  }

  method JitteredNextCronRunMs(cron: string, fromMs: int, id: string, cfg: JitterConfig, zone: int)
    returns (r: Option<int>)
    ensures r == JitteredMs(cron, fromMs, id, cfg, zone)
  {
    var t1 := NextCronRunMs(cron, fromMs, zone);
    if t1.None? {
      return None;
    }
    var t2 := NextCronRunMs(cron, t1.value, zone);
    if t2.None? {
      return t1;
    }
    return Some(t1.value + Delay(JitterFrac(id), cfg, t2.value - t1.value));
  }

  lemma TruncBelow(x: real, gap: int)
    requires 0.0 <= x < gap as real
    ensures 0 <= Trunc(x) < gap
  {
  }

  lemma DelayBound(frac: real, cfg: JitterConfig, gap: int)
    requires SaneConfig(cfg) && gap > 0 && 0.0 <= frac < 1.0
    ensures 0 <= Delay(frac, cfg, gap) < gap && Delay(frac, cfg, gap) <= cfg.recurringCapMs
  {
    FractionOfFraction(frac, cfg.recurringFrac);
    var share := frac * cfg.recurringFrac;
    ProperFraction(share, gap as real);
    TruncBelow(share * gap as real, gap);
  }

  /** Forward jitter stays before the following slot and within the cap. */
  lemma JitteredWithinGap(cron: string, fromMs: int, id: string, cfg: JitterConfig, zone: int)
    requires SaneConfig(cfg) && JitteredMs(cron, fromMs, id, cfg, zone).Some?
    ensures NextMs(cron, fromMs, zone).Some?
    ensures var r, t1 := JitteredMs(cron, fromMs, id, cfg, zone).value, NextMs(cron, fromMs, zone).value;
            && fromMs < t1 <= r <= t1 + cfg.recurringCapMs
            && (forall t2 :: t1 < t2 && IsSlot(cron, zone, t2) ==> r < t2)
  {
    NextSlot(cron, fromMs, zone);
    var t1 := NextMs(cron, fromMs, zone).value;
    NextSlot(cron, t1, zone);
    if NextMs(cron, t1, zone).Some? {
      JitterFracBound(id);
      DelayBound(JitterFrac(id), cfg, NextMs(cron, t1, zone).value - t1);
    }
  }

  function ShareOf(frac: real, width: int): int {
    Trunc(frac * width as real)
  }

  /** How early a one-shot fires, for a jitter fraction. */
  function Lead(frac: real, cfg: JitterConfig): int {
    cfg.oneShotFloorMs + ShareOf(frac, cfg.oneShotMaxMs - cfg.oneShotFloorMs)
  }

  ghost function OneShotMs(cron: string, fromMs: int, id: string, cfg: JitterConfig, zone: int): Option<int>
    requires cfg.oneShotMinuteMod != 0
  {
    match NextMs(cron, fromMs, zone)
    case None => None
    case Some(t1) =>
      if MinuteAt(t1 / 60000 + zone) % cfg.oneShotMinuteMod != 0 then Some(t1)
      else if t1 - Lead(JitterFrac(id), cfg) < fromMs then Some(fromMs)
      else Some(t1 - Lead(JitterFrac(id), cfg))
  }

  method OneShotJitteredNextCronRunMs(cron: string, fromMs: int, id: string, cfg: JitterConfig, zone: int)
    returns (r: Option<int>)
    requires cfg.oneShotMinuteMod != 0
    ensures r == OneShotMs(cron, fromMs, id, cfg, zone)
  {
    var t1 := NextCronRunMs(cron, fromMs, zone);
    if t1.None? {
      return None;
    }
    if MinuteAt(t1.value / 60000 + zone) % cfg.oneShotMinuteMod != 0 {
      return t1;
    }
    var result := t1.value - Lead(JitterFrac(id), cfg);
    if result < fromMs {
      result := fromMs;
    }
    return Some(result);
  }

  lemma TruncShare(frac: real, width: int)
    requires 0.0 <= frac < 1.0 && width > 0
    ensures 0 <= Trunc(frac * width as real) <= width
  {
    ProperFraction(frac, width as real);
    TruncBelow(frac * width as real, width);
  }

  lemma LeadBound(frac: real, cfg: JitterConfig)
    requires SaneConfig(cfg) && 0.0 <= frac < 1.0
    ensures cfg.oneShotFloorMs <= Lead(frac, cfg) <= cfg.oneShotMaxMs
  {
    var width := cfg.oneShotMaxMs - cfg.oneShotFloorMs;
    if width > 0 {
      TruncShare(frac, width);
    } else {
      assert frac * 0.0 == 0.0;
    }
  }

  /** Backward jitter never fires before the anchor, never after the slot, and
      leads the slot by at most the configured maximum. */
  lemma OneShotBeforeSlot(cron: string, fromMs: int, id: string, cfg: JitterConfig, zone: int)
    requires SaneConfig(cfg) && OneShotMs(cron, fromMs, id, cfg, zone).Some?
    ensures NextMs(cron, fromMs, zone).Some?
    ensures var r, t1 := OneShotMs(cron, fromMs, id, cfg, zone).value, NextMs(cron, fromMs, zone).value;
            fromMs <= r <= t1 && t1 - cfg.oneShotMaxMs <= r
  {
    NextSlot(cron, fromMs, zone);
    JitterFracBound(id);
    LeadBound(JitterFrac(id), cfg);
  }

  /** For the configuration the scheduler runs with: a recurring task fires at most a
      quarter of an hour and less than a tenth of any gap late. */
  lemma DefaultDelay(cron: string, fromMs: int, id: string, zone: int)
    requires JitteredMs(cron, fromMs, id, DEFAULT_JITTER, zone).Some?
    ensures NextMs(cron, fromMs, zone).Some?
    ensures var t1 := NextMs(cron, fromMs, zone).value;
            var late := JitteredMs(cron, fromMs, id, DEFAULT_JITTER, zone).value - t1;
            0 <= late <= 900_000 && forall t2 :: t1 < t2 && IsSlot(cron, zone, t2) ==> 10 * late < t2 - t1
  {
    DefaultIsSane();
    JitteredWithinGap(cron, fromMs, id, DEFAULT_JITTER, zone);
    RecurringDelay(cron, fromMs, id, DEFAULT_JITTER, zone);
    var t1 := NextMs(cron, fromMs, zone).value;
    var late := JitteredMs(cron, fromMs, id, DEFAULT_JITTER, zone).value - t1;
    NextSlot(cron, t1, zone);
    if NextMs(cron, t1, zone).Some? {
      TenthOfGap(late, id, NextMs(cron, t1, zone).value - t1);
    }
  }

  /** A one-shot fires at most a minute and a half early, and only at minutes 0 and 30. */
  lemma DefaultLead(cron: string, fromMs: int, id: string, zone: int)
    requires OneShotMs(cron, fromMs, id, DEFAULT_JITTER, zone).Some?
    ensures NextMs(cron, fromMs, zone).Some?
    ensures var t1 := NextMs(cron, fromMs, zone).value;
            var early := t1 - OneShotMs(cron, fromMs, id, DEFAULT_JITTER, zone).value;
            0 <= early <= 90_000 && (early > 0 ==> (t1 / 60000 + zone) % 60 in {0, 30})
  {
    DefaultIsSane();
    OneShotBeforeSlot(cron, fromMs, id, DEFAULT_JITTER, zone);
  }

  lemma TenthOfGap(delay: int, id: string, gap: int)
    requires gap > 0 && IsDelay(delay, JitterUnits(id), DEFAULT_JITTER, gap)
    ensures 10 * delay < gap
  {
    JitterUnitsBound(id);
    LessThanWidth(delay, JitterUnits(id), DEFAULT_JITTER.recurringFrac * gap as real);
  }

  lemma LessThanWidth(delay: int, units: int, width: real)
    requires 0 <= units < UNITS && width > 0.0 && delay as real * UNITS as real <= units as real * width
    ensures delay as real < width
  {
    TimesPositive(units as real, UNITS as real, width);
    assert delay as real * UNITS as real < UNITS as real * width;
  }

  // ---- Which share of the gap it is ----

  function HexChar(d: int, upper: bool): char
    requires 0 <= d < 16
  {
    if d < 10 then ('0' as int + d) as char
    else if upper then ('A' as int + d - 10) as char
    else ('a' as int + d - 10) as char
  }

  /** The `k` lowest hexadecimal digits of `n`. */
  function HexText(n: nat, k: nat, upper: bool): (s: string)
    ensures |s| == k
  {
    if k == 0 then "" else HexText(n / 16, k - 1, upper) + [HexChar(n % 16, upper)]
  }

  lemma {:induction false} HexTextValue(n: nat, k: nat, upper: bool)
    requires n < Power16(k)
    ensures HexValue(HexText(n, k, upper)) == Some(n)
  {
    if k > 0 {
      HexTextValue(n / 16, k - 1, upper);
      var s := HexText(n, k, upper);
      assert s[..k - 1] == HexText(n / 16, k - 1, upper);
    }
  }

  /** The first eight characters of an id are read as a hexadecimal number. */
  lemma JitterUnitsOfHex(n: nat, upper: bool, rest: string)
    requires n < UNITS
    ensures JitterUnits(HexText(n, 8, upper) + rest) == n
  {
    assert Power16(8) == 16 * 16 * 16 * 16 * Power16(4);
    HexTextValue(n, 8, upper);
    assert (HexText(n, 8, upper) + rest)[..8] == HexText(n, 8, upper);
  }

  /** Shorter ids and ids with other characters there have no jitter. */
  lemma NoJitterUnits(id: string)
    requires |id| < 8 || exists i :: 0 <= i < 8 && HexDigit(id[i]).None?
    ensures JitterUnits(id) == 0
  {
    if |id| >= 8 {
      var i :| 0 <= i < 8 && HexDigit(id[i]).None?;
      assert id[..8][i] == id[i];
      NoHexValue(id[..8], i);
    }
  }

  lemma {:induction false} NoHexValue(s: string, i: nat)
    requires i < |s| && HexDigit(s[i]).None?
    ensures HexValue(s).None?
    decreases |s|
  {
    if i < |s| - 1 {
      NoHexValue(s[..|s| - 1], i);
    }
  }

  /** `d` is the whole part of `units` / 2^32 of `width`. */
  predicate IsShare(d: int, units: int, width: int) {
    d * UNITS <= units * width < (d + 1) * UNITS
  }

  lemma ShareTimes(units: int, width: real)
    ensures (units as real / UNITS as real * width) * UNITS as real == units as real * width
  {
    var frac := units as real / UNITS as real;
    assert frac * UNITS as real == units as real;
    Regroup(frac, width, UNITS as real);
  }

  lemma Regroup(x: real, y: real, z: real)
    ensures (x * y) * z == (x * z) * y
  {
  }

  /** The whole part of a share, in whole numbers. */
  lemma TruncIsShare(frac: real, units: nat, width: nat)
    requires frac == units as real / UNITS as real
    ensures IsShare(ShareOf(frac, width), units, width)
  {
    ProductNonNegative(frac, width as real);
    ShareTimes(units, width as real);
    ExactProduct(units, width);
    WholePart(frac * width as real, UNITS, units * width);
  }

  lemma WholePart(x: real, scale: nat, product: nat)
    requires x >= 0.0 && scale > 0 && x * scale as real == product as real
    ensures Trunc(x) * scale <= product < (Trunc(x) + 1) * scale
  {
    var d := Trunc(x);
    var e := d + 1;
    assert d as real <= x < e as real;
    BelowProduct(x, d, scale, product);
    AboveProduct(x, e, scale, product);
  }

  lemma BelowProduct(x: real, d: int, scale: nat, product: nat)
    requires scale > 0 && x * scale as real == product as real && d as real <= x
    ensures d * scale <= product
  {
    TimesPositive(x, d as real, scale as real);
    ExactProduct(d, scale);
  }

  lemma AboveProduct(x: real, e: int, scale: nat, product: nat)
    requires scale > 0 && x * scale as real == product as real && x < e as real
    ensures product < e * scale
  {
    TimesPositive(x, e as real, scale as real);
    ExactProduct(e, scale);
  }

  lemma ExactProduct(x: int, y: int)
    ensures (x * y) as real == x as real * y as real
  {
  }

  lemma Between(x: real, d: int, scale: real)
    requires scale > 0.0
    ensures d as real <= x <==> d as real * scale <= x * scale
    ensures x < (d + 1) as real <==> x * scale < (d + 1) as real * scale
  {
    TimesPositive(x, d as real, scale);
    TimesPositive(x, (d + 1) as real, scale);
  }

  lemma LeadIsShare(id: string, cfg: JitterConfig)
    requires SaneConfig(cfg)
    ensures var share := Lead(JitterFrac(id), cfg) - cfg.oneShotFloorMs;
            IsShare(share, JitterUnits(id), cfg.oneShotMaxMs - cfg.oneShotFloorMs)
  {
    JitterUnitsBound(id);
    TruncIsShare(JitterFrac(id), JitterUnits(id), cfg.oneShotMaxMs - cfg.oneShotFloorMs);
  }

  /** When a one-shot fires whose slot is `t1`, for a lead. */
  function Earlier(t1: int, lead: int, fromMs: int, cfg: JitterConfig, zone: int): int
    requires cfg.oneShotMinuteMod != 0
  {
    if (t1 / 60000 + zone) % 60 % cfg.oneShotMinuteMod != 0 then t1
    else if t1 - lead < fromMs then fromMs
    else t1 - lead
  }

  /** A one-shot whose slot is on a multiple of the minute modulus fires earlier by the
      floor and the share of the span above it that its id gives, but not before its
      anchor; any other fires at its slot. */
  lemma OneShotLead(cron: string, fromMs: int, id: string, cfg: JitterConfig, zone: int) returns (share: int)
    requires SaneConfig(cfg) && OneShotMs(cron, fromMs, id, cfg, zone).Some?
    ensures NextMs(cron, fromMs, zone).Some? && IsShare(share, JitterUnits(id), cfg.oneShotMaxMs - cfg.oneShotFloorMs)
    ensures OneShotMs(cron, fromMs, id, cfg, zone).value ==
            Earlier(NextMs(cron, fromMs, zone).value, cfg.oneShotFloorMs + share, fromMs, cfg, zone)
  {
    LeadIsShare(id, cfg);
    share := Lead(JitterFrac(id), cfg) - cfg.oneShotFloorMs;
  }

  /** `delay` is the whole part of `units` / 2^32 of the configured part of `gap`, or
      the cap if that is less. */
  predicate IsDelay(delay: int, units: int, cfg: JitterConfig, gap: int) {
    var part := units as real * (cfg.recurringFrac * gap as real);
    && delay as real * UNITS as real <= part
    && if delay < cfg.recurringCapMs then part < (delay + 1) as real * UNITS as real else delay == cfg.recurringCapMs
  }

  /** A recurring task fires later than its slot by the configured part of the share of
      the gap to the following slot that its id gives, up to the cap; at its slot if
      none follows. */
  lemma RecurringDelay(cron: string, fromMs: int, id: string, cfg: JitterConfig, zone: int)
    requires SaneConfig(cfg) && JitteredMs(cron, fromMs, id, cfg, zone).Some?
    ensures NextMs(cron, fromMs, zone).Some?
    ensures var t1 := NextMs(cron, fromMs, zone).value;
            var delay := JitteredMs(cron, fromMs, id, cfg, zone).value - t1;
            match NextMs(cron, t1, zone)
            case None => delay == 0
            case Some(t2) => IsDelay(delay, JitterUnits(id), cfg, t2 - t1)
  {
    NextSlot(cron, fromMs, zone);
    var t1 := NextMs(cron, fromMs, zone).value;
    NextSlot(cron, t1, zone);
    if NextMs(cron, t1, zone).Some? {
      DelayOfId(id, cfg, NextMs(cron, t1, zone).value - t1);
    }
  }

  lemma DelayOfId(id: string, cfg: JitterConfig, gap: int)
    requires SaneConfig(cfg) && gap > 0
    ensures IsDelay(Delay(JitterFrac(id), cfg, gap), JitterUnits(id), cfg, gap)
  {
    JitterUnitsBound(id);
    DelayIsPart(JitterUnits(id), cfg, gap, Delay(JitterFrac(id), cfg, gap));
  }

  lemma DelayIsPart(units: int, cfg: JitterConfig, gap: int, delay: int)
    requires SaneConfig(cfg) && gap > 0
    requires units >= 0 && delay == Delay(units as real / UNITS as real, cfg, gap)
    ensures IsDelay(delay, units, cfg, gap)
  {
    var frac := units as real / UNITS as real;
    var width := cfg.recurringFrac * gap as real;
    ProductNonNegative(cfg.recurringFrac, gap as real);
    ProductNonNegative(frac, width);
    Associate(frac, cfg.recurringFrac, gap as real);
    ShareTimes(units, width);
    TruncBetween(frac * width, delay, cfg.recurringCapMs);
    Between(frac * width, delay, UNITS as real);
  }

  lemma Associate(x: real, y: real, z: real)
    ensures x * y * z == x * (y * z)
  {
  }

  lemma TruncBetween(x: real, delay: int, cap: int)
    requires x >= 0.0 && delay == if Trunc(x) > cap then cap else Trunc(x)
    ensures delay as real <= x && if delay < cap then x < (delay + 1) as real else delay == cap
  {
  }

  // ---- Missed and aged tasks ----

  ghost predicate IsMissed(t: CronTask, now: int, zone: int) {
    NextMs(t.cron, t.createdAt, zone).Some? && NextMs(t.cron, t.createdAt, zone).value < now
  }

  /** A task is missed when some slot lies strictly between its creation and now. */
  lemma MissedIffSlotPassed(t: CronTask, now: int, zone: int)
    ensures IsMissed(t, now, zone) <==> exists s :: t.createdAt < s < now && IsSlot(t.cron, zone, s)
  {
    NextSlot(t.cron, t.createdAt, zone);
  }

  ghost function Missed(tasks: seq<CronTask>, now: int, zone: int): (r: seq<CronTask>)
    ensures forall t :: t in r <==> t in tasks && IsMissed(t, now, zone)
  {
    if tasks == [] then []
    else
      var init := Missed(tasks[..|tasks| - 1], now, zone);
      var last := tasks[|tasks| - 1];
      assert tasks == tasks[..|tasks| - 1] + [last];
      if IsMissed(last, now, zone) then init + [last] else init
  }

  method FindMissedTasks(tasks: seq<CronTask>, now: int, zone: int) returns (missed: seq<CronTask>)
    ensures missed == Missed(tasks, now, zone)
  {
    missed := [];
    for i := 0 to |tasks|
      invariant missed == Missed(tasks[..i], now, zone)
    {
      var t := tasks[i];
      assert tasks[..i + 1][..i] == tasks[..i];
      var next := NextCronRunMs(t.cron, t.createdAt, zone);
      if next.Some? && next.value < now {
        missed := missed + [t];
      }
    }
    assert tasks[..|tasks|] == tasks;
  }

  predicate IsRecurringTaskAged(t: CronTask, now: int, maxAgeMs: int) {
    maxAgeMs != 0 && t.recurring && !t.permanent && now - t.createdAt >= maxAgeMs
  }

  // ---- The session store ----

  function IdSet(ids: seq<string>): set<string> {
    set id | id in ids
  }

  lemma IdSetSnoc(ids: seq<string>, id: string)
    ensures IdSet(ids + [id]) == IdSet(ids) + {id}
  {
  }

  lemma IdSetOne(id: string)
    ensures IdSet([id]) == {id}
  {
  }

  lemma RemoveOne(m: map<string, CronTask>, done: set<string>, id: string)
    ensures var before, after := m - done, m - (done + {id});
            if id in before then after == before - {id} && |after.Keys| == |before.Keys| - 1 else after == before
  {
    var before := m - done;
    assert (before - {id}).Keys == before.Keys - {id};
  }

  /** The session-scoped tasks, kept by id. */
  class SessionStore {
    var tasks: map<string, CronTask>

    constructor ()
      ensures tasks == map[]
    {
      tasks := map[];
    }

    method Add(t: CronTask)
      modifies this
      ensures tasks == old(tasks)[t.id := t]
    {
      tasks := tasks[t.id := t];
    }

    /** Every task whose id is listed goes, and `count` says how many there were. */
    method Remove(ids: seq<string>) returns (count: nat)
      modifies this
      ensures tasks == old(tasks) - IdSet(ids)
      ensures count == |old(tasks).Keys| - |tasks.Keys|
    {
      count := 0;
      for i := 0 to |ids|
        invariant tasks == old(tasks) - IdSet(ids[..i])
        invariant count == |old(tasks).Keys| - |tasks.Keys|
      {
        var id := ids[i];
        assert IdSet(ids[..i + 1]) == IdSet(ids[..i]) + {id};
        RemoveOne(old(tasks), IdSet(ids[..i]), id);
        if id in tasks {
          tasks := tasks - {id};
          count := count + 1;
        }
      }
      assert ids[..|ids|] == ids;
    }
  }
}
