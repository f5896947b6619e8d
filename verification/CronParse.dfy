/** The field parser of cron.go: `expandField` and `ParseCronExpression`.

    A field is a comma list of terms.  `ParseTerm` is their syntax and
    `TermValues` what each stands for; the branch cascade of the code, which
    mixes the two and fills a set as it goes, is proved to compute exactly their
    union, and formatting valid fields and parsing them back is the identity. */
module CronParse {
  import opened Wrappers
  import opened GoStrings
  import opened SortedKeys
  import opened Division

  datatype CronFields = CronFields(
    minute: seq<int>,
    hour: seq<int>,
    dayOfMonth: seq<int>,
    month: seq<int>,
    dayOfWeek: seq<int>)

  datatype FieldRange = FieldRange(min: int, max: int)

  const MINUTES := FieldRange(0, 59)
  const HOURS := FieldRange(0, 23)
  const DAYS_OF_MONTH := FieldRange(1, 31)
  const MONTHS := FieldRange(1, 12)
  const DAYS_OF_WEEK := FieldRange(0, 6)

  const FIELD_RANGES: seq<FieldRange> := [MINUTES, HOURS, DAYS_OF_MONTH, MONTHS, DAYS_OF_WEEK]

  /** 7 is accepted for Sunday in the one range that is 0 to 6. */
  predicate IsDow(r: FieldRange) { r.min == 0 && r.max == 6 }

  // ---- What a field denotes ----

  datatype Term = Every(step: int) | Single(value: int) | Span(lo: int, hi: int, step: int)

  function Step(text: string): Option<int> {
    match Atoi(text)
    case Some(s) => if s < 1 then None else Some(s)
    case None => None
  }

  function ParseSpan(text: string, step: int): Option<Term> {
    var dash := IndexOf(text, '-');
    if dash == |text| then None
    else
      match (Atoi(text[..dash]), Atoi(text[dash + 1..]))
      case (Some(lo), Some(hi)) => Some(Span(lo, hi, step))
      case _ => None
  }

  /** The grammar of one comma part: `*`, a star with a step, `N`, `N-M` and `N-M/S`. */
  function ParseTerm(part: string): Option<Term> {
    if part == "*" then Some(Every(1))
    else if |part| >= 2 && part[..2] == "*/" then
      match Step(part[2..])
      case Some(s) => Some(Every(s))
      case None => None
    else
      var pieces := Split(part, '/');
      if |pieces| > 2 then None
      else
        var step := if |pieces| == 2 then Step(pieces[1]) else Some(1);
        if step.None? then None
        else if '-' in pieces[0] then ParseSpan(pieces[0], step.value)
        else
          match Atoi(part)
          case Some(n) => Some(Single(n))
          case None => None
  }

  /** `lo, lo + step, ...` up to `hi`. */
  ghost function Progression(lo: int, hi: int, step: int): set<int>
    requires step >= 1
    decreases hi - lo
  {
    if lo > hi then {} else {lo} + Progression(lo + step, hi, step)
  }

  ghost predicate OnGrid(v: int, lo: int, k: nat, step: int) {
    v == lo + k * step
  }

  lemma {:induction false} ProgressionIs(lo: int, hi: int, step: int, v: int)
    requires step >= 1
    ensures v in Progression(lo, hi, step) <==> v <= hi && exists k: nat :: OnGrid(v, lo, k, step)
    decreases hi - lo
  {
    if lo > hi {
      forall k: nat | OnGrid(v, lo, k, step)
        ensures v > hi
      {
        assert k * step >= 0;
      }
    } else {
      var later := lo + step;
      ProgressionIs(later, hi, step, v);
      assert OnGrid(lo, lo, 0, step);
      if exists k: nat :: k > 0 && OnGrid(v, lo, k, step) {
        var k: nat :| k > 0 && OnGrid(v, lo, k, step);
        assert OnGrid(v, later, k - 1, step);
      }
      if exists k: nat :: OnGrid(v, later, k, step) {
        var k: nat :| OnGrid(v, later, k, step);
        assert OnGrid(v, lo, k + 1, step);
      }
    }
  }

  lemma {:induction false} ProgressionBounds(lo: int, hi: int, step: int)
    requires step >= 1
    ensures forall v :: v in Progression(lo, hi, step) ==> lo <= v <= hi
    decreases hi - lo
  {
    if lo <= hi {
      ProgressionBounds(lo + step, hi, step);
    }
  }

  /** The values of a term once 7 is read as Sunday. */
  ghost function Aliased(values: set<int>, r: FieldRange): set<int> {
    set v | v in values :: Alias(v, r)
  }

  function Alias(v: int, r: FieldRange): int {
    if IsDow(r) && v == 7 then 0 else v
  }

  predicate TermInRange(t: Term, r: FieldRange) {
    match t
    case Every(_) => true
    case Single(n) => r.min <= Alias(n, r) <= r.max
    case Span(lo, hi, _) => r.min <= lo <= hi <= (if IsDow(r) then 7 else r.max)
  }

  ghost predicate WellFormed(t: Term) {
    t.Single? || t.step >= 1
  }

  lemma ParseTermWellFormed(part: string)
    ensures ParseTerm(part).Some? ==> WellFormed(ParseTerm(part).value)
  {
  }

  ghost function TermValues(t: Term, r: FieldRange): set<int>
    requires WellFormed(t)
  {
    match t
    case Every(s) => Progression(r.min, r.max, s)
    case Single(n) => {Alias(n, r)}
    case Span(lo, hi, s) => Aliased(Progression(lo, hi, s), r)
  }

  ghost function PartValues(part: string, r: FieldRange): Option<set<int>> {
    ParseTermWellFormed(part);
    match ParseTerm(part)
    case Some(t) => if TermInRange(t, r) then Some(TermValues(t, r)) else None
    case None => None
  }

  /** The union over the comma parts; one bad part rejects the whole field. */
  ghost function Denotes(parts: seq<string>, r: FieldRange): Option<set<int>> {
    if |parts| == 0 then Some({})
    else
      match (PartValues(parts[0], r), Denotes(parts[1..], r))
      case (Some(a), Some(b)) => Some(a + b)
      case _ => None
  }

  ghost function FieldValues(field: string, r: FieldRange): Option<set<int>> {
    Denotes(Split(field, ','), r)
  }

  predicate InRange(s: seq<int>, r: FieldRange) {
    forall i :: 0 <= i < |s| ==> r.min <= s[i] <= r.max
  }

  predicate ValidList(s: seq<int>, r: FieldRange) {
    s != [] && Increasing(s) && InRange(s, r)
  }

  /** `out` is the answer the field calls for: rejection, or the increasing list
      of exactly the values it denotes. */
  ghost predicate Expands(field: string, r: FieldRange, out: Option<seq<int>>) {
    match FieldValues(field, r)
    case None => out.None?
    case Some(values) => out.Some? && ValidList(out.value, r) && Elements(out.value) == values
  }

  /** A field has one answer. */
  lemma ExpandsUnique(field: string, r: FieldRange, a: Option<seq<int>>, b: Option<seq<int>>)
    requires Expands(field, r, a) && Expands(field, r, b)
    ensures a == b
  {
    if FieldValues(field, r).Some? {
      IncreasingUnique(a.value, b.value);
    }
  }

  // ---- The code ----

  /** One part added to the set `out`; false where the code returns nil. */
  method ExpandPart(part: string, r: FieldRange, out: set<int>) returns (ok: bool, next: set<int>)
    requires r.min <= r.max
    ensures ok == PartValues(part, r).Some?
    ensures ok ==> next == out + PartValues(part, r).value
  {
    next := out;
    if part == "*" {
      WildcardUnaliased(r, 1);
      next := AddProgression(r.min, r.max, 1, r, out);
      return true, next;
    }
    if |part| >= 2 && part[..2] == "*/" {
      var step := Atoi(part[2..]);
      if step.None? || step.value < 1 {
        return false, out;
      }
      WildcardUnaliased(r, step.value);
      next := AddProgression(r.min, r.max, step.value, r, out);
      return true, next;
    }
    var rangeParts := Split(part, '/');
    var step := 1;
    if |rangeParts| == 2 {
      var s := Atoi(rangeParts[1]);
      if s.None? || s.value < 1 {
        return false, out;
      }
      step := s.value;
    } else if |rangeParts| > 2 {
      return false, out;
    }
    var rangePart := rangeParts[0];
    if '-' in rangePart {
      var dash := IndexOf(rangePart, '-');
      var lo, hi := Atoi(rangePart[..dash]), Atoi(rangePart[dash + 1..]);
      if lo.None? || hi.None? {
        return false, out;
      }
      var effMax := if IsDow(r) then 7 else r.max;
      if lo.value > hi.value || lo.value < r.min || hi.value > effMax {
        return false, out;
      }
      next := AddProgression(lo.value, hi.value, step, r, out);
      return true, next;
    }
    var n := Atoi(part);
    if n.None? {
      return false, out;
    }
    var value := if IsDow(r) && n.value == 7 then 0 else n.value;
    if value < r.min || value > r.max {
      return false, out;
    }
    return true, out + {value};
  }

  /** The inner `for i := lo; i <= hi; i += step`, with 7 read as 0 in weekday ranges. */
  method AddProgression(lo: int, hi: int, step: int, r: FieldRange, out: set<int>) returns (next: set<int>)
    requires step >= 1
    ensures next == out + Aliased(Progression(lo, hi, step), r)
  {
    next := out;
    var i := lo;
    while i <= hi
      invariant next + Aliased(Progression(i, hi, step), r) == out + Aliased(Progression(lo, hi, step), r)
      decreases hi - i
    {
      AliasedStep(i, hi, step, r);
      next := next + {if IsDow(r) && i == 7 then 0 else i};
      i := i + step;
    }
  }

  lemma AliasedStep(i: int, hi: int, step: int, r: FieldRange)
    requires step >= 1 && i <= hi
    ensures Aliased(Progression(i, hi, step), r) == {Alias(i, r)} + Aliased(Progression(i + step, hi, step), r)
  {
    var rest := Progression(i + step, hi, step);
    forall v | v in Aliased(rest, r)
      ensures v in Aliased({i} + rest, r)
    {
    }
  }

  /** In a wildcard no value is 7 in the weekday range, so nothing is renamed. */
  lemma WildcardUnaliased(r: FieldRange, step: int)
    requires step >= 1
    ensures Aliased(Progression(r.min, r.max, step), r) == Progression(r.min, r.max, step)
  {
    var values := Progression(r.min, r.max, step);
    ProgressionBounds(r.min, r.max, step);
    forall v | v in values
      ensures v in Aliased(values, r)
    {
      assert Alias(v, r) == v;
    }
  }

  ghost function AddTo(out: set<int>, rest: Option<set<int>>): Option<set<int>> {
    if rest.Some? then Some(out + rest.value) else None
  }

  lemma AddToUnion(out: set<int>, part: set<int>, rest: Option<set<int>>)
    requires rest.Some?
    ensures AddTo(out, Some(part + rest.value)) == AddTo(out + part, rest)
  {
    assert out + (part + rest.value) == (out + part) + rest.value;
  }

  method ExpandField(field: string, r: FieldRange) returns (result: Option<seq<int>>)
    requires r.min <= r.max
    ensures Expands(field, r, result)
  {
    var out: set<int> := {};
    var parts := Split(field, ',');
    var i := 0;
    assert parts[0..] == parts;
    assert FieldValues(field, r).Some? ==> {} + FieldValues(field, r).value == FieldValues(field, r).value;
    while i < |parts|
      invariant 0 <= i <= |parts|
      invariant FieldValues(field, r) == AddTo(out, Denotes(parts[i..], r))
    {
      var ok, next := ExpandPart(parts[i], r, out);
      assert parts[i..][1..] == parts[i + 1..];
      if !ok {
        return None;
      }
      if Denotes(parts[i + 1..], r).Some? {
        AddToUnion(out, PartValues(parts[i], r).value, Denotes(parts[i + 1..], r));
      }
      out := next;
      i := i + 1;
    }
    DenotesInRange(parts, r);
    if |out| == 0 {
      return None;
    }
    var keys := SortKeys(out, r.min, r.max);
    assert (set k | k in out && r.min <= k <= r.max) == out;
    assert forall i :: 0 <= i < |keys| ==> keys[i] in Elements(keys);
    return Some(keys);
  }

  lemma PartInRange(part: string, r: FieldRange)
    requires r.min <= r.max
    ensures PartValues(part, r).Some? ==> PartValues(part, r).value != {}
    ensures PartValues(part, r).Some? ==> forall v :: v in PartValues(part, r).value ==> r.min <= v <= r.max
  {
    if PartValues(part, r).Some? {
      ParseTermWellFormed(part);
      match ParseTerm(part).value
      case Every(s) =>
        ProgressionBounds(r.min, r.max, s);
      case Single(n) =>
      case Span(lo, hi, s) =>
        ProgressionBounds(lo, hi, s);
        assert Alias(lo, r) in TermValues(Span(lo, hi, s), r);
    }
  }

  lemma {:induction false} DenotesInRange(parts: seq<string>, r: FieldRange)
    requires r.min <= r.max
    ensures Denotes(parts, r).Some? ==> forall v :: v in Denotes(parts, r).value ==> r.min <= v <= r.max
    ensures Denotes(parts, r).Some? && |parts| > 0 ==> Denotes(parts, r).value != {}
  {
    if |parts| > 0 {
      PartInRange(parts[0], r);
      DenotesInRange(parts[1..], r);
    }
  }

  // ---- Whole expressions ----

  predicate ValidFields(f: CronFields) {
    forall i :: 0 <= i < 5 ==> ValidList(Lists(f)[i], FIELD_RANGES[i])
  }

  function Lists(f: CronFields): (lists: seq<seq<int>>)
    ensures |lists| == 5
  {
    [f.minute, f.hour, f.dayOfMonth, f.month, f.dayOfWeek]
  }

  /** `f` is the answer the expression calls for: exactly five words, each
      expanding to its list. */
  ghost predicate ParsesTo(expr: string, f: Option<CronFields>) {
    var words := Fields(expr);
    match f
    case Some(f) =>
      |words| == 5 && forall i :: 0 <= i < 5 ==> Expands(words[i], FIELD_RANGES[i], Some(Lists(f)[i]))
    case None =>
      |words| != 5 || exists i :: 0 <= i < 5 && Expands(words[i], FIELD_RANGES[i], None)
  }

  method ExpandAll(parts: seq<string>) returns (expanded: Option<seq<seq<int>>>)
    requires |parts| == 5
    ensures match expanded
            case Some(lists) =>
              |lists| == 5 && forall k :: 0 <= k < 5 ==> Expands(parts[k], FIELD_RANGES[k], Some(lists[k]))
            case None => exists k :: 0 <= k < 5 && Expands(parts[k], FIELD_RANGES[k], None)
  {
    var lists: seq<seq<int>> := [];
    for i := 0 to 5
      invariant |lists| == i
      invariant forall k :: 0 <= k < i ==> Expands(parts[k], FIELD_RANGES[k], Some(lists[k]))
    {
      var r := FIELD_RANGES[i];
      var result := ExpandField(parts[i], r);
      if result.None? {
        assert Expands(parts[i], FIELD_RANGES[i], None);
        return None;
      }
      lists := lists + [result.value];
    }
    return Some(lists);
  }

  method ParseCronExpression(expr: string) returns (result: Option<CronFields>)
    ensures result == Parsed(expr)
  {
    var trimmed := TrimSpace(expr);
    FieldsTrimSpace(expr);
    forall f | ParsesTo(expr, f)
      ensures f == Parsed(expr)
    {
      ParsesToUnique(expr, f, Parsed(expr));
    }
    if trimmed == "" {
      return None;
    }
    var parts := Fields(trimmed);
    if |parts| != 5 {
      return None;
    }
    var expanded := ExpandAll(parts);
    if expanded.None? {
      return None;
    }
    var lists := expanded.value;
    var f := CronFields(lists[0], lists[1], lists[2], lists[3], lists[4]);
    FiveLists(lists);
    AllExpand(expr, f);
    return Some(f);
  }

  lemma FiveLists(lists: seq<seq<int>>)
    requires |lists| == 5
    ensures Lists(CronFields(lists[0], lists[1], lists[2], lists[3], lists[4])) == lists
  {
  }

  lemma AllExpand(expr: string, f: CronFields)
    requires |Fields(expr)| == 5
    requires forall k :: 0 <= k < 5 ==> Expands(Fields(expr)[k], FIELD_RANGES[k], Some(Lists(f)[k]))
    ensures ParsesTo(expr, Some(f)) && ValidFields(f)
  {
  }

  lemma ParsesToUnique(expr: string, a: Option<CronFields>, b: Option<CronFields>)
    requires ParsesTo(expr, a) && ParsesTo(expr, b)
    ensures a == b
  {
    var words := Fields(expr);
    if a.Some? && b.Some? {
      forall i | 0 <= i < 5
        ensures Lists(a.value)[i] == Lists(b.value)[i]
      {
        ExpandsUnique(words[i], FIELD_RANGES[i], Some(Lists(a.value)[i]), Some(Lists(b.value)[i]));
      }
      assert Lists(a.value) == Lists(b.value);
    }
  }

  /** The list a field expands to, independent of the code. */
  ghost function Expanded(field: string, r: FieldRange): (out: Option<seq<int>>)
    requires r.min <= r.max
    ensures Expands(field, r, out)
  {
    match FieldValues(field, r)
    case None => None
    case Some(values) =>
      DenotesInRange(Split(field, ','), r);
      var keys := SortKeys(values, r.min, r.max);
      assert (set k | k in values && r.min <= k <= r.max) == values;
      assert forall i :: 0 <= i < |keys| ==> keys[i] in Elements(keys);
      EmptyElements();
      Some(keys)
  }

  lemma ParsesToExists(expr: string)
    ensures exists f :: ParsesTo(expr, f)
  {
    var words := Fields(expr);
    if |words| != 5 || exists i :: 0 <= i < 5 && Expanded(words[i], FIELD_RANGES[i]).None? {
      assert ParsesTo(expr, None);
    } else {
      var lists := seq(5, i requires 0 <= i < 5 => Expanded(words[i], FIELD_RANGES[i]).value);
      FiveLists(lists);
      AllExpand(expr, CronFields(lists[0], lists[1], lists[2], lists[3], lists[4]));
    }
  }

  /** What an expression parses to. */
  ghost function Parsed(expr: string): (f: Option<CronFields>)
    ensures ParsesTo(expr, f)
    ensures f.Some? ==> ValidFields(f.value)
  {
    ParsesToExists(expr);
    var f :| ParsesTo(expr, f);
    f
  }

  /** Valid fields in numbers. */
  lemma ValidFieldsAre(f: CronFields)
    ensures ValidFields(f) <==>
            && ListsWithin(f.minute, 0, 59) && ListsWithin(f.hour, 0, 23) && ListsWithin(f.dayOfMonth, 1, 31)
            && ListsWithin(f.month, 1, 12) && ListsWithin(f.dayOfWeek, 0, 6)
  {
    var lists := Lists(f);
    assert lists[0] == f.minute && lists[1] == f.hour && lists[2] == f.dayOfMonth
           && lists[3] == f.month && lists[4] == f.dayOfWeek;
  }

  ghost predicate ListsWithin(s: seq<int>, lo: int, hi: int) {
    s != [] && (forall i, j :: 0 <= i < j < |s| ==> s[i] < s[j]) && forall i :: 0 <= i < |s| ==> lo <= s[i] <= hi
  }

  // ---- What the texts of stars and ranges denote ----

  lemma GridIff(v: int, lo: int, step: int)
    requires step >= 1
    ensures (exists k: nat :: OnGrid(v, lo, k, step)) <==> lo <= v && (v - lo) % step == 0
  {
    if exists k: nat :: OnGrid(v, lo, k, step) {
      var k: nat :| OnGrid(v, lo, k, step);
      MultipleGrows(step, k);
      SameRemainder(0, step, k);
    }
    if lo <= v && (v - lo) % step == 0 {
      var k := (v - lo) / step;
      assert OnGrid(v, lo, k, step);
    }
  }

  /** A star with a step: every so-many-th value from the least one of the range. */
  lemma StarDenotes(step: nat, r: FieldRange)
    requires step <= MAX_INT64
    ensures var values := PartValues("*/" + Itoa(step), r);
            if step == 0 then values == None
            else values.Some?
                 && forall v :: v in values.value <==> r.min <= v <= r.max && (v - r.min) % step == 0
  {
    var part := "*/" + Itoa(step);
    AtoiItoa(step);
    assert part[..2] == "*/" && part[2..] == Itoa(step);
    if step > 0 {
      forall v
        ensures v in Progression(r.min, r.max, step) <==> r.min <= v <= r.max && (v - r.min) % step == 0
      {
        ProgressionIs(r.min, r.max, step, v);
        GridIff(v, r.min, step);
      }
    }
  }

  function SpanText(lo: nat, hi: nat): string {
    Itoa(lo) + ['-'] + Itoa(hi)
  }

  /** The bounds as they are written, 7 for Sunday included. */
  predicate BoundsInRange(lo: int, hi: int, r: FieldRange) {
    r.min <= lo <= hi <= if r.min == 0 && r.max == 6 then 7 else r.max
  }

  /** `v` is a value of the range from `lo` to `hi` with a step. */
  ghost predicate InSpan(v: int, lo: int, hi: int, step: int, r: FieldRange)
    requires step >= 1
  {
    exists x :: SpanHits(x, v, lo, hi, step, r)
  }

  predicate SpanHits(x: int, v: int, lo: int, hi: int, step: int, r: FieldRange)
    requires step >= 1
  {
    lo <= x <= hi && (x - lo) % step == 0 && v == if r.min == 0 && r.max == 6 && x == 7 then 0 else x
  }

  lemma SpanValues(lo: int, hi: int, step: int, r: FieldRange)
    requires step >= 1
    ensures forall v :: v in Aliased(Progression(lo, hi, step), r) <==> InSpan(v, lo, hi, step, r)
  {
    forall x
      ensures x in Progression(lo, hi, step) <==> lo <= x <= hi && (x - lo) % step == 0
    {
      ProgressionIs(lo, hi, step, x);
      GridIff(x, lo, step);
    }
    forall v
      ensures v in Aliased(Progression(lo, hi, step), r) <==> InSpan(v, lo, hi, step, r)
    {
      if v in Aliased(Progression(lo, hi, step), r) {
        var x :| x in Progression(lo, hi, step) && v == Alias(x, r);
        assert SpanHits(x, v, lo, hi, step, r);
      }
      if InSpan(v, lo, hi, step, r) {
        var x :| SpanHits(x, v, lo, hi, step, r);
        assert v == Alias(x, r);
      }
    }
  }

  lemma SpanTextParses(lo: nat, hi: nat)
    requires lo <= MAX_INT64 && hi <= MAX_INT64
    ensures var text := SpanText(lo, hi);
            && '/' !in text && '-' in text && IsDigit(text[0])
            && forall step :: ParseSpan(text, step) == Some(Span(lo, hi, step))
  {
    var text := SpanText(lo, hi);
    var dash := IndexOf(text, '-');
    assert text[|Itoa(lo)|] == '-';
    assert forall c :: c in Itoa(lo) ==> IsDigit(c);
    DashAt(Itoa(lo), Itoa(hi));
    assert text[..dash] == Itoa(lo) && text[dash + 1..] == Itoa(hi);
    AtoiItoa(lo);
    AtoiItoa(hi);
    assert text[0] == Itoa(lo)[0] && text[0] in Itoa(lo);
  }

  lemma {:induction false} DashAt(a: string, b: string)
    requires forall c :: c in a ==> IsDigit(c)
    ensures IndexOf(a + ['-'] + b, '-') == |a|
  {
    var s := a + ['-'] + b;
    if a == "" {
      assert s[0] == '-';
    } else {
      assert a[0] in a && IsDigit(a[0]);
      assert s[0] == a[0] && s[1..] == a[1..] + ['-'] + b;
      DashAt(a[1..], b);
    }
  }

  lemma SpanTerm(lo: nat, hi: nat)
    requires lo <= MAX_INT64 && hi <= MAX_INT64
    ensures ParseTerm(SpanText(lo, hi)) == Some(Span(lo, hi, 1))
  {
    var text := SpanText(lo, hi);
    SpanTextParses(lo, hi);
    assert text[..2][0] == text[0];
    SplitWord(text, '/');
  }

  lemma TwoPieces(part: string, range: string, number: string)
    requires |part| >= 2 && part[0] != '*' && Split(part, '/') == [range, number] && '-' in range
    ensures ParseTerm(part) == if Step(number).None? then None else ParseSpan(range, Step(number).value)
  {
    assert part[..2][0] == part[0];
  }

  lemma SteppedTerm(lo: nat, hi: nat, step: nat)
    requires lo <= MAX_INT64 && hi <= MAX_INT64 && step <= MAX_INT64
    ensures ParseTerm(SpanText(lo, hi) + ['/'] + Itoa(step)) == if step == 0 then None else Some(Span(lo, hi, step))
  {
    var text, number := SpanText(lo, hi), Itoa(step);
    var part := text + ['/'] + number;
    SpanTextParses(lo, hi);
    assert part[0] == text[0];
    SteppedPieces(text, number);
    TwoPieces(part, text, number);
    AtoiItoa(step);
  }

  lemma SteppedPieces(text: string, number: string)
    requires '/' !in text && forall c :: c in number ==> IsDigit(c)
    ensures Split(text + ['/'] + number, '/') == [text, number]
  {
    SplitWord(number, '/');
    SplitAfterWord(text, '/', number);
  }

  /** A range, with its bounds checked as written. */
  lemma RangeDenotes(lo: nat, hi: nat, r: FieldRange)
    requires lo <= MAX_INT64 && hi <= MAX_INT64
    ensures var values := PartValues(SpanText(lo, hi), r);
            if BoundsInRange(lo, hi, r) then values.Some? && forall v :: v in values.value <==> InSpan(v, lo, hi, 1, r)
            else values == None
  {
    SpanTerm(lo, hi);
    SpanValues(lo, hi, 1, r);
  }

  /** A range with a step, which must be positive. */
  lemma SteppedRangeDenotes(lo: nat, hi: nat, step: nat, r: FieldRange)
    requires lo <= MAX_INT64 && hi <= MAX_INT64 && step <= MAX_INT64
    ensures var values := PartValues(SpanText(lo, hi) + ['/'] + Itoa(step), r);
            if step > 0 && BoundsInRange(lo, hi, r) then
              values.Some? && forall v :: v in values.value <==> InSpan(v, lo, hi, step, r)
            else values == None
  {
    SteppedTerm(lo, hi, step);
    if step > 0 {
      SpanValues(lo, hi, step, r);
    }
  }

  // ---- Round trips ----

  function Numbers(s: seq<int>): seq<string>
    requires forall i :: 0 <= i < |s| ==> s[i] >= 0
  {
    if s == [] then [] else [Itoa(s[0])] + Numbers(s[1..])
  }

  function FormatList(s: seq<int>): string
    requires forall i :: 0 <= i < |s| ==> s[i] >= 0
  {
    Join(Numbers(s), ',')
  }

  lemma {:induction false} NumberIsTerm(n: nat)
    requires n <= 59
    ensures ParseTerm(Itoa(n)) == Some(Single(n))
  {
    var s := Itoa(n);
    assert forall c :: c in s ==> IsDigit(c);
    assert s[0] in s && s[..1] == [s[0]];
    assert |s| >= 2 ==> s[..2][0] == s[0];
    SplitWord(s, '/');
    AtoiItoa(n);
  }

  lemma {:induction false} NumberIsSingle(n: int, r: FieldRange)
    requires 0 <= r.min <= n <= r.max <= 59
    ensures PartValues(Itoa(n), r) == Some({n})
  {
    NumberIsTerm(n);
  }

  lemma {:induction false} NumbersDenote(s: seq<int>, r: FieldRange)
    requires 0 <= r.min && r.max <= 59 && InRange(s, r)
    ensures Denotes(Numbers(s), r) == Some(Elements(s))
    ensures |Numbers(s)| == |s|
    ensures forall p, c :: p in Numbers(s) && c in p ==> IsDigit(c)
  {
    if s != [] {
      NumberIsSingle(s[0], r);
      NumbersDenote(s[1..], r);
      assert Numbers(s)[1..] == Numbers(s[1..]);
      assert Elements(s) == {s[0]} + Elements(s[1..]);
    } else {
      assert Elements(s) == {};
    }
  }

  /** A valid list, written out with commas, expands to itself. */
  lemma FormatListExpands(s: seq<int>, r: FieldRange)
    requires 0 <= r.min && r.max <= 59 && ValidList(s, r)
    ensures Expands(FormatList(s), r, Some(s))
  {
    NumbersDenote(s, r);
    SplitJoin(Numbers(s), ',');
  }

  lemma {:induction false} JoinedDigits(parts: seq<string>)
    requires forall p, c :: p in parts && c in p ==> IsDigit(c)
    ensures forall c :: c in Join(parts, ',') ==> IsDigit(c) || c == ','
  {
    if |parts| > 1 {
      JoinedDigits(parts[1..]);
    }
  }

  lemma FormatListIsWord(s: seq<int>, r: FieldRange)
    requires 0 <= r.min && r.max <= 59 && ValidList(s, r)
    ensures IsWord(FormatList(s))
  {
    NumbersDenote(s, r);
    JoinedDigits(Numbers(s));
    assert Numbers(s)[0] != "";
  }

  function Texts(lists: seq<seq<int>>): seq<string>
    requires forall i :: 0 <= i < |lists| ==> forall k :: 0 <= k < |lists[i]| ==> lists[i][k] >= 0
  {
    seq(|lists|, i requires 0 <= i < |lists| => FormatList(lists[i]))
  }

  function Format(f: CronFields): string
    requires ValidFields(f)
  {
    Join(Texts(Lists(f)), ' ')
  }

  /** Every valid schedule is what some expression parses to: the one that lists it. */
  lemma ParseFormat(f: CronFields)
    requires ValidFields(f)
    ensures Parsed(Format(f)) == Some(f)
  {
    var texts := Texts(Lists(f));
    forall i | 0 <= i < 5
      ensures Expands(texts[i], FIELD_RANGES[i], Some(Lists(f)[i])) && IsWord(texts[i])
    {
      FormatListExpands(Lists(f)[i], FIELD_RANGES[i]);
      FormatListIsWord(Lists(f)[i], FIELD_RANGES[i]);
    }
    FieldsJoin(texts);
    ParsesToUnique(Format(f), Some(f), Parsed(Format(f)));
  }

  /** A valid list as long as its range is the whole range, so the length test
      of the day rule really asks whether the field is restricted. */
  lemma {:induction false} FullList(s: seq<int>, r: FieldRange)
    requires ValidList(s, r)
    ensures |s| <= r.max - r.min + 1
    ensures |s| == r.max - r.min + 1 <==> forall v :: r.min <= v <= r.max ==> v in s
  {
    assert r.min <= s[0] <= r.max;
    IncreasingSpacing(s, r.min, r.max);
  }

  lemma {:induction false} IncreasingSpacing(s: seq<int>, lo: int, hi: int)
    requires Increasing(s) && InRange(s, FieldRange(lo, hi))
    requires lo <= hi + 1
    ensures |s| <= hi - lo + 1
    ensures |s| == hi - lo + 1 <==> forall v :: lo <= v <= hi ==> v in s
    decreases hi - lo
  {
    if |s| > 0 {
      assert lo <= s[0] <= hi;
    }
    if lo <= hi {
      if s != [] && s[0] == lo {
        IncreasingSpacing(s[1..], lo + 1, hi);
        assert forall v :: v in s <==> v == lo || v in s[1..];
      } else {
        assert forall i :: 0 <= i < |s| ==> s[0] <= s[i];
        IncreasingSpacing(s, lo + 1, hi);
        assert lo !in s;
      }
    }
  }
}
