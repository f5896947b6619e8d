/** A bounded search for the first minute accepted by an hour test and a minute
    test, moving by a skip function.  Nothing here knows the calendar: a skip is
    only asked never to pass over an accepted minute and to land on the start of
    an hour whenever the hour test fails. */
module SkipSearch {
  import opened Wrappers

  predicate Accepts(hour: int -> bool, minute: int -> bool, t: int) {
    hour(t / 60) && minute(t % 60)
  }

  function Search(hour: int -> bool, minute: int -> bool, skip: int -> int, t: int, steps: nat): Option<int>
    decreases steps
  {
    if steps == 0 then None
    else if Accepts(hour, minute, t) then Some(t)
    else Search(hour, minute, skip, skip(t), steps - 1)
  }

  /** What a skip from a rejected minute must satisfy. */
  ghost predicate GoodSkip(hour: int -> bool, minute: int -> bool, skip: int -> int, t: int) {
    && t < skip(t)
    && (forall u :: t <= u < skip(t) ==> !Accepts(hour, minute, u))
    && (if hour(t / 60) then skip(t) == t + 1 else skip(t) % 60 == 0)
  }

  ghost predicate Sound(hour: int -> bool, minute: int -> bool, skip: int -> int) {
    forall t :: !Accepts(hour, minute, t) ==> GoodSkip(hour, minute, skip, t)
  }

  /** `r` is the answer a minute-by-minute scan with no limit would give. */
  ghost predicate IsFirst(hour: int -> bool, minute: int -> bool, start: int, r: Option<int>) {
    match r
    case Some(t) => start <= t && Accepts(hour, minute, t) && forall u :: start <= u < t ==> !Accepts(hour, minute, u)
    case None => forall u :: start <= u ==> !Accepts(hour, minute, u)
  }

  /** A hit is the first accepted minute; a miss has looked at `steps` minutes at least. */
  lemma {:induction false} SearchSound(hour: int -> bool, minute: int -> bool, skip: int -> int, t: int, steps: nat)
    requires Sound(hour, minute, skip)
    ensures match Search(hour, minute, skip, t, steps)
            case Some(r) => IsFirst(hour, minute, t, Some(r))
            case None => forall u :: t <= u < t + steps ==> !Accepts(hour, minute, u)
    decreases steps
  {
    if steps > 0 && !Accepts(hour, minute, t) {
      assert GoodSkip(hour, minute, skip, t);
      SearchSound(hour, minute, skip, skip(t), steps - 1);
    }
  }

  /** Inside an accepted hour the minutes are tried one by one. */
  lemma {:induction false} FindsInHour(hour: int -> bool, minute: int -> bool, skip: int -> int, t: int, m: int,
                                       steps: nat)
    requires Sound(hour, minute, skip)
    requires hour(t / 60) && minute(m) && t % 60 <= m < 60
    requires steps >= 60 - t % 60
    ensures Search(hour, minute, skip, t, steps).Some?
    decreases steps
  {
    if !Accepts(hour, minute, t) {
      assert GoodSkip(hour, minute, skip, t);
      FindsInHour(hour, minute, skip, t + 1, m, steps - 1);
    }
  }

  /** From the start of an hour, each step enters a later hour until the minutes
      of an accepted one are tried. */
  lemma {:induction false} FindsFromHourStart(hour: int -> bool, minute: int -> bool, skip: int -> int,
                                              t: int, target: int, steps: nat)
    requires Sound(hour, minute, skip)
    requires t % 60 == 0 && t <= target && Accepts(hour, minute, target)
    requires steps >= target / 60 - t / 60 + 60
    ensures Search(hour, minute, skip, t, steps).Some?
    decreases steps
  {
    if hour(t / 60) {
      FindsInHour(hour, minute, skip, t, target % 60, steps);
    } else {
      assert GoodSkip(hour, minute, skip, t);
      FindsFromHourStart(hour, minute, skip, skip(t), target, steps - 1);
    }
  }

  /** The number of steps that suffices is counted in hours, not in minutes. */
  lemma {:induction false} FindsTarget(hour: int -> bool, minute: int -> bool, skip: int -> int,
                                       t: int, target: int, steps: nat)
    requires Sound(hour, minute, skip)
    requires t <= target && Accepts(hour, minute, target)
    requires steps >= target / 60 - t / 60 + (if t % 60 == 0 then 60 else 120 - t % 60)
    ensures Search(hour, minute, skip, t, steps).Some?
    decreases steps
  {
    if t % 60 == 0 {
      FindsFromHourStart(hour, minute, skip, t, target, steps);
    } else if !Accepts(hour, minute, t) {
      assert GoodSkip(hour, minute, skip, t);
      FindsTarget(hour, minute, skip, skip(t), target, steps - 1);
    }
  }

  // ---- Two ways to establish `GoodSkip` ----

  lemma SkipOverHours(hour: int -> bool, minute: int -> bool, skip: int -> int, t: int, next: int)
    requires skip(t) == next * 60 && t / 60 < next
    requires forall h :: t / 60 <= h < next ==> !hour(h)
    ensures GoodSkip(hour, minute, skip, t)
  {
    assert !hour(t / 60);
    forall u | t <= u < skip(t)
      ensures !Accepts(hour, minute, u)
    {
      assert t / 60 <= u / 60 < next;
    }
  }

  lemma SkipOneMinute(hour: int -> bool, minute: int -> bool, skip: int -> int, t: int)
    requires skip(t) == t + 1 && hour(t / 60) && !minute(t % 60)
    ensures GoodSkip(hour, minute, skip, t)
  {
    forall u | t <= u < skip(t)
      ensures !Accepts(hour, minute, u)
    {
      assert u == t;
    }
  }
}
