/** A concrete run of the scheduler in which a file-backed one-shot fires twice. */
module OneShotRefires {
  import opened Wrappers
  import opened GoStrings
  import opened Calendar
  import opened CronParse
  import opened CronNext
  import opened CronTasks
  import opened CronRuns
  import opened FileTaskLaws

  function Values(lo: int, n: nat): seq<int> {
    seq(n, i => lo + i)
  }

  const EVERY_MINUTE := CronFields(Values(0, 60), Values(0, 24), Values(1, 31), Values(1, 12), Values(0, 7))

  lemma ListsValues(lo: int, n: nat, v: int)
    requires lo <= v < lo + n
    ensures v in Values(lo, n)
  {
    assert Values(lo, n)[v - lo] == v;
  }

  lemma EveryMinuteIsValid()
    ensures ValidFields(EVERY_MINUTE)
  {
    assert CronParse.Lists(EVERY_MINUTE) == [Values(0, 60), Values(0, 24), Values(1, 31), Values(1, 12), Values(0, 7)];
  }

  lemma EveryMinuteMatches(t: int)
    ensures Matches(EVERY_MINUTE, t)
  {
    var c := Civil(DayOf(t));
    assert ValidDate(c);
    ListsValues(1, 12, c.month);
    ListsValues(0, 24, (t / 60) % 24);
    ListsValues(0, 60, t % 60);
  }

  /** An expression for every minute. */
  ghost function EveryMinute(): (cron: string)
    ensures Parsed(cron) == Some(EVERY_MINUTE)
  {
    EveryMinuteIsValid();
    ParseFormat(EVERY_MINUTE);
    Format(EVERY_MINUTE)
  }

  lemma FirstMinuteIsSlot(cron: string)
    requires Parsed(cron) == Some(EVERY_MINUTE)
    ensures IsSlot(cron, 0, 60000)
  {
    EveryMinuteMatches(1);
    assert 60000 / 60000 == 1;
  }

  lemma FirstSlot(cron: string)
    requires Parsed(cron) == Some(EVERY_MINUTE)
    ensures NextMs(cron, 1, 0) == Some(60000)
  {
    NextSlot(cron, 1, 0);
    FirstMinuteIsSlot(cron);
  }

  /** Minute 1 is no minute that jitter applies to. */
  lemma FirstMinute(env: Env, t: CronTask)
    requires env.cfg == DEFAULT_JITTER && SaneConfig(env.cfg) && env.zone == 0 && !t.recurring && t.createdAt == 1
    requires NextMs(t.cron, 1, 0) == Some(60000)
    ensures FirstTime(env, t) == 60000
  {
    assert 60000 / 60000 == 1 && MinuteAt(1) % 30 == 1;
  }

  ghost function StartOf(env: Env, t: CronTask): World {
    World(Start(env, [t], true, map[], 1), 1, {t.id})
  }

  lemma StartIsWatched(env: Env, t: CronTask)
    requires SaneConfig(env.cfg) && t.createdAt == 1
    ensures Watched(env, StartOf(env, t), [t], true, map[], t)
  {
    StartAnnounces(env, [t], true, map[], 1, t.id);
  }

  lemma ParsedHasText(cron: string)
    requires Parsed(cron).Some?
    ensures cron != ""
  {
    assert Fields("") == [];
  }

  /** A run from a start with `t` in the file that fires `t` twice, on a clock that is
      never set back. */
  ghost predicate Refires(env: Env, t: CronTask, events: seq<Event>)
    requires SaneConfig(env.cfg)
  {
    && Watched(env, StartOf(env, t), [t], true, map[], t) && Forward(1, events)
    && FiresTwice(env, StartOf(env, t), events, t)
  }

  lemma DueAtFirstMinute(env: Env, t: CronTask)
    requires env == Env(DEFAULT_JITTER, 0)
    requires Parsed(t.cron) == Some(EVERY_MINUTE) && t.createdAt == 1 && !t.recurring
    ensures Watched(env, StartOf(env, t), [t], true, map[], t) && FirstTime(env, t) == 60000
  {
    DefaultIsSane();
    StartIsWatched(env, t);
    FirstSlot(t.cron);
    FirstMinute(env, t);
  }

  /** A one-shot for every minute, created in the first millisecond and loaded then,
      fires at the first minute and, once its removal has ended, at any later time
      again. */
  lemma RefiresFromStart(env: Env, t: CronTask, later: int)
    requires env == Env(DEFAULT_JITTER, 0) && 60000 <= later < INFINITY
    requires Parsed(t.cron) == Some(EVERY_MINUTE) && t.createdAt == 1 && !t.recurring
    ensures Refires(env, t, [Check(60000, []), RemoveDone(t.id), Check(later, [])])
  {
    DueAtFirstMinute(env, t);
    OneShotFiresTwice(env, StartOf(env, t), [t], t, 60000, later);
  }

  /** The file can hold such an entry, under any id and with any prompt. */
  lemma SomeOneShotFiresTwice(id: string, prompt: string, later: int) returns (t: CronTask)
    requires id != "" && prompt != "" && 60000 <= later < INFINITY
    ensures Readable(t) && !t.recurring && t.id == id && t.prompt == prompt
    ensures var env := Env(DEFAULT_JITTER, 0);
            Refires(env, t, [Check(60000, []), RemoveDone(t.id), Check(later, [])])
  {
    t := CronTask(id, EveryMinute(), prompt, 1, 0, false, false);
    ParsedHasText(t.cron);
    RefiresFromStart(Env(DEFAULT_JITTER, 0), t, later);
  }
}
