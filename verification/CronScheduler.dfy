/** The scheduler object: its maps are updated task by task, and every method is
    tied to the state machine of `CronRuns`. */
module CronScheduler {
  import opened CronTasks
  import opened CronRuns
  import CronRunLaws

  class CronScheduler {
    const cfg: JitterConfig
    const zone: int
    const store: SessionStore
    var tasks: seq<CronTask>
    var nextFireAt: map<string, int>
    var missedAsked: set<string>
    var inFlight: set<string>
    var isOwner: bool
    var stopped: bool
    var log: seq<Fire>          // the calls of onFire with a task's prompt, in order
    var announced: seq<string>  // the ids listed in the notification of start

    ghost function Environment(): Env {
      Env(cfg, zone)
    }

    ghost function Abs(): State
      reads this, store
    {
      State(tasks, nextFireAt, missedAsked, inFlight, isOwner, stopped, store.tasks, log, announced)
    }

    constructor (cfg: JitterConfig, zone: int, store: SessionStore)
      requires SaneConfig(cfg)
      ensures this.cfg == cfg && this.zone == zone && this.store == store
      ensures Abs() == NewState(store.tasks)
    {
      this.cfg := cfg;
      this.zone := zone;
      this.store := store;
      tasks, nextFireAt, missedAsked, inFlight := [], map[], {}, {};
      isOwner, stopped, log, announced := false, false, [], [];
    }

    /** `start`, given what the lock, the file and the clock say. */
    method Start(fileTasks: seq<CronTask>, owner: bool, now: int)
      modifies this, store
      ensures Abs() == Started(Environment(), old(Abs()), fileTasks, owner, now)
    {
      if stopped {
        return;
      }
      isOwner := owner;
      tasks := fileTasks;
      var missed := FindMissedTasks(fileTasks, now, zone);
      var ids := MarkMissed(missed);
      RemoveFrom(ids);
      announced := announced + ids;
    }

    /** The announced one-shots leave the session store, if any was announced. */
    method RemoveFrom(ids: seq<string>)
      modifies store
      ensures store.tasks == old(store.tasks) - IdSet(ids)
    {
      if |ids| > 0 {
        var count := store.Remove(ids);
      } else {
        RemoveNone(store.tasks, ids);
      }
    }

    /** Marks the missed one-shots not asked about before, so that they never fire. */
    method MarkMissed(missed: seq<CronTask>) returns (ids: seq<string>)
      modifies this`missedAsked, this`nextFireAt
      ensures ids == Announce(missed, old(missedAsked))
      ensures missedAsked == old(missedAsked) + IdSet(ids)
      ensures nextFireAt == old(nextFireAt) + NeverFiring(IdSet(ids))
    {
      ids := [];
      MarkingStarts(missed, missedAsked, nextFireAt);
      for i := 0 to |missed|
        invariant Marking(missed, old(missedAsked), old(nextFireAt), i, ids, missedAsked, nextFireAt)
      {
        var t := missed[i];
        MarkingAdvances(missed, old(missedAsked), old(nextFireAt), i, ids, missedAsked, nextFireAt);
        if !t.recurring && t.id !in missedAsked {
          ids := ids + [t.id];
          missedAsked := missedAsked + {t.id};
          nextFireAt := nextFireAt[t.id := INFINITY];
        }
      }
    }

    /** The scheduled fire time of a task, or the one its anchor gives it at first sight. */
    method DueTime(t: CronTask) returns (next: int)
      requires SaneConfig(cfg)
      ensures next == Due(Environment(), Abs(), t)
    {
      if t.id in nextFireAt {
        return nextFireAt[t.id];
      }
      var nxt;
      if t.recurring {
        var lastAnchor := t.lastFiredAt;
        if lastAnchor == 0 {
          lastAnchor := t.createdAt;
        }
        nxt := JitteredNextCronRunMs(t.cron, lastAnchor, t.id, cfg, zone);
      } else {
        nxt := OneShotJitteredNextCronRunMs(t.cron, t.createdAt, t.id, cfg, zone);
      }
      next := if nxt.None? then INFINITY else nxt.value;
    }

    method NextTime(t: CronTask, now: int) returns (next: int)
      ensures next == Rescheduled(Environment(), t, now)
    {
      var nxt := JitteredNextCronRunMs(t.cron, now, t.id, cfg, zone);
      next := if nxt.None? then INFINITY else nxt.value;
    }

    /** `fired` is set when the file entry of `t` is to be stamped with the fire time. */
    method ProcessTask(t: CronTask, isSession: bool, now: int) returns (fired: bool)
      requires SaneConfig(cfg)
      modifies this, store
      ensures Abs() == Process(Environment(), old(Abs()), t, isSession, now)
      ensures fired <==> !isSession && log != old(log) && Repeats(Environment(), t, now)
    {
      fired := false;
      if t.id in inFlight {
        return;
      }
      var next := DueTime(t);
      if now < next {
        nextFireAt := nextFireAt[t.id := next];
        return;
      }
      var later := NextTime(t, now);
      fired := Fire(t, isSession, now, next, later);
    }

    /** The firing half of `processTask`. */
    method Fire(t: CronTask, isSession: bool, now: int, ghost due: int, later: int) returns (fired: bool)
      requires t.id !in inFlight && due <= now
      modifies this, store
      ensures Abs() == After(old(Abs()), t, isSession, now, due, Repeats(Environment(), t, now), later)
      ensures log != old(log)
      ensures fired <==> !isSession && Repeats(Environment(), t, now)
    {
      fired := false;
      log := log + [CronRuns.Fire(t, now, isSession)];
      var aged := IsRecurringTaskAged(t, now, cfg.recurringMaxAgeMs);
      if t.recurring && !aged {
        nextFireAt := nextFireAt[t.id := later];
        fired := !isSession;
      } else if isSession {
        IdSetOne(t.id);
        var count := store.Remove([t.id]);
        nextFireAt := nextFireAt - {t.id};
      } else {
        inFlight := inFlight + {t.id};
        nextFireAt := nextFireAt - {t.id};
      }
    }

    /** The file-backed half of a tick. */
    method CheckFileTasks(now: int) returns (seen: set<string>)
      requires SaneConfig(cfg) && isOwner
      modifies this, store
      ensures Abs() == FileTick(Environment(), old(Abs()), now)
      ensures seen == Ids(old(tasks))
    {
      ghost var env := Environment();
      ghost var s := Abs();
      seen := {};
      var firedIds: set<string> := {};
      var fileTasks := tasks;
      assert fileTasks[0..] == fileTasks;
      for i := 0 to |fileTasks|
        invariant ProcessAll(env, Abs(), fileTasks[i..], false, now) == ProcessAll(env, s, fileTasks, false, now)
        invariant seen == Ids(fileTasks[..i])
        invariant |s.log| <= |log|
        invariant firedIds == RepeatsLogged(env, log, |s.log|, now)
      {
        IdsSnoc(fileTasks, i);
        ghost var before := Abs();
        var t := fileTasks[i];
        seen := seen + {t.id};
        var fired := ProcessTask(t, false, now);
        if fired {
          firedIds := firedIds + {t.id};
        }
        AllButFirst(env, before, fileTasks, i, false, now);
        CronRunLaws.ProcessFires(env, before, t, false, now);
        RepeatsExtend(env, before.log, log, |s.log|, t, now);
      }
      assert fileTasks[..|fileTasks|] == fileTasks;
      inFlight := inFlight + firedIds;
    }

    /** The session half of a tick; `order` is how the session store lists its tasks. */
    method CheckSessionTasks(now: int, order: seq<CronTask>, fileSeen: set<string>) returns (seen: set<string>)
      requires SaneConfig(cfg)
      modifies this, store
      ensures Abs() == ProcessAll(Environment(), old(Abs()), order, true, now)
      ensures seen == fileSeen + Ids(order)
    {
      ghost var env := Environment();
      ghost var s := Abs();
      seen := fileSeen;
      assert order[0..] == order;
      for i := 0 to |order|
        invariant ProcessAll(env, Abs(), order[i..], true, now) == ProcessAll(env, s, order, true, now)
        invariant seen == fileSeen + Ids(order[..i])
      {
        IdsSnoc(order, i);
        AllButFirst(env, Abs(), order, i, true, now);
        seen := seen + {order[i].id};
        var fired := ProcessTask(order[i], true, now);
      }
      assert order[..|order|] == order;
    }

    /** One tick. */
    method Check(now: int, order: seq<CronTask>)
      requires SaneConfig(cfg)
      modifies this, store
      ensures Abs() == Tick(Environment(), old(Abs()), now, order)
    {
      if stopped {
        return;
      }
      var seen: set<string> := {};
      if isOwner {
        seen := CheckFileTasks(now);
      }
      seen := CheckSessionTasks(now, order, seen);
      nextFireAt := map id | id in nextFireAt && id in seen :: nextFireAt[id];
    }

    method Stop()
      modifies this
      ensures Abs() == old(Abs()).(stopped := true, isOwner := false)
    {
      stopped := true;
      if isOwner {
        isOwner := false;
      }
    }

    /** The background goroutine started by a tick, once `markCronTasksFired` returned. */
    method MarkDone(ids: set<string>)
      modifies this
      ensures Abs() == old(Abs()).(inFlight := old(inFlight) - ids)
    {
      inFlight := inFlight - ids;
    }

    /** The background goroutine started for a task that is not to fire again. */
    method RemoveDone(id: string)
      modifies this, store
      ensures Abs() == old(Abs()).(inFlight := old(inFlight) - {id}, session := old(store.tasks) - {id})
    {
      IdSetOne(id);
      var count := store.Remove([id]);
      inFlight := inFlight - {id};
    }
  }

  lemma RemoveNone(m: map<string, CronTask>, ids: seq<string>)
    requires ids == []
    ensures m - IdSet(ids) == m
  {
  }

  /** The first `i` missed tasks have been marked, `ids` being those announced. */
  ghost predicate Marking(missed: seq<CronTask>, asked: set<string>, next: map<string, int>,
                          i: nat, ids: seq<string>, askedNow: set<string>, nextNow: map<string, int>)
  {
    && i <= |missed|
    && ids + Announce(missed[i..], askedNow) == Announce(missed, asked)
    && askedNow == asked + IdSet(ids)
    && nextNow == next + NeverFiring(IdSet(ids))
  }

  lemma MarkingStarts(missed: seq<CronTask>, asked: set<string>, next: map<string, int>)
    ensures Marking(missed, asked, next, 0, [], asked, next)
  {
    assert missed[0..] == missed;
  }

  lemma {:induction false} MarkingAdvances(missed: seq<CronTask>, asked: set<string>, next: map<string, int>,
                                           i: nat, ids: seq<string>, askedNow: set<string>, nextNow: map<string, int>)
    requires Marking(missed, asked, next, i, ids, askedNow, nextNow) && i < |missed|
    ensures var id := missed[i].id;
            if !missed[i].recurring && id !in askedNow
            then Marking(missed, asked, next, i + 1, ids + [id], askedNow + {id}, nextNow[id := INFINITY])
            else Marking(missed, asked, next, i + 1, ids, askedNow, nextNow)
  {
    AnnounceStep(missed, i, askedNow);
    IdSetSnoc(ids, missed[i].id);
  }

  lemma AllButFirst(env: Env, s: State, ts: seq<CronTask>, i: nat, isSession: bool, now: int)
    requires SaneConfig(env.cfg) && i < |ts|
    ensures ProcessAll(env, s, ts[i..], isSession, now)
         == ProcessAll(env, Process(env, s, ts[i], isSession, now), ts[i + 1..], isSession, now)
  {
    assert ts[i..][1..] == ts[i + 1..];
  }

  lemma IdsSnoc(ts: seq<CronTask>, i: nat)
    requires i < |ts|
    ensures Ids(ts[..i + 1]) == Ids(ts[..i]) + {ts[i].id}
  {
    var a, b := ts[..i], ts[..i + 1];
    assert b == a + [ts[i]];
    forall id | id in Ids(a)
      ensures id in Ids(b)
    {
      var k :| 0 <= k < |a| && a[k].id == id;
      assert b[k].id == id;
    }
    assert b[i].id == ts[i].id;
  }

  lemma RepeatsExtend(env: Env, a: seq<Fire>, b: seq<Fire>, from: nat, t: CronTask, now: int)
    requires from <= |a| && (b == a || (|b| == |a| + 1 && a == b[..|a|] && b[|a|].task == t))
    ensures RepeatsLogged(env, b, from, now)
         == RepeatsLogged(env, a, from, now) + if b != a && Repeats(env, t, now) then {t.id} else {}
  {
    if b != a {
      forall id | id in RepeatsLogged(env, a, from, now)
        ensures id in RepeatsLogged(env, b, from, now)
      {
        var i :| from <= i < |a| && Repeats(env, a[i].task, now) && a[i].task.id == id;
        assert b[i] == a[i];
      }
      forall id | id in RepeatsLogged(env, b, from, now)
        ensures id in RepeatsLogged(env, a, from, now) || (Repeats(env, t, now) && id == t.id)
      {
        var i :| from <= i < |b| && Repeats(env, b[i].task, now) && b[i].task.id == id;
        if i < |a| {
          assert a[i] == b[i];
        }
      }
      assert b[|a|].task == t;
    }
  }
}
