/** What holds in every run of the scheduler: an invariant that all events keep,
    the theorems that follow from it, and exactly which tasks a tick fires. */
module CronRunLaws {
  import opened CronTasks
  import opened CronRuns

  // ---- Invariants of every run ----

  /** Ids name one task each, across the file, the session store and the log. */
  ghost predicate Identity(w: World) {
    && DistinctIds(w.s.tasks)
    && Ids(w.s.tasks) <= w.issued && w.s.nextFireAt.Keys <= w.issued
    && (forall k :: k in w.s.session ==> w.s.session[k].id == k && k in w.issued && k !in Ids(w.s.tasks))
    && (forall i :: 0 <= i < |w.s.log| ==> Logged(w, w.s.log[i]))
    && (forall i, j :: 0 <= i < j < |w.s.log| && w.s.log[i].task.id == w.s.log[j].task.id ==>
                         w.s.log[i].task == w.s.log[j].task && w.s.log[i].fromSession == w.s.log[j].fromSession)
  }

  ghost predicate Logged(w: World, f: Fire) {
    && f.task.id in w.issued
    && if f.fromSession
       then f.task.id !in Ids(w.s.tasks) && (f.task.id in w.s.session ==> w.s.session[f.task.id] == f.task)
       else f.task in w.s.tasks
  }

  ghost predicate SlotIn(env: Env, t: CronTask, a: int, b: int) {
    exists slot :: a < slot <= b && IsSlot(t.cron, env.zone, slot)
  }

  /** The task behind `f` cannot be looked at by any later tick. */
  ghost predicate Retired(w: World, f: Fire) {
    w.s.stopped || if f.fromSession then f.task.id !in w.s.session else !w.s.isOwner
  }

  /** Firing `i`, or a later one before position `j`, does not reschedule its task. */
  ghost predicate EndedBetween(env: Env, log: seq<Fire>, i: nat, j: nat)
    requires i < |log| && j <= |log|
  {
    exists k :: i <= k < j && log[k].task.id == log[i].task.id && !Repeats(env, log[k].task, log[k].at)
  }

  /** A fire time of `t` that is never, or behind a slot later than `a`. */
  ghost predicate Beyond(env: Env, t: CronTask, a: int, ms: int) {
    ms >= INFINITY || SlotIn(env, t, a, ms)
  }

  /** Before the task behind firing `i` can fire again, a slot later than that firing
      must have come, unless the task has ended since. */
  ghost predicate Guarded(env: Env, w: World, i: nat)
    requires i < |w.s.log|
  {
    var f := w.s.log[i];
    || Retired(w, f)
    || EndedBetween(env, w.s.log, i, |w.s.log|)
    || (f.task.id in w.s.nextFireAt && Beyond(env, f.task, f.at, w.s.nextFireAt[f.task.id]))
  }

  ghost predicate AllGuarded(env: Env, w: World) {
    forall i :: 0 <= i < |w.s.log| ==> Guarded(env, w, i)
  }

  ghost predicate Spaced(env: Env, log: seq<Fire>) {
    forall i, j :: 0 <= i < j < |log| && log[i].task.id == log[j].task.id && !EndedBetween(env, log, i, j) ==>
                     SlotIn(env, log[i].task, log[i].at, log[j].at)
  }

  ghost predicate Holds(w: World, t: CronTask) {
    t in w.s.tasks || (t.id in w.s.session && w.s.session[t.id] == t)
  }

  /** Recurring tasks fire, and are scheduled, behind a slot later than their anchor. */
  ghost predicate Anchored(env: Env, w: World) {
    && (forall t :: Holds(w, t) && t.recurring && t.id in w.s.nextFireAt ==>
                      Beyond(env, t, AnchorOf(t), w.s.nextFireAt[t.id]))
    && (forall i :: 0 <= i < |w.s.log| && w.s.log[i].task.recurring ==> AfterAnchor(env, w.s.log[i]))
  }

  ghost predicate AfterAnchor(env: Env, f: Fire) {
    SlotIn(env, f.task, AnchorOf(f.task), f.at)
  }

  /** A session task that fires without being rescheduled is gone for good. */
  ghost predicate GoneAfterLast(env: Env, w: World) {
    forall i :: 0 <= i < |w.s.log| && w.s.log[i].fromSession && !Repeats(env, w.s.log[i].task, w.s.log[i].at) ==>
                  var id := w.s.log[i].task.id;
                  id !in w.s.session && id !in w.s.nextFireAt
                  && forall j :: i < j < |w.s.log| ==> w.s.log[j].task.id != id
  }

  ghost predicate MissedSilent(w: World) {
    && (forall id :: id in w.s.missedAsked ==>
                       id in Ids(w.s.tasks)
                       && (w.s.stopped || !w.s.isOwner
                           || (id in w.s.nextFireAt && w.s.nextFireAt[id] == INFINITY)))
    && (forall i :: 0 <= i < |w.s.log| ==> w.s.log[i].task.id !in w.s.missedAsked)
  }

  ghost predicate Inv(env: Env, w: World) {
    && Identity(w) && AllGuarded(env, w) && Spaced(env, w.s.log) && Anchored(env, w)
    && GoneAfterLast(env, w) && MissedSilent(w)
  }

  /** A tick may look at `t` now. */
  ghost predicate Live(w: World, t: CronTask, isSession: bool) {
    && !w.s.stopped && w.clock < INFINITY
    && if isSession then t.id in w.s.session && w.s.session[t.id] == t else t in w.s.tasks && w.s.isOwner
  }

  ghost function Processed(env: Env, w: World, t: CronTask, isSession: bool): World
    requires SaneConfig(env.cfg)
  {
    w.(s := Process(env, w.s, t, isSession, w.clock))
  }

  lemma IdOfMember(ts: seq<CronTask>, t: CronTask)
    requires t in ts
    ensures t.id in Ids(ts)
    ensures DistinctIds(ts) ==> forall u :: u in ts && u.id == t.id ==> u == t
  {
  }

  /** What processing `t` can do, fire times of `t` aside. */
  ghost predicate Effect(env: Env, w: World, v: World, t: CronTask, isSession: bool) {
    && v.clock == w.clock && v.issued == w.issued
    && v.s.tasks == w.s.tasks && v.s.isOwner == w.s.isOwner && v.s.stopped == w.s.stopped
    && v.s.missedAsked == w.s.missedAsked && v.s.announced == w.s.announced
    && (v.s.log == w.s.log || v.s.log == w.s.log + [Fire(t, w.clock, isSession)])
    && (v.s.session == w.s.session || (isSession && v.s.session == w.s.session - {t.id}))
    && (v.s.log != w.s.log && isSession && !Repeats(env, t, w.clock) ==>
          t.id !in v.s.session && t.id !in v.s.nextFireAt)
    && (t.id in w.s.nextFireAt && w.clock < w.s.nextFireAt[t.id] ==>
          v.s.log == w.s.log && v.s.nextFireAt == w.s.nextFireAt)
    && SameElsewhere(w.s, v.s, t.id)
  }

  /** The schedule and the in-flight marks of other ids are untouched. */
  ghost predicate SameElsewhere(s: State, v: State, id: string) {
    && (forall k :: k != id ==> (k in v.nextFireAt <==> k in s.nextFireAt))
    && (forall k :: k != id && k in s.nextFireAt ==> v.nextFireAt[k] == s.nextFireAt[k])
    && (forall k :: k != id ==> (k in v.inFlight <==> k in s.inFlight))
  }

  lemma AfterEffect(env: Env, w: World, t: CronTask, isSession: bool, due: int, next: int)
    requires t.id in w.s.nextFireAt ==> due == w.s.nextFireAt[t.id]
    ensures var s := After(w.s, t, isSession, w.clock, due, Repeats(env, t, w.clock), next);
            Effect(env, w, w.(s := s), t, isSession)
  {
  }

  lemma ProcessEffect(env: Env, w: World, t: CronTask, isSession: bool)
    requires SaneConfig(env.cfg)
    ensures Effect(env, w, Processed(env, w, t, isSession), t, isSession)
  {
    AfterEffect(env, w, t, isSession, Due(env, w.s, t), Rescheduled(env, t, w.clock));
  }

  lemma IdentityExtends(env: Env, w: World, v: World, t: CronTask, isSession: bool)
    requires Identity(w) && Live(w, t, isSession) && Effect(env, w, v, t, isSession)
    ensures Identity(v)
  {
    if !isSession {
      IdOfMember(w.s.tasks, t);
    }
    forall i | 0 <= i < |v.s.log|
      ensures Logged(v, v.s.log[i])
    {
      if i < |w.s.log| {
        assert Logged(w, w.s.log[i]);
      }
    }
    forall i, j | 0 <= i < j < |v.s.log| && v.s.log[i].task.id == v.s.log[j].task.id
      ensures v.s.log[i].task == v.s.log[j].task && v.s.log[i].fromSession == v.s.log[j].fromSession
    {
      assert Logged(w, w.s.log[i]);
      if !w.s.log[i].fromSession {
        IdOfMember(w.s.tasks, w.s.log[i].task);
      }
    }
  }

  lemma ProcessIdentity(env: Env, w: World, t: CronTask, isSession: bool)
    requires SaneConfig(env.cfg) && Identity(w) && Live(w, t, isSession)
    ensures Identity(Processed(env, w, t, isSession))
  {
    ProcessEffect(env, w, t, isSession);
    IdentityExtends(env, w, Processed(env, w, t, isSession), t, isSession);
  }

  lemma ProcessSpaced(env: Env, w: World, t: CronTask, isSession: bool)
    requires SaneConfig(env.cfg) && Identity(w) && Live(w, t, isSession)
    requires AllGuarded(env, w) && Spaced(env, w.s.log)
    ensures Spaced(env, Processed(env, w, t, isSession).s.log)
  {
    var v := Processed(env, w, t, isSession);
    forall i, j | 0 <= i < j < |v.s.log| && v.s.log[i].task.id == v.s.log[j].task.id
                  && !EndedBetween(env, v.s.log, i, j)
      ensures SlotIn(env, v.s.log[i].task, v.s.log[i].at, v.s.log[j].at)
    {
      EndedInPrefix(env, w.s.log, v.s.log, i, j);
      if j == |w.s.log| {
        FiringUsesSlot(env, w, t, isSession, i);
      }
    }
  }

  lemma EndedInPrefix(env: Env, log: seq<Fire>, longer: seq<Fire>, i: nat, j: nat)
    requires log <= longer && i < |longer| && j <= |longer|
    ensures i < |log| && j <= |log| ==> (EndedBetween(env, longer, i, j) <==> EndedBetween(env, log, i, j))
  {
  }

  /** A task that fires now does so at or after a slot later than its firing `i`. */
  lemma FiringUsesSlot(env: Env, w: World, t: CronTask, isSession: bool, i: nat)
    requires SaneConfig(env.cfg) && Identity(w) && Live(w, t, isSession) && AllGuarded(env, w)
    requires i < |w.s.log| && w.s.log[i].task.id == t.id && !EndedBetween(env, w.s.log, i, |w.s.log|)
    requires Fires(env, w.s, t, w.clock)
    ensures w.s.log[i].task == t && SlotIn(env, t, w.s.log[i].at, w.clock)
  {
    var f := w.s.log[i];
    assert Guarded(env, w, i);
    assert Logged(w, f);
    if isSession {
      assert f.fromSession ==> f.task == t;
      if !f.fromSession {
        IdOfMember(w.s.tasks, f.task);
      }
    } else {
      IdOfMember(w.s.tasks, t);
    }
    SlotInWider(env, t, f.at, w.s.nextFireAt[t.id], w.clock);
  }

  lemma SlotInWider(env: Env, t: CronTask, a: int, b: int, c: int)
    requires SlotIn(env, t, a, b) && b <= c
    ensures SlotIn(env, t, a, c)
  {
    var slot :| a < slot <= b && IsSlot(t.cron, env.zone, slot);
    assert a < slot <= c && IsSlot(t.cron, env.zone, slot);
  }

  /** What lies beyond a later time lies beyond an earlier one. */
  lemma BeyondEarlier(env: Env, t: CronTask, a: int, b: int, ms: int)
    requires SlotIn(env, t, a, b) && Beyond(env, t, b, ms)
    ensures Beyond(env, t, a, ms)
  {
    if ms < INFINITY {
      var slot :| b < slot <= ms && IsSlot(t.cron, env.zone, slot);
      assert a < slot <= ms && IsSlot(t.cron, env.zone, slot);
    }
  }

  lemma ProcessGuarded(env: Env, w: World, t: CronTask, isSession: bool)
    requires SaneConfig(env.cfg) && Identity(w) && Live(w, t, isSession) && AllGuarded(env, w)
    ensures AllGuarded(env, Processed(env, w, t, isSession))
  {
    var v := Processed(env, w, t, isSession);
    ProcessEffect(env, w, t, isSession);
    forall i | 0 <= i < |v.s.log|
      ensures Guarded(env, v, i)
    {
      if i < |w.s.log| && w.s.log[i].task.id != t.id {
        GuardedElsewhere(env, w, v, t, isSession, i);
      } else if Fires(env, w.s, t, w.clock) {
        GuardedByFiring(env, w, t, isSession, i);
      } else {
        assert Guarded(env, w, i);
      }
    }
  }

  lemma GuardedElsewhere(env: Env, w: World, v: World, t: CronTask, isSession: bool, i: nat)
    requires AllGuarded(env, w) && Effect(env, w, v, t, isSession)
    requires i < |w.s.log| && w.s.log[i].task.id != t.id
    ensures Guarded(env, v, i)
  {
    assert Guarded(env, w, i);
    EndedStays(env, w.s.log, v.s.log, i);
  }

  lemma EndedStays(env: Env, log: seq<Fire>, longer: seq<Fire>, i: nat)
    requires log <= longer && i < |log|
    ensures EndedBetween(env, log, i, |log|) ==> EndedBetween(env, longer, i, |longer|)
  {
  }

  /** A firing of `t` guards itself and all earlier ones: it ends the task or gives it
      a fire time beyond now. */
  lemma GuardedByFiring(env: Env, w: World, t: CronTask, isSession: bool, i: nat)
    requires SaneConfig(env.cfg) && Identity(w) && Live(w, t, isSession) && AllGuarded(env, w)
    requires Fires(env, w.s, t, w.clock)
    requires i <= |w.s.log| && (i < |w.s.log| ==> w.s.log[i].task.id == t.id)
    ensures Guarded(env, Processed(env, w, t, isSession), i)
  {
    var v := Processed(env, w, t, isSession);
    var n := |w.s.log|;
    assert v.s.log[n] == Fire(t, w.clock, isSession);
    if i < n {
      EndedStays(env, w.s.log, v.s.log, i);
    }
    if !EndedBetween(env, v.s.log, i, n + 1) {
      assert Repeats(env, t, w.clock);
      JitteredBeyond(env, t, w.clock);
      if i < n {
        FiringUsesSlot(env, w, t, isSession, i);
        BeyondEarlier(env, t, w.s.log[i].at, w.clock, Rescheduled(env, t, w.clock));
      }
    }
  }

  lemma JitteredBeyond(env: Env, t: CronTask, ms: int)
    requires SaneConfig(env.cfg)
    ensures Beyond(env, t, ms, OrInfinity(JitteredMs(t.cron, ms, t.id, env.cfg, env.zone)))
  {
    if JitteredMs(t.cron, ms, t.id, env.cfg, env.zone).Some? {
      JitteredWithinGap(t.cron, ms, t.id, env.cfg, env.zone);
      NextSlot(t.cron, ms, env.zone);
    }
  }

  /** A task that a tick may look at is the only one held under its id. */
  lemma HeldIsLive(w: World, t: CronTask, isSession: bool, u: CronTask)
    requires Identity(w) && Live(w, t, isSession) && Holds(w, u) && u.id == t.id
    ensures u == t && Holds(w, t)
  {
    if u in w.s.tasks {
      IdOfMember(w.s.tasks, u);
    }
    if !isSession {
      IdOfMember(w.s.tasks, t);
    }
  }

  lemma DueBeyond(env: Env, w: World, t: CronTask, isSession: bool)
    requires SaneConfig(env.cfg) && Live(w, t, isSession) && Anchored(env, w) && t.recurring
    ensures Beyond(env, t, AnchorOf(t), Due(env, w.s, t))
  {
    assert Holds(w, t);
    JitteredBeyond(env, t, AnchorOf(t));
  }

  lemma ProcessAnchored(env: Env, w: World, t: CronTask, isSession: bool)
    requires SaneConfig(env.cfg) && Identity(w) && Live(w, t, isSession) && Anchored(env, w)
    ensures Anchored(env, Processed(env, w, t, isSession))
  {
    var v := Processed(env, w, t, isSession);
    ProcessEffect(env, w, t, isSession);
    if t.recurring {
      DueBeyond(env, w, t, isSession);
      JitteredBeyond(env, t, w.clock);
      if Fires(env, w.s, t, w.clock) {
        SlotInWider(env, t, AnchorOf(t), Due(env, w.s, t), w.clock);
        BeyondEarlier(env, t, AnchorOf(t), w.clock, Rescheduled(env, t, w.clock));
      }
    }
    forall u | Holds(v, u) && u.recurring && u.id in v.s.nextFireAt
      ensures Beyond(env, u, AnchorOf(u), v.s.nextFireAt[u.id])
    {
      assert Holds(w, u);
      if u.id == t.id {
        HeldIsLive(w, t, isSession, u);
      }
    }
    forall i | 0 <= i < |v.s.log| && v.s.log[i].task.recurring
      ensures AfterAnchor(env, v.s.log[i])
    {
      assert i < |w.s.log| ==> AfterAnchor(env, w.s.log[i]);
    }
  }

  lemma GoneExtends(env: Env, w: World, v: World, t: CronTask, isSession: bool)
    requires Identity(w) && Live(w, t, isSession) && GoneAfterLast(env, w) && Effect(env, w, v, t, isSession)
    ensures GoneAfterLast(env, v)
  {
    if !isSession {
      IdOfMember(w.s.tasks, t);
    }
    forall i | 0 <= i < |w.s.log| && w.s.log[i].fromSession && !Repeats(env, w.s.log[i].task, w.s.log[i].at)
      ensures w.s.log[i].task.id != t.id
    {
      assert Logged(w, w.s.log[i]);
    }
  }

  lemma SilentExtends(env: Env, w: World, v: World, t: CronTask, isSession: bool)
    requires Identity(w) && Live(w, t, isSession) && MissedSilent(w) && Effect(env, w, v, t, isSession)
    ensures MissedSilent(v)
  {
    if isSession {
      assert t.id !in Ids(w.s.tasks);
    }
  }

  lemma ProcessInv(env: Env, w: World, t: CronTask, isSession: bool)
    requires SaneConfig(env.cfg) && Inv(env, w) && Live(w, t, isSession)
    ensures Inv(env, Processed(env, w, t, isSession))
  {
    ProcessIdentity(env, w, t, isSession);
    ProcessSpaced(env, w, t, isSession);
    ProcessGuarded(env, w, t, isSession);
    ProcessAnchored(env, w, t, isSession);
    ProcessEffect(env, w, t, isSession);
    GoneExtends(env, w, Processed(env, w, t, isSession), t, isSession);
    SilentExtends(env, w, Processed(env, w, t, isSession), t, isSession);
  }

  // ---- A whole tick keeps the invariants ----

  ghost predicate AllLive(w: World, ts: seq<CronTask>, isSession: bool) {
    forall i :: 0 <= i < |ts| ==> Live(w, ts[i], isSession)
  }

  ghost function AllProcessed(env: Env, w: World, ts: seq<CronTask>, isSession: bool): World
    requires SaneConfig(env.cfg)
  {
    w.(s := ProcessAll(env, w.s, ts, isSession, w.clock))
  }

  lemma OthersStayLive(env: Env, w: World, ts: seq<CronTask>, isSession: bool)
    requires SaneConfig(env.cfg) && ts != [] && DistinctIds(ts) && AllLive(w, ts, isSession)
    ensures AllLive(Processed(env, w, ts[0], isSession), ts[1..], isSession)
  {
    var t := ts[0];
    ProcessEffect(env, w, t, isSession);
    var v := Processed(env, w, t, isSession);
    forall i | 0 <= i < |ts[1..]|
      ensures Live(v, ts[1..][i], isSession)
    {
      assert Live(w, ts[i + 1], isSession);
    }
  }

  lemma {:induction false} ProcessAllInv(env: Env, w: World, ts: seq<CronTask>, isSession: bool)
    requires SaneConfig(env.cfg) && Inv(env, w) && DistinctIds(ts) && AllLive(w, ts, isSession)
    ensures Inv(env, AllProcessed(env, w, ts, isSession))
    decreases |ts|
  {
    if ts != [] {
      assert Live(w, ts[0], isSession);
      ProcessInv(env, w, ts[0], isSession);
      OthersStayLive(env, w, ts, isSession);
      ProcessAllInv(env, Processed(env, w, ts[0], isSession), ts[1..], isSession);
    }
  }

  lemma {:induction false} FileProcessingKeeps(env: Env, w: World, ts: seq<CronTask>)
    requires SaneConfig(env.cfg)
    ensures var v := AllProcessed(env, w, ts, false);
            && v.s.tasks == w.s.tasks && v.s.isOwner == w.s.isOwner && v.s.stopped == w.s.stopped
            && v.s.session == w.s.session
    decreases |ts|
  {
    if ts != [] {
      ProcessEffect(env, w, ts[0], false);
      FileProcessingKeeps(env, Processed(env, w, ts[0], false), ts[1..]);
    }
  }

  lemma {:induction false} SessionProcessingKeeps(env: Env, w: World, ts: seq<CronTask>)
    requires SaneConfig(env.cfg)
    ensures var v := AllProcessed(env, w, ts, true);
            && v.s.tasks == w.s.tasks && v.s.isOwner == w.s.isOwner && v.s.stopped == w.s.stopped
            && v.s.session.Keys <= w.s.session.Keys
    decreases |ts|
  {
    if ts != [] {
      ProcessEffect(env, w, ts[0], true);
      SessionProcessingKeeps(env, Processed(env, w, ts[0], true), ts[1..]);
    }
  }

  /** The invariant is about the schedule, not about what the clock shows. */
  lemma AnyClock(env: Env, w: World, now: int)
    requires Inv(env, w)
    ensures Inv(env, w.(clock := now))
  {
    SameGuards(env, w, w.(clock := now));
  }

  /** Changes to the clock, the in-flight marks or the schedule of tasks out of reach
      keep what the invariant says of the log. */
  lemma SameGuards(env: Env, w: World, v: World)
    requires Identity(w) && AllGuarded(env, w) && Anchored(env, w)
    requires v.issued == w.issued && v.s.tasks == w.s.tasks && v.s.session == w.s.session && v.s.log == w.s.log
    requires v.s.isOwner == w.s.isOwner && v.s.stopped == w.s.stopped
    requires forall id :: id in v.s.nextFireAt ==> id in w.s.nextFireAt && v.s.nextFireAt[id] == w.s.nextFireAt[id]
    requires forall f :: Logged(w, f) && f.task.id in w.s.nextFireAt ==> Retired(w, f) || f.task.id in v.s.nextFireAt
    ensures Identity(v) && AllGuarded(env, v) && Anchored(env, v)
  {
    forall i | 0 <= i < |v.s.log|
      ensures Logged(v, v.s.log[i]) && Guarded(env, v, i)
    {
      assert Logged(w, w.s.log[i]) && Guarded(env, w, i);
    }
    forall t | Holds(v, t) && t.recurring && t.id in v.s.nextFireAt
      ensures Beyond(env, t, AnchorOf(t), v.s.nextFireAt[t.id])
    {
      assert Holds(w, t);
    }
  }

  lemma FileTickInv(env: Env, w: World)
    requires SaneConfig(env.cfg) && Inv(env, w) && !w.s.stopped && w.clock < INFINITY
    ensures var v := w.(s := FileTick(env, w.s, w.clock));
            && Inv(env, v) && v.s.tasks == w.s.tasks && v.s.isOwner == w.s.isOwner && v.s.stopped == w.s.stopped
            && v.s.session == w.s.session
  {
    if w.s.isOwner {
      ProcessAllInv(env, w, w.s.tasks, false);
      FileProcessingKeeps(env, w, w.s.tasks);
      InFlightIrrelevant(env, AllProcessed(env, w, w.s.tasks, false), FileTick(env, w.s, w.clock).inFlight);
    }
  }

  lemma InFlightIrrelevant(env: Env, w: World, inFlight: set<string>)
    requires Inv(env, w)
    ensures Inv(env, w.(s := w.s.(inFlight := inFlight)))
  {
    SameGuards(env, w, w.(s := w.s.(inFlight := inFlight)));
  }

  /** Dropping schedule entries of tasks no longer present loses no guard. */
  lemma EvictInv(env: Env, w: World, seen: set<string>)
    requires Inv(env, w)
    requires w.s.session.Keys <= seen && (w.s.isOwner ==> Ids(w.s.tasks) <= seen)
    ensures Inv(env, w.(s := w.s.(nextFireAt := map id | id in w.s.nextFireAt && id in seen :: w.s.nextFireAt[id])))
  {
    var v := w.(s := w.s.(nextFireAt := map id | id in w.s.nextFireAt && id in seen :: w.s.nextFireAt[id]));
    forall f | Logged(w, f) && f.task.id in w.s.nextFireAt
      ensures Retired(w, f) || f.task.id in v.s.nextFireAt
    {
      if !f.fromSession {
        IdOfMember(w.s.tasks, f.task);
      }
    }
    SameGuards(env, w, v);
  }

  lemma TickInv(env: Env, w: World, now: int, order: seq<CronTask>)
    requires SaneConfig(env.cfg) && Inv(env, w) && now < INFINITY && Lists(order, w.s.session)
    ensures Inv(env, World(Tick(env, w.s, now, order), now, w.issued))
  {
    AnyClock(env, w, now);
    if !w.s.stopped {
      var w0 := w.(clock := now);
      FileTickInv(env, w0);
      var w1 := w0.(s := FileTick(env, w.s, now));
      assert AllLive(w1, order, true);
      ProcessAllInv(env, w1, order, true);
      SessionProcessingKeeps(env, w1, order);
      EvictInv(env, AllProcessed(env, w1, order, true), Seen(w.s, order));
    }
  }

  lemma StepInv(env: Env, w: World, e: Event)
    requires SaneConfig(env.cfg) && Inv(env, w) && Enabled(env, w, e)
    ensures Inv(env, Step(env, w, e))
  {
    match e
    case Check(now, order) => TickInv(env, w, now, order);
    case MarkDone(ids) => InFlightIrrelevant(env, w, w.s.inFlight - ids);
    case RemoveDone(id) =>
      SessionShrinks(env, w, id);
      InFlightIrrelevant(env, w.(s := w.s.(session := w.s.session - {id})), w.s.inFlight - {id});
    case Add(t) => SessionGrows(env, w, t);
    case Delete(id) => SessionShrinks(env, w, id);
    case Stop => StopInv(env, w);
  }

  lemma SessionShrinks(env: Env, w: World, id: string)
    requires Inv(env, w)
    ensures Inv(env, w.(s := w.s.(session := w.s.session - {id})))
  {
    var v := w.(s := w.s.(session := w.s.session - {id}));
    forall i | 0 <= i < |v.s.log|
      ensures Logged(v, v.s.log[i]) && Guarded(env, v, i)
    {
      assert Logged(w, w.s.log[i]) && Guarded(env, w, i);
    }
    assert forall t :: Holds(v, t) ==> Holds(w, t);
  }

  /** A new id revives no task that has fired before. */
  lemma SessionGrows(env: Env, w: World, t: CronTask)
    requires Inv(env, w) && t.id !in w.issued
    ensures Inv(env, w.(s := w.s.(session := w.s.session[t.id := t]), issued := w.issued + {t.id}))
  {
    var v := w.(s := w.s.(session := w.s.session[t.id := t]), issued := w.issued + {t.id});
    forall i | 0 <= i < |v.s.log|
      ensures Logged(v, v.s.log[i]) && v.s.log[i].task.id != t.id && Guarded(env, v, i)
    {
      assert Logged(w, w.s.log[i]) && Guarded(env, w, i);
    }
    assert forall u :: Holds(v, u) && u.id in v.s.nextFireAt ==> Holds(w, u);
  }

  lemma StopInv(env: Env, w: World)
    requires Inv(env, w)
    ensures Inv(env, w.(s := w.s.(stopped := true, isOwner := false)))
  {
    var v := w.(s := w.s.(stopped := true, isOwner := false));
    forall i | 0 <= i < |v.s.log|
      ensures Logged(v, v.s.log[i])
    {
      assert Logged(w, w.s.log[i]);
    }
    assert forall t :: Holds(v, t) ==> Holds(w, t);
  }

  lemma {:induction false} RunInv(env: Env, w: World, events: seq<Event>, last: World)
    requires SaneConfig(env.cfg) && Inv(env, w) && Run(env, w, events, last)
    ensures Inv(env, last)
    decreases |events|
  {
    if events != [] {
      StepInv(env, w, events[0]);
      RunInv(env, Step(env, w, events[0]), events[1..], last);
    }
  }

  lemma InitialInv(env: Env, w: World, fileTasks: seq<CronTask>, owner: bool, session: map<string, CronTask>)
    requires Initial(env, w, fileTasks, owner, session)
    ensures Inv(env, w)
  {
    var missed := Missed(fileTasks, w.clock, env.zone);
    AnnounceIs(missed, {});
    forall id | id in w.s.missedAsked
      ensures id in Ids(w.s.tasks)
    {
      var t :| t in missed && !t.recurring && t.id == id;
      IdOfMember(fileTasks, t);
    }
  }

  // ---- The theorems ----

  /** Between two firings of a recurring task a slot of its schedule has come, unless
      one of the firings from the first up to the second ended it: no slot is used
      twice and missed slots are never caught up on, whatever the clock does. */
  lemma RecurringFiringsAreSpaced(env: Env, w: World, fileTasks: seq<CronTask>, owner: bool,
                                  session: map<string, CronTask>,
                                  events: seq<Event>, last: World, i: nat, j: nat)
    requires SaneConfig(env.cfg) && Initial(env, w, fileTasks, owner, session) && Run(env, w, events, last)
    requires i < j < |last.s.log| && last.s.log[i].task.id == last.s.log[j].task.id
    requires !EndedBetween(env, last.s.log, i, j)
    ensures last.s.log[i].task == last.s.log[j].task
    ensures SlotIn(env, last.s.log[i].task, last.s.log[i].at, last.s.log[j].at)
  {
    InitialInv(env, w, fileTasks, owner, session);
    RunInv(env, w, events, last);
  }

  ghost predicate InOrder(w: World) {
    && (forall i :: 0 <= i < |w.s.log| ==> w.s.log[i].at <= w.clock)
    && (forall i, j :: 0 <= i < j < |w.s.log| ==> w.s.log[i].at <= w.s.log[j].at)
  }

  lemma ForwardTail(clock: int, events: seq<Event>)
    requires Forward(clock, events) && events != []
    ensures Forward(if events[0].Check? then events[0].now else clock, events[1..])
  {
    forall k | 0 <= k < |events[1..]|
      ensures events[1..][k] == events[k + 1]
    {
    }
  }

  lemma TickLog(env: Env, s: State, now: int, order: seq<CronTask>)
    requires SaneConfig(env.cfg)
    ensures var log := Tick(env, s, now, order).log;
            s.log <= log && forall i :: |s.log| <= i < |log| ==> log[i].at == now
  {
    ProcessAllLog(env, s, s.tasks, false, now);
    ProcessAllLog(env, FileTick(env, s, now), order, true, now);
  }

  /** On a clock that is never set back the log is in order of time. */
  lemma {:induction false} LogInOrder(env: Env, w: World, events: seq<Event>, last: World)
    requires SaneConfig(env.cfg) && Run(env, w, events, last) && Forward(w.clock, events) && InOrder(w)
    ensures InOrder(last)
    decreases |events|
  {
    if events != [] {
      var next := Step(env, w, events[0]);
      ForwardTail(w.clock, events);
      if events[0].Check? {
        TickLog(env, w.s, events[0].now, events[0].order);
      }
      LogInOrder(env, next, events[1..], last);
    }
  }

  /** On such a clock it is enough that the first of the two firings did not end the task. */
  lemma SpacedOnForwardClock(env: Env, w: World, fileTasks: seq<CronTask>, owner: bool,
                             session: map<string, CronTask>,
                             events: seq<Event>, last: World, i: nat, j: nat)
    requires SaneConfig(env.cfg) && Initial(env, w, fileTasks, owner, session) && Run(env, w, events, last)
    requires Forward(w.clock, events)
    requires i < j < |last.s.log| && last.s.log[i].task.id == last.s.log[j].task.id
    requires Repeats(env, last.s.log[i].task, last.s.log[i].at)
    ensures last.s.log[i].task == last.s.log[j].task
    ensures SlotIn(env, last.s.log[i].task, last.s.log[i].at, last.s.log[j].at)
  {
    LogInOrder(env, w, events, last);
    var k := NextFiring(last.s.log, i, j);
    RecurringFiringsAreSpaced(env, w, fileTasks, owner, session, events, last, i, k);
    InitialInv(env, w, fileTasks, owner, session);
    RunInv(env, w, events, last);
    SlotInWider(env, last.s.log[i].task, last.s.log[i].at, last.s.log[k].at, last.s.log[j].at);
  }

  lemma {:induction false} NextFiring(log: seq<Fire>, i: nat, j: nat) returns (k: nat)
    requires i < j < |log| && log[i].task.id == log[j].task.id
    ensures i < k <= j && log[k].task.id == log[i].task.id
    ensures forall l :: i < l < k ==> log[l].task.id != log[i].task.id
    decreases j
  {
    if l :| i < l < j && log[l].task.id == log[i].task.id {
      k := NextFiring(log, i, l);
    } else {
      k := j;
    }
  }

  // ---- As many slots as firings ----

  /** The firings `ks` of the log are of one entry, in order. */
  ghost predicate FiringsOfOne(log: seq<Fire>, ks: seq<nat>) {
    && (forall i :: 0 <= i < |ks| ==> ks[i] < |log|)
    && (forall i, j :: 0 <= i < j < |ks| ==> ks[i] < ks[j] && log[ks[i]].task.id == log[ks[j]].task.id)
  }

  function Times(log: seq<Fire>, ks: seq<nat>): seq<int>
    requires forall i :: 0 <= i < |ks| ==> ks[i] < |log|
  {
    seq(|ks|, i requires 0 <= i < |ks| => log[ks[i]].at)
  }

  /** `slot` is one that the firing at `times[i]` may use: later than the firing
      before it, or than the anchor of the entry. */
  ghost predicate UsesSlot(env: Env, t: CronTask, times: seq<int>, i: nat, slot: int)
    requires i < |times|
  {
    (if i == 0 then AnchorOf(t) else times[i - 1]) < slot <= times[i] && IsSlot(t.cron, env.zone, slot)
  }

  /** One slot of `t` for each of its firings. */
  ghost predicate SlotsUsed(env: Env, t: CronTask, times: seq<int>, slots: seq<int>) {
    |slots| == |times| && forall i :: 0 <= i < |slots| ==> UsesSlot(env, t, times, i, slots[i])
  }

  lemma {:induction false} SlotsExist(env: Env, t: CronTask, times: seq<int>) returns (slots: seq<int>)
    requires times != [] ==> SlotIn(env, t, AnchorOf(t), times[0])
    requires forall i, j :: 0 <= i < j < |times| ==> SlotIn(env, t, times[i], times[j])
    ensures SlotsUsed(env, t, times, slots)
    decreases |times|
  {
    slots := [];
    if times != [] {
      var n := |times| - 1;
      var init := times[..n];
      var before := SlotsExist(env, t, init);
      var a := if n == 0 then AnchorOf(t) else times[n - 1];
      assert SlotIn(env, t, a, times[n]);
      var slot :| a < slot <= times[n] && IsSlot(t.cron, env.zone, slot);
      slots := before + [slot];
      forall i | 0 <= i < |slots|
        ensures UsesSlot(env, t, times, i, slots[i])
      {
        if i < n {
          assert UsesSlot(env, t, init, i, before[i]);
        }
      }
    }
  }

  lemma {:induction false} SlotsIncreasing(env: Env, t: CronTask, times: seq<int>, slots: seq<int>, i: nat, j: nat)
    requires SlotsUsed(env, t, times, slots) && i < j < |slots|
    ensures slots[i] < slots[j]
    decreases j
  {
    assert UsesSlot(env, t, times, j - 1, slots[j - 1]) && UsesSlot(env, t, times, j, slots[j]);
    if i < j - 1 {
      SlotsIncreasing(env, t, times, slots, i, j - 1);
    }
  }

  /** What makes firings `i` and `j` of an entry use different slots: none from `i`
      up to `j` ends it, for which `i` alone has to be looked at on a clock that is
      never set back. */
  ghost predicate GoesOn(env: Env, forward: bool, log: seq<Fire>, i: nat, j: nat)
    requires i < |log| && j <= |log|
  {
    !EndedBetween(env, log, i, j) || (forward && Repeats(env, log[i].task, log[i].at))
  }

  /** Any k firings of a recurring entry, none but the last of which ends it, use k
      distinct slots of its schedule in strictly increasing order: each is no later
      than its firing and later than the firing before, the first later than the
      time the entry was anchored at. */
  lemma FiringsUseDistinctSlots(env: Env, w: World, fileTasks: seq<CronTask>, owner: bool,
                                session: map<string, CronTask>,
                                events: seq<Event>, last: World, ks: seq<nat>)
    returns (slots: seq<int>)
    requires SaneConfig(env.cfg) && Initial(env, w, fileTasks, owner, session) && Run(env, w, events, last)
    requires ks != [] && FiringsOfOne(last.s.log, ks) && last.s.log[ks[0]].task.recurring
    requires forall i, j :: 0 <= i < j < |ks| ==> GoesOn(env, Forward(w.clock, events), last.s.log, ks[i], ks[j])
    ensures SlotsUsed(env, last.s.log[ks[0]].task, Times(last.s.log, ks), slots)
    ensures forall i, j :: 0 <= i < j < |slots| ==> slots[i] < slots[j]
  {
    InitialInv(env, w, fileTasks, owner, session);
    RunInv(env, w, events, last);
    var log, t := last.s.log, last.s.log[ks[0]].task;
    var times := Times(log, ks);
    assert AfterAnchor(env, log[ks[0]]);
    forall i, j | 0 <= i < j < |times|
      ensures SlotIn(env, t, times[i], times[j])
    {
      assert log[ks[i]].task == t;
      assert GoesOn(env, Forward(w.clock, events), log, ks[i], ks[j]);
      if EndedBetween(env, log, ks[i], ks[j]) {
        SpacedOnForwardClock(env, w, fileTasks, owner, session, events, last, ks[i], ks[j]);
      }
    }
    slots := SlotsExist(env, t, times);
    forall i, j | 0 <= i < j < |slots|
      ensures slots[i] < slots[j]
    {
      SlotsIncreasing(env, t, times, slots, i, j);
    }
  }

  /** A session one-shot fires at most once, and after that it is in neither the
      store nor the schedule. */
  lemma SessionOneShotFiresOnce(env: Env, w: World, fileTasks: seq<CronTask>, owner: bool,
                                session: map<string, CronTask>,
                                events: seq<Event>, last: World, i: nat)
    requires SaneConfig(env.cfg) && Initial(env, w, fileTasks, owner, session) && Run(env, w, events, last)
    requires i < |last.s.log| && last.s.log[i].fromSession && !last.s.log[i].task.recurring
    ensures last.s.log[i].task.id !in last.s.session && last.s.log[i].task.id !in last.s.nextFireAt
    ensures forall j :: 0 <= j < |last.s.log| && j != i ==> last.s.log[j].task.id != last.s.log[i].task.id
  {
    InitialInv(env, w, fileTasks, owner, session);
    RunInv(env, w, events, last);
    forall j | 0 <= j < |last.s.log| && j != i
      ensures last.s.log[j].task.id != last.s.log[i].task.id
    {
      assert Identity(last);
    }
  }

  /** What `start` announced as missed never fires in that run. */
  lemma MissedNeverFires(env: Env, w: World, fileTasks: seq<CronTask>, owner: bool, session: map<string, CronTask>,
                         events: seq<Event>, last: World, i: nat)
    requires SaneConfig(env.cfg) && Initial(env, w, fileTasks, owner, session) && Run(env, w, events, last)
    requires i < |last.s.log|
    ensures last.s.log[i].task.id !in w.s.announced
  {
    InitialInv(env, w, fileTasks, owner, session);
    RunInv(env, w, events, last);
    MissedKept(env, w, events, last);
  }

  lemma {:induction false} AllKeepMissed(env: Env, s: State, ts: seq<CronTask>, isSession: bool, now: int)
    requires SaneConfig(env.cfg)
    ensures ProcessAll(env, s, ts, isSession, now).missedAsked == s.missedAsked
    decreases |ts|
  {
    if ts != [] {
      AllKeepMissed(env, Process(env, s, ts[0], isSession, now), ts[1..], isSession, now);
    }
  }

  lemma {:induction false} MissedKept(env: Env, w: World, events: seq<Event>, last: World)
    requires SaneConfig(env.cfg) && Run(env, w, events, last)
    ensures last.s.missedAsked == w.s.missedAsked
    decreases |events|
  {
    if events != [] {
      if events[0].Check? {
        AllKeepMissed(env, w.s, w.s.tasks, false, events[0].now);
        AllKeepMissed(env, FileTick(env, w.s, events[0].now), events[0].order, true, events[0].now);
      }
      MissedKept(env, Step(env, w, events[0]), events[1..], last);
    }
  }

  // ---- Each tick fires exactly the tasks that are due ----

  lemma OthersUnaffected(env: Env, s: State, v: State, id: string, u: CronTask, now: int)
    requires SaneConfig(env.cfg) && SameElsewhere(s, v, id) && u.id != id
    ensures Fires(env, v, u, now) <==> Fires(env, s, u, now)
  {
  }

  lemma ProcessFires(env: Env, s: State, t: CronTask, isSession: bool, now: int)
    requires SaneConfig(env.cfg)
    ensures var v := Process(env, s, t, isSession, now);
            v.log == (if Fires(env, s, t, now) then s.log + [Fire(t, now, isSession)] else s.log)
  {
  }

  /** What a list of tasks does to one task `u` and to the log. */
  ghost predicate FiresList(env: Env, s: State, v: State, ts: seq<CronTask>, isSession: bool, now: int, u: CronTask)
    requires SaneConfig(env.cfg)
  {
    && s.log <= v.log
    && (Fire(u, now, isSession) in v.log[|s.log|..] <==> u in ts && Fires(env, s, u, now))
    && (forall i :: |s.log| <= i < |v.log| ==> v.log[i].at == now && v.log[i].fromSession == isSession)
    && (u.id !in Ids(ts) ==> (Fires(env, v, u, now) <==> Fires(env, s, u, now)))
  }

  lemma FiresFirstThenRest(env: Env, s: State, p: State, v: State, ts: seq<CronTask>, isSession: bool, now: int,
                           u: CronTask)
    requires SaneConfig(env.cfg) && DistinctIds(ts) && ts != []
    requires p.log == (if Fires(env, s, ts[0], now) then s.log + [Fire(ts[0], now, isSession)] else s.log)
    requires SameElsewhere(s, p, ts[0].id) && FiresList(env, p, v, ts[1..], isSession, now, u)
    ensures FiresList(env, s, v, ts, isSession, now, u)
  {
    var t := ts[0];
    LogSplit(s.log, p.log, v.log);
    IdsSplit(ts);
    assert u in ts <==> u == t || u in ts[1..];
    if u in ts[1..] {
      IdOfMember(ts[1..], u);
    }
    if u.id != t.id {
      OthersUnaffected(env, s, p, t.id, u, now);
    }
  }

  lemma LogSplit(a: seq<Fire>, b: seq<Fire>, c: seq<Fire>)
    requires a <= b <= c
    ensures c[|a|..] == b[|a|..] + c[|b|..]
  {
  }

  lemma {:induction false} ProcessAllFires(env: Env, s: State, ts: seq<CronTask>, isSession: bool, now: int,
                                           u: CronTask)
    requires SaneConfig(env.cfg) && DistinctIds(ts)
    ensures FiresList(env, s, ProcessAll(env, s, ts, isSession, now), ts, isSession, now, u)
    decreases |ts|
  {
    if ts != [] {
      var p := Process(env, s, ts[0], isSession, now);
      ProcessEffect(env, World(s, now, {}), ts[0], isSession);
      ProcessFires(env, s, ts[0], isSession, now);
      ProcessAllFires(env, p, ts[1..], isSession, now, u);
      FiresFirstThenRest(env, s, p, ProcessAll(env, s, ts, isSession, now), ts, isSession, now, u);
    }
  }

  lemma IdsSplit(ts: seq<CronTask>)
    requires ts != [] && DistinctIds(ts)
    ensures Ids(ts) == {ts[0].id} + Ids(ts[1..]) && ts[0].id !in Ids(ts[1..])
  {
    forall id | id in Ids(ts)
      ensures id == ts[0].id || id in Ids(ts[1..])
    {
      var i :| 0 <= i < |ts| && ts[i].id == id;
      assert i > 0 ==> ts[1..][i - 1] == ts[i];
    }
  }

  /** A tick fires a task exactly when it is allowed to look at it, the task is not
      in flight and its fire time has come; every such task fires, at the tick's time. */
  lemma TickFiresExactlyDue(env: Env, w: World, now: int, order: seq<CronTask>, u: CronTask, fromSession: bool)
    requires SaneConfig(env.cfg) && Identity(w) && !w.s.stopped && Lists(order, w.s.session)
    ensures var v := Tick(env, w.s, now, order);
            && w.s.log <= v.log
            && (Fire(u, now, fromSession) in v.log[|w.s.log|..] <==>
                Fires(env, w.s, u, now)
                && if fromSession then u.id in w.s.session && w.s.session[u.id] == u else w.s.isOwner && u in w.s.tasks)
  {
    var p := FileTick(env, w.s, now);
    var v := ProcessAll(env, p, order, true, now);
    if w.s.isOwner {
      FileProcessingKeeps(env, w.(clock := now), w.s.tasks);
      ProcessAllFires(env, w.s, w.s.tasks, false, now, u);
    }
    ProcessAllFires(env, p, order, true, now, u);
    LogSplit(w.s.log, p.log, v.log);
    assert fromSession ==> Fire(u, now, true) !in p.log[|w.s.log|..];
    assert !fromSession ==> Fire(u, now, false) !in v.log[|p.log|..];
    if fromSession && u in order {
      assert u.id in w.s.session;
      FileMarksFileIds(env, w, now, u.id);
    }
  }

  lemma {:induction false} ProcessAllMarks(env: Env, s: State, ts: seq<CronTask>, isSession: bool, now: int, id: string)
    requires SaneConfig(env.cfg) && DistinctIds(ts) && id !in Ids(ts)
    ensures var v := ProcessAll(env, s, ts, isSession, now);
            && (id in v.inFlight <==> id in s.inFlight)
            && s.log <= v.log && (forall i :: |s.log| <= i < |v.log| ==> v.log[i].task.id != id)
    decreases |ts|
  {
    if ts != [] {
      var p := Process(env, s, ts[0], isSession, now);
      ProcessEffect(env, World(s, now, {}), ts[0], isSession);
      IdsSplit(ts);
      ProcessAllMarks(env, p, ts[1..], isSession, now, id);
    }
  }

  /** The file half of a tick marks only file ids as in flight. */
  lemma FileMarksFileIds(env: Env, w: World, now: int, id: string)
    requires SaneConfig(env.cfg) && Identity(w) && id !in Ids(w.s.tasks)
    ensures id in FileTick(env, w.s, now).inFlight <==> id in w.s.inFlight
  {
    if w.s.isOwner {
      ProcessAllMarks(env, w.s, w.s.tasks, false, now, id);
    }
  }
}
