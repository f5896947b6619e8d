/** When a recurring task ends.  Everything here is said in terms of the fields of a
    task and of the configuration. */
module AgeLaws {
  import opened CronTasks
  import opened CronRuns
  import opened CronRunLaws
  import opened FileTaskLaws

  /** `t` may go on at time `now`: it is exempt, ages are unlimited, or it is younger
      than the maximum age. */
  predicate MayGoOn(t: CronTask, now: int, maxAgeMs: int) {
    t.permanent || maxAgeMs == 0 || now < t.createdAt + maxAgeMs
  }

  lemma RepeatsIff(env: Env, t: CronTask, now: int)
    ensures Repeats(env, t, now) <==> t.recurring && MayGoOn(t, now, env.cfg.recurringMaxAgeMs)
  {
  }

  // ---- One tick ----

  lemma {:induction false} FileHalfLeaves(env: Env, w: World, now: int, id: string)
    requires SaneConfig(env.cfg) && Identity(w) && id !in Ids(w.s.tasks)
    ensures SameAt(w.s, FileTick(env, w.s, now), id)
  {
    if w.s.isOwner {
      OthersLeaveAt(env, w.s, w.s.tasks, false, now, id);
      FileMarksFileIds(env, w, now, id);
    }
  }

  /** The whole tick does to a session task what processing that task alone does. */
  lemma {:induction false} SessionTaskAlone(env: Env, w: World, now: int, order: seq<CronTask>, u: CronTask)
    requires SaneConfig(env.cfg) && Identity(w) && !w.s.stopped && Lists(order, w.s.session)
    requires u.id in w.s.session && w.s.session[u.id] == u
    ensures SameAt(Process(env, w.s, u, true, now), Tick(env, w.s, now, order), u.id)
  {
    var p := FileTick(env, w.s, now);
    InOrder(order, w.s.session, u);
    FileHalfLeaves(env, w, now, u.id);
    SameProcess(env, w.s, p, u, true, now);
    ListProcesses(env, p, order, true, now, u);
  }

  lemma InOrder(order: seq<CronTask>, session: map<string, CronTask>, u: CronTask)
    requires Lists(order, session) && u.id in session && session[u.id] == u
    ensures u in order && u.id in Ids(order)
  {
    assert u.id in Ids(order);
    var i :| 0 <= i < |order| && order[i].id == u.id;
    assert order[i] == u;
  }

  lemma DueSessionTask(env: Env, w: World, now: int, order: seq<CronTask>, u: CronTask)
    requires SaneConfig(env.cfg) && Identity(w) && Enabled(env, w, Check(now, order)) && !w.s.stopped
    requires u.id in w.s.session && w.s.session[u.id] == u && u.recurring
    requires Fires(env, w.s, u, now)
    ensures var v := Tick(env, w.s, now, order);
            var goesOn := MayGoOn(u, now, env.cfg.recurringMaxAgeMs);
            && (u.id in v.session <==> goesOn) && (u.id in v.nextFireAt <==> goesOn)
            && (goesOn ==> v.session[u.id] == u && Beyond(env, u, now, v.nextFireAt[u.id]))
  {
    SessionTaskAlone(env, w, now, order, u);
    RepeatsIff(env, u, now);
    JitteredBeyond(env, u, now);
  }

  lemma WaitingSessionTask(env: Env, w: World, now: int, order: seq<CronTask>, u: CronTask)
    requires SaneConfig(env.cfg) && Identity(w) && Enabled(env, w, Check(now, order)) && !w.s.stopped
    requires u.id in w.s.session && w.s.session[u.id] == u && !Fires(env, w.s, u, now)
    ensures var v := Tick(env, w.s, now, order); u.id in v.session && v.session[u.id] == u
  {
    SessionTaskAlone(env, w, now, order, u);
  }

  lemma DueFileTask(env: Env, w: World, now: int, order: seq<CronTask>, t: CronTask)
    requires SaneConfig(env.cfg) && Identity(w) && Enabled(env, w, Check(now, order)) && !w.s.stopped && w.s.isOwner
    requires t in w.s.tasks && t.recurring && Fires(env, w.s, t, now)
    ensures var v := Tick(env, w.s, now, order);
            var goesOn := MayGoOn(t, now, env.cfg.recurringMaxAgeMs);
            (t.id in v.nextFireAt <==> goesOn) && (goesOn ==> Beyond(env, t, now, v.nextFireAt[t.id]))
  {
    IdOfMember(w.s.tasks, t);
    ListProcesses(env, w.s, w.s.tasks, false, now, t);
    FileProcessingKeeps(env, w.(clock := now), w.s.tasks);
    NotInOrder(w, order, t.id);
    OthersLeaveAt(env, FileTick(env, w.s, now), order, true, now, t.id);
    RepeatsIff(env, t, now);
    JitteredBeyond(env, t, now);
  }

  lemma NotInOrder(w: World, order: seq<CronTask>, id: string)
    requires Identity(w) && Lists(order, w.s.session) && id in Ids(w.s.tasks)
    ensures id !in Ids(order)
  {
  }

  ghost predicate NewlyLogged(s: State, v: State, f: Fire) {
    s.log <= v.log && f in v.log[|s.log|..]
  }

  /** A tick that fires a recurring session task keeps it exactly if it may go on, and
      then gives it a fire time that is never or behind a slot later than now. */
  lemma SessionTaskGoesOn(env: Env, w: World, now: int, order: seq<CronTask>, u: CronTask)
    requires SaneConfig(env.cfg) && Identity(w) && Enabled(env, w, Check(now, order)) && !w.s.stopped && u.recurring
    requires NewlyLogged(w.s, Tick(env, w.s, now, order), Fire(u, now, true))
    ensures var v := Tick(env, w.s, now, order);
            var goesOn := MayGoOn(u, now, env.cfg.recurringMaxAgeMs);
            && (u.id in v.session <==> goesOn) && (u.id in v.nextFireAt <==> goesOn)
            && (goesOn ==> v.session[u.id] == u && Beyond(env, u, now, v.nextFireAt[u.id]))
  {
    TickFiresExactlyDue(env, w, now, order, u, true);
    DueSessionTask(env, w, now, order, u);
  }

  /** A tick that fires a recurring task of the file leaves it a fire time exactly if it
      may go on, and then one that is never or behind a slot later than now. */
  lemma FileTaskGoesOn(env: Env, w: World, now: int, order: seq<CronTask>, t: CronTask)
    requires SaneConfig(env.cfg) && Identity(w) && Enabled(env, w, Check(now, order)) && !w.s.stopped && t.recurring
    requires NewlyLogged(w.s, Tick(env, w.s, now, order), Fire(t, now, false))
    ensures var v := Tick(env, w.s, now, order);
            var goesOn := MayGoOn(t, now, env.cfg.recurringMaxAgeMs);
            (t.id in v.nextFireAt <==> goesOn) && (goesOn ==> Beyond(env, t, now, v.nextFireAt[t.id]))
  {
    TickFiresExactlyDue(env, w, now, order, t, false);
    DueFileTask(env, w, now, order, t);
  }

  // ---- Whole runs ----

  /** No deletion of `u` is asked for, no removal of it ends, and a tick comes while `u`
      may go on. */
  ghost predicate Harmless(env: Env, e: Event, u: CronTask) {
    && e != Delete(u.id) && e != RemoveDone(u.id)
    && (e.Check? ==> MayGoOn(u, e.now, env.cfg.recurringMaxAgeMs))
  }

  ghost predicate InStore(w: World, u: CronTask) {
    u.id in w.s.session && w.s.session[u.id] == u
  }

  lemma {:induction false} HarmlessKeeps(env: Env, w: World, e: Event, u: CronTask)
    requires SaneConfig(env.cfg) && Inv(env, w) && Enabled(env, w, e) && Harmless(env, e, u)
    requires u.recurring && InStore(w, u)
    ensures InStore(Step(env, w, e), u)
  {
    if e.Check? && !w.s.stopped {
      if Fires(env, w.s, u, e.now) {
        DueSessionTask(env, w, e.now, e.order, u);
      } else {
        WaitingSessionTask(env, w, e.now, e.order, u);
      }
    }
  }

  lemma {:induction false} HarmlessRunKeeps(env: Env, w: World, events: seq<Event>, last: World, u: CronTask)
    requires SaneConfig(env.cfg) && Inv(env, w) && Run(env, w, events, last)
    requires u.recurring && InStore(w, u) && forall k :: 0 <= k < |events| ==> Harmless(env, events[k], u)
    ensures InStore(last, u)
    decreases |events|
  {
    if events != [] {
      HarmlessKeeps(env, w, events[0], u);
      StepInv(env, w, events[0]);
      HarmlessRunKeeps(env, Step(env, w, events[0]), events[1..], last, u);
    }
  }

  /** From every point `w` of every run on, a recurring session task stays in the store
      as long as it may go on: no firing ends it. */
  lemma YoungTaskStays(env: Env, start: World, fileTasks: seq<CronTask>, owner: bool, session: map<string, CronTask>,
                       before: seq<Event>, w: World, events: seq<Event>, last: World, u: CronTask)
    requires SaneConfig(env.cfg) && Initial(env, start, fileTasks, owner, session)
    requires Run(env, start, before, w) && Run(env, w, events, last)
    requires u.recurring && InStore(w, u) && forall k :: 0 <= k < |events| ==> Harmless(env, events[k], u)
    ensures InStore(last, u)
  {
    InitialInv(env, start, fileTasks, owner, session);
    RunInv(env, start, before, w);
    HarmlessRunKeeps(env, w, events, last, u);
  }

  /** So what ends a task, where the laws of runs speak of it, is one of its firings at
      which it is no recurring task or may not go on. */
  lemma EndedIff(env: Env, log: seq<Fire>, i: nat, j: nat)
    requires i < |log| && j <= |log|
    ensures EndedBetween(env, log, i, j) <==>
            exists k :: i <= k < j && log[k].task.id == log[i].task.id
                        && !(log[k].task.recurring && MayGoOn(log[k].task, log[k].at, env.cfg.recurringMaxAgeMs))
  {
    forall k | 0 <= k < |log|
      ensures Repeats(env, log[k].task, log[k].at) <==>
              log[k].task.recurring && MayGoOn(log[k].task, log[k].at, env.cfg.recurringMaxAgeMs)
    {
      RepeatsIff(env, log[k].task, log[k].at);
    }
  }
}
