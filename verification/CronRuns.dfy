/** The scheduler of cron_scheduler.go as a state machine: what `start` and one tick
    do, and the events of a run.

    A run is `start` followed by ticks, the completion of background file
    rewrites, additions and deletions of tasks, and `stop`.  The clock may be set
    back but stays below the 64-bit maximum that stands for "never", and task ids
    are never issued twice. */
module CronRuns {
  import opened Wrappers
  import opened GoStrings
  import opened CronTasks

  /** `1<<63 - 1`, the fire time of a task that is not to fire. */
  const INFINITY: int := MAX_INT64

  datatype Env = Env(cfg: JitterConfig, zone: int)

  /** One call of `onFire` with a task's prompt. */
  datatype Fire = Fire(task: CronTask, at: int, fromSession: bool)

  datatype State = State(
    tasks: seq<CronTask>,
    nextFireAt: map<string, int>,
    missedAsked: set<string>,
    inFlight: set<string>,
    isOwner: bool,
    stopped: bool,
    session: map<string, CronTask>,
    log: seq<Fire>,
    announced: seq<string>)

  function Ids(ts: seq<CronTask>): set<string> {
    set i | 0 <= i < |ts| :: ts[i].id
  }

  ghost predicate DistinctIds(ts: seq<CronTask>) {
    forall i, j :: 0 <= i < j < |ts| ==> ts[i].id != ts[j].id
  }

  // ---- One task ----

  function OrInfinity(next: Option<int>): int {
    match next
    case Some(ms) => ms
    case None => INFINITY
  }

  function AnchorOf(t: CronTask): int {
    if t.lastFiredAt == 0 then t.createdAt else t.lastFiredAt
  }

  /** The fire time given to a task when it is first seen. */
  ghost function FirstTime(env: Env, t: CronTask): int
    requires SaneConfig(env.cfg)
  {
    if t.recurring then OrInfinity(JitteredMs(t.cron, AnchorOf(t), t.id, env.cfg, env.zone))
    else OrInfinity(OneShotMs(t.cron, t.createdAt, t.id, env.cfg, env.zone))
  }

  ghost function Due(env: Env, s: State, t: CronTask): int
    requires SaneConfig(env.cfg)
  {
    if t.id in s.nextFireAt then s.nextFireAt[t.id] else FirstTime(env, t)
  }

  ghost predicate Fires(env: Env, s: State, t: CronTask, now: int)
    requires SaneConfig(env.cfg)
  {
    t.id !in s.inFlight && Due(env, s, t) <= now
  }

  /** Recurring and not aged out: the task is rescheduled when it fires. */
  predicate Repeats(env: Env, t: CronTask, now: int) {
    t.recurring && !IsRecurringTaskAged(t, now, env.cfg.recurringMaxAgeMs)
  }

  ghost function Rescheduled(env: Env, t: CronTask, now: int): int {
    OrInfinity(JitteredMs(t.cron, now, t.id, env.cfg, env.zone))
  }

  /** `processTask`, given when `t` is due and, if it repeats, when it fires next. */
  function After(s: State, t: CronTask, isSession: bool, now: int, due: int, repeats: bool, next: int): State {
    if t.id in s.inFlight then s
    else if now < due then s.(nextFireAt := s.nextFireAt[t.id := due])
    else
      var fired := s.(log := s.log + [Fire(t, now, isSession)]);
      if repeats then fired.(nextFireAt := s.nextFireAt[t.id := next])
      else if isSession then fired.(nextFireAt := s.nextFireAt - {t.id}, session := s.session - {t.id})
      else fired.(nextFireAt := s.nextFireAt - {t.id}, inFlight := s.inFlight + {t.id})
  }

  ghost function Process(env: Env, s: State, t: CronTask, isSession: bool, now: int): State
    requires SaneConfig(env.cfg)
  {
    After(s, t, isSession, now, Due(env, s, t), Repeats(env, t, now), Rescheduled(env, t, now))
  }

  ghost function ProcessAll(env: Env, s: State, ts: seq<CronTask>, isSession: bool, now: int): State
    requires SaneConfig(env.cfg)
    decreases |ts|
  {
    if ts == [] then s else ProcessAll(env, Process(env, s, ts[0], isSession, now), ts[1..], isSession, now)
  }

  /** The ids whose `lastFiredAt` is then written to the file in the background. */
  ghost function RepeatsLogged(env: Env, log: seq<Fire>, from: nat, now: int): set<string>
    requires from <= |log|
  {
    set i | from <= i < |log| && Repeats(env, log[i].task, now) :: log[i].task.id
  }

  // ---- One tick ----

  /** The order in which the session store happens to list its tasks. */
  ghost predicate Lists(order: seq<CronTask>, session: map<string, CronTask>) {
    && DistinctIds(order)
    && Ids(order) == session.Keys
    && forall i :: 0 <= i < |order| ==> order[i].id in session && session[order[i].id] == order[i]
  }

  ghost function FileTick(env: Env, s: State, now: int): State
    requires SaneConfig(env.cfg)
  {
    if !s.isOwner then s
    else
      var p := ProcessAll(env, s, s.tasks, false, now);
      ProcessAllLog(env, s, s.tasks, false, now);
      p.(inFlight := p.inFlight + RepeatsLogged(env, p.log, |s.log|, now))
  }

  function Seen(s: State, order: seq<CronTask>): set<string> {
    (if s.isOwner then Ids(s.tasks) else {}) + Ids(order)
  }

  ghost function Tick(env: Env, s: State, now: int, order: seq<CronTask>): State
    requires SaneConfig(env.cfg)
  {
    if s.stopped then s
    else
      var p := ProcessAll(env, FileTick(env, s, now), order, true, now);
      p.(nextFireAt := map id | id in p.nextFireAt && id in Seen(s, order) :: p.nextFireAt[id])
  }

  // ---- Start ----

  /** The missed one-shots not announced before, in file order. */
  function Announce(missed: seq<CronTask>, asked: set<string>): seq<string> {
    if missed == [] then []
    else if !missed[0].recurring && missed[0].id !in asked then
      [missed[0].id] + Announce(missed[1..], asked + {missed[0].id})
    else Announce(missed[1..], asked)
  }

  function NeverFiring(ids: set<string>): map<string, int> {
    map id | id in ids :: INFINITY
  }

  lemma AnnounceStep(missed: seq<CronTask>, i: nat, asked: set<string>)
    requires i < |missed|
    ensures Announce(missed[i..], asked) ==
            if !missed[i].recurring && missed[i].id !in asked
            then [missed[i].id] + Announce(missed[i + 1..], asked + {missed[i].id})
            else Announce(missed[i + 1..], asked)
  {
    assert missed[i..][1..] == missed[i + 1..];
  }

  ghost function Start(env: Env, fileTasks: seq<CronTask>, owner: bool, session: map<string, CronTask>,
                       now: int): State {
    var ids := Announce(Missed(fileTasks, now, env.zone), {});
    var gone := IdSet(ids);
    State(fileTasks, NeverFiring(gone), gone, {}, owner, false, session - gone, [], ids)
  }

  /** A start that announces `ids`. */
  function StartedWith(s: State, fileTasks: seq<CronTask>, owner: bool, ids: seq<string>): State {
    var gone := IdSet(ids);
    s.(tasks := fileTasks, nextFireAt := s.nextFireAt + NeverFiring(gone), missedAsked := s.missedAsked + gone,
    isOwner := owner, session := s.session - gone, announced := s.announced + ids)
  }

  /** `start` on any scheduler: a stopped one is left alone, and what an earlier start
      has asked about is not asked again. */
  ghost function Started(env: Env, s: State, fileTasks: seq<CronTask>, owner: bool, now: int): State {
    if s.stopped then s
    else StartedWith(s, fileTasks, owner, Announce(Missed(fileTasks, now, env.zone), s.missedAsked))
  }

  function NewState(session: map<string, CronTask>): State {
    State([], map[], {}, {}, false, false, session, [], [])
  }

  lemma StartsNew(env: Env, fileTasks: seq<CronTask>, owner: bool, session: map<string, CronTask>, now: int)
    ensures Started(env, NewState(session), fileTasks, owner, now) == Start(env, fileTasks, owner, session, now)
  {
    var ids := Announce(Missed(fileTasks, now, env.zone), {});
    assert {} + IdSet(ids) == IdSet(ids) && [] + ids == ids;
    assert map[] + NeverFiring(IdSet(ids)) == NeverFiring(IdSet(ids));
  }

  lemma {:induction false} AnnounceIs(missed: seq<CronTask>, asked: set<string>)
    ensures var ids := Announce(missed, asked);
            && (forall i, j :: 0 <= i < j < |ids| ==> ids[i] != ids[j])
            && (forall id :: id in ids <==> id !in asked && exists t :: t in missed && !t.recurring && t.id == id)
  {
    if missed != [] {
      var t := missed[0];
      var asked' := if !t.recurring && t.id !in asked then asked + {t.id} else asked;
      AnnounceIs(missed[1..], asked');
      assert forall u :: u in missed <==> u == t || u in missed[1..];
    }
  }

  /** `start` announces once each one-shot file task that had a slot between its
      creation and now, and nothing else. */
  lemma StartAnnounces(env: Env, fileTasks: seq<CronTask>, owner: bool, session: map<string, CronTask>, now: int,
                       id: string)
    ensures var s := Start(env, fileTasks, owner, session, now);
            && (forall i, j :: 0 <= i < j < |s.announced| ==> s.announced[i] != s.announced[j])
            && (id in s.announced <==>
                exists t :: t in fileTasks && t.id == id && !t.recurring
                            && exists slot :: t.createdAt < slot < now && IsSlot(t.cron, env.zone, slot))
  {
    AnnounceIs(Missed(fileTasks, now, env.zone), {});
    forall t | t in fileTasks
      ensures t in Missed(fileTasks, now, env.zone) <==>
              exists slot :: t.createdAt < slot < now && IsSlot(t.cron, env.zone, slot)
    {
      MissedIffSlotPassed(t, now, env.zone);
    }
  }

  // ---- Runs ----

  datatype Event =
    | Check(now: int, order: seq<CronTask>)
    | MarkDone(ids: set<string>)      // the goroutine of markCronTasksFired ends
    | RemoveDone(id: string)          // the goroutine of removeCronTasks ends
    | Add(task: CronTask)             // addCronTask, session-scoped
    | Delete(id: string)              // removeCronTasks, asked for by the user
    | Stop

  /** The scheduler, the time of its last tick and the ids issued so far. */
  datatype World = World(s: State, clock: int, issued: set<string>)

  ghost predicate Enabled(env: Env, w: World, e: Event) {
    match e
    case Check(now, order) => now < INFINITY && Lists(order, w.s.session)
    case Add(t) => t.id !in w.issued
    case _ => true
  }

  ghost function Step(env: Env, w: World, e: Event): World
    requires SaneConfig(env.cfg)
  {
    match e
    case Check(now, order) => World(Tick(env, w.s, now, order), now, w.issued)
    case MarkDone(ids) => w.(s := w.s.(inFlight := w.s.inFlight - ids))
    case RemoveDone(id) => w.(s := w.s.(inFlight := w.s.inFlight - {id}, session := w.s.session - {id}))
    case Add(t) => w.(s := w.s.(session := w.s.session[t.id := t]), issued := w.issued + {t.id})
    case Delete(id) => w.(s := w.s.(session := w.s.session - {id}))
    case Stop => w.(s := w.s.(stopped := true, isOwner := false))
  }

  ghost predicate Run(env: Env, w: World, events: seq<Event>, last: World)
    requires SaneConfig(env.cfg)
    decreases |events|
  {
    if events == [] then w == last
    else Enabled(env, w, events[0]) && Run(env, Step(env, w, events[0]), events[1..], last)
  }

  /** The clock, which showed `clock` at first, is never set back. */
  ghost predicate Forward(clock: int, events: seq<Event>) {
    && (forall k :: 0 <= k < |events| && events[k].Check? ==> clock <= events[k].now)
    && (forall i, k :: 0 <= i < k < |events| && events[i].Check? && events[k].Check? ==> events[i].now <= events[k].now)
  }

  /** The state right after `start`: file ids are distinct, the session store is
      keyed by id, and the two do not share ids. */
  ghost predicate Initial(env: Env, w: World, fileTasks: seq<CronTask>, owner: bool, session: map<string, CronTask>) {
    && DistinctIds(fileTasks)
    && Ids(fileTasks) <= w.issued
    && (forall k :: k in session ==> session[k].id == k && k in w.issued && k !in Ids(fileTasks))
    && w.s == Start(env, fileTasks, owner, session, w.clock)
  }

  // ---- What a tick does to the log ----

  lemma {:induction false} ProcessAllLog(env: Env, s: State, ts: seq<CronTask>, isSession: bool, now: int)
    requires SaneConfig(env.cfg)
    ensures var log := ProcessAll(env, s, ts, isSession, now).log;
            s.log <= log && forall i :: |s.log| <= i < |log| ==> log[i].at == now
    decreases |ts|
  {
    if ts != [] {
      ProcessAllLog(env, Process(env, s, ts[0], isSession, now), ts[1..], isSession, now);
    }
  }
}
