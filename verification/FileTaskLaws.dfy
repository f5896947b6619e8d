/** File-backed tasks whose last firing is not to be followed by another: one-shots,
    and recurring tasks that have aged out.  `start` loads the list of file tasks
    once and nothing is ever taken from it, so what keeps such a task quiet is its
    in-flight mark alone.  In every run it fires again exactly when that mark is
    gone. */
module FileTaskLaws {
  import opened CronTasks
  import opened CronRuns
  import opened CronRunLaws

  // ---- Runs by position ----

  /** The world after the first `n` events. */
  ghost function WorldAt(env: Env, w: World, events: seq<Event>, n: nat): World
    requires SaneConfig(env.cfg) && n <= |events|
  {
    if n == 0 then w else Step(env, WorldAt(env, w, events, n - 1), events[n - 1])
  }

  ghost predicate Runs(env: Env, w: World, events: seq<Event>)
    requires SaneConfig(env.cfg)
  {
    forall k :: 0 <= k < |events| ==> Enabled(env, WorldAt(env, w, events, k), events[k])
  }

  lemma {:induction false} WorldAtTail(env: Env, w: World, events: seq<Event>, n: nat)
    requires SaneConfig(env.cfg) && 0 < n <= |events|
    ensures WorldAt(env, w, events, n) == WorldAt(env, Step(env, w, events[0]), events[1..], n - 1)
  {
    if n > 1 {
      WorldAtTail(env, w, events, n - 1);
      assert events[1..][n - 2] == events[n - 1];
    }
  }

  /** These are the runs of the state machine. */
  lemma {:induction false} RunsAreRuns(env: Env, w: World, events: seq<Event>, last: World)
    requires SaneConfig(env.cfg)
    ensures Run(env, w, events, last) <==> Runs(env, w, events) && last == WorldAt(env, w, events, |events|)
    decreases |events|
  {
    if events != [] {
      var next, rest := Step(env, w, events[0]), events[1..];
      calc {
        Run(env, w, events, last);
      ==
        Enabled(env, w, events[0]) && Run(env, next, rest, last);
      ==  { RunsAreRuns(env, next, rest, last); }
        Enabled(env, w, events[0]) && Runs(env, next, rest) && last == WorldAt(env, next, rest, |rest|);
      ==  { RunsTail(env, w, events); }
        Runs(env, w, events) && last == WorldAt(env, next, rest, |rest|);
      ==  { WorldAtTail(env, w, events, |events|); }
        Runs(env, w, events) && last == WorldAt(env, w, events, |events|);
      }
    }
  }

  lemma {:induction false} RunsTail(env: Env, w: World, events: seq<Event>)
    requires SaneConfig(env.cfg) && events != []
    ensures Runs(env, w, events) <==>
            Enabled(env, w, events[0]) && Runs(env, Step(env, w, events[0]), events[1..])
  {
    var next, rest := Step(env, w, events[0]), events[1..];
    forall k | 0 <= k < |rest|
      ensures Enabled(env, WorldAt(env, next, rest, k), rest[k])
         <==> Enabled(env, WorldAt(env, w, events, k + 1), events[k + 1])
    {
      WorldAtTail(env, w, events, k + 1);
    }
    if Enabled(env, w, events[0]) && Runs(env, next, rest) {
      forall k | 0 <= k < |events|
        ensures Enabled(env, WorldAt(env, w, events, k), events[k])
      {
        if k > 0 {
          assert Enabled(env, WorldAt(env, next, rest, k - 1), rest[k - 1]);
        }
      }
    }
    if Runs(env, w, events) {
      assert WorldAt(env, w, events, 0) == w;
      forall k | 0 <= k < |rest|
        ensures Enabled(env, WorldAt(env, next, rest, k), rest[k])
      {
        assert Enabled(env, WorldAt(env, w, events, k + 1), events[k + 1]);
      }
    }
  }

  // ---- One file task in a run ----

  /** Event `n` is a tick that fires `t` from the file. */
  ghost predicate FiresAt(env: Env, w: World, events: seq<Event>, n: nat, t: CronTask)
    requires SaneConfig(env.cfg)
  {
    && n < |events| && events[n].Check?
    && FiresIn(WorldAt(env, w, events, n), WorldAt(env, w, events, n + 1), t, events[n].now)
  }

  ghost predicate FiresIn(v: World, next: World, t: CronTask, now: int) {
    v.s.log <= next.s.log && Fire(t, now, false) in next.s.log[|v.s.log|..]
  }

  /** The end of a background rewrite that had `id` in flight. */
  predicate Unmarks(e: Event, id: string) {
    e == RemoveDone(id) || (e.MarkDone? && id in e.ids)
  }

  predicate UnmarkedBetween(events: seq<Event>, m: int, n: int, id: string)
    requires 0 <= m && n <= |events|
  {
    exists k :: m < k < n && Unmarks(events[k], id)
  }

  predicate StoppedBefore(events: seq<Event>, n: nat)
    requires n <= |events|
  {
    exists k :: 0 <= k < n && events[k].Stop?
  }

  // ---- What a tick does to one file task ----

  ghost predicate SameAt(a: State, b: State, id: string) {
    && (id in a.nextFireAt <==> id in b.nextFireAt)
    && (id in a.nextFireAt && id in b.nextFireAt ==> a.nextFireAt[id] == b.nextFireAt[id])
    && (id in a.inFlight <==> id in b.inFlight)
    && (id in a.session <==> id in b.session)
    && (id in a.session && id in b.session ==> a.session[id] == b.session[id])
  }

  lemma {:induction false} OthersLeaveAt(env: Env, s: State, ts: seq<CronTask>, isSession: bool, now: int, id: string)
    requires SaneConfig(env.cfg) && DistinctIds(ts) && id !in Ids(ts)
    ensures SameAt(s, ProcessAll(env, s, ts, isSession, now), id)
    decreases |ts|
  {
    if ts != [] {
      ProcessEffect(env, World(s, now, {}), ts[0], isSession);
      IdsSplit(ts);
      OthersLeaveAt(env, Process(env, s, ts[0], isSession, now), ts[1..], isSession, now, id);
    }
  }

  lemma SameAfter(a: State, b: State, t: CronTask, isSession: bool, now: int, due: int, repeats: bool, next: int)
    requires SameAt(a, b, t.id)
    ensures SameAt(After(a, t, isSession, now, due, repeats, next),
                   After(b, t, isSession, now, due, repeats, next), t.id)
  {
  }

  lemma {:induction false} SameProcess(env: Env, a: State, b: State, t: CronTask, isSession: bool, now: int)
    requires SaneConfig(env.cfg) && SameAt(a, b, t.id)
    ensures SameAt(Process(env, a, t, isSession, now), Process(env, b, t, isSession, now), t.id)
  {
    SameAfter(a, b, t, isSession, now, Due(env, a, t), Repeats(env, t, now), Rescheduled(env, t, now));
  }

  /** For `t` itself a whole list of tasks does what processing `t` alone does. */
  lemma {:induction false} ListProcesses(env: Env, s: State, ts: seq<CronTask>, isSession: bool, now: int, t: CronTask)
    requires SaneConfig(env.cfg) && DistinctIds(ts) && t in ts
    ensures SameAt(Process(env, s, t, isSession, now), ProcessAll(env, s, ts, isSession, now), t.id)
    decreases |ts|
  {
    var u := ts[0];
    var p := Process(env, s, u, isSession, now);
    ProcessEffect(env, World(s, now, {}), u, isSession);
    IdsSplit(ts);
    if t == u {
      OthersLeaveAt(env, p, ts[1..], isSession, now, t.id);
    } else {
      assert t in ts[1..];
      IdOfMember(ts[1..], t);
      SameProcess(env, s, p, t, isSession, now);
      ListProcesses(env, p, ts[1..], isSession, now, t);
    }
  }

  /** Firings of `t` are the only ones with its id. */
  lemma FiringsById(env: Env, v: World, t: CronTask, i: nat)
    requires Identity(v) && t in v.s.tasks && i < |v.s.log| && v.s.log[i].task.id == t.id
    ensures v.s.log[i].task == t && !v.s.log[i].fromSession
  {
    assert Logged(v, v.s.log[i]);
    IdOfMember(v.s.tasks, t);
  }

  /** After the file half of a tick: `t` is in flight if it was or if it has just
      fired, and it is processed as it would be alone. */
  lemma {:induction false} FileTickAt(env: Env, w: World, t: CronTask)
    requires SaneConfig(env.cfg) && Inv(env, w) && !w.s.stopped && w.s.isOwner && w.clock < INFINITY && t in w.s.tasks
    ensures var v := FileTick(env, w.s, w.clock);
            && (t.id in v.inFlight <==> t.id in w.s.inFlight || Fires(env, w.s, t, w.clock))
            && (t.id in v.nextFireAt && Fires(env, w.s, t, w.clock) ==> Repeats(env, t, w.clock))
            && (t.id in v.nextFireAt && !Fires(env, w.s, t, w.clock) ==> v.nextFireAt[t.id] == Due(env, w.s, t))
  {
    var now := w.clock;
    ListProcesses(env, w.s, w.s.tasks, false, now, t);
    MarkedByTick(env, w, t);
  }

  /** Firing and being rescheduled marks `t` in flight at the end of the file half. */
  lemma {:induction false} MarkedByTick(env: Env, w: World, t: CronTask)
    requires SaneConfig(env.cfg) && Inv(env, w) && !w.s.stopped && w.s.isOwner && w.clock < INFINITY && t in w.s.tasks
    ensures var p := ProcessAll(env, w.s, w.s.tasks, false, w.clock);
            && w.s.log <= p.log
            && (t.id in RepeatsLogged(env, p.log, |w.s.log|, w.clock) <==>
                Fires(env, w.s, t, w.clock) && Repeats(env, t, w.clock))
  {
    var now, v := w.clock, AllProcessed(env, w, w.s.tasks, false);
    ProcessAllInv(env, w, w.s.tasks, false);
    FileProcessingKeeps(env, w, w.s.tasks);
    ProcessAllFires(env, w.s, w.s.tasks, false, now, t);
    RepeatsLoggedIs(env, v, |w.s.log|, now, t);
  }

  lemma {:induction false} RepeatsLoggedIs(env: Env, v: World, n: nat, now: int, t: CronTask)
    requires Identity(v) && t in v.s.tasks && n <= |v.s.log|
    requires forall i :: n <= i < |v.s.log| ==> v.s.log[i].at == now && !v.s.log[i].fromSession
    ensures t.id in RepeatsLogged(env, v.s.log, n, now) <==>
            Fire(t, now, false) in v.s.log[n..] && Repeats(env, t, now)
  {
    var log, fired := v.s.log, v.s.log[n..];
    if t.id in RepeatsLogged(env, log, n, now) {
      var i :| n <= i < |log| && Repeats(env, log[i].task, now) && log[i].task.id == t.id;
      FiringsById(env, v, t, i);
      assert log[i] == fired[i - n];
    }
    if Fire(t, now, false) in fired && Repeats(env, t, now) {
      var k :| 0 <= k < |fired| && fired[k] == Fire(t, now, false);
      assert log[k + n] == fired[k];
    }
  }

  /** What a tick at `now` does to the file task `t`. */
  ghost predicate TickEffect(env: Env, w: World, v: World, t: CronTask, now: int)
    requires SaneConfig(env.cfg)
  {
    var fires := FiresIn(w, v, t, now);
    && v.s.tasks == w.s.tasks && v.s.isOwner == w.s.isOwner && v.s.stopped == w.s.stopped
    && (fires <==> !w.s.stopped && w.s.isOwner && Fires(env, w.s, t, now))
    && (t.id in v.s.inFlight <==> t.id in w.s.inFlight || fires)
    && (t.id in v.s.nextFireAt && fires ==> Repeats(env, t, now))
    && (t.id in v.s.nextFireAt && !fires ==> v.s.nextFireAt[t.id] == Due(env, w.s, t))
  }

  lemma {:induction false} TickAt(env: Env, w: World, now: int, order: seq<CronTask>, t: CronTask)
    requires SaneConfig(env.cfg) && Inv(env, w) && Enabled(env, w, Check(now, order)) && t in w.s.tasks
    ensures TickEffect(env, w, Step(env, w, Check(now, order)), t, now)
  {
    if !w.s.stopped {
      var w0 := w.(clock := now);
      AnyClock(env, w, now);
      TickFiresExactlyDue(env, w, now, order, t, false);
      FileTickInv(env, w0);
      if w.s.isOwner {
        FileTickAt(env, w0, t);
      }
      var w1 := w0.(s := FileTick(env, w.s, now));
      SessionProcessingKeeps(env, w1, order);
      IdOfMember(w.s.tasks, t);
      OthersLeaveAt(env, w1.s, order, true, now, t.id);
    }
  }

  // ---- Along a run ----

  /** What one event means to one file task. */
  datatype Mark = Ticked(fires: bool, repeats: bool) | Other(unmarks: bool, stops: bool)

  ghost function MarkOf(env: Env, v: World, next: World, e: Event, t: CronTask): Mark {
    if e.Check? then Ticked(FiresIn(v, next, t, e.now), Repeats(env, t, e.now)) else Other(Unmarks(e, t.id), e.Stop?)
  }

  ghost function EventMark(env: Env, w: World, events: seq<Event>, k: nat, t: CronTask): (m: Mark)
    requires SaneConfig(env.cfg) && k < |events|
    ensures m.Ticked? ==> events[k].Check? && m.repeats == Repeats(env, t, events[k].now)
  {
    MarkOf(env, WorldAt(env, w, events, k), WorldAt(env, w, events, k + 1), events[k], t)
  }

  ghost function Marks(env: Env, w: World, events: seq<Event>, t: CronTask): (marks: seq<Mark>)
    requires SaneConfig(env.cfg)
    ensures |marks| == |events|
  {
    seq(|events|, k requires 0 <= k < |events| => EventMark(env, w, events, k, t))
  }

  predicate Fired(m: Mark) { m.Ticked? && m.fires }
  predicate Ended(m: Mark) { m.Ticked? && m.fires && !m.repeats }
  predicate Unmarked(m: Mark) { m.Other? && m.unmarks }
  predicate Halted(m: Mark) { m.Other? && m.stops }

  predicate UnmarkedIn(marks: seq<Mark>, m: int, n: int)
    requires 0 <= m && n <= |marks|
  {
    exists k :: m < k < n && Unmarked(marks[k])
  }

  /** Some firing among the first `n` marks has not been followed by an unmarking. */
  predicate Pending(marks: seq<Mark>, n: nat)
    requires n <= |marks|
  {
    exists m :: 0 <= m < n && Fired(marks[m]) && !UnmarkedIn(marks, m, n)
  }

  /** What matters of the past; `ended` is about the latest firing. */
  datatype Past = Past(stopped: bool, pending: bool, fired: bool, ended: bool)

  function PastAt(marks: seq<Mark>, n: nat): Past
    requires n <= |marks|
  {
    Past(exists k :: 0 <= k < n && Halted(marks[k]),
         Pending(marks, n),
         exists k :: 0 <= k < n && Fired(marks[k]),
         EndedLast(marks, n))
  }

  /** The latest firing among the first `n` marks was not to be followed by another. */
  predicate EndedLast(marks: seq<Mark>, n: nat)
    requires n <= |marks|
  {
    exists k :: 0 <= k < n && Ended(marks[k]) && forall l :: k < l < n ==> !Fired(marks[l])
  }

  function AfterMark(h: Past, m: Mark): Past {
    Past(h.stopped || Halted(m),
         Fired(m) || (h.pending && !Unmarked(m)),
         h.fired || Fired(m),
         if Fired(m) then Ended(m) else h.ended)
  }

  lemma {:induction false} PendingStep(marks: seq<Mark>, n: nat)
    requires n < |marks|
    ensures Pending(marks, n + 1) <==> Fired(marks[n]) || (Pending(marks, n) && !Unmarked(marks[n]))
  {
    forall m | 0 <= m <= n
      ensures UnmarkedIn(marks, m, n + 1) <==> UnmarkedIn(marks, m, n) || (m < n && Unmarked(marks[n]))
    {
    }
    if Fired(marks[n]) {
      assert !UnmarkedIn(marks, n, n + 1);
    }
  }

  lemma {:induction false} PastStep(marks: seq<Mark>, n: nat)
    requires n < |marks|
    ensures PastAt(marks, n + 1) == AfterMark(PastAt(marks, n), marks[n])
  {
    PendingStep(marks, n);
    if Ended(marks[n]) {
      assert EndedLast(marks, n + 1);
    }
    if EndedLast(marks, n) && !Fired(marks[n]) {
      var k :| 0 <= k < n && Ended(marks[k]) && forall l :: k < l < n ==> !Fired(marks[l]);
      assert forall l :: k < l < n + 1 ==> !Fired(marks[l]);
      assert EndedLast(marks, n + 1);
    }
  }

  /** The state remembers just enough of the past. */
  ghost predicate Recalls(env: Env, v: World, owner: bool, t: CronTask, h: Past)
    requires SaneConfig(env.cfg)
  {
    && v.s.stopped == h.stopped && v.s.isOwner == (owner && !h.stopped)
    && (t.id in v.s.inFlight <==> h.pending)
    && (t.id in v.s.nextFireAt && (h.fired ==> h.ended) ==> v.s.nextFireAt[t.id] == FirstTime(env, t))
    && (h.ended ==> h.fired)
  }

  lemma {:induction false} TickRecalls(env: Env, w: World, v: World, owner: bool, t: CronTask, now: int, h: Past)
    requires SaneConfig(env.cfg) && Recalls(env, w, owner, t, h) && TickEffect(env, w, v, t, now)
    ensures Recalls(env, v, owner, t, AfterMark(h, Ticked(FiresIn(w, v, t, now), Repeats(env, t, now))))
  {
  }

  /** Any other event changes the marks only. */
  ghost predicate OtherEffect(w: World, v: World, e: Event, id: string) {
    && v.s.tasks == w.s.tasks && v.s.nextFireAt == w.s.nextFireAt
    && v.s.stopped == (w.s.stopped || e.Stop?) && v.s.isOwner == (w.s.isOwner && !e.Stop?)
    && (id in v.s.inFlight <==> id in w.s.inFlight && !Unmarks(e, id))
  }

  lemma {:induction false} OtherAt(env: Env, w: World, e: Event, id: string)
    requires SaneConfig(env.cfg) && !e.Check?
    ensures OtherEffect(w, Step(env, w, e), e, id)
  {
  }

  lemma {:induction false} OtherRecalls(env: Env, w: World, v: World, owner: bool, t: CronTask, e: Event, h: Past)
    requires SaneConfig(env.cfg) && Recalls(env, w, owner, t, h) && OtherEffect(w, v, e, t.id)
    ensures Recalls(env, v, owner, t, AfterMark(h, Other(Unmarks(e, t.id), e.Stop?)))
  {
  }

  lemma {:induction false} StepRecalls(env: Env, v: World, next: World, e: Event, owner: bool, t: CronTask, h: Past)
    requires SaneConfig(env.cfg) && Inv(env, v) && Enabled(env, v, e) && next == Step(env, v, e)
    requires t in v.s.tasks && Recalls(env, v, owner, t, h)
    ensures Inv(env, next) && t in next.s.tasks
            && Recalls(env, next, owner, t, AfterMark(h, MarkOf(env, v, next, e, t)))
  {
    StepInv(env, v, e);
    if e.Check? {
      TickAt(env, v, e.now, e.order, t);
      TickRecalls(env, v, next, owner, t, e.now, h);
    } else {
      OtherAt(env, v, e, t.id);
      OtherRecalls(env, v, next, owner, t, e, h);
    }
  }

  /** The invariant and what is recalled before event `n`. */
  ghost predicate Tracked(env: Env, v: World, owner: bool, t: CronTask, h: Past)
    requires SaneConfig(env.cfg)
  {
    Inv(env, v) && t in v.s.tasks && Recalls(env, v, owner, t, h)
  }

  lemma {:induction false} TrackStep(env: Env, v: World, next: World, e: Event, owner: bool, t: CronTask,
                                     marks: seq<Mark>, k: nat)
    requires SaneConfig(env.cfg) && Enabled(env, v, e) && next == Step(env, v, e)
    requires k < |marks| && marks[k] == MarkOf(env, v, next, e, t)
    requires Tracked(env, v, owner, t, PastAt(marks, k))
    ensures Tracked(env, next, owner, t, PastAt(marks, k + 1))
  {
    StepRecalls(env, v, next, e, owner, t, PastAt(marks, k));
    PastStep(marks, k);
  }

  lemma {:induction false} MarkAt(env: Env, w: World, events: seq<Event>, k: nat, t: CronTask)
    requires SaneConfig(env.cfg) && Runs(env, w, events) && k < |events|
    ensures Enabled(env, WorldAt(env, w, events, k), events[k])
    ensures WorldAt(env, w, events, k + 1) == Step(env, WorldAt(env, w, events, k), events[k])
    ensures Marks(env, w, events, t)[k]
         == MarkOf(env, WorldAt(env, w, events, k), WorldAt(env, w, events, k + 1), events[k], t)
  {
  }

  lemma {:induction false} TracksOn(env: Env, w: World, events: seq<Event>, n: nat, owner: bool, t: CronTask)
    requires SaneConfig(env.cfg) && Runs(env, w, events) && n <= |events|
    requires Tracked(env, WorldAt(env, w, events, 0), owner, t, PastAt(Marks(env, w, events, t), 0))
    ensures Tracked(env, WorldAt(env, w, events, n), owner, t, PastAt(Marks(env, w, events, t), n))
  {
    if n > 0 {
      var k := n - 1;
      TracksOn(env, w, events, k, owner, t);
      TracksNext(env, w, events, k, owner, t);
    }
  }

  lemma {:induction false} TracksNext(env: Env, w: World, events: seq<Event>, k: nat, owner: bool, t: CronTask)
    requires SaneConfig(env.cfg) && Runs(env, w, events) && k < |events|
    requires Tracked(env, WorldAt(env, w, events, k), owner, t, PastAt(Marks(env, w, events, t), k))
    ensures Tracked(env, WorldAt(env, w, events, k + 1), owner, t, PastAt(Marks(env, w, events, t), k + 1))
  {
    MarkAt(env, w, events, k, t);
    var v, next := WorldAt(env, w, events, k), WorldAt(env, w, events, k + 1);
    TrackStep(env, v, next, events[k], owner, t, Marks(env, w, events, t), k);
  }

  /** A task of the file that `start` did not announce as missed. */
  ghost predicate Watched(env: Env, w: World, fileTasks: seq<CronTask>, owner: bool, session: map<string, CronTask>,
                          t: CronTask) {
    SaneConfig(env.cfg) && Initial(env, w, fileTasks, owner, session) && t in fileTasks && t.id !in w.s.announced
  }

  lemma {:induction false} RunTracks(env: Env, w: World, fileTasks: seq<CronTask>, owner: bool,
                                     session: map<string, CronTask>,
                                     events: seq<Event>, n: nat, t: CronTask)
    requires Watched(env, w, fileTasks, owner, session, t) && Runs(env, w, events) && n <= |events|
    ensures Tracked(env, WorldAt(env, w, events, n), owner, t, PastAt(Marks(env, w, events, t), n))
  {
    InitialInv(env, w, fileTasks, owner, session);
    StartRecalls(env, w, fileTasks, owner, session, t);
    assert PastAt(Marks(env, w, events, t), 0) == Past(false, false, false, false);
    assert WorldAt(env, w, events, 0) == w;
    TracksOn(env, w, events, n, owner, t);
  }

  lemma {:induction false} StartRecalls(env: Env, w: World, fileTasks: seq<CronTask>, owner: bool,
                                        session: map<string, CronTask>,
                                        t: CronTask)
    requires Watched(env, w, fileTasks, owner, session, t)
    ensures t in w.s.tasks && Recalls(env, w, owner, t, Past(false, false, false, false))
  {
  }

  /** Of the firings before event `n`, event `m` is the latest, and `t` was not to fire again. */
  ghost predicate EndsLast(env: Env, w: World, events: seq<Event>, m: int, n: nat, t: CronTask)
    requires SaneConfig(env.cfg)
  {
    && 0 <= m < n && FiresAt(env, w, events, m, t) && !Repeats(env, t, events[m].now)
    && forall l :: m < l < n ==> !FiresAt(env, w, events, l, t)
  }

  lemma MarkOfIs(env: Env, v: World, next: World, e: Event, t: CronTask)
    ensures var m := MarkOf(env, v, next, e, t);
            && (Fired(m) <==> e.Check? && FiresIn(v, next, t, e.now))
            && (Ended(m) <==> e.Check? && FiresIn(v, next, t, e.now) && !Repeats(env, t, e.now))
            && (Unmarked(m) <==> Unmarks(e, t.id))
            && (Halted(m) <==> e.Stop?)
  {
  }

  lemma {:induction false} MarkIs(env: Env, w: World, events: seq<Event>, t: CronTask, k: nat)
    requires SaneConfig(env.cfg) && k < |events|
    ensures var m := Marks(env, w, events, t)[k];
            && (Fired(m) <==> FiresAt(env, w, events, k, t))
            && (Ended(m) <==> FiresAt(env, w, events, k, t) && !Repeats(env, t, events[k].now))
            && (Unmarked(m) <==> Unmarks(events[k], t.id))
            && (Halted(m) <==> events[k].Stop?)
  {
    MarkOfIs(env, WorldAt(env, w, events, k), WorldAt(env, w, events, k + 1), events[k], t);
  }

  /** The past in terms of events. */
  lemma {:induction false} PastIs(env: Env, w: World, events: seq<Event>, n: nat, t: CronTask)
    requires SaneConfig(env.cfg) && n <= |events|
    ensures var h := PastAt(Marks(env, w, events, t), n);
            && (h.stopped <==> StoppedBefore(events, n))
            && (h.pending <==>
                exists m :: 0 <= m < n && FiresAt(env, w, events, m, t) && !UnmarkedBetween(events, m, n, t.id))
            && (h.fired <==> exists m :: 0 <= m < n && FiresAt(env, w, events, m, t))
  {
    var marks := Marks(env, w, events, t);
    forall k | 0 <= k < |events|
      ensures Fired(marks[k]) <==> FiresAt(env, w, events, k, t)
      ensures Unmarked(marks[k]) <==> Unmarks(events[k], t.id)
      ensures Halted(marks[k]) <==> events[k].Stop?
    {
      MarkIs(env, w, events, t, k);
    }
    forall m | 0 <= m < n
      ensures UnmarkedIn(marks, m, n) <==> UnmarkedBetween(events, m, n, t.id)
    {
    }
  }

  lemma {:induction false} EndedIs(env: Env, w: World, events: seq<Event>, m: nat, n: nat, t: CronTask)
    requires SaneConfig(env.cfg) && n <= |events| && EndsLast(env, w, events, m, n, t)
    ensures PastAt(Marks(env, w, events, t), n).ended
  {
    var marks := Marks(env, w, events, t);
    forall k | 0 <= k < |events|
      ensures Fired(marks[k]) <==> FiresAt(env, w, events, k, t)
    {
      MarkIs(env, w, events, t, k);
    }
    MarkIs(env, w, events, t, m);
  }

  lemma {:induction false} FiringsEnd(marks: seq<Mark>, n: nat)
    requires n <= |marks| && forall k :: 0 <= k < |marks| ==> (Fired(marks[k]) ==> Ended(marks[k]))
    ensures PastAt(marks, n).fired ==> PastAt(marks, n).ended
  {
    if n > 0 {
      FiringsEnd(marks, n - 1);
      PastStep(marks, n - 1);
    }
  }

  lemma {:induction false} OneShotEnds(env: Env, w: World, events: seq<Event>, n: nat, t: CronTask)
    requires SaneConfig(env.cfg) && n <= |events| && !t.recurring
    ensures var h := PastAt(Marks(env, w, events, t), n); h.fired ==> h.ended
  {
    var marks := Marks(env, w, events, t);
    forall k | 0 <= k < |marks|
      ensures Fired(marks[k]) ==> Ended(marks[k])
    {
      assert marks[k] == EventMark(env, w, events, k, t);
    }
    FiringsEnd(marks, n);
  }

  /** A tick before which `t` has either not fired or ended with its latest firing. */
  lemma {:induction false} FiresIff(env: Env, v: World, next: World, now: int, order: seq<CronTask>, owner: bool,
                                    t: CronTask, h: Past)
    requires SaneConfig(env.cfg) && Tracked(env, v, owner, t, h) && (h.fired ==> h.ended)
    requires Enabled(env, v, Check(now, order)) && next == Step(env, v, Check(now, order))
    ensures FiresIn(v, next, t, now) <==> owner && !h.stopped && FirstTime(env, t) <= now && !h.pending
  {
    TickAt(env, v, now, order, t);
  }

  // ---- The theorems ----

  /** A one-shot of the file fires at a tick exactly when the scheduler owns the lock
      and has not been stopped, its fire time has come, and each of its firings so
      far has been followed by the end of a rewrite that had it in flight. */
  lemma OneShotFiresIff(env: Env, w: World, fileTasks: seq<CronTask>, owner: bool, session: map<string, CronTask>,
                        events: seq<Event>, n: nat, t: CronTask)
    requires Watched(env, w, fileTasks, owner, session, t) && Runs(env, w, events)
    requires n < |events| && events[n].Check? && !t.recurring
    ensures FiresAt(env, w, events, n, t) <==>
            && owner && !StoppedBefore(events, n) && FirstTime(env, t) <= events[n].now
            && forall m :: 0 <= m < n && FiresAt(env, w, events, m, t) ==> UnmarkedBetween(events, m, n, t.id)
  {
    RunTracks(env, w, fileTasks, owner, session, events, n, t);
    PastIs(env, w, events, n, t);
    OneShotEnds(env, w, events, n, t);
    var v := WorldAt(env, w, events, n);
    assert Enabled(env, v, events[n]);
    FiresIff(env, v, WorldAt(env, w, events, n + 1), events[n].now, events[n].order, owner, t,
             PastAt(Marks(env, w, events, t), n));
  }

  /** Once a file task has fired and was not to fire again, because it is a one-shot or
      has aged out, its next firing comes at a tick exactly when the scheduler has not
      been stopped, its first fire time has come and a rewrite that had it in flight
      has ended since. */
  lemma EndedTaskFiresAgainIff(env: Env, w: World, fileTasks: seq<CronTask>, owner: bool,
                               session: map<string, CronTask>,
                               events: seq<Event>, m: nat, n: nat, t: CronTask)
    requires Watched(env, w, fileTasks, owner, session, t) && Runs(env, w, events)
    requires m < n < |events| && events[n].Check? && EndsLast(env, w, events, m, n, t)
    ensures FiresAt(env, w, events, n, t) <==>
            !StoppedBefore(events, n) && FirstTime(env, t) <= events[n].now && UnmarkedBetween(events, m, n, t.id)
  {
    RunTracks(env, w, fileTasks, owner, session, events, n, t);
    PastIs(env, w, events, n, t);
    EndedIs(env, w, events, m, n, t);
    var v := WorldAt(env, w, events, n);
    assert Enabled(env, v, events[n]);
    var h := PastAt(Marks(env, w, events, t), n);
    FiresIff(env, v, WorldAt(env, w, events, n + 1), events[n].now, events[n].order, owner, t, h);
    OnlyOwnersFire(env, w, fileTasks, owner, session, events, m, t);
    assert h.pending <==> !UnmarkedBetween(events, m, n, t.id);
  }

  lemma {:induction false} FirstFiring(env: Env, w: World, events: seq<Event>, m: nat, t: CronTask) returns (f: nat)
    requires SaneConfig(env.cfg) && FiresAt(env, w, events, m, t)
    ensures f <= m && FiresAt(env, w, events, f, t) && forall l :: 0 <= l < f ==> !FiresAt(env, w, events, l, t)
  {
    if l :| 0 <= l < m && FiresAt(env, w, events, l, t) {
      f := FirstFiring(env, w, events, l, t);
    } else {
      f := m;
    }
  }

  lemma {:induction false} LastFiring(env: Env, w: World, events: seq<Event>, m: nat, n: nat, t: CronTask)
    returns (f: nat)
    requires SaneConfig(env.cfg) && m < n && FiresAt(env, w, events, m, t)
    ensures m <= f < n && FiresAt(env, w, events, f, t) && forall l :: f < l < n ==> !FiresAt(env, w, events, l, t)
    decreases n - m
  {
    if l :| m < l < n && FiresAt(env, w, events, l, t) {
      f := LastFiring(env, w, events, l, n, t);
    } else {
      f := m;
    }
  }

  lemma FirstFiringIsDue(env: Env, w: World, fileTasks: seq<CronTask>, owner: bool, session: map<string, CronTask>,
                         events: seq<Event>, f: nat, t: CronTask)
    requires Watched(env, w, fileTasks, owner, session, t) && Runs(env, w, events)
    requires FiresAt(env, w, events, f, t) && forall l :: 0 <= l < f ==> !FiresAt(env, w, events, l, t)
    ensures FirstTime(env, t) <= events[f].now
  {
    RunTracks(env, w, fileTasks, owner, session, events, f, t);
    PastIs(env, w, events, f, t);
    var v := WorldAt(env, w, events, f);
    assert Enabled(env, v, events[f]);
    var h := PastAt(Marks(env, w, events, t), f);
    FiresIff(env, v, WorldAt(env, w, events, f + 1), events[f].now, events[f].order, owner, t, h);
  }

  /** On a clock that is never set back such a task stays due and ended, so it fires
      again at any later tick exactly when the scheduler has not been stopped and each
      firing so far has been followed by the end of a rewrite that had it in flight. */
  lemma EndedTaskOnForwardClock(env: Env, w: World, fileTasks: seq<CronTask>, owner: bool,
                                session: map<string, CronTask>,
                                events: seq<Event>, m: nat, n: nat, t: CronTask)
    requires Watched(env, w, fileTasks, owner, session, t) && Runs(env, w, events) && Forward(w.clock, events)
    requires m < n < |events| && events[n].Check?
    requires FiresAt(env, w, events, m, t) && !Repeats(env, t, events[m].now)
    ensures FiresAt(env, w, events, n, t) <==>
            && !StoppedBefore(events, n)
            && forall k :: 0 <= k < n && FiresAt(env, w, events, k, t) ==> UnmarkedBetween(events, k, n, t.id)
  {
    StaysDue(env, w, fileTasks, owner, session, events, m, n, t);
    var l := StaysEnded(env, w, events, m, n, t);
    LastStandsForAll(env, w, events, l, n, t);
    EndedTaskFiresAgainIff(env, w, fileTasks, owner, session, events, l, n, t);
  }

  lemma StaysDue(env: Env, w: World, fileTasks: seq<CronTask>, owner: bool, session: map<string, CronTask>,
                 events: seq<Event>, m: nat, n: nat, t: CronTask)
    requires Watched(env, w, fileTasks, owner, session, t) && Runs(env, w, events) && Forward(w.clock, events)
    requires m < n < |events| && events[n].Check? && FiresAt(env, w, events, m, t)
    ensures FirstTime(env, t) <= events[n].now
  {
    var f := FirstFiring(env, w, events, m, t);
    FirstFiringIsDue(env, w, fileTasks, owner, session, events, f, t);
  }

  lemma StaysEnded(env: Env, w: World, events: seq<Event>, m: nat, n: nat, t: CronTask) returns (l: nat)
    requires SaneConfig(env.cfg) && Forward(w.clock, events)
    requires m < n < |events| && FiresAt(env, w, events, m, t) && !Repeats(env, t, events[m].now)
    ensures EndsLast(env, w, events, l, n, t)
  {
    l := LastFiring(env, w, events, m, n, t);
    assert events[m].now <= events[l].now;
  }

  /** Whatever ends after the latest firing ends after all of them. */
  lemma {:induction false} LastStandsForAll(env: Env, w: World, events: seq<Event>, l: nat, n: nat, t: CronTask)
    requires SaneConfig(env.cfg) && n <= |events| && EndsLast(env, w, events, l, n, t)
    ensures UnmarkedBetween(events, l, n, t.id) <==>
            forall k :: 0 <= k < n && FiresAt(env, w, events, k, t) ==> UnmarkedBetween(events, k, n, t.id)
  {
    if UnmarkedBetween(events, l, n, t.id) {
      forall k | 0 <= k < n && FiresAt(env, w, events, k, t)
        ensures UnmarkedBetween(events, k, n, t.id)
      {
        assert k <= l;
      }
    }
  }

  lemma OnlyOwnersFire(env: Env, w: World, fileTasks: seq<CronTask>, owner: bool, session: map<string, CronTask>,
                       events: seq<Event>, m: nat, t: CronTask)
    requires Watched(env, w, fileTasks, owner, session, t) && Runs(env, w, events) && FiresAt(env, w, events, m, t)
    ensures owner
  {
    RunTracks(env, w, fileTasks, owner, session, events, m, t);
    var v := WorldAt(env, w, events, m);
    assert Enabled(env, v, events[m]);
    TickAt(env, v, events[m].now, events[m].order, t);
  }

  // ---- A run in which a one-shot fires twice ----

  lemma EmptySessionStays(env: Env, w: World, now: int)
    requires SaneConfig(env.cfg) && w.s.session == map[]
    ensures Step(env, w, Check(now, [])).s.session == map[]
  {
    if !w.s.stopped {
      FileProcessingKeeps(env, w.(clock := now), w.s.tasks);
    }
  }

  /** A run of two ticks that both fire `t`, and the end of its removal between them. */
  ghost predicate FiresTwice(env: Env, w: World, events: seq<Event>, t: CronTask)
    requires SaneConfig(env.cfg)
  {
    && |events| == 3 && events[1] == RemoveDone(t.id) && Runs(env, w, events)
    && FiresAt(env, w, events, 0, t) && FiresAt(env, w, events, 2, t)
  }

  /** From every start with the lock and no session tasks: tick, end of the removal,
      tick.  Both ticks fire the one-shot. */
  lemma OneShotFiresTwice(env: Env, w: World, fileTasks: seq<CronTask>, t: CronTask, now: int, later: int)
    requires Watched(env, w, fileTasks, true, map[], t) && !t.recurring
    requires FirstTime(env, t) <= now < INFINITY && FirstTime(env, t) <= later < INFINITY
    ensures FiresTwice(env, w, [Check(now, []), RemoveDone(t.id), Check(later, [])], t)
  {
    var events := [Check(now, []), RemoveDone(t.id), Check(later, [])];
    var w1, w2 := WorldAt(env, w, events, 1), WorldAt(env, w, events, 2);
    assert WorldAt(env, w, events, 0) == w;
    assert w1 == Step(env, w, events[0]) && w2 == Step(env, w1, events[1]);
    assert w.s.session == map[];
    EmptySessionStays(env, w, now);
    assert w2.s.session == map[];
    assert Enabled(env, w, events[0]) && Enabled(env, w1, events[1]) && Enabled(env, w2, events[2]);
    assert Runs(env, w, events);
    OneShotFiresIff(env, w, fileTasks, true, map[], events, 0, t);
    OneShotFiresIff(env, w, fileTasks, true, map[], events, 2, t);
    assert Unmarks(events[1], t.id);
    assert UnmarkedBetween(events, 0, 2, t.id);
    assert !FiresAt(env, w, events, 1, t);
  }
}
