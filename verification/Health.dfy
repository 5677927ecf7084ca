/**
 The concurrent health sweep (HealthChecker.Check in internal/project/health.go): one
 goroutine seeds entries and spawns probes, the probes queue for a semaphore of 64 and
 fold their verdicts into a shared map under a mutex, in any order.
 */
module HealthSweep {

  const MAX_CONCURRENT_DIALS: nat := 64

  datatype Project = Project(id: nat, assignedPort: int, devPort: int)

  datatype Health = Health(app: bool, dev: bool)

  /** The probe of one environment of the i-th project. */
  datatype Task = Task(i: nat, dev: bool)

  /** A sweep: the projects and what each port would answer. */
  datatype Sweep = Sweep(projects: seq<Project>, serving: int -> bool)

  /** A probe waits for the semaphore, holds it while it dials and folds its verdict in, then lets go. */
  datatype Phase = Waiting | Dialing | Folded | Done

  /** `next` is the seeding loop's position; `holders` are the probes holding a semaphore slot. */
  datatype State = State(next: nat, result: map<nat, Health>, tasks: map<Task, Phase>, holders: set<Task>)

  datatype Event = Seed | Acquire(t: Task) | Fold(t: Task) | Release(t: Task)

  const START: State := State(0, map[], map[], {})

  function PortOf(p: Project, dev: bool): (r: int) {
    if dev then p.devPort else p.assignedPort
  }

  /** A project's entry is seeded and a probe spawned for each of its ports that is set. */
  function SeedStep(w: Sweep, s: State): (r: State) {
    if s.next >= |w.projects| then s
    else
      var i, p := s.next, w.projects[s.next];
      var tasks := if p.assignedPort > 0 then s.tasks[Task(i, false) := Waiting] else s.tasks;
      s.(next := i + 1, result := s.result[p.id := Health(false, false)],
         tasks := if p.devPort > 0 then tasks[Task(i, true) := Waiting] else tasks)
  }

  function AcquireStep(s: State, t: Task): (r: State) {
    if t in s.tasks && s.tasks[t] == Waiting && |s.holders| < MAX_CONCURRENT_DIALS
    then s.(tasks := s.tasks[t := Dialing], holders := s.holders + {t})
    else s
  }

  function SetHealth(h: Health, dev: bool, up: bool): (r: Health) {
    if dev then h.(dev := up) else h.(app := up)
  }

  function FoldStep(w: Sweep, s: State, t: Task): (r: State) {
    if t !in s.tasks || s.tasks[t] != Dialing || t.i >= |w.projects| then s
    else
      var p := w.projects[t.i];
      var h := if p.id in s.result then s.result[p.id] else Health(false, false);
      s.(result := s.result[p.id := SetHealth(h, t.dev, w.serving(PortOf(p, t.dev)))], tasks := s.tasks[t := Folded])
  }

  function ReleaseStep(s: State, t: Task): (r: State) {
    if t in s.tasks && s.tasks[t] == Folded then s.(tasks := s.tasks[t := Done], holders := s.holders - {t}) else s
  }

  function Apply(w: Sweep, s: State, e: Event): (r: State) {
    match e
    case Seed => SeedStep(w, s)
    case Acquire(t) => AcquireStep(s, t)
    case Fold(t) => FoldStep(w, s, t)
    case Release(t) => ReleaseStep(s, t)
  }

  function Run(w: Sweep, es: seq<Event>): (r: State) {
    if es == [] then START else Apply(w, Run(w, es[..|es| - 1]), es[|es| - 1])
  }

  /** The loop is over and wg.Wait returns: every spawned probe is done. */
  predicate Finished(w: Sweep, s: State) {
    s.next >= |w.projects| && forall t | t in s.tasks :: s.tasks[t] == Done
  }

  // ---- Invariants ------------------------------------------------------------------------------

  ghost predicate DistinctIds(w: Sweep) {
    forall i, j | 0 <= i < j < |w.projects| :: w.projects[i].id != w.projects[j].id
  }

  ghost predicate Spawned(w: Sweep, next: nat, t: Task) {
    t.i < next && t.i < |w.projects| && PortOf(w.projects[t.i], t.dev) > 0
  }

  ghost predicate IsFolded(tasks: map<Task, Phase>, t: Task) {
    t in tasks && (tasks[t] == Folded || tasks[t] == Done)
  }

  /** A seeded project's entry reflects exactly the probes folded so far. */
  ghost predicate EntryOk(w: Sweep, s: State, i: nat)
    requires i < |w.projects|
  {
    var p := w.projects[i];
    && p.id in s.result
    && s.result[p.id].app == (IsFolded(s.tasks, Task(i, false)) && w.serving(p.assignedPort))
    && s.result[p.id].dev == (IsFolded(s.tasks, Task(i, true)) && w.serving(p.devPort))
  }

  ghost predicate EntriesOk(w: Sweep, s: State) {
    && s.next <= |w.projects|
    && (forall i: nat | i < s.next :: EntryOk(w, s, i))
    && (forall id | id in s.result :: exists i: nat :: i < s.next && w.projects[i].id == id)
  }

  ghost predicate TasksOk(w: Sweep, s: State) {
    && |s.holders| <= MAX_CONCURRENT_DIALS
    && (forall t :: t in s.tasks <==> Spawned(w, s.next, t))
    && (forall t :: t in s.holders <==> t in s.tasks && (s.tasks[t] == Dialing || s.tasks[t] == Folded))
  }

  ghost predicate Inv(w: Sweep, s: State) {
    EntriesOk(w, s) && TasksOk(w, s)
  }

  lemma SeedKeepsTasks(w: Sweep, s: State)
    requires TasksOk(w, s) && s.next < |w.projects|
    ensures TasksOk(w, SeedStep(w, s))
    ensures Task(s.next, false) !in s.tasks && Task(s.next, true) !in s.tasks
  {
  }

  lemma SeedKeepsEntry(w: Sweep, s: State, i: nat)
    requires DistinctIds(w) && s.next < |w.projects| && i <= s.next
    requires Task(s.next, false) !in s.tasks && Task(s.next, true) !in s.tasks
    requires i < s.next ==> EntryOk(w, s, i)
    ensures EntryOk(w, SeedStep(w, s), i)
  {
  }

  lemma SeedKeepsInv(w: Sweep, s: State)
    requires DistinctIds(w) && Inv(w, s)
    ensures Inv(w, SeedStep(w, s))
  {
    hide TasksOk, EntryOk, DistinctIds;
    if s.next < |w.projects| {
      var u := SeedStep(w, s);
      SeedKeepsTasks(w, s);
      forall i: nat | i < u.next ensures EntryOk(w, u, i) {
        SeedKeepsEntry(w, s, i);
      }
      forall id | id in u.result ensures exists i: nat :: i < u.next && w.projects[i].id == id {
        assert s.next < u.next && (id in s.result || w.projects[s.next].id == id);
      }
    }
  }

  lemma FoldKeepsEntry(w: Sweep, s: State, t: Task, i: nat)
    requires DistinctIds(w) && i < |w.projects| && EntryOk(w, s, i)
    ensures EntryOk(w, FoldStep(w, s, t), i)
  {
  }

  lemma FoldKeepsInv(w: Sweep, s: State, t: Task)
    requires DistinctIds(w) && Inv(w, s)
    ensures Inv(w, FoldStep(w, s, t))
  {
    hide EntryOk, DistinctIds;
    var u := FoldStep(w, s, t);
    assert TasksOk(w, u);
    assert t in s.tasks ==> Spawned(w, s.next, t);
    hide TasksOk;
    forall i: nat | i < u.next ensures EntryOk(w, u, i) {
      FoldKeepsEntry(w, s, t, i);
    }
  }

  /** Taking or releasing a slot folds nothing, so no entry changes its meaning. */
  lemma SlotStepKeepsInv(w: Sweep, s: State, u: State)
    requires Inv(w, s) && u.next == s.next && u.result == s.result && TasksOk(w, u)
    requires forall t :: IsFolded(u.tasks, t) <==> IsFolded(s.tasks, t)
    ensures Inv(w, u)
  {
    hide TasksOk, IsFolded;
    forall i: nat | i < u.next ensures EntryOk(w, u, i) {
      assert EntryOk(w, s, i);
    }
  }

  lemma AcquireKeepsInv(w: Sweep, s: State, t: Task)
    requires Inv(w, s)
    ensures Inv(w, AcquireStep(s, t))
  {
    hide EntriesOk, Spawned;
    SlotStepKeepsInv(w, s, AcquireStep(s, t));
  }

  lemma ReleaseKeepsInv(w: Sweep, s: State, t: Task)
    requires Inv(w, s)
    ensures Inv(w, ReleaseStep(s, t))
  {
    hide EntriesOk, Spawned;
    SlotStepKeepsInv(w, s, ReleaseStep(s, t));
  }

  lemma ApplyKeepsInv(w: Sweep, s: State, e: Event)
    requires DistinctIds(w) && Inv(w, s)
    ensures Inv(w, Apply(w, s, e))
  {
    hide Inv, DistinctIds, SeedStep, AcquireStep, FoldStep, ReleaseStep;
    match e
    case Seed => SeedKeepsInv(w, s);
    case Acquire(t) => AcquireKeepsInv(w, s, t);
    case Fold(t) => FoldKeepsInv(w, s, t);
    case Release(t) => ReleaseKeepsInv(w, s, t);
  }

  lemma StartOk(w: Sweep)
    ensures Inv(w, START)
  {
  }

  lemma {:induction false} EveryRun(w: Sweep, es: seq<Event>)
    requires DistinctIds(w)
    ensures Inv(w, Run(w, es))
  {
    hide Inv, Apply, DistinctIds;
    if es == [] {
      StartOk(w);
    } else {
      EveryRun(w, es[..|es| - 1]);
      ApplyKeepsInv(w, Run(w, es[..|es| - 1]), es[|es| - 1]);
    }
  }

  // ---- Main results ----------------------------------------------------------------------------

  lemma ApplyKeepsTasks(w: Sweep, s: State, e: Event)
    requires TasksOk(w, s)
    ensures TasksOk(w, Apply(w, s, e))
  {
    if e.Seed? && s.next < |w.projects| {
      SeedKeepsTasks(w, s);
    }
  }

  lemma {:induction false} TasksInEveryRun(w: Sweep, es: seq<Event>)
    ensures TasksOk(w, Run(w, es))
  {
    hide Apply;
    if es != [] {
      TasksInEveryRun(w, es[..|es| - 1]);
      ApplyKeepsTasks(w, Run(w, es[..|es| - 1]), es[|es| - 1]);
    }
  }

  /** No reachable state has more than 64 probes in flight, whatever the projects' ids are. */
  lemma NeverMoreThan64(w: Sweep, es: seq<Event>)
    ensures
      var s := Run(w, es);
      && |s.holders| <= MAX_CONCURRENT_DIALS
      && forall t | t in s.tasks && s.tasks[t] == Dialing :: t in s.holders
  {
    TasksInEveryRun(w, es);
    hide Run;
  }

  /** A spawned probe that is waiting gets a slot exactly when fewer than 64 probes hold one, so the sweep never
      runs fewer probes at once than it could. */
  lemma SlotIsGivenIff(w: Sweep, es: seq<Event>, t: Task)
    requires t in Run(w, es).tasks && Run(w, es).tasks[t] == Waiting
    ensures t in Apply(w, Run(w, es), Acquire(t)).holders <==> |Run(w, es).holders| < 64
  {
    TasksInEveryRun(w, es);
    hide Run;
  }

  /** Each port's verdict, with unset ports down. */
  function Verdict(w: Sweep, p: Project): (h: Health) {
    Health(p.assignedPort > 0 && w.serving(p.assignedPort), p.devPort > 0 && w.serving(p.devPort))
  }

  /** When a sweep is finished its map has exactly the projects' ids, each with its verdict. */
  lemma FinishedMapIsComplete(w: Sweep, es: seq<Event>)
    requires DistinctIds(w) && Finished(w, Run(w, es))
    ensures
      var result := Run(w, es).result;
      && (forall i | 0 <= i < |w.projects| ::
            w.projects[i].id in result && result[w.projects[i].id] == Verdict(w, w.projects[i]))
      && (forall id | id in result :: exists i :: 0 <= i < |w.projects| && w.projects[i].id == id)
  {
    EveryRun(w, es);
    hide Run;
    var s := Run(w, es);
    forall i: nat | i < |w.projects|
      ensures w.projects[i].id in s.result && s.result[w.projects[i].id] == Verdict(w, w.projects[i])
    {
      assert EntryOk(w, s, i);
      assert Task(i, false) in s.tasks <==> Spawned(w, s.next, Task(i, false));
      assert Task(i, true) in s.tasks <==> Spawned(w, s.next, Task(i, true));
    }
  }

  /** Every order of seeding steps, probe starts and completions yields the same map. */
  lemma OrderDoesNotMatter(w: Sweep, es: seq<Event>, fs: seq<Event>)
    requires DistinctIds(w) && Finished(w, Run(w, es)) && Finished(w, Run(w, fs))
    ensures Run(w, es).result == Run(w, fs).result
  {
    FinishedMapIsComplete(w, es);
    FinishedMapIsComplete(w, fs);
    hide Run, Finished, DistinctIds, Verdict;
  }

  /** The sweep cannot get stuck: until it is finished, some step is enabled in every reachable state. */
  lemma NeverStuck(w: Sweep, es: seq<Event>) returns (e: Event)
    requires DistinctIds(w) && !Finished(w, Run(w, es))
    ensures Apply(w, Run(w, es), e) != Run(w, es)
  {
    EveryRun(w, es);
    hide Run, EntriesOk;
    var s := Run(w, es);
    if s.next < |w.projects| {
      e := Seed;
    } else {
      var t :| t in s.tasks && s.tasks[t] != Done;
      if h :| h in s.holders {
        assert Spawned(w, s.next, h);
        e := if s.tasks[h] == Folded then Release(h) else Fold(h);
        assert Apply(w, s, e).tasks[h] != s.tasks[h];
      } else {
        assert s.holders == {};
        e := Acquire(t);
        assert Apply(w, s, e).tasks[t] == Dialing;
      }
    }
  }
}
