/**
 The one-session-per-project cap under overlapping CreateSession calls
 (internal/terminal/manager.go): the lookup for an existing session and the registration
 of a new one are two locked regions with the exec in between.
 */
module SessionCap {
  import Terminal

  /** A CreateSession call that found no session and is on its way to register one, or one that is over. */
  datatype Call = Creating(project: Terminal.ProjectId) | Over

  /** A call is named by its position in `calls`. */
  datatype State = State(manager: Terminal.State, calls: seq<Call>)

  datatype Event =
    | Lookup(project: Terminal.ProjectId)
    | ExecFails(k: nat)
    | Register(k: nat, id: Terminal.SessionId)
    | Other(e: Terminal.Event)

  /** Session ids are fresh; sessions are registered by CreateSession calls only. */
  function Apply(s: State, e: Event): (r: State) {
    match e
    case Lookup(project) =>
      s.(calls := s.calls + [if project in s.manager.byProject then Over else Creating(project)])
    case ExecFails(k) => if k < |s.calls| then s.(calls := s.calls[k := Over]) else s
    case Register(k, id) =>
      if k < |s.calls| && s.calls[k].Creating? && Terminal.Fresh(s.manager, id)
      then State(Terminal.Apply(s.manager, Terminal.Register(id, s.calls[k].project)), s.calls[k := Over])
      else s
    case Other(te) => if te.Register? then s else s.(manager := Terminal.Apply(s.manager, te))
  }

  function Run(s: State, es: seq<Event>): (r: State)
    decreases |es|
  {
    if es == [] then s else Run(Apply(s, es[0]), es[1..])
  }

  /** A call that nothing interrupts leaves no call in flight: it registers its session if the project has none
      and the exec succeeds, and otherwise changes nothing. */
  lemma AloneIsCreateSession(s: State, project: Terminal.ProjectId, id: Terminal.SessionId, execOk: bool)
    requires Terminal.Fresh(s.manager, id)
    ensures
      var k := |s.calls|;
      var t := Apply(Apply(s, Lookup(project)), if execOk then Register(k, id) else ExecFails(k));
      && t.calls == s.calls + [Over]
      && t.manager == if execOk && project !in s.manager.byProject
                      then Terminal.Apply(s.manager, Terminal.Register(id, project)) else s.manager
  {
    hide Terminal.Apply;
  }

  /** At most one session per project. */
  ghost predicate Capped(m: Terminal.State) {
    forall p | p in m.byProject :: |m.byProject[p]| == 1
  }

  /** A registration keeps the cap exactly when the project has no session at that moment. */
  lemma RegisterKeepsCapIff(m: Terminal.State, id: Terminal.SessionId, project: Terminal.ProjectId)
    requires Terminal.Inv(m) && Capped(m) && Terminal.Fresh(m, id)
    ensures Capped(Terminal.Apply(m, Terminal.Register(id, project))) <==> project !in m.byProject
  {
    hide Terminal.Inv;
    var t := Terminal.Apply(m, Terminal.Register(id, project));
    if project in m.byProject {
      UnknownId(m, id, project);
      assert |t.byProject[project]| == |m.byProject[project]| + 1;
    } else {
      assert t.byProject[project] == map[id := |m.heap|];
    }
  }

  lemma UnknownId(m: Terminal.State, id: Terminal.SessionId, project: Terminal.ProjectId)
    requires Terminal.Inv(m) && Terminal.Fresh(m, id)
    ensures project in m.byProject ==> id !in m.byProject[project]
  {
    hide Terminal.TeardownOk, Terminal.FanOk, Terminal.NoEmptyProject;
    assert project in m.byProject && id in m.byProject[project] ==>
             Terminal.Entry(m.byProject, project, id, m.byProject[project][id]);
  }

  // ---- When the cap is safe --------------------------------------------------------------------

  /** No further CreateSession call begins. */
  ghost predicate NoNewCalls(es: seq<Event>) {
    forall i | 0 <= i < |es| :: !es[i].Lookup?
  }

  /** Each call still creating has its project to itself: no session there and no second such call. */
  ghost predicate Exclusive(s: State) {
    && (forall k | 0 <= k < |s.calls| && s.calls[k].Creating? :: s.calls[k].project !in s.manager.byProject)
    && (forall j, k | 0 <= j < k < |s.calls| && s.calls[j].Creating? :: s.calls[j] != s.calls[k])
  }

  ghost predicate AlwaysCapped(s: State) {
    forall es | NoNewCalls(es) :: Capped(Run(s, es).manager)
  }

  /** Steps other than registration put no project into the index and no session into a project. */
  lemma OtherKeepsCap(m: Terminal.State, e: Terminal.Event)
    requires Terminal.Inv(m) && Capped(m) && !e.Register?
    ensures Capped(Terminal.Apply(m, e)) && Terminal.Apply(m, e).byProject.Keys <= m.byProject.Keys
  {
    hide Terminal.Inv;
    if e.Take? && e.id in m.sessions && m.sessions[e.id] < |m.heap| {
      TakeFromCapped(m.byProject, m.heap[m.sessions[e.id]].project, e.id);
    }
  }

  lemma TakeFromCapped(b: Terminal.Projects, project: Terminal.ProjectId, id: Terminal.SessionId)
    requires forall p | p in b :: |b[p]| == 1
    ensures
      var r := Terminal.Unindex(b, project, id);
      r.Keys <= b.Keys && forall p | p in r :: |r[p]| == 1
  {
    if project in b {
      var inner := b[project] - {id};
      assert inner.Keys == b[project].Keys - {id};
      if id !in b[project] {
        assert inner == b[project];
      }
    }
  }

  lemma StepKeepsExclusive(s: State, e: Event)
    requires Terminal.Inv(s.manager) && Capped(s.manager) && Exclusive(s) && !e.Lookup?
    ensures
      var t := Apply(s, e);
      Terminal.Inv(t.manager) && Capped(t.manager) && Exclusive(t)
  {
    hide Terminal.Inv, Terminal.Apply, Capped;
    if e.Register? && e.k < |s.calls| && s.calls[e.k].Creating? && Terminal.Fresh(s.manager, e.id) {
      var p := s.calls[e.k].project;
      Terminal.ApplyKeepsInv(s.manager, Terminal.Register(e.id, p));
      RegisterKeepsCapIff(s.manager, e.id, p);
      RegisterAddsProject(s.manager, e.id, p);
    }
    if e.Other? && !e.e.Register? {
      Terminal.ApplyKeepsInv(s.manager, e.e);
      OtherKeepsCap(s.manager, e.e);
    }
  }

  lemma RegisterAddsProject(m: Terminal.State, id: Terminal.SessionId, project: Terminal.ProjectId)
    requires Terminal.Fresh(m, id)
    ensures Terminal.Apply(m, Terminal.Register(id, project)).byProject.Keys == m.byProject.Keys + {project}
  {
  }

  lemma {:induction false} RunKeepsExclusive(s: State, es: seq<Event>)
    requires Terminal.Inv(s.manager) && Capped(s.manager) && Exclusive(s) && NoNewCalls(es)
    ensures Capped(Run(s, es).manager)
    decreases |es|
  {
    if es != [] {
      hide Terminal.Inv, Capped, Exclusive, Apply;
      StepKeepsExclusive(s, es[0]);
      RunKeepsExclusive(Apply(s, es[0]), es[1..]);
    }
  }

  lemma {:induction false} NewId(heap: seq<Terminal.Sess>) returns (id: Terminal.SessionId)
    ensures forall r | 0 <= r < |heap| :: heap[r].id < id
  {
    id := 0;
    if heap != [] {
      var n := |heap| - 1;
      id := NewId(heap[..n]);
      id := if id <= heap[n].id then heap[n].id + 1 else id;
      assert forall r | 0 <= r < n :: heap[..n][r] == heap[r];
    }
  }

  /** A call that is creating on a project that has a session breaks the cap when it registers. */
  lemma SecondRegistrationBreaks(s: State, k: nat) returns (es: seq<Event>)
    requires Terminal.Inv(s.manager) && Capped(s.manager)
    requires k < |s.calls| && s.calls[k].Creating? && s.calls[k].project in s.manager.byProject
    ensures NoNewCalls(es) && !Capped(Run(s, es).manager)
  {
    hide Capped, Terminal.Inv, Terminal.Apply;
    var id := NewId(s.manager.heap);
    es := [Register(k, id)];
    RegisterKeepsCapIff(s.manager, id, s.calls[k].project);
    assert es[1..] == [];
    assert Run(s, es) == Run(Apply(s, es[0]), []);
  }

  /** With no new call, whatever else happens, the cap holds for good exactly when it holds now and every
      call still creating has its project to itself. */
  lemma CapHoldsIff(s: State)
    requires Terminal.Inv(s.manager)
    ensures AlwaysCapped(s) <==> Capped(s.manager) && Exclusive(s)
  {
    hide Capped, Terminal.Inv, Terminal.Apply;
    if Capped(s.manager) && Exclusive(s) {
      forall es | NoNewCalls(es) ensures Capped(Run(s, es).manager) {
        RunKeepsExclusive(s, es);
      }
    } else if !Capped(s.manager) {
      assert NoNewCalls([]) && Run(s, []) == s;
    } else if k :| 0 <= k < |s.calls| && s.calls[k].Creating? && s.calls[k].project in s.manager.byProject {
      var es := SecondRegistrationBreaks(s, k);
    } else {
      var j, k :| 0 <= j < k < |s.calls| && s.calls[j].Creating? && s.calls[j] == s.calls[k];
      var id := NewId(s.manager.heap);
      var first := Register(j, id);
      var t := Apply(s, first);
      Terminal.ApplyKeepsInv(s.manager, Terminal.Register(id, s.calls[j].project));
      RegisterKeepsCapIff(s.manager, id, s.calls[j].project);
      RegisterAddsProject(s.manager, id, s.calls[j].project);
      var rest := SecondRegistrationBreaks(t, k);
      var es := [first] + rest;
      assert es[1..] == rest && NoNewCalls(es);
      assert Run(s, es) == Run(t, rest);
    }
  }

  /** The cap is lost for every project and any two ids: both calls look before either registers. */
  lemma OverlappingCreatesBreakTheCap(m: Terminal.State, project: Terminal.ProjectId,
                                      id1: Terminal.SessionId, id2: Terminal.SessionId)
    requires Terminal.Inv(m) && Capped(m) && project !in m.byProject
    requires id1 != id2 && Terminal.Fresh(m, id1) && Terminal.Fresh(m, id2)
    ensures
      var looked := Apply(Apply(State(m, []), Lookup(project)), Lookup(project));
      var once := Apply(looked, Register(0, id1));
      && looked.calls == [Creating(project), Creating(project)]
      && Capped(once.manager) && !Capped(Apply(once, Register(1, id2)).manager)
  {
    hide Capped, Terminal.Inv, Terminal.Index;
    var looked := Apply(Apply(State(m, []), Lookup(project)), Lookup(project));
    assert looked.calls == [Creating(project), Creating(project)];
    RegisterKeepsCapIff(m, id1, project);
    RegisterAddsProject(m, id1, project);
    Terminal.ApplyKeepsInv(m, Terminal.Register(id1, project));
    var once := Apply(looked, Register(0, id1));
    RegisterKeepsCapIff(once.manager, id2, project);
  }

  /** Closing a project's session makes room again: the next lone call registers a new one. */
  lemma CloseMakesRoom(s: State, id: Terminal.SessionId)
    requires Terminal.Inv(s.manager) && Capped(s.manager)
    ensures id in s.manager.sessions && s.manager.sessions[id] < |s.manager.heap| ==>
      var project := s.manager.heap[s.manager.sessions[id]].project;
      project !in Apply(s, Other(Terminal.Take(id))).manager.byProject
  {
    hide Terminal.Inv, Terminal.Unindex;
    var m := s.manager;
    if id in m.sessions && m.sessions[id] < |m.heap| {
      var project := m.heap[m.sessions[id]].project;
      RegisteredInProject(m, id);
      OnlyOneGoes(m.byProject, project, id);
    }
  }

  lemma OnlyOneGoes(b: Terminal.Projects, project: Terminal.ProjectId, id: Terminal.SessionId)
    requires project in b && |b[project]| == 1 && id in b[project]
    ensures project !in Terminal.Unindex(b, project, id)
  {
    var inner := b[project] - {id};
    assert inner.Keys == b[project].Keys - {id};
  }

  lemma RegisteredInProject(m: Terminal.State, id: Terminal.SessionId)
    requires Terminal.Inv(m)
    ensures id in m.sessions && m.sessions[id] < |m.heap| ==>
      var project := m.heap[m.sessions[id]].project;
      project in m.byProject && id in m.byProject[project]
  {
    hide Terminal.TeardownOk, Terminal.FanOk, Terminal.DistinctIds, Terminal.NoEmptyProject;
    if id in m.sessions && m.sessions[id] < |m.heap| {
      var ref := m.sessions[id];
      assert Terminal.Pointed(m.sessions, m.heap, m.heap[ref].project, id, ref);
      assert Terminal.Entry(m.byProject, m.heap[ref].project, id, ref);
    }
  }
}
