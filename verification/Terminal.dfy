/**
 The terminal Manager (internal/terminal/manager.go): a session map and a per-project
 index guarded by the manager's lock, sessions that outlive their registration because
 goroutines hold references to them, and a teardown that several callers race to run.
 */
module Terminal {
  import Fanout
  import RingBuffers

  // Session and project ids are UUIDs: opaque values that are only compared.
  type SessionId = nat
  type ProjectId = nat

  /** A session object. `closers` counts goroutines between removing it from the map and calling
      closeOnce.Do; `tearing` holds between close(done) and closing the subscribers. */
  datatype Sess = Sess(id: SessionId, project: ProjectId, fan: Fanout.State,
                       closers: nat, once: bool, tearing: bool, doneCloses: nat)

  /** A reference to a session is its index in `heap`, which keeps every session ever created. */
  datatype State = State(size: nat, sessions: map<SessionId, nat>,
                         byProject: map<ProjectId, map<SessionId, nat>>, heap: seq<Sess>)

  datatype Event =
    | Register(id: SessionId, project: ProjectId)
    | Take(id: SessionId)
    | EnterOnce(ref: nat)
    | CloseSubs(ref: nat)
    | On(ref: nat, e: Fanout.Event)

  function Init(size: nat): (s: State) {
    State(size, map[], map[], [])
  }

  predicate Fresh(s: State, id: SessionId) {
    forall r | 0 <= r < |s.heap| :: s.heap[r].id != id
  }

  function Index(byProject: map<ProjectId, map<SessionId, nat>>, project: ProjectId, id: SessionId, ref: nat)
    : (r: map<ProjectId, map<SessionId, nat>>)
  {
    var inner := if project in byProject then byProject[project] else map[];
    byProject[project := inner[id := ref]]
  }

  /** Removing an entry also removes a project whose inner map became empty. */
  function Unindex(byProject: map<ProjectId, map<SessionId, nat>>, project: ProjectId, id: SessionId)
    : (r: map<ProjectId, map<SessionId, nat>>)
  {
    if project !in byProject then byProject
    else
      var inner := byProject[project] - {id};
      if |inner| == 0 then byProject - {project} else byProject[project := inner]
  }

  function Update(s: State, ref: nat, sess: Sess): (r: State)
    requires ref < |s.heap|
  {
    s.(heap := s.heap[ref := sess])
  }

  /** One locked region (or one step of closeOnce.Do). Session ids are fresh UUIDs; a goroutine may act
      on any session it ever got a reference to, registered or not. */
  function Apply(s: State, e: Event): (r: State) {
    match e
    case Register(id, project) =>
      if !Fresh(s, id) then s
      else
        var ref := |s.heap|;
        s.(sessions := s.sessions[id := ref],
           byProject := Index(s.byProject, project, id, ref),
           heap := s.heap + [Sess(id, project, Fanout.Init(s.size), 0, false, false, 0)])
    case Take(id) =>
      if id !in s.sessions || s.sessions[id] >= |s.heap| then s
      else
        var ref := s.sessions[id];
        var sess := s.heap[ref];
        Update(s.(sessions := s.sessions - {id}, byProject := Unindex(s.byProject, sess.project, id)),
               ref, sess.(closers := sess.closers + 1))
    case EnterOnce(ref) =>
      if ref >= |s.heap| || s.heap[ref].closers == 0 then s
      else
        var sess := s.heap[ref].(closers := s.heap[ref].closers - 1);
        Update(s, ref,
               if sess.once then sess else sess.(once := true, tearing := true, doneCloses := sess.doneCloses + 1))
    case CloseSubs(ref) =>
      if ref >= |s.heap| || !s.heap[ref].tearing then s
      else
        var sess := s.heap[ref];
        Update(s, ref, sess.(tearing := false, fan := Fanout.Apply(sess.fan, Fanout.CloseSubs)))
    case On(ref, fe) =>
      if ref >= |s.heap| || fe.CloseSubs? then s
      else Update(s, ref, s.heap[ref].(fan := Fanout.Apply(s.heap[ref].fan, fe)))
  }

  function Run(s: State, es: seq<Event>): (r: State) {
    if es == [] then s else Apply(Run(s, es[..|es| - 1]), es[|es| - 1])
  }

  // ---- Invariants ------------------------------------------------------------------------------

  type Projects = map<ProjectId, map<SessionId, nat>>

  ghost predicate Entry(byProject: Projects, project: ProjectId, id: SessionId, ref: nat) {
    project in byProject && id in byProject[project] && byProject[project][id] == ref
  }

  ghost predicate NoEmptyProject(byProject: Projects) {
    forall p | p in byProject :: byProject[p] != map[]
  }

  ghost predicate Pointed(sessions: map<SessionId, nat>, heap: seq<Sess>, project: ProjectId, id: SessionId, ref: nat) {
    id in sessions && sessions[id] == ref && ref < |heap| && heap[ref].id == id && heap[ref].project == project
  }

  /** The session map and the per-project index are mutually inverse and hold no empty inner map. */
  ghost predicate RegistryOk(s: State) {
    && NoEmptyProject(s.byProject)
    && (forall id | id in s.sessions :: s.sessions[id] < |s.heap| && s.heap[s.sessions[id]].id == id)
    && (forall p, id, ref :: Entry(s.byProject, p, id, ref) <==> Pointed(s.sessions, s.heap, p, id, ref))
  }

  lemma IndexEntries(b: Projects, project: ProjectId, id: SessionId, ref: nat)
    requires NoEmptyProject(b)
    ensures NoEmptyProject(Index(b, project, id, ref))
    ensures forall p, i, r :: Entry(Index(b, project, id, ref), p, i, r) <==>
              if p == project && i == id then r == ref else Entry(b, p, i, r)
  {
    assert id in Index(b, project, id, ref)[project];
  }

  lemma UnindexEntries(b: Projects, project: ProjectId, id: SessionId)
    requires NoEmptyProject(b)
    ensures NoEmptyProject(Unindex(b, project, id))
    ensures forall p, i, r :: Entry(Unindex(b, project, id), p, i, r) <==>
              Entry(b, p, i, r) && !(p == project && i == id)
  {
  }

  ghost predicate DistinctIds(s: State) {
    forall i, j | 0 <= i < j < |s.heap| :: s.heap[i].id != s.heap[j].id
  }

  /** A session is registered, or on its way to closeOnce, or closed: exactly one of the three, so
      `done` is closed at most once and no second goroutine ever reaches closeOnce. */
  ghost predicate TeardownOk(sessions: map<SessionId, nat>, sess: Sess) {
    && (if sess.id in sessions then 1 else 0) + sess.closers + (if sess.once then 1 else 0) == 1
    && sess.doneCloses == (if sess.once then 1 else 0)
    && (sess.tearing ==> sess.once)
  }

  ghost predicate FanOk(size: nat, sess: Sess) {
    Fanout.Inv(sess.fan) && Fanout.ReplayOk(sess.fan) && sess.fan.size == size
  }

  ghost predicate Inv(s: State) {
    && RegistryOk(s) && DistinctIds(s)
    && (forall r | 0 <= r < |s.heap| :: TeardownOk(s.sessions, s.heap[r]))
    && (forall r | 0 <= r < |s.heap| :: FanOk(s.size, s.heap[r]))
  }

  lemma RegisterKeepsInv(s: State, id: SessionId, project: ProjectId)
    requires Inv(s) && Fresh(s, id)
    ensures Inv(Apply(s, Register(id, project)))
  {
    hide FanOk, Index, NoEmptyProject, Entry;
    var t := Apply(s, Register(id, project));
    IndexEntries(s.byProject, project, id, |s.heap|);
    InitialFanOk(s.size, t.heap[|s.heap|]);
    assert RegistryOk(t);
    hide RegistryOk;
    forall r | 0 <= r < |t.heap| ensures TeardownOk(t.sessions, t.heap[r]) && FanOk(t.size, t.heap[r]) {
      assert r < |s.heap| ==> TeardownOk(s.sessions, s.heap[r]) && FanOk(s.size, s.heap[r]);
    }
  }

  lemma InitialFanOk(size: nat, sess: Sess)
    requires sess.fan == Fanout.Init(size)
    ensures FanOk(size, sess)
  {
  }

  lemma TakeKeepsInv(s: State, id: SessionId)
    requires Inv(s)
    ensures Inv(Apply(s, Take(id)))
  {
    hide Fanout.Inv, Fanout.ReplayOk, Unindex, NoEmptyProject, Entry;
    if id !in s.sessions {
      return;
    }
    var t := Apply(s, Take(id));
    UnindexEntries(s.byProject, s.heap[s.sessions[id]].project, id);
    assert RegistryOk(t);
    hide RegistryOk;
    forall r | 0 <= r < |t.heap| ensures TeardownOk(t.sessions, t.heap[r]) && FanOk(t.size, t.heap[r]) {
      assert TeardownOk(s.sessions, s.heap[r]) && FanOk(s.size, s.heap[r]);
      assert s.heap[r].id == id <==> r == s.sessions[id];
    }
  }

  lemma UpdateKeepsInv(s: State, ref: nat, sess: Sess)
    requires Inv(s) && ref < |s.heap|
    ensures
      && sess.id == s.heap[ref].id && sess.project == s.heap[ref].project
      && TeardownOk(s.sessions, sess) && FanOk(s.size, sess)
      ==> Inv(Update(s, ref, sess))
  {
    hide FanOk, TeardownOk, NoEmptyProject, Entry;
  }

  lemma FanStep(s: State, ref: nat, fe: Fanout.Event)
    requires Inv(s) && ref < |s.heap|
    ensures FanOk(s.size, s.heap[ref].(fan := Fanout.Apply(s.heap[ref].fan, fe)))
  {
    var fan := s.heap[ref].fan;
    assert FanOk(s.size, s.heap[ref]);
    Fanout.ApplyKeepsInv(fan, fe);
    Fanout.ApplyKeepsReplay(fan, fe);
    Fanout.ApplyExtends(fan, fe);
  }

  lemma ApplyKeepsInv(s: State, e: Event)
    requires Inv(s)
    ensures Inv(Apply(s, e))
  {
    hide RegistryOk, DistinctIds, Fanout.Inv, Fanout.ReplayOk, Fanout.Apply, Index, Unindex;
    match e
    case Register(id, project) =>
      if Fresh(s, id) {
        RegisterKeepsInv(s, id, project);
      }
    case Take(id) =>
      TakeKeepsInv(s, id);
    case EnterOnce(ref) =>
      if ref < |s.heap| && s.heap[ref].closers > 0 {
        assert TeardownOk(s.sessions, s.heap[ref]) && FanOk(s.size, s.heap[ref]);
        UpdateKeepsInv(s, ref, Apply(s, e).heap[ref]);
      }
    case CloseSubs(ref) =>
      if ref < |s.heap| && s.heap[ref].tearing {
        assert TeardownOk(s.sessions, s.heap[ref]);
        FanStep(s, ref, Fanout.CloseSubs);
        UpdateKeepsInv(s, ref, Apply(s, e).heap[ref]);
      }
    case On(ref, fe) =>
      if ref < |s.heap| && !fe.CloseSubs? {
        assert TeardownOk(s.sessions, s.heap[ref]);
        FanStep(s, ref, fe);
        UpdateKeepsInv(s, ref, Apply(s, e).heap[ref]);
      }
  }

  /** In every interleaving of registrations, removals, teardowns, pumps and subscriber steps the two
      indexes stay mutually inverse, `done` is closed at most once, every subscribed channel is open,
      and no channel is closed twice or sent to after close. */
  lemma {:induction false} EveryInterleaving(size: nat, es: seq<Event>)
    ensures Inv(Run(Init(size), es))
  {
    if es != [] {
      EveryInterleaving(size, es[..|es| - 1]);
      hide Inv, Apply;
      ApplyKeepsInv(Run(Init(size), es[..|es| - 1]), es[|es| - 1]);
    }
  }

  // ---- Each session runs the fan-out ---------------------------------------------------------------

  /** What a manager step does to one session's fan-out: a subscriber step or the pump's on that session, or
      the close of its subscribers by the one teardown that got through closeOnce. */
  function StepOf(s: State, e: Event, ref: nat): (r: seq<Fanout.Event>)
    requires ref < |s.heap|
  {
    match e
    case On(target, fe) => if target == ref && !fe.CloseSubs? then [fe] else []
    case CloseSubs(target) => if target == ref && s.heap[ref].tearing then [Fanout.CloseSubs] else []
    case _ => []
  }

  /** The steps of a run that concern one session, in order. */
  function StepsOf(s: State, es: seq<Event>, ref: nat): (r: seq<Fanout.Event>)
    requires ref < |s.heap|
  {
    if es == [] then []
    else
      HeapNeverShrinks(s, es[..|es| - 1]);
      StepsOf(s, es[..|es| - 1], ref) + StepOf(Run(s, es[..|es| - 1]), es[|es| - 1], ref)
  }

  lemma {:induction false} HeapNeverShrinks(s: State, es: seq<Event>)
    ensures |s.heap| <= |Run(s, es).heap|
  {
    if es != [] {
      HeapNeverShrinks(s, es[..|es| - 1]);
    }
  }

  lemma StepRunsFanout(s: State, e: Event, ref: nat)
    requires ref < |s.heap|
    ensures ref < |Apply(s, e).heap|
    ensures Apply(s, e).heap[ref].fan == Fanout.Run(s.heap[ref].fan, StepOf(s, e, ref))
  {
    hide Fanout.Apply;
    var steps := StepOf(s, e, ref);
    if steps != [] {
      assert steps[..0] == [];
      assert Fanout.Run(s.heap[ref].fan, []) == s.heap[ref].fan;
    }
  }

  /** Over every run of the manager each session goes through exactly the fan-out run of its own steps, so
      whatever holds of every fan-out run holds of it. */
  lemma {:induction false} SessionRunsFanout(s: State, es: seq<Event>, ref: nat)
    requires ref < |s.heap|
    ensures ref < |Run(s, es).heap|
    ensures Run(s, es).heap[ref].fan == Fanout.Run(s.heap[ref].fan, StepsOf(s, es, ref))
  {
    HeapNeverShrinks(s, es);
    if es != [] {
      var before := es[..|es| - 1];
      HeapNeverShrinks(s, before);
      SessionRunsFanout(s, before, ref);
      StepRunsFanout(Run(s, before), es[|es| - 1], ref);
      Fanout.RunAppend(s.heap[ref].fan, StepsOf(s, before, ref), StepOf(Run(s, before), es[|es| - 1], ref));
    }
  }

  // ---- What later steps may change -------------------------------------------------------------

  /** Sessions keep their identity, their output only grows, and one that has left the map stays out. */
  ghost predicate Later(s: State, t: State) {
    && |s.heap| <= |t.heap| && t.size == s.size
    && forall r | 0 <= r < |s.heap| ::
         && t.heap[r].id == s.heap[r].id && t.heap[r].project == s.heap[r].project
         && Fanout.Extends(s.heap[r].fan, t.heap[r].fan)
         && (s.heap[r].id !in s.sessions ==> t.heap[r].id !in t.sessions)
  }

  lemma ApplyLater(s: State, e: Event)
    requires Inv(s)
    ensures Later(s, Apply(s, e))
  {
    hide Inv, Fanout.Apply;
    if e.On? && e.ref < |s.heap| {
      Fanout.ApplyExtends(s.heap[e.ref].fan, e.e);
    }
    if e.CloseSubs? && e.ref < |s.heap| {
      Fanout.ApplyExtends(s.heap[e.ref].fan, Fanout.CloseSubs);
    }
  }

  lemma LaterTransitive(s: State, t: State, u: State)
    requires Later(s, t) && Later(t, u)
    ensures Later(s, u)
  {
  }

  /** A session removed from the map never reappears, over any continuation of any run. */
  lemma {:induction false} RunLater(s: State, es: seq<Event>)
    requires Inv(s)
    ensures Inv(Run(s, es)) && Later(s, Run(s, es))
  {
    if es != [] {
      var t := Run(s, es[..|es| - 1]);
      RunLater(s, es[..|es| - 1]);
      hide Inv, Apply, Later;
      ApplyKeepsInv(t, es[|es| - 1]);
      ApplyLater(t, es[|es| - 1]);
      LaterTransitive(s, t, Apply(t, es[|es| - 1]));
    } else {
      assert forall r | 0 <= r < |s.heap| :: Fanout.Extends(s.heap[r].fan, s.heap[r].fan);
    }
  }

  /** An id that is still registered later still names the same session object. */
  lemma LookupIsStable(s: State, t: State, id: SessionId)
    requires Inv(s) && Inv(t) && Later(s, t)
    ensures id in s.sessions && id in t.sessions ==> t.sessions[id] == s.sessions[id] < |s.heap|
  {
    hide TeardownOk, FanOk, Entry, Pointed, NoEmptyProject;
  }

  /** The reconnect guarantee in the whole manager, with every lookup by id a step of its own. Subscribe
      looks the session up in `found` and adds its channel in `m0`; ReplayBuffer looks it up in `asked`
      and reads the buffer in `m1`. Whatever other sessions, subscribers and closers do in between, a
      successful second lookup finds the same session, and frame and live stream cover its output
      without a gap; the client is still subscribed, and then complete, exactly when no step in between
      ended its subscription. (If the second lookup fails the frame is empty and the live part stands alone.) */
  lemma ReconnectInManager(size: nat, before: seq<Event>, id: SessionId, c: nat, e1: seq<Event>, e2: seq<Event>,
                           e3: seq<Event>, after: seq<Event>)
    requires
      var found := Run(Init(size), before);
      && id in found.sessions
      && var m0 := Run(found, e1);
         found.sessions[id] < |m0.heap| ==> c !in m0.heap[found.sessions[id]].fan.chans
    ensures
      var found := Run(Init(size), before);
      var ref := found.sessions[id];
      var m0 := Run(found, e1);
      var asked := Run(Apply(m0, On(ref, Fanout.Subscribe(c))), e2);
      var m1 := Run(asked, e3);
      var m2 := Run(m1, after);
      && ref < |m0.heap| <= |m1.heap| <= |m2.heap|
      && (id in asked.sessions ==> asked.sessions[id] == ref)
      && c in m2.heap[ref].fan.chans
      && Fanout.ReconnectOk(m0.heap[ref].fan.out, m1.heap[ref].fan, m2.heap[ref].fan, c)
      && (c in m2.heap[ref].fan.subs <==>
          SubscriptionLasts(Apply(m0, On(ref, Fanout.Subscribe(c))), e2, ref, c)
          && SubscriptionLasts(asked, e3, ref, c) && SubscriptionLasts(m1, after, ref, c))
  {
    var found := Run(Init(size), before);
    EveryInterleaving(size, before);
    RegisteredInHeap(found, id);
    hide Run, Apply, Inv, Later, Fanout.ReconnectOk;
    var ref := found.sessions[id];
    RunLater(found, e1);
    var m0 := Run(found, e1);
    HeapGrows(found, m0);
    var sub := Apply(m0, On(ref, Fanout.Subscribe(c)));
    KeepsAndLater(m0, On(ref, Fanout.Subscribe(c)));
    SubscribeStep(m0, ref, c);
    RunLater(sub, e2);
    var asked := Run(sub, e2);
    RunLater(asked, e3);
    var m1 := Run(asked, e3);
    RunLater(m1, after);
    if id in asked.sessions {
      LaterTransitive(found, m0, sub);
      LaterTransitive(found, sub, asked);
      LookupIsStable(found, asked, id);
    }
    LaterTransitive(sub, asked, m1);
    ReconnectBetween(m0.heap[ref].fan.out, sub, m1, Run(m1, after), ref, c);
    hide SubscriptionLasts;
    StillSubscribed(sub, e2, ref, c);
    StillSubscribed(asked, e3, ref, c);
    StillSubscribed(m1, after, ref, c);
  }

  /** No step of the run that concerns the session ends c's subscription: no unsubscribe, no teardown, no
      chunk that meets 256 queued ones. */
  ghost predicate SubscriptionLasts(s: State, es: seq<Event>, ref: nat, c: nat) {
    ref < |s.heap| && Fanout.Uninterrupted(s.heap[ref].fan, StepsOf(s, es, ref), c)
  }

  lemma StillSubscribed(s: State, es: seq<Event>, ref: nat, c: nat)
    requires ref < |s.heap| && c in s.heap[ref].fan.chans
    ensures ref < |Run(s, es).heap| && c in Run(s, es).heap[ref].fan.chans
    ensures c in Run(s, es).heap[ref].fan.subs <==> c in s.heap[ref].fan.subs && SubscriptionLasts(s, es, ref, c)
  {
    hide Run, Fanout.Run, StepsOf, Fanout.Uninterrupted;
    SessionRunsFanout(s, es, ref);
    Fanout.SubscribedWhileUninterrupted(s.heap[ref].fan, StepsOf(s, es, ref), c);
  }

  /** The frame of a ReplayBuffer call that looks the session up in `asked` and reads it in `read`. */
  function Frame(asked: State, id: SessionId, read: State): (r: seq<RingBuffers.Byte>) {
    if id in asked.sessions && asked.sessions[id] < |read.heap|
    then Fanout.ReplayFrame(read.heap[asked.sessions[id]].fan)
    else []
  }

  /** The handler documents that a frame is always sent; it is sent exactly when the lookup succeeds, the
      session keeps a buffer at all, and something had been pumped by the time of the read. */
  lemma FrameSentIff(size: nat, before: seq<Event>, id: SessionId, between: seq<Event>)
    ensures
      var asked := Run(Init(size), before);
      var read := Run(asked, between);
      && |asked.heap| <= |read.heap|
      && (id in asked.sessions ==> asked.sessions[id] < |asked.heap|)
      && (Frame(asked, id, read) != [] <==>
          size > 0 && id in asked.sessions && RingBuffers.Flatten(read.heap[asked.sessions[id]].fan.out) != [])
  {
    EveryInterleaving(size, []);
    hide Run, Inv, Fanout.ReplayFrame, Fanout.ReplayOk;
    assert Run(Init(size), []) == Init(size) by {
      RunNothing(Init(size));
    }
    RunLater(Init(size), before);
    var asked := Run(Init(size), before);
    RunLater(asked, between);
    RegisteredInHeap(asked, id);
    if id in asked.sessions {
      ReplayOfSession(Run(asked, between), asked.sessions[id]);
      Fanout.EmptyFrameIff(Run(asked, between).heap[asked.sessions[id]].fan);
    }
  }

  lemma RunNothing(s: State)
    ensures Run(s, []) == s
  {
  }

  lemma ReplayOfSession(s: State, ref: nat)
    requires Inv(s)
    ensures ref < |s.heap| ==> Fanout.ReplayOk(s.heap[ref].fan) && s.heap[ref].fan.size == s.size
  {
    hide RegistryOk, DistinctIds, TeardownOk, Fanout.Inv, Fanout.ReplayOk;
    assert ref < |s.heap| ==> FanOk(s.size, s.heap[ref]);
  }

  lemma RegisteredInHeap(s: State, id: SessionId)
    requires Inv(s)
    ensures id in s.sessions ==> s.sessions[id] < |s.heap|
  {
  }

  lemma SubscribeStep(s: State, ref: nat, c: nat)
    requires ref < |s.heap| && c !in s.heap[ref].fan.chans
    ensures
      var t := Apply(s, On(ref, Fanout.Subscribe(c)));
      && |t.heap| == |s.heap| && t.heap[ref].fan.out == s.heap[ref].fan.out && c in t.heap[ref].fan.subs
      && c in t.heap[ref].fan.chans && t.heap[ref].fan.chans[c].start == |s.heap[ref].fan.out|
  {
  }

  lemma HeapGrows(s: State, t: State)
    requires Later(s, t)
    ensures |s.heap| <= |t.heap|
  {
  }

  lemma KeepsAndLater(s: State, e: Event)
    requires Inv(s)
    ensures Inv(Apply(s, e)) && Later(s, Apply(s, e))
  {
    hide Inv, Later, Apply;
    ApplyKeepsInv(s, e);
    ApplyLater(s, e);
  }

  /** sub is the state right after c subscribed to the session at ref, with output out0 until then. */
  ghost predicate JustSubscribed(out0: seq<Fanout.Chunk>, sub: State, ref: nat, c: nat) {
    && ref < |sub.heap| && c in sub.heap[ref].fan.chans
    && sub.heap[ref].fan.out == out0 && sub.heap[ref].fan.chans[c].start == |out0|
  }

  lemma ReconnectBetween(out0: seq<Fanout.Chunk>, sub: State, m1: State, m2: State, ref: nat, c: nat)
    requires Inv(m1) && Inv(m2)
    ensures Later(sub, m1) && Later(m1, m2) && JustSubscribed(out0, sub, ref, c) ==>
              && |sub.heap| <= |m1.heap| <= |m2.heap| && c in m2.heap[ref].fan.chans
              && Fanout.ReconnectOk(out0, m1.heap[ref].fan, m2.heap[ref].fan, c)
  {
    hide RegistryOk, DistinctIds, TeardownOk, Fanout.Inv, Fanout.ReplayOk, Fanout.ReconnectOk;
    if Later(sub, m1) && Later(m1, m2) && JustSubscribed(out0, sub, ref, c) {
      assert FanOk(m1.size, m1.heap[ref]) && FanOk(m2.size, m2.heap[ref]);
      assert Fanout.Extends(sub.heap[ref].fan, m1.heap[ref].fan);
      Fanout.ReconnectPositions(out0, m1.heap[ref].fan, m2.heap[ref].fan, c);
    }
  }

  // ---- Who teardown closes ---------------------------------------------------------------------

  /** Teardown closes exactly the channels subscribed when it takes the session's lock, each with its
      delivered chunks intact, and leaves every other channel as it was. */
  lemma TeardownClosesSubscribers(s: State, ref: nat, c: nat)
    requires Inv(s) && ref < |s.heap| && s.heap[ref].tearing && c in s.heap[ref].fan.chans
    ensures
      var fan, fan' := s.heap[ref].fan, Apply(s, CloseSubs(ref)).heap[ref].fan;
      && fan'.subs == {} && c in fan'.chans
      && fan'.chans[c] == if c in fan.subs then fan.chans[c].(closed := true) else fan.chans[c]
  {
  }

  /** The session is torn down and channel c exists. */
  ghost predicate TornDown(s: State, ref: nat, c: nat) {
    ref < |s.heap| && s.heap[ref].once && !s.heap[ref].tearing && c in s.heap[ref].fan.chans
  }

  /** A chunk the pump had still read finds c subscribed and full, and evicts it. */
  ghost predicate Evicts(s: State, e: Event, ref: nat, c: nat) {
    && e.On? && e.ref == ref && e.e.Pump?
    && ref < |s.heap| && c in s.heap[ref].fan.chans && c in s.heap[ref].fan.subs && !s.heap[ref].fan.chans[c].HasRoom()
  }

  lemma TornDownStep(s: State, e: Event, ref: nat, c: nat)
    requires TornDown(s, ref, c)
    ensures
      var t := Apply(s, e);
      && TornDown(t, ref, c)
      && (t.heap[ref].fan.chans[c].closed <==> s.heap[ref].fan.chans[c].closed || Evicts(s, e, ref, c))
  {
    hide Index, Unindex;
  }

  /** The i-th step of a continuation evicts c. */
  ghost predicate EvictedAt(s: State, es: seq<Event>, i: nat, ref: nat, c: nat) {
    i < |es| && Evicts(Run(s, es[..i]), es[i], ref, c)
  }

  lemma EvictedInPrefix(s: State, es: seq<Event>, n: nat, i: nat, ref: nat, c: nat)
    requires i < n <= |es|
    ensures EvictedAt(s, es[..n], i, ref, c) <==> EvictedAt(s, es, i, ref, c)
  {
    hide Evicts, Run;
    assert es[..n][..i] == es[..i];
  }

  lemma EvictedInside(s: State, es: seq<Event>, ref: nat, c: nat)
    ensures forall i: nat | EvictedAt(s, es, i, ref, c) :: i < |es|
  {
  }

  lemma EvictedSnoc(s: State, es: seq<Event>, ref: nat, c: nat)
    requires es != []
    ensures
      var n := |es| - 1;
      (exists i :: EvictedAt(s, es, i, ref, c)) <==>
      (exists i :: EvictedAt(s, es[..n], i, ref, c)) || Evicts(Run(s, es[..n]), es[n], ref, c)
  {
    var n := |es| - 1;
    assert Evicts(Run(s, es[..n]), es[n], ref, c) <==> EvictedAt(s, es, n, ref, c);
    EvictedInside(s, es, ref, c);
    EvictedInside(s, es[..n], ref, c);
    hide EvictedAt, Evicts, Run;
    forall i: nat | i < n ensures EvictedAt(s, es[..n], i, ref, c) <==> EvictedAt(s, es, i, ref, c) {
      EvictedInPrefix(s, es, n, i, ref, c);
    }
  }

  /** After teardown, over every continuation, a channel ends closed exactly when it was closed before or
      some later broadcast met it subscribed with 256 chunks queued. */
  lemma {:induction false} ClosedAfterTeardownIff(s: State, ref: nat, c: nat, es: seq<Event>)
    requires TornDown(s, ref, c)
    ensures
      var t := Run(s, es);
      && TornDown(t, ref, c)
      && (t.heap[ref].fan.chans[c].closed <==>
          s.heap[ref].fan.chans[c].closed || exists i :: EvictedAt(s, es, i, ref, c))
  {
    if es == [] {
      return;
    }
    var n := |es| - 1;
    assert Run(s, es) == Apply(Run(s, es[..n]), es[n]);
    hide Run, Apply, Evicts, EvictedAt;
    ClosedAfterTeardownIff(s, ref, c, es[..n]);
    TornDownStep(Run(s, es[..n]), es[n], ref, c);
    EvictedSnoc(s, es, ref, c);
  }

  /** Subscribe looks the session up and adds its channel under two different locks. If a teardown runs
      to its end in between, the new channel is not among those it closed, and whatever happens afterwards
      it is closed exactly when a chunk still broadcast by the pump finds it with 256 chunks queued. */
  lemma LateSubscriberClosedIff(s: State, ref: nat, c: nat, es: seq<Event>)
    requires ref < |s.heap| && s.heap[ref].once && !s.heap[ref].tearing && c !in s.heap[ref].fan.chans
    ensures
      var sub := Apply(s, On(ref, Fanout.Subscribe(c)));
      var t := Run(sub, es);
      && TornDown(t, ref, c)
      && (t.heap[ref].fan.chans[c].closed <==> exists i :: EvictedAt(sub, es, i, ref, c))
  {
    var sub := Apply(s, On(ref, Fanout.Subscribe(c)));
    assert TornDown(sub, ref, c) && !sub.heap[ref].fan.chans[c].closed;
    hide EvictedAt, Apply, Run;
    ClosedAfterTeardownIff(sub, ref, c, es);
  }

  /** The race is real: a session registered, looked up by a subscriber and torn down in between. */
  lemma LateSubscriberHappens(size: nat, id: SessionId, project: ProjectId, c: nat)
    ensures
      var found := Apply(Init(size), Register(id, project));
      var torn := Apply(Apply(Apply(found, Take(id)), EnterOnce(0)), CloseSubs(0));
      var late := Apply(torn, On(0, Fanout.Subscribe(c)));
      && id in found.sessions && found.sessions[id] == 0
      && TornDown(late, 0, c) && !late.heap[0].fan.chans[c].closed
  {
  }
}
