/**
 The LocalManager (internal/terminal/local.go), a second instance of the fan-out: here
 Close kills the process while the pump, on its own, closes the subscribers, and both
 race to run closeOnce. The replay buffer is written outside the lock and is not modelled.
 */
module LocalTerminal {
  import Fanout

  type SessionId = nat

  /** Where the pump goroutine is: reading, about to enter closeOnce, about to unregister, returned. */
  datatype PumpState = Reading | Ending | Unregistering | Ended

  /** `closers` counts Close calls that took the session and have not entered closeOnce yet. */
  datatype Sess = Sess(id: SessionId, fan: Fanout.State, pump: PumpState, closers: nat, once: bool, doneCloses: nat)

  datatype State = State(sessions: map<SessionId, nat>, heap: seq<Sess>)

  datatype Event =
    | Register(id: SessionId)
    | CloseTake(id: SessionId)
    | CloseOnce(ref: nat)
    | Subscribe(ref: nat, c: nat)
    | Unsubscribe(ref: nat, c: nat)
    | Receive(ref: nat, c: nat)
    | PumpChunk(ref: nat, data: Fanout.Chunk)
    | PumpCloseSubs(ref: nat)
    | PumpOnce(ref: nat)
    | PumpUnregister(ref: nat)

  const EMPTY: State := State(map[], [])

  /** closeOnce.Do(... close(done)). */
  function DoOnce(sess: Sess): (r: Sess) {
    if sess.once then sess else sess.(once := true, doneCloses := sess.doneCloses + 1)
  }

  /** What one step does to the session it acts on; a step that is not enabled does nothing. */
  function Act(sess: Sess, e: Event): (r: Sess) {
    match e
    case CloseOnce(_) => if sess.closers == 0 then sess else DoOnce(sess.(closers := sess.closers - 1))
    case Subscribe(_, c) => sess.(fan := Fanout.Apply(sess.fan, Fanout.Subscribe(c)))
    case Unsubscribe(_, c) => sess.(fan := Fanout.Apply(sess.fan, Fanout.Unsubscribe(c)))
    case Receive(_, c) => sess.(fan := Fanout.Apply(sess.fan, Fanout.Receive(c)))
    case PumpChunk(_, data) =>
      if sess.pump == Reading then sess.(fan := Fanout.Apply(sess.fan, Fanout.Pump(data))) else sess
    case PumpCloseSubs(_) =>
      if sess.pump == Reading then sess.(pump := Ending, fan := Fanout.Apply(sess.fan, Fanout.CloseSubs)) else sess
    case PumpOnce(_) => if sess.pump == Ending then DoOnce(sess.(pump := Unregistering)) else sess
    case PumpUnregister(_) => if sess.pump == Unregistering then sess.(pump := Ended) else sess
    case _ => sess
  }

  function Apply(s: State, e: Event): (r: State) {
    match e
    case Register(id) =>
      if exists r | 0 <= r < |s.heap| :: s.heap[r].id == id then s
      else State(s.sessions[id := |s.heap|], s.heap + [Sess(id, Fanout.Init(0), Reading, 0, false, 0)])
    case CloseTake(id) =>
      if id !in s.sessions || s.sessions[id] >= |s.heap| then s
      else
        var ref := s.sessions[id];
        State(s.sessions - {id}, s.heap[ref := s.heap[ref].(closers := s.heap[ref].closers + 1)])
    case _ =>
      if e.ref >= |s.heap| then s
      else
        var sess := s.heap[e.ref];
        State(if e.PumpUnregister? && sess.pump == Unregistering then s.sessions - {sess.id} else s.sessions,
              s.heap[e.ref := Act(sess, e)])
  }

  function Run(s: State, es: seq<Event>): (r: State) {
    if es == [] then s else Apply(Run(s, es[..|es| - 1]), es[|es| - 1])
  }

  /** `done` is closed once at most, and once exactly as soon as either closer has been through
      closeOnce; subscribed channels are open and no channel operation ever panics; only one Close
      call can take the session; after the pump has returned the session is unregistered. */
  ghost predicate SessOk(registered: bool, sess: Sess) {
    && sess.doneCloses == (if sess.once then 1 else 0)
    && (sess.pump == Unregistering || sess.pump == Ended ==> sess.once)
    && (sess.pump == Ended ==> !registered)
    && sess.closers <= 1
    && (registered ==> sess.closers == 0)
    && Fanout.Inv(sess.fan)
  }

  ghost predicate Inv(s: State) {
    && (forall id | id in s.sessions :: s.sessions[id] < |s.heap| && s.heap[s.sessions[id]].id == id)
    && (forall i, j | 0 <= i < j < |s.heap| :: s.heap[i].id != s.heap[j].id)
    && (forall r | 0 <= r < |s.heap| :: SessOk(s.heap[r].id in s.sessions, s.heap[r]))
  }

  lemma ActKeepsOk(registered: bool, sess: Sess, e: Event)
    requires SessOk(registered, sess)
    ensures Act(sess, e).id == sess.id
    ensures SessOk(registered && !(e.PumpUnregister? && sess.pump == Unregistering), Act(sess, e))
  {
    hide Fanout.Inv, Fanout.Apply;
    match e
    case Subscribe(_, c) => Fanout.ApplyKeepsInv(sess.fan, Fanout.Subscribe(c));
    case Unsubscribe(_, c) => Fanout.ApplyKeepsInv(sess.fan, Fanout.Unsubscribe(c));
    case Receive(_, c) => Fanout.ApplyKeepsInv(sess.fan, Fanout.Receive(c));
    case PumpChunk(_, data) => Fanout.ApplyKeepsInv(sess.fan, Fanout.Pump(data));
    case PumpCloseSubs(_) => Fanout.ApplyKeepsInv(sess.fan, Fanout.CloseSubs);
    case _ =>
  }

  lemma RegisterKeepsInv(s: State, id: SessionId)
    requires Inv(s)
    ensures Inv(Apply(s, Register(id)))
  {
    hide SessOk;
    assert SessOk(true, Sess(id, Fanout.Init(0), Reading, 0, false, 0)) by {
      InitialOk(id);
    }
    var t := Apply(s, Register(id));
    forall r | 0 <= r < |t.heap| ensures SessOk(t.heap[r].id in t.sessions, t.heap[r]) {
      assert r < |s.heap| ==> SessOk(s.heap[r].id in s.sessions, s.heap[r]);
    }
  }

  lemma InitialOk(id: SessionId)
    ensures SessOk(true, Sess(id, Fanout.Init(0), Reading, 0, false, 0))
  {
  }

  lemma CloseTakeKeepsInv(s: State, id: SessionId)
    requires Inv(s) && id in s.sessions
    ensures Inv(Apply(s, CloseTake(id)))
  {
  }

  lemma OtherKeepsInv(s: State, e: Event)
    requires Inv(s) && !e.Register? && !e.CloseTake? && e.ref < |s.heap|
    ensures Inv(Apply(s, e))
  {
    hide SessOk, Act;
    var sess := s.heap[e.ref];
    var sessions := if e.PumpUnregister? && sess.pump == Unregistering then s.sessions - {sess.id} else s.sessions;
    ActKeepsOk(sess.id in s.sessions, sess, e);
    ReplaceKeepsInv(s, e.ref, Act(sess, e), sessions);
  }

  /** Changing one session, and at most its own registration, leaves all others as they were. */
  lemma ReplaceKeepsInv(s: State, ref: nat, sess: Sess, sessions: map<SessionId, nat>)
    requires Inv(s) && ref < |s.heap| && sess.id == s.heap[ref].id
    requires sessions == s.sessions || sessions == s.sessions - {sess.id}
    requires SessOk(sess.id in sessions, sess)
    ensures Inv(State(sessions, s.heap[ref := sess]))
  {
    hide SessOk;
    var t := State(sessions, s.heap[ref := sess]);
    forall r | 0 <= r < |t.heap| ensures SessOk(t.heap[r].id in t.sessions, t.heap[r]) {
      assert r != ref ==> s.heap[r].id != s.heap[ref].id && SessOk(s.heap[r].id in s.sessions, s.heap[r]);
    }
  }

  lemma ApplyKeepsInv(s: State, e: Event)
    requires Inv(s)
    ensures Inv(Apply(s, e))
  {
    hide SessOk, Act, Inv;
    if e.Register? {
      RegisterKeepsInv(s, e.id);
    } else if e.CloseTake? {
      if e.id in s.sessions {
        CloseTakeKeepsInv(s, e.id);
      }
    } else if e.ref < |s.heap| {
      OtherKeepsInv(s, e);
    }
  }

  /** In every interleaving of Close, pump end, broadcasts and subscriber steps. */
  lemma {:induction false} EveryInterleaving(es: seq<Event>)
    ensures Inv(Run(EMPTY, es))
  {
    if es != [] {
      EveryInterleaving(es[..|es| - 1]);
      hide Inv, Apply;
      ApplyKeepsInv(Run(EMPTY, es[..|es| - 1]), es[|es| - 1]);
    }
  }

  // ---- Each session runs the fan-out ---------------------------------------------------------------

  /** What a step does to one session's fan-out: a subscriber's step, a chunk the pump reads, or the pump's
      close of the subscribers when it ends. */
  function StepOf(s: State, e: Event, ref: nat): (r: seq<Fanout.Event>)
    requires ref < |s.heap|
  {
    if e.Register? || e.CloseTake? || e.ref != ref then []
    else
      match e
      case Subscribe(_, c) => [Fanout.Subscribe(c)]
      case Unsubscribe(_, c) => [Fanout.Unsubscribe(c)]
      case Receive(_, c) => [Fanout.Receive(c)]
      case PumpChunk(_, data) => if s.heap[ref].pump == Reading then [Fanout.Pump(data)] else []
      case PumpCloseSubs(_) => if s.heap[ref].pump == Reading then [Fanout.CloseSubs] else []
      case _ => []
  }

  lemma {:induction false} HeapNeverShrinks(s: State, es: seq<Event>)
    ensures |s.heap| <= |Run(s, es).heap|
  {
    if es != [] {
      HeapNeverShrinks(s, es[..|es| - 1]);
    }
  }

  function StepsOf(s: State, es: seq<Event>, ref: nat): (r: seq<Fanout.Event>)
    requires ref < |s.heap|
  {
    if es == [] then []
    else
      HeapNeverShrinks(s, es[..|es| - 1]);
      StepsOf(s, es[..|es| - 1], ref) + StepOf(Run(s, es[..|es| - 1]), es[|es| - 1], ref)
  }

  lemma StepRunsFanout(s: State, e: Event, ref: nat)
    requires ref < |s.heap|
    ensures ref < |Apply(s, e).heap|
    ensures Apply(s, e).heap[ref].fan == Fanout.Run(s.heap[ref].fan, StepOf(s, e, ref))
  {
    hide Fanout.Apply;
    var steps := StepOf(s, e, ref);
    if steps != [] {
      assert steps[..0] == [];
      assert Fanout.Run(s.heap[ref].fan, []) == s.heap[ref].fan;
    }
  }

  /** Over every run each session goes through exactly the fan-out run of its own steps. */
  lemma {:induction false} SessionRunsFanout(s: State, es: seq<Event>, ref: nat)
    requires ref < |s.heap|
    ensures ref < |Run(s, es).heap|
    ensures Run(s, es).heap[ref].fan == Fanout.Run(s.heap[ref].fan, StepsOf(s, es, ref))
  {
    HeapNeverShrinks(s, es);
    if es != [] {
      var before := es[..|es| - 1];
      HeapNeverShrinks(s, before);
      SessionRunsFanout(s, before, ref);
      StepRunsFanout(Run(s, before), es[|es| - 1], ref);
      Fanout.RunAppend(s.heap[ref].fan, StepsOf(s, before, ref), StepOf(Run(s, before), es[|es| - 1], ref));
    }
  }

  // ---- What closing achieves ---------------------------------------------------------------------

  /** The session has left the map; `done` is closed. */
  ghost predicate Gone(s: State, ref: nat) {
    ref < |s.heap| && s.heap[ref].id !in s.sessions
  }

  ghost predicate DoneIsClosed(s: State, ref: nat) {
    ref < |s.heap| && s.heap[ref].once && s.heap[ref].doneCloses == 1
  }

  lemma StepKeepsGone(s: State, e: Event, ref: nat)
    requires Inv(s)
    ensures Gone(s, ref) ==> Gone(Apply(s, e), ref)
    ensures DoneIsClosed(s, ref) ==> DoneIsClosed(Apply(s, e), ref)
  {
    hide SessOk, Fanout.Apply;
  }

  lemma {:induction false} RunKeepsGone(s: State, es: seq<Event>, ref: nat)
    requires Inv(s)
    ensures Inv(Run(s, es))
    ensures Gone(s, ref) ==> Gone(Run(s, es), ref)
    ensures DoneIsClosed(s, ref) ==> DoneIsClosed(Run(s, es), ref)
  {
    if es != [] {
      hide Inv, Apply, Gone, DoneIsClosed;
      RunKeepsGone(s, es[..|es| - 1], ref);
      ApplyKeepsInv(Run(s, es[..|es| - 1]), es[|es| - 1]);
      StepKeepsGone(Run(s, es[..|es| - 1]), es[|es| - 1], ref);
    }
  }

  /** A Close takes a registered session out of the map for good, and once its closeOnce has run `done` is
      closed, once, for good, whatever happened in between. */
  lemma CloseIsFinal(s: State, id: SessionId, between: seq<Event>, after: seq<Event>)
    requires Inv(s)
    ensures id in s.sessions ==>
      var ref := s.sessions[id];
      var taken := Apply(s, CloseTake(id));
      var t := Run(Apply(Run(taken, between), CloseOnce(ref)), after);
      && Gone(Run(taken, between), ref) && Gone(t, ref)
      && (Run(taken, between).heap[ref].closers > 0 ==> DoneIsClosed(t, ref))
  {
    if id !in s.sessions {
      return;
    }
    var ref := s.sessions[id];
    var taken := Apply(s, CloseTake(id));
    ApplyKeepsInv(s, CloseTake(id));
    assert Gone(taken, ref);
    hide Run, Gone;
    RunKeepsGone(taken, between, ref);
    var mid := Run(taken, between);
    ApplyKeepsInv(mid, CloseOnce(ref));
    CloseOnceCloses(mid, ref);
    hide Inv, Apply, DoneIsClosed;
    RunKeepsGone(Apply(mid, CloseOnce(ref)), after, ref);
  }

  lemma CloseOnceCloses(s: State, ref: nat)
    requires Inv(s)
    ensures Gone(s, ref) ==>
              && Gone(Apply(s, CloseOnce(ref)), ref)
              && (s.heap[ref].closers > 0 ==> DoneIsClosed(Apply(s, CloseOnce(ref)), ref))
  {
    assert ref < |s.heap| ==> SessOk(s.heap[ref].id in s.sessions, s.heap[ref]);
  }

  /** A call that nothing interrupts: the session is out of the map and its `done` is closed. */
  lemma CloseAlone(s: State, id: SessionId)
    requires Inv(s)
    ensures id in s.sessions ==>
      var t := Apply(Apply(s, CloseTake(id)), CloseOnce(s.sessions[id]));
      t.sessions == s.sessions - {id} && DoneIsClosed(t, s.sessions[id])
  {
    assert id in s.sessions ==> SessOk(true, s.heap[s.sessions[id]]);
  }

  /** The pump's end: every subscriber it knew is closed and forgotten, `done` is closed, and the session is
      unregistered. */
  lemma PumpEndCleansUp(s: State, ref: nat, c: nat)
    requires Inv(s) && ref < |s.heap| && s.heap[ref].pump == Reading
    ensures
      var t := Apply(Apply(Apply(s, PumpCloseSubs(ref)), PumpOnce(ref)), PumpUnregister(ref));
      && Gone(t, ref) && DoneIsClosed(t, ref) && t.heap[ref].pump == Ended
      && t.heap[ref].fan.subs == {}
      && (c in s.heap[ref].fan.subs ==> c in t.heap[ref].fan.chans && t.heap[ref].fan.chans[c].closed)
  {
    assert SessOk(s.heap[ref].id in s.sessions, s.heap[ref]);
  }

  // ---- Subscribers that come after the pump's end ------------------------------------------------

  /** The pump has closed the subscribers it knew, and channel c exists. */
  ghost predicate PumpIsDone(s: State, ref: nat, c: nat) {
    ref < |s.heap| && s.heap[ref].pump != Reading && c in s.heap[ref].fan.chans
  }

  lemma StepFreezes(s: State, e: Event, ref: nat, c: nat)
    requires PumpIsDone(s, ref, c)
    ensures
      var t := Apply(s, e);
      PumpIsDone(t, ref, c) && t.heap[ref].fan.chans[c].closed == s.heap[ref].fan.chans[c].closed
  {
  }

  /** Once the pump has closed its subscribers nothing is ever closed again: over every continuation a
      channel stays open or closed as it is. */
  lemma {:induction false} ClosedIsFrozen(s: State, ref: nat, c: nat, es: seq<Event>)
    requires PumpIsDone(s, ref, c)
    ensures
      var t := Run(s, es);
      PumpIsDone(t, ref, c) && t.heap[ref].fan.chans[c].closed == s.heap[ref].fan.chans[c].closed
  {
    if es != [] {
      ClosedIsFrozen(s, ref, c, es[..|es| - 1]);
      StepFreezes(Run(s, es[..|es| - 1]), es[|es| - 1], ref, c);
    }
  }

  /** So a Subscribe that still finds the session between the pump's close and its unregistration gets a
      channel that nobody ever closes, whatever follows; Close included. */
  lemma LateSubscriberIsNeverClosed(id: SessionId, c: nat, es: seq<Event>)
    ensures
      var ended := Apply(Apply(EMPTY, Register(id)), PumpCloseSubs(0));
      var t := Run(Apply(ended, Subscribe(0, c)), es);
      && id in ended.sessions && ended.sessions[id] == 0
      && PumpIsDone(t, 0, c) && !t.heap[0].fan.chans[c].closed
  {
    var late := Apply(Apply(Apply(EMPTY, Register(id)), PumpCloseSubs(0)), Subscribe(0, c));
    assert PumpIsDone(late, 0, c) && !late.heap[0].fan.chans[c].closed;
    ClosedIsFrozen(late, 0, c, es);
  }
}
