/**
 The mutable objects behind the terminal step functions: a Session whose locked regions
 update its ring buffer, channels and subscriber set in place, and a Manager whose
 methods update the registry. Each method is one or more steps of Fanout or Terminal.
 */
module TerminalObjects {
  import opened RingBuffers
  import Fanout
  import Terminal
  import SessionCap

  class Session {
    const ring: RingBuffer
    var chans: map<nat, Fanout.Channel>
    var subs: set<nat>
    var nextChan: nat
    var out: seq<Fanout.Chunk>  // history of broadcast chunks

    ghost predicate Valid()
      reads this, ring, ring.buf
    {
      && ring.Valid()
      && subs <= chans.Keys
      && forall c | c in chans :: c < nextChan
    }

    ghost function View(): (s: Fanout.State)
      requires Valid()
      reads this, ring, ring.buf
    {
      Fanout.State(ring.size, out, ring.Contents(), chans, subs)
    }

    constructor (bufSize: nat)
      ensures Valid() && fresh(ring) && fresh(ring.buf)
      ensures View() == Fanout.Init(bufSize)
    {
      ring := new RingBuffer(bufSize);
      chans, subs, nextChan, out := map[], {}, 0, [];
    }

    method Subscribe() returns (c: nat)
      requires Valid()
      modifies this
      ensures Valid() && c !in old(chans) && c in chans && !chans[c].closed && chans[c].queue == []
      ensures subs == old(subs) + {c}
      ensures View() == Fanout.Apply(old(View()), Fanout.Subscribe(c))
    {
      c := nextChan;
      nextChan := nextChan + 1;
      chans := chans[c := Fanout.Channel(|out|, [], [], false, 0)];
      subs := subs + {c};
    }

    method Unsubscribe(c: nat)
      requires Valid()
      modifies this`subs
      ensures Valid() && subs == old(subs) - {c}
      ensures View() == Fanout.Apply(old(View()), Fanout.Unsubscribe(c))
    {
      subs := subs - {c};
    }

    method ReplayBuffer() returns (bytes: seq<Byte>)
      requires Valid()
      ensures bytes == View().replay
    {
      bytes := ring.Bytes();
    }

    /** The pump's broadcast loop, in whatever order the map yields the channels. */
    method BroadcastLoop(data: Fanout.Chunk)
      requires Valid()
      modifies this`chans, this`subs, this`out
      ensures Valid()
      ensures View() == Fanout.Broadcast(old(View()), data)
    {
      out := out + [data];
      var todo := subs;
      while todo != {}
        invariant todo <= old(subs) && chans.Keys == old(chans.Keys) && out == old(out) + [data]
        invariant forall c | c in chans ::
                    chans[c] == if c in old(subs) && c !in todo then old(chans)[c].SendOrEvict(data) else old(chans)[c]
        invariant forall c :: c in subs <==> c in old(subs) && (c in todo || old(chans)[c].HasRoom())
        decreases todo
      {
        var c :| c in todo;
        todo := todo - {c};
        if !chans[c].HasRoom() {
          subs := subs - {c};
        }
        chans := chans[c := chans[c].SendOrEvict(data)];
      }
      assert chans == Fanout.Broadcast(old(View()), data).chans;
      assert subs == Fanout.Broadcast(old(View()), data).subs;
    }

    /** The locked region of the output pump: record for replay, then broadcast. */
    method Pump(data: Fanout.Chunk)
      requires Valid()
      modifies this`chans, this`subs, this`out, ring`w, ring`full, ring.buf
      ensures Valid() && ring.buf == old(ring.buf)
      ensures View() == Fanout.Apply(old(View()), Fanout.Pump(data))
    {
      ring.Write(data);
      BroadcastLoop(data);
    }

    /** The locked region of teardown: close and forget every subscriber. */
    method CloseSubs()
      requires Valid()
      modifies this`chans, this`subs
      ensures Valid()
      ensures View() == Fanout.Apply(old(View()), Fanout.CloseSubs)
    {
      while subs != {}
        invariant subs <= old(subs) && chans.Keys == old(chans.Keys)
        invariant forall c | c in chans ::
                    chans[c] == if c in old(subs) && c !in subs then old(chans)[c].Close() else old(chans)[c]
        decreases subs
      {
        var c :| c in subs;
        chans := chans[c := chans[c].Close()];
        subs := subs - {c};
      }
      assert chans == Fanout.CloseAllSubs(old(View())).chans;
    }
  }

  datatype CreateResult = Existing(ref: nat) | Created(ref: nat) | ExecFailed

  class Manager {
    var state: Terminal.State

    constructor (bufSize: nat)
      ensures state == Terminal.Init(bufSize)
    {
      state := Terminal.Init(bufSize);
    }

    /** A CreateSession call that no other call overlaps: an existing session of the project is
        returned, a failed exec changes nothing, and otherwise one fresh session is registered. */
    method CreateSession(project: Terminal.ProjectId, id: Terminal.SessionId, execOk: bool) returns (r: CreateResult)
      requires Terminal.Inv(state) && Terminal.Fresh(state, id)
      modifies this
      ensures Terminal.Inv(state)
      ensures r.Existing? <==> project in old(state.byProject)
      ensures r.Existing? ==> exists i :: Terminal.Entry(state.byProject, project, i, r.ref)
      ensures r.Created? <==> project !in old(state.byProject) && execOk
      ensures state == if r.Created? then Terminal.Apply(old(state), Terminal.Register(id, project)) else old(state)
      ensures r.Created? ==> Terminal.Entry(state.byProject, project, id, r.ref) && r.ref == |old(state.heap)|
      ensures old(SessionCap.Capped(state)) ==> SessionCap.Capped(state)
    {
      hide Terminal.Inv;
      if project in state.byProject {
        ProjectHasSession(state, project);
        var i :| i in state.byProject[project];
        r := Existing(state.byProject[project][i]);
        assert Terminal.Entry(state.byProject, project, i, r.ref);
        return;
      }
      if !execOk {
        return ExecFailed;
      }
      Terminal.ApplyKeepsInv(state, Terminal.Register(id, project));
      r := Created(|state.heap|);
      state := Terminal.Apply(state, Terminal.Register(id, project));
      assert state.byProject[project] == map[id := r.ref];
    }

    /** CloseSession run to its end: out of both maps, `done` closed, every subscriber closed. */
    method CloseSession(id: Terminal.SessionId)
      requires Terminal.Inv(state)
      modifies this
      ensures Terminal.Inv(state) && Terminal.Later(old(state), state)
      ensures state.sessions == old(state.sessions) - {id}
      ensures forall p, i, r :: Terminal.Entry(state.byProject, p, i, r) <==>
                                i != id && Terminal.Entry(old(state.byProject), p, i, r)
      ensures
        id in old(state.sessions) ==>
          var ref := old(state.sessions)[id];
          ref < |state.heap| && state.heap[ref].once && state.heap[ref].fan.subs == {}
    {
      if id !in state.sessions {
        Terminal.RunLater(state, []);
        return;
      }
      var ref := state.sessions[id];
      CloseSteps(state, id);
      state := Terminal.Apply(state, Terminal.Take(id));
      state := Terminal.Apply(state, Terminal.EnterOnce(ref));
      state := Terminal.Apply(state, Terminal.CloseSubs(ref));
    }

    /** The loop of CloseProjectSessions and CloseAll over a snapshot of ids. */
    method CloseEach(ids: set<Terminal.SessionId>)
      requires Terminal.Inv(state)
      modifies this
      ensures Terminal.Inv(state) && Terminal.Later(old(state), state)
      ensures state.sessions == old(state.sessions) - ids
      ensures forall p, i, r :: Terminal.Entry(state.byProject, p, i, r) <==>
                                i !in ids && Terminal.Entry(old(state.byProject), p, i, r)
    {
      hide Terminal.Inv, Terminal.Later, Terminal.Entry;
      Terminal.RunLater(state, []);
      var todo := ids;
      while todo != {}
        invariant todo <= ids && Terminal.Inv(state) && Terminal.Later(old(state), state)
        invariant state.sessions == old(state.sessions) - (ids - todo)
        invariant forall p, i, r :: Terminal.Entry(state.byProject, p, i, r) <==>
                                    i !in ids - todo && Terminal.Entry(old(state.byProject), p, i, r)
        decreases todo
      {
        var id :| id in todo;
        ghost var before := state;
        CloseSession(id);
        Terminal.LaterTransitive(old(state), before, state);
        todo := todo - {id};
      }
    }

    /** Without overlapping calls every session of the project is gone, and no other one is touched. */
    method CloseProjectSessions(project: Terminal.ProjectId)
      requires Terminal.Inv(state)
      modifies this
      ensures Terminal.Inv(state) && Terminal.Later(old(state), state)
      ensures project !in state.byProject
      ensures forall p, i, r :: Terminal.Entry(state.byProject, p, i, r) <==>
                                p != project && Terminal.Entry(old(state.byProject), p, i, r)
    {
      var ids := if project in state.byProject then state.byProject[project].Keys else {};
      InProject(state, project, ids);
      hide Terminal.Later, Terminal.Entry, Terminal.Inv;
      CloseEach(ids);
      NoEntryNoProject(state, project);
    }

    method CloseAll()
      requires Terminal.Inv(state)
      modifies this
      ensures Terminal.Inv(state) && Terminal.Later(old(state), state)
      ensures state.sessions == map[] && state.byProject == map[]
    {
      hide Terminal.Later, Terminal.Inv;
      CloseEach(state.sessions.Keys);
      NothingLeft(state);
    }
  }

  lemma InProject(s: Terminal.State, project: Terminal.ProjectId, ids: set<Terminal.SessionId>)
    requires Terminal.Inv(s)
    requires ids == if project in s.byProject then s.byProject[project].Keys else {}
    ensures forall p, i, r :: Terminal.Entry(s.byProject, p, i, r) ==> (i in ids <==> p == project)
  {
    forall p, i, r | Terminal.Entry(s.byProject, p, i, r)
      ensures i in ids <==> p == project
    {
      assert Terminal.Pointed(s.sessions, s.heap, p, i, r);
      if i in ids {
        assert Terminal.Entry(s.byProject, project, i, s.byProject[project][i]);
      }
    }
  }

  lemma ProjectHasSession(s: Terminal.State, project: Terminal.ProjectId)
    requires Terminal.Inv(s) && project in s.byProject
    ensures exists i :: i in s.byProject[project]
  {
  }

  lemma NoEntryNoProject(s: Terminal.State, project: Terminal.ProjectId)
    requires Terminal.Inv(s)
    requires forall i, r :: !Terminal.Entry(s.byProject, project, i, r)
    ensures project !in s.byProject
  {
    if project in s.byProject {
      ProjectHasSession(s, project);
      var i :| i in s.byProject[project];
      assert Terminal.Entry(s.byProject, project, i, s.byProject[project][i]);
    }
  }

  lemma NothingLeft(s: Terminal.State)
    requires Terminal.Inv(s) && s.sessions == map[]
    ensures s.byProject == map[]
  {
    forall p ensures p !in s.byProject {
      forall i, r ensures !Terminal.Entry(s.byProject, p, i, r) {
        assert !Terminal.Pointed(s.sessions, s.heap, p, i, r);
      }
      NoEntryNoProject(s, p);
    }
  }

  lemma CloseSteps(s: Terminal.State, id: Terminal.SessionId)
    requires Terminal.Inv(s)
    ensures id in s.sessions ==>
      var ref := s.sessions[id];
      var t1 := Terminal.Apply(s, Terminal.Take(id));
      var t2 := Terminal.Apply(t1, Terminal.EnterOnce(ref));
      var t3 := Terminal.Apply(t2, Terminal.CloseSubs(ref));
      && Terminal.Inv(t3) && Terminal.Later(s, t3)
      && t3.sessions == s.sessions - {id}
      && (forall p, i, r :: Terminal.Entry(t3.byProject, p, i, r) <==> i != id && Terminal.Entry(s.byProject, p, i, r))
      && ref < |t3.heap| && t3.heap[ref].once && t3.heap[ref].fan.subs == {}
  {
    hide Terminal.Inv, Terminal.Later, Terminal.Unindex, Terminal.Entry, Terminal.NoEmptyProject;
    if id !in s.sessions {
      return;
    }
    var ref := s.sessions[id];
    BeforeTake(s, id);
    Terminal.UnindexEntries(s.byProject, s.heap[ref].project, id);
    var t1 := Terminal.Apply(s, Terminal.Take(id));
    var t2 := Terminal.Apply(t1, Terminal.EnterOnce(ref));
    Terminal.KeepsAndLater(s, Terminal.Take(id));
    Terminal.KeepsAndLater(t1, Terminal.EnterOnce(ref));
    Terminal.KeepsAndLater(t2, Terminal.CloseSubs(ref));
    Terminal.LaterTransitive(s, t1, t2);
    Terminal.LaterTransitive(s, t2, Terminal.Apply(t2, Terminal.CloseSubs(ref)));
  }

  lemma BeforeTake(s: Terminal.State, id: Terminal.SessionId)
    requires Terminal.Inv(s)
    ensures Terminal.NoEmptyProject(s.byProject)
    ensures id in s.sessions ==>
      var ref := s.sessions[id];
      && ref < |s.heap| && s.heap[ref].closers == 0 && !s.heap[ref].once
      && forall p, r :: Terminal.Entry(s.byProject, p, id, r) ==> p == s.heap[ref].project
  {
    hide Terminal.DistinctIds, Terminal.FanOk, Terminal.Entry, Terminal.NoEmptyProject;
    assert id in s.sessions ==> Terminal.TeardownOk(s.sessions, s.heap[s.sessions[id]]);
  }
}
