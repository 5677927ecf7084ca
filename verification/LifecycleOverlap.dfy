/**
 Project lifecycle under overlapping requests (internal/project/manager.go): the local
 insert, the agent-server call and the rollback of a create, the agent-server call and the
 local delete of a delete, and the pushes of a reconcile are separate steps, and a slow
 call may land long after the row it speaks of has changed.
 */
module LifecycleOverlap {
  import opened ProjectStore
  import opened Routing
  import Lifecycle

  type Registry = Lifecycle.Registry

  /** A request in flight. Creating and Pushing hold the deployment they read before calling the agent. */
  datatype Call =
    | Creating(id: Id, name: string, deployment: Deployment)
    | Pushing(name: string, deployment: Deployment)
    | RollingBack(id: Id)
    | Forgetting(id: Id, name: string)
    | Dropping(id: Id)
    | Over
  {
    predicate Pushes() { Creating? || Pushing? }

    /** The call is still creating the row, or taking it back. */
    predicate Owns(row: Id) { (Creating? || RollingBack?) && id == row }
  }

  /** A call is named by its position in `calls`. */
  datatype State = State(rows: Rows, agent: Registry, calls: seq<Call>)

  datatype Event =
    | BeginCreate(id: Id, name: string)
    | BeginPush(id: Id)
    | BeginDelete(id: Id)
    | Ensure(k: nat, outcome: Lifecycle.Call)
    | Rollback(k: nat)
    | Forget(k: nat, outcome: Lifecycle.Call)
    | Drop(k: nat)

  /** Row ids are fresh UUIDs: in no row and in no call. */
  predicate Fresh(s: State, id: Id) {
    id !in s.rows && forall k | 0 <= k < |s.calls| :: !s.calls[k].Owns(id)
  }

  function Begin(s: State, call: Call): (r: State) {
    s.(calls := s.calls + [call])
  }

  function SetCall(s: State, k: nat, call: Call): (r: State)
    requires k < |s.calls|
  {
    s.(calls := s.calls[k := call])
  }

  function Apply(site: Site, s: State, e: Event): (r: State) {
    match e
    case BeginCreate(id, name) =>
      if !Fresh(s, id) || CreateOutcome(s.rows, name) != Created then s
      else
        var rows := Create(s.rows, id, name);
        Begin(s.(rows := rows), Creating(id, name, DeploymentFor(site, rows[id])))
    case BeginPush(id) =>
      if id !in s.rows then s else Begin(s, Pushing(s.rows[id].name, DeploymentFor(site, s.rows[id])))
    case BeginDelete(id) => if id !in s.rows then s else Begin(s, Forgetting(id, s.rows[id].name))
    case Ensure(k, outcome) =>
      if k >= |s.calls| || !s.calls[k].Pushes() then s
      else
        var call := s.calls[k];
        SetCall(s.(agent := Lifecycle.Ensure(s.agent, call.name, call.deployment, outcome)), k,
                if call.Creating? && !outcome.Succeeds? then RollingBack(call.id) else Over)
    case Rollback(k) =>
      if k >= |s.calls| || !s.calls[k].RollingBack? then s
      else SetCall(s.(rows := s.rows - {s.calls[k].id}), k, Over)
    case Forget(k, outcome) =>
      if k >= |s.calls| || !s.calls[k].Forgetting? then s
      else
        SetCall(s.(agent := if outcome.TookEffect() then s.agent - {s.calls[k].name} else s.agent), k,
                if outcome.Succeeds? then Dropping(s.calls[k].id) else Over)
    case Drop(k) =>
      if k >= |s.calls| || !s.calls[k].Dropping? then s
      else SetCall(s.(rows := s.rows - {s.calls[k].id}), k, Over)
  }

  function Run(site: Site, s: State, es: seq<Event>): (r: State)
    decreases |es|
  {
    if es == [] then s else Run(site, Apply(site, s, es[0]), es[1..])
  }

  // ---- Alone, each request is the sequential one ---------------------------------------------------

  function Stores(s: State): (r: Lifecycle.State) {
    Lifecycle.State(s.rows, s.agent)
  }

  lemma AloneIsCreate(site: Site, s: State, id: Id, name: string, call: Lifecycle.Call)
    requires Fresh(s, id)
    ensures
      var k := |s.calls|;
      var t := Apply(site, Apply(site, Apply(site, s, BeginCreate(id, name)), Ensure(k, call)), Rollback(k));
      Stores(t) == Lifecycle.CreateStep(Lifecycle.Config(site, true), Stores(s), id, name, call).0
  {
    hide CreateOutcome, DeploymentFor;
    if CreateOutcome(s.rows, name) == Created {
      Lifecycle.CreateRow(s.rows, id, name);
    }
  }

  lemma AloneIsDelete(site: Site, s: State, id: Id, call: Lifecycle.Call)
    ensures
      var k := |s.calls|;
      var t := Apply(site, Apply(site, Apply(site, s, BeginDelete(id)), Forget(k, call)), Drop(k));
      Stores(t) == Lifecycle.DeleteStep(Lifecycle.Config(site, true), Stores(s), id, call).0
  {
  }

  /** A reconcile lists the rows, one push for each. */
  function Listed(site: Site, s: State, ids: seq<Id>): (r: State) {
    if ids == [] then s else Apply(site, Listed(site, s, ids[..|ids| - 1]), BeginPush(ids[|ids| - 1]))
  }

  /** Then it pushes them one after the other, from the k-th call on. */
  function PushedAll(site: Site, s: State, k: nat, calls: seq<Lifecycle.Call>): (r: State) {
    if calls == [] then s
    else
      var n := |calls| - 1;
      Apply(site, PushedAll(site, s, k, calls[..n]), Ensure(k + n, calls[n]))
  }

  lemma {:induction false} ListedPushes(site: Site, s: State, ids: seq<Id>)
    requires forall i | 0 <= i < |ids| :: ids[i] in s.rows
    ensures
      var t := Listed(site, s, ids);
      && t.rows == s.rows && t.agent == s.agent && |t.calls| == |s.calls| + |ids|
      && forall i | 0 <= i < |ids| ::
           t.calls[|s.calls| + i] == Pushing(s.rows[ids[i]].name, DeploymentFor(site, s.rows[ids[i]]))
  {
    hide DeploymentFor;
    if ids != [] {
      var n := |ids| - 1;
      ListedPushes(site, s, ids[..n]);
      assert forall i | 0 <= i < n :: ids[..n][i] == ids[i];
    }
  }

  lemma {:induction false} PushedAllRegisters(site: Site, s: State, k: nat, calls: seq<(Id, Lifecycle.Call)>)
    requires k + |calls| <= |s.calls|
    requires forall i | 0 <= i < |calls| ::
               calls[i].0 in s.rows
               && s.calls[k + i] == Pushing(s.rows[calls[i].0].name, DeploymentFor(site, s.rows[calls[i].0]))
    ensures
      var t := PushedAll(site, s, k, Outcomes(calls));
      && t.rows == s.rows && |t.calls| == |s.calls|
      && (forall i | k + |calls| <= i < |s.calls| :: t.calls[i] == s.calls[i])
      && t.agent == Lifecycle.ReconcileAgent(Lifecycle.Config(site, true), Stores(s), calls)
  {
    hide DeploymentFor;
    if calls != [] {
      var n := |calls| - 1;
      assert Outcomes(calls)[..n] == Outcomes(calls[..n]);
      PushedAllRegisters(site, s, k, calls[..n]);
    }
  }

  function Outcomes(calls: seq<(Id, Lifecycle.Call)>): (r: seq<Lifecycle.Call>) {
    seq(|calls|, i requires 0 <= i < |calls| => calls[i].1)
  }

  function Ids(calls: seq<(Id, Lifecycle.Call)>): (r: seq<Id>) {
    seq(|calls|, i requires 0 <= i < |calls| => calls[i].0)
  }

  /** A reconcile of rows that exist: list first, then push, is the sequential reconcile. */
  lemma AloneIsReconcile(site: Site, s: State, calls: seq<(Id, Lifecycle.Call)>)
    requires forall i | 0 <= i < |calls| :: calls[i].0 in s.rows
    ensures
      var t := PushedAll(site, Listed(site, s, Ids(calls)), |s.calls|, Outcomes(calls));
      Stores(t) == Lifecycle.ReconcileStep(Lifecycle.Config(site, true), Stores(s), calls).0
  {
    hide DeploymentFor, Lifecycle.ReconcileAgent;
    ListedPushes(site, s, Ids(calls));
    var t := Listed(site, s, Ids(calls));
    assert forall i | 0 <= i < |calls| :: Ids(calls)[i] == calls[i].0;
    PushedAllRegisters(site, t, |s.calls|, calls);
  }

  // ---- Consistency -----------------------------------------------------------------------------

  /** No call is still creating the row or taking it back. */
  ghost predicate Settled(s: State, id: Id) {
    forall k | 0 <= k < |s.calls| :: !s.calls[k].Owns(id)
  }

  ghost predicate RowOk(site: Site, s: State, id: Id) {
    id in s.rows && Settled(s, id) && s.rows[id].name in s.agent ==>
      s.agent[s.rows[id].name] == DeploymentFor(site, s.rows[id])
  }

  /** Every settled row whose name the agent knows has its own ports and URLs there. */
  ghost predicate Consistent(site: Site, s: State) {
    forall id :: RowOk(site, s, id)
  }

  /** With no call in flight this is the consistency of the sequential model. */
  lemma QuietIsConsistent(c: Lifecycle.Config, s: State)
    requires Consistent(c.site, s) && forall k | 0 <= k < |s.calls| :: s.calls[k].Over?
    ensures Lifecycle.Consistent(c, Lifecycle.State(s.rows, s.agent))
  {
    forall id | id in s.rows && s.rows[id].name in s.agent ensures Lifecycle.Registered(c, s.rows[id], s.agent) {
      assert RowOk(c.site, s, id);
    }
  }

  /** The row is on its way out: it will be gone before it is settled. */
  ghost predicate Leaving(s: State, id: Id) {
    exists k :: 0 <= k < |s.calls| && s.calls[k] == RollingBack(id)
  }

  /** What call k is going to push is right for row id, if it concerns it. */
  ghost predicate PushOk(site: Site, s: State, k: nat, id: Id) {
    k < |s.calls| && s.calls[k].Pushes() && id in s.rows && s.calls[k].name == s.rows[id].name && !Leaving(s, id) ==>
      s.calls[k].deployment == DeploymentFor(site, s.rows[id])
  }

  /** No push in flight is stale: each speaks of the current ports and URLs of the row under its name. */
  ghost predicate NoStalePush(site: Site, s: State) {
    forall k, id :: PushOk(site, s, k, id)
  }

  /** At most one call creates or takes back a row, and it speaks of that row's name. */
  ghost predicate CallsOk(s: State) {
    && (forall j, k, id | 0 <= j < k < |s.calls| && s.calls[j].Owns(id) :: !s.calls[k].Owns(id))
    && (forall k | 0 <= k < |s.calls| && s.calls[k].Creating? && s.calls[k].id in s.rows ::
          s.rows[s.calls[k].id].name == s.calls[k].name)
  }

  /** The calls in flight go on and finish; none begins. */
  predicate Finishing(e: Event) {
    !e.BeginCreate? && !e.BeginPush? && !e.BeginDelete?
  }

  ghost predicate FinishOnly(es: seq<Event>) {
    forall i | 0 <= i < |es| :: Finishing(es[i])
  }

  ghost predicate AlwaysConsistent(site: Site, s: State) {
    forall es | FinishOnly(es) :: Consistent(site, Run(site, s, es))
  }

  ghost predicate Ok(site: Site, s: State) {
    CallsOk(s) && Consistent(site, s) && NoStalePush(site, s)
  }

  /** After a push by call k, a settled row was settled before, or k was the call that created it. */
  lemma WhoSettled(site: Site, s: State, k: nat, outcome: Lifecycle.Call, id: Id)
    requires CallsOk(s) && k < |s.calls| && s.calls[k].Pushes() && id in s.rows
    ensures Settled(Apply(site, s, Ensure(k, outcome)), id) ==>
              && !Leaving(s, id)
              && (Settled(s, id) ||
                  (s.calls[k].Owns(id) && s.calls[k].name == s.rows[id].name && outcome.Succeeds?))
  {
    var t := Apply(site, s, Ensure(k, outcome));
    if Settled(t, id) {
      forall j | 0 <= j < |s.calls| && j != k ensures !s.calls[j].Owns(id) {
        assert t.calls[j] == s.calls[j];
      }
      assert !t.calls[k].Owns(id);
    }
  }

  lemma EnsureKeepsCalls(site: Site, s: State, k: nat, outcome: Lifecycle.Call)
    requires CallsOk(s)
    ensures CallsOk(Apply(site, s, Ensure(k, outcome)))
  {
    hide Lifecycle.Ensure;
  }

  lemma EnsureKeepsRow(site: Site, s: State, k: nat, outcome: Lifecycle.Call, id: Id)
    requires CallsOk(s) && k < |s.calls| && s.calls[k].Pushes() && RowOk(site, s, id) && PushOk(site, s, k, id)
    ensures RowOk(site, Apply(site, s, Ensure(k, outcome)), id)
  {
    if id in s.rows {
      WhoSettled(site, s, k, outcome, id);
      hide DeploymentFor, Settled, Leaving, CallsOk;
    }
  }

  lemma EnsureKeepsPush(site: Site, s: State, k: nat, outcome: Lifecycle.Call, j: nat, id: Id)
    requires k < |s.calls| && s.calls[k].Pushes() && PushOk(site, s, j, id)
    ensures PushOk(site, Apply(site, s, Ensure(k, outcome)), j, id)
  {
    hide DeploymentFor;
    var t := Apply(site, s, Ensure(k, outcome));
    if Leaving(s, id) {
      var i :| 0 <= i < |s.calls| && s.calls[i] == RollingBack(id);
      assert t.calls[i] == RollingBack(id);
    }
  }

  lemma EnsureKeepsOk(site: Site, s: State, k: nat, outcome: Lifecycle.Call)
    requires Ok(site, s)
    ensures Ok(site, Apply(site, s, Ensure(k, outcome)))
  {
    hide RowOk, PushOk, CallsOk;
    var t := Apply(site, s, Ensure(k, outcome));
    if k < |s.calls| && s.calls[k].Pushes() {
      EnsureKeepsCalls(site, s, k, outcome);
      forall id ensures RowOk(site, t, id) {
        EnsureKeepsRow(site, s, k, outcome, id);
      }
      forall j: nat, id ensures PushOk(site, t, j, id) {
        EnsureKeepsPush(site, s, k, outcome, j, id);
      }
    }
  }

  /** A step of call k that only takes away rows or registrations: nothing else can notice. */
  lemma RemovalKeepsOk(site: Site, s: State, e: Event)
    requires Ok(site, s) && (e.Rollback? || e.Forget? || e.Drop?)
    ensures Ok(site, Apply(site, s, e))
  {
    hide DeploymentFor;
    var t := Apply(site, s, e);
    forall id | id in t.rows ensures Settled(t, id) <==> Settled(s, id) {
      RemovalKeepsOwners(site, s, e, id);
    }
    forall id | id in t.rows ensures Leaving(t, id) <==> Leaving(s, id) {
      RemovalKeepsOwners(site, s, e, id);
    }
    hide Settled, Leaving;
    forall id ensures RowOk(site, t, id) {
      assert RowOk(site, s, id);
    }
    forall j: nat, id ensures PushOk(site, t, j, id) {
      assert PushOk(site, s, j, id);
    }
  }

  lemma RemovalKeepsOwners(site: Site, s: State, e: Event, id: Id)
    requires e.Rollback? || e.Forget? || e.Drop?
    ensures
      var t := Apply(site, s, e);
      id in t.rows ==> (Settled(t, id) <==> Settled(s, id)) && (Leaving(t, id) <==> Leaving(s, id))
  {
    var t := Apply(site, s, e);
    if id in t.rows {
      assert |t.calls| == |s.calls|;
      forall k | 0 <= k < |s.calls|
        ensures t.calls[k].Owns(id) <==> s.calls[k].Owns(id)
        ensures t.calls[k] == RollingBack(id) <==> s.calls[k] == RollingBack(id)
      {
      }
    }
  }

  lemma {:induction false} FinishKeepsOk(site: Site, s: State, es: seq<Event>)
    requires Ok(site, s) && FinishOnly(es)
    ensures Ok(site, Run(site, s, es))
    decreases |es|
  {
    hide Ok, Apply;
    if es != [] {
      if es[0].Ensure? {
        EnsureKeepsOk(site, s, es[0].k, es[0].outcome);
      } else {
        RemovalKeepsOk(site, s, es[0]);
      }
      FinishKeepsOk(site, Apply(site, s, es[0]), es[1..]);
    }
  }

  // ---- Exactly when consistency survives -------------------------------------------------------

  const DONE: Lifecycle.Call := Lifecycle.Succeeds

  /** A stale push that lands on a row which is settled afterwards spoils it. */
  lemma StaleLands(site: Site, s: State, k: nat, id: Id)
    requires !PushOk(site, s, k, id) && (Settled(s, id) || (CallsOk(s) && s.calls[k].Owns(id)))
    ensures !Consistent(site, Apply(site, s, Ensure(k, DONE)))
  {
    hide DeploymentFor;
    var t := Apply(site, s, Ensure(k, DONE));
    forall j | 0 <= j < |t.calls| ensures !t.calls[j].Owns(id) {
      assert j != k ==> t.calls[j] == s.calls[j];
      assert j != k && s.calls[k].Owns(id) && CallsOk(s) ==> !s.calls[j].Owns(id);
    }
    assert !RowOk(site, t, id);
  }

  /** A row that is not settled and not leaving is still being created, by one call. */
  lemma Creator(s: State, id: Id) returns (j: nat)
    requires !Settled(s, id) && !Leaving(s, id)
    ensures j < |s.calls| && s.calls[j].Creating? && s.calls[j].id == id
  {
    j :| 0 <= j < |s.calls| && s.calls[j].Owns(id);
  }

  /** Once its creator has pushed, the row is settled and another call's stale push is still stale. */
  lemma CreatorFirst(site: Site, s: State, j: nat, k: nat, id: Id)
    requires CallsOk(s) && !PushOk(site, s, k, id) && j != k
    requires j < |s.calls| && s.calls[j].Creating? && s.calls[j].id == id
    ensures
      var t := Apply(site, s, Ensure(j, DONE));
      Settled(t, id) && !PushOk(site, t, k, id)
  {
    hide DeploymentFor;
    var t := Apply(site, s, Ensure(j, DONE));
    forall i | 0 <= i < |t.calls| ensures !t.calls[i].Owns(id) {
      assert i != j ==> t.calls[i] == s.calls[i] && !s.calls[i].Owns(id);
    }
    assert t.calls[k] == s.calls[k] && t.rows == s.rows;
  }

  lemma RunOne(site: Site, s: State, e: Event)
    ensures Run(site, s, [e]) == Apply(site, s, e)
  {
    assert [e][1..] == [];
    assert Run(site, Apply(site, s, e), []) == Apply(site, s, e);
  }

  lemma RunTwo(site: Site, s: State, e: Event, f: Event)
    ensures Run(site, s, [e, f]) == Apply(site, Apply(site, s, e), f)
  {
    assert [e, f][1..] == [f];
    RunOne(site, Apply(site, s, e), f);
  }

  lemma StalePushBreaks(site: Site, s: State, k: nat, id: Id)
    requires CallsOk(s) && !PushOk(site, s, k, id)
    ensures !AlwaysConsistent(site, s)
  {
    var last := Ensure(k, DONE);
    if Settled(s, id) || s.calls[k].Owns(id) {
      StaleLands(site, s, k, id);
      RunOne(site, s, last);
      assert FinishOnly([last]);
    } else {
      var j := Creator(s, id);
      CreatorFirst(site, s, j, k, id);
      StaleLands(site, Apply(site, s, Ensure(j, DONE)), k, id);
      RunTwo(site, s, Ensure(j, DONE), last);
      assert FinishOnly([Ensure(j, DONE), last]);
    }
  }

  /** However the calls in flight fail or finish, and in whatever order, the agent ends up with the right
      ports and URLs for every settled row it knows: exactly when it has them now and no push in flight is
      stale. */
  lemma ConsistentIff(site: Site, s: State)
    requires CallsOk(s)
    ensures AlwaysConsistent(site, s) <==> Consistent(site, s) && NoStalePush(site, s)
  {
    hide Consistent, PushOk, CallsOk;
    if Consistent(site, s) && NoStalePush(site, s) {
      forall es | FinishOnly(es) ensures Consistent(site, Run(site, s, es)) {
        FinishKeepsOk(site, s, es);
      }
    } else if !Consistent(site, s) {
      assert FinishOnly([]) && Run(site, s, []) == s;
    } else {
      var k, id :| !PushOk(site, s, k, id);
      StalePushBreaks(site, s, k, id);
    }
  }

  // ---- Which requests may begin ----------------------------------------------------------------

  /** Every push in flight under the name carries this deployment. */
  ghost predicate PushesCarry(s: State, name: string, deployment: Deployment) {
    forall k | 0 <= k < |s.calls| && s.calls[k].Pushes() && s.calls[k].name == name ::
      s.calls[k].deployment == deployment
  }

  /** A create may begin: pushes still in flight under its name speak of the ports it is about to get. */
  ghost predicate Orderly(site: Site, s: State, e: Event) {
    e.BeginCreate? && Fresh(s, e.id) && CreateOutcome(s.rows, e.name) == Created ==>
      PushesCarry(s, e.name, DeploymentFor(site, Create(s.rows, e.id, e.name)[e.id]))
  }

  lemma BeginKeepsCalls(site: Site, s: State, e: Event)
    requires CallsOk(s) && !Finishing(e)
    ensures CallsOk(Apply(site, s, e))
  {
    hide CreateOutcome, DeploymentFor;
    if e.BeginCreate? && Fresh(s, e.id) && CreateOutcome(s.rows, e.name) == Created {
      Lifecycle.CreateRow(s.rows, e.id, e.name);
    }
  }

  /** Beginning a call changes no settled row's registration. */
  lemma BeginKeepsConsistent(site: Site, s: State, e: Event)
    requires Consistent(site, s) && !Finishing(e)
    ensures Consistent(site, Apply(site, s, e))
  {
    hide CreateOutcome, DeploymentFor;
    var t := Apply(site, s, e);
    if e.BeginCreate? && Fresh(s, e.id) && CreateOutcome(s.rows, e.name) == Created {
      Lifecycle.CreateRow(s.rows, e.id, e.name);
      assert t.calls[|s.calls|].Owns(e.id);
    }
    forall id ensures RowOk(site, t, id) {
      assert RowOk(site, s, id);
      assert Settled(t, id) ==> Settled(s, id) by {
        assert forall k | 0 <= k < |s.calls| :: t.calls[k] == s.calls[k];
      }
    }
  }

  /** A create begins safely, that is, consistency still survives however everything finishes, exactly when
      the pushes in flight under its name speak of the ports it gets. */
  lemma CreateIsSafeIff(site: Site, s: State, id: Id, name: string)
    requires Ok(site, s) && NamesOk(s.rows) && Fresh(s, id) && CreateOutcome(s.rows, name) == Created
    ensures AlwaysConsistent(site, Apply(site, s, BeginCreate(id, name))) <==> Orderly(site, s, BeginCreate(id, name))
  {
    var e := BeginCreate(id, name);
    var t := Apply(site, s, e);
    BeginKeepsCalls(site, s, e);
    BeginKeepsConsistent(site, s, e);
    ConsistentIff(site, t);
    CreatePushes(site, s, id, name);
  }

  lemma CreatePushes(site: Site, s: State, id: Id, name: string)
    requires NoStalePush(site, s) && Fresh(s, id) && CreateOutcome(s.rows, name) == Created
    ensures NoStalePush(site, Apply(site, s, BeginCreate(id, name))) <==> Orderly(site, s, BeginCreate(id, name))
  {
    var e := BeginCreate(id, name);
    var t := Apply(site, s, e);
    Lifecycle.CreateRow(s.rows, id, name);
    var d := DeploymentFor(site, t.rows[id]);
    hide CreateOutcome, DeploymentFor, Create;
    assert forall k | 0 <= k < |s.calls| :: t.calls[k] == s.calls[k];
    assert !Leaving(t, id);
    forall k: nat, i ensures PushOk(site, t, k, i) <==> (i == id && k < |s.calls| ==>
      (s.calls[k].Pushes() && s.calls[k].name == name ==> s.calls[k].deployment == d))
    {
      assert PushOk(site, s, k, i);
      assert Leaving(s, i) ==> Leaving(t, i);
    }
    if NoStalePush(site, t) {
      forall k | 0 <= k < |s.calls| && s.calls[k].Pushes() && s.calls[k].name == name
        ensures s.calls[k].deployment == d
      {
        assert PushOk(site, t, k, id);
      }
    }
  }

  lemma BeginKeepsPushes(site: Site, s: State, e: Event)
    requires NoStalePush(site, s) && NamesOk(s.rows) && !Finishing(e) && !e.BeginCreate?
    ensures NoStalePush(site, Apply(site, s, e))
  {
    hide DeploymentFor, ValidName;
    var t := Apply(site, s, e);
    forall k: nat, i ensures PushOk(site, t, k, i) {
      assert PushOk(site, s, k, i);
      assert forall j | 0 <= j < |s.calls| :: t.calls[j] == s.calls[j];
      assert Leaving(s, i) ==> Leaving(t, i);
    }
  }

  lemma StepKeepsOk(site: Site, s: State, e: Event)
    requires Ok(site, s) && Aligned(s.rows) && Orderly(site, s, e)
    ensures Ok(site, Apply(site, s, e)) && Aligned(Apply(site, s, e).rows)
  {
    StepKeepsAligned(site, s, e);
    AlignedNames(s.rows);
    hide Aligned, NamesOk, CallsOk, Consistent, NoStalePush, Orderly, Apply;
    if e.Ensure? {
      EnsureKeepsOk(site, s, e.k, e.outcome);
    } else if Finishing(e) {
      RemovalKeepsOk(site, s, e);
    } else {
      BeginKeepsCalls(site, s, e);
      BeginKeepsConsistent(site, s, e);
      if e.BeginCreate? {
        CreateStepPushes(site, s, e.id, e.name);
      } else {
        BeginKeepsPushes(site, s, e);
      }
    }
  }

  lemma CreateStepPushes(site: Site, s: State, id: Id, name: string)
    requires NoStalePush(site, s) && Orderly(site, s, BeginCreate(id, name))
    ensures NoStalePush(site, Apply(site, s, BeginCreate(id, name)))
  {
    if Fresh(s, id) && CreateOutcome(s.rows, name) == Created {
      CreatePushes(site, s, id, name);
    }
  }

  lemma StepKeepsAligned(site: Site, s: State, e: Event)
    requires Aligned(s.rows)
    ensures Aligned(Apply(site, s, e).rows)
  {
    hide AlignedPair, ValidName, DeploymentFor, CreateOutcome, Create;
    if e.BeginCreate? {
      CreateKeepsAligned(s.rows, e.id, e.name);
    }
  }

  ghost predicate OrderlyRun(site: Site, s: State, es: seq<Event>)
    decreases |es|
  {
    es != [] ==> Orderly(site, s, es[0]) && OrderlyRun(site, Apply(site, s, es[0]), es[1..])
  }

  lemma {:induction false} OrderlyRunKeepsOk(site: Site, s: State, es: seq<Event>)
    requires Ok(site, s) && Aligned(s.rows) && OrderlyRun(site, s, es)
    ensures Ok(site, Run(site, s, es)) && Aligned(Run(site, s, es).rows)
    decreases |es|
  {
    hide Ok, Aligned, Orderly, Apply;
    if es != [] {
      StepKeepsOk(site, s, es[0]);
      OrderlyRunKeepsOk(site, Apply(site, s, es[0]), es[1..]);
    }
  }

  /** Over every interleaving of creates, deletes and reconciles with any failures, whatever the agent knew
      before, settled rows stay consistent as long as each create begins when it is safe. */
  lemma OrderlyRunsAreConsistent(site: Site, agent: Registry, es: seq<Event>)
    requires OrderlyRun(site, State(map[], agent, []), es)
    ensures Consistent(site, Run(site, State(map[], agent, []), es))
  {
    OrderlyRunKeepsOk(site, State(map[], agent, []), es);
  }

  // ---- The race --------------------------------------------------------------------------------

  lemma FirstPairs()
    ensures NextPair({}) == Pair(10000, 10001) && NextPair({10000, 10001}) == Pair(10002, 10003)
  {
    var used := {10000, 10001};
    assert NextFree(used, 10000) == NextFree(used, 10001) == NextFree(used, 10002) == 10002;
  }

  function RowAt(name: string, prod: int): (r: Row) {
    Row(name, Port(prod), Port(prod + 1))
  }

  lemma CreatedRow(rows: Rows, id: Id, name: string)
    requires ValidName(name) && id !in rows && forall i | i in rows :: rows[i].name != name
    ensures
      var pair := NextPair(Used(rows));
      pair.Pair? ==>
        && CreateOutcome(rows, name) == Created
        && Create(rows, id, name) == rows[id := Row(name, Port(pair.prod), Port(pair.dev))]
  {
  }

  lemma UsedByOne(id: Id, name: string)
    ensures Used(map[id := RowAt(name, 10000)]) == {10000, 10001} && Used(map[]) == {}
  {
    var rows := map[id := RowAt(name, 10000)];
    assert id in rows;
    forall p ensures p in Used(rows) <==> p == 10000 || p == 10001 {
      assert p in PortSet(rows[id].prod) + PortSet(rows[id].dev) <==> p == 10000 || p == 10001;
    }
  }

  /** The call of a create whose row is RowAt(name, prod). */
  function CreatingAt(site: Site, id: Id, name: string, prod: int): (r: Call) {
    Creating(id, name, DeploymentFor(site, RowAt(name, prod)))
  }

  lemma DeletedEarly(site: Site, name: string)
    requires ValidName(name)
    ensures
      var s1 := Apply(site, State(map[], map[], []), BeginCreate(1, name));
      Apply(site, Apply(site, Apply(site, s1, BeginDelete(1)), Forget(1, DONE)), Drop(1))
      == State(map[], map[], [CreatingAt(site, 1, name, 10000), Over])
  {
    FirstPairs();
    UsedByOne(1, name);
    hide NextPair, Used, ValidName, AppUrl;
    CreatedRow(map[], 1, name);
    var s1 := Apply(site, State(map[], map[], []), BeginCreate(1, name));
    assert s1 == State(map[1 := RowAt(name, 10000)], map[], [CreatingAt(site, 1, name, 10000)]);
    hide DeploymentFor, CreateOutcome, Create;
    var s2 := Apply(site, s1, BeginDelete(1));
    assert s2.calls == [CreatingAt(site, 1, name, 10000), Forgetting(1, name)];
    var s3 := Apply(site, s2, Forget(1, DONE));
    assert s3.calls == [CreatingAt(site, 1, name, 10000), Dropping(1)] && s3.agent == map[];
  }

  lemma CreatedAgain(site: Site, name: string, other: string, calls: seq<Call>)
    requires ValidName(name) && ValidName(other) && name != other
    requires Fresh(State(map[], map[], calls), 2) && Fresh(State(map[], map[], calls), 3)
    ensures
      Apply(site, Apply(site, State(map[], map[], calls), BeginCreate(2, other)), BeginCreate(3, name))
      == State(map[2 := RowAt(other, 10000), 3 := RowAt(name, 10002)], map[],
               calls + [CreatingAt(site, 2, other, 10000), CreatingAt(site, 3, name, 10002)])
  {
    FirstPairs();
    UsedByOne(2, other);
    hide NextPair, Used, ValidName, AppUrl;
    CreatedRow(map[], 2, other);
    var s1 := Apply(site, State(map[], map[], calls), BeginCreate(2, other));
    assert s1 == State(map[2 := RowAt(other, 10000)], map[], calls + [CreatingAt(site, 2, other, 10000)]);
    CreatedRow(s1.rows, 3, name);
    hide CreateOutcome, Create;
    assert Fresh(s1, 3);
    assert s1.calls + [CreatingAt(site, 3, name, 10002)]
        == calls + [CreatingAt(site, 2, other, 10000), CreatingAt(site, 3, name, 10002)];
  }

  /** Two creates register, then the stale call at position 0 lands. */
  lemma StaleCallLands(site: Site, s: State, name: string, other: string)
    requires name != other && s.agent == map[]
    requires s.rows == map[2 := RowAt(other, 10000), 3 := RowAt(name, 10002)]
    requires s.calls == [CreatingAt(site, 1, name, 10000), Over,
                         CreatingAt(site, 2, other, 10000), CreatingAt(site, 3, name, 10002)]
    ensures
      var t := Apply(site, Apply(site, s, Ensure(2, DONE)), Ensure(3, DONE));
      var u := Apply(site, t, Ensure(0, DONE));
      && Consistent(site, t) && !Consistent(site, u)
      && u.calls == [Over, Over, Over, Over] && u.rows == s.rows
      && name in u.agent && u.agent[name] == DeploymentFor(site, RowAt(name, 10000))
  {
    var old3, new3 := DeploymentFor(site, RowAt(name, 10000)), DeploymentFor(site, RowAt(name, 10002));
    assert old3.prod.port == 10000 && new3.prod.port == 10002;
    hide DeploymentFor;
    var t1 := Apply(site, s, Ensure(2, DONE));
    assert t1.agent == map[other := DeploymentFor(site, RowAt(other, 10000))];
    var t := Apply(site, t1, Ensure(3, DONE));
    assert t.agent == map[other := DeploymentFor(site, RowAt(other, 10000)), name := new3];
    var u := Apply(site, t, Ensure(0, DONE));
    assert u.calls == [Over, Over, Over, Over] && u.agent[name] == old3;
    assert !RowOk(site, u, 3);
  }

  /** A slow EnsureProject: the row of a first create is deleted, another project takes its ports, the name
      is created again with new ports and registered; then the first call lands and the agent holds the
      old ports for the new row, although every call succeeded. */
  lemma SlowCreateOverwrites(site: Site, name: string, other: string)
    requires ValidName(name) && ValidName(other) && name != other
    ensures
      var s1 := Apply(site, State(map[], map[], []), BeginCreate(1, name));
      var s2 := Apply(site, Apply(site, Apply(site, s1, BeginDelete(1)), Forget(1, DONE)), Drop(1));
      var s3 := Apply(site, Apply(site, s2, BeginCreate(2, other)), BeginCreate(3, name));
      var s4 := Apply(site, Apply(site, s3, Ensure(2, DONE)), Ensure(3, DONE));
      var s5 := Apply(site, s4, Ensure(0, DONE));
      && Consistent(site, s4) && !Consistent(site, s5)
      && s5.calls == [Over, Over, Over, Over]
      && s5.rows == map[2 := RowAt(other, 10000), 3 := RowAt(name, 10002)]
      && name in s5.agent && s5.agent[name] == DeploymentFor(site, RowAt(name, 10000))
  {
    hide Apply, Consistent, DeploymentFor, ValidName;
    DeletedEarly(site, name);
    var calls := [CreatingAt(site, 1, name, 10000), Over];
    CreatedAgain(site, name, other, calls);
    var s3 := Apply(site, Apply(site, State(map[], map[], calls), BeginCreate(2, other)), BeginCreate(3, name));
    StaleCallLands(site, s3, name, other);
  }
}
