/**
 Project lifecycle across two stores (internal/project/manager.go): appx's own rows and
 the agent-server's registry, reached by calls that may fail before or after taking
 effect. Local row writes are taken to succeed.
 */
module Lifecycle {
  import opened ProjectStore
  import opened Routing

  /** How an agent-server call ends. */
  datatype Call = Succeeds | FailsBefore | FailsAfter {
    predicate TookEffect() { !FailsBefore? }
  }

  type Registry = map<string, Deployment>

  datatype State = State(rows: Rows, agent: Registry)

  datatype Config = Config(site: Site, hasAgent: bool)

  datatype Result = Ok | StoreError(outcome: Outcome) | NotFound | AgentError

  datatype Event =
    | Create(id: Id, name: string, call: Call)
    | Delete(id: Id, call: Call)
    | Reconcile(calls: seq<(Id, Call)>)

  /** EnsureProject is an upsert by name. */
  function Ensure(agent: Registry, name: string, deployment: Deployment, call: Call): (r: Registry) {
    if call.TookEffect() then agent[name := deployment] else agent
  }

  /** Create: insert the local row, register it, and take the row back if registration failed. */
  function CreateStep(c: Config, s: State, id: Id, name: string, call: Call): (r: (State, Result)) {
    if id in s.rows || CreateOutcome(s.rows, name) != Created then (s, StoreError(CreateOutcome(s.rows, name)))
    else
      var rows := ProjectStore.Create(s.rows, id, name);
      if !c.hasAgent then (s.(rows := rows), Ok)
      else
        var agent := Ensure(s.agent, name, DeploymentFor(c.site, rows[id]), call);
        if call.Succeeds? then (State(rows, agent), Ok) else (State(rows - {id}, agent), AgentError)
  }

  /** Delete: the agent forgets the project first; only then does the local row go. */
  function DeleteStep(c: Config, s: State, id: Id, call: Call): (r: (State, Result)) {
    if id !in s.rows then (s, NotFound)
    else if !c.hasAgent then (s.(rows := s.rows - {id}), Ok)
    else
      var agent := if call.TookEffect() then s.agent - {s.rows[id].name} else s.agent;
      if call.Succeeds? then (State(s.rows - {id}, agent), Ok) else (s.(agent := agent), AgentError)
  }

  /** Reconcile: re-register the listed rows one after the other, carrying on after failures. */
  function ReconcileAgent(c: Config, s: State, calls: seq<(Id, Call)>): (r: Registry) {
    if calls == [] then s.agent
    else
      var (id, call) := calls[|calls| - 1];
      var agent := ReconcileAgent(c, s, calls[..|calls| - 1]);
      if id in s.rows then Ensure(agent, s.rows[id].name, DeploymentFor(c.site, s.rows[id]), call) else agent
  }

  function ReconcileStep(c: Config, s: State, calls: seq<(Id, Call)>): (r: (State, Result)) {
    if !c.hasAgent then (s, Ok)
    else
      (s.(agent := ReconcileAgent(c, s, calls)),
       if forall i | 0 <= i < |calls| :: calls[i].1.Succeeds? then Ok else AgentError)
  }

  function Apply(c: Config, s: State, e: Event): (r: (State, Result)) {
    match e
    case Create(id, name, call) => CreateStep(c, s, id, name, call)
    case Delete(id, call) => DeleteStep(c, s, id, call)
    case Reconcile(calls) => ReconcileStep(c, s, calls)
  }

  function Run(c: Config, agent: Registry, es: seq<Event>): (r: State) {
    if es == [] then State(map[], agent) else Apply(c, Run(c, agent, es[..|es| - 1]), es[|es| - 1]).0
  }

  // ---- What holds at operation boundaries ----------------------------------------------------------

  ghost predicate Registered(c: Config, row: Row, agent: Registry) {
    row.name in agent && agent[row.name] == DeploymentFor(c.site, row)
  }

  /** Every local row whose name the agent knows has matching ports and URLs there. */
  ghost predicate Consistent(c: Config, s: State) {
    forall id | id in s.rows && s.rows[id].name in s.agent :: Registered(c, s.rows[id], s.agent)
  }

  ghost predicate Inv(c: Config, s: State) {
    Aligned(s.rows) && (c.hasAgent ==> Consistent(c, s))
  }

  /** Registering a row leaves every other row's registration alone, since names differ. */
  lemma EnsureKeepsConsistent(c: Config, rows: Rows, agent: Registry, id: Id, call: Call)
    requires NamesOk(rows) && id in rows
    requires forall i | i in rows && i != id && rows[i].name in agent :: Registered(c, rows[i], agent)
    requires call.TookEffect() || (rows[id].name in agent ==> Registered(c, rows[id], agent))
    ensures Consistent(c, State(rows, Ensure(agent, rows[id].name, DeploymentFor(c.site, rows[id]), call)))
  {
  }

  lemma CreateRow(rows: Rows, id: Id, name: string)
    requires id !in rows && CreateOutcome(rows, name) == Created
    ensures
      var created := ProjectStore.Create(rows, id, name);
      && id in created && created[id].name == name && created - {id} == rows
      && (forall i | i in created && i != id :: i in rows && created[i] == rows[i])
      && (forall i | i in rows :: rows[i].name != name)
  {
  }

  lemma CreateKeepsInv(c: Config, s: State, id: Id, name: string, call: Call)
    requires Inv(c, s)
    ensures Inv(c, CreateStep(c, s, id, name, call).0)
  {
    if id !in s.rows && CreateOutcome(s.rows, name) == Created {
      CreateKeepsAligned(s.rows, id, name);
      CreateRow(s.rows, id, name);
      var rows := ProjectStore.Create(s.rows, id, name);
      AlignedNames(rows);
      hide CreateOutcome, ProjectStore.Create, Aligned, NamesOk, DeploymentFor;
      if c.hasAgent && call.Succeeds? {
        EnsureKeepsConsistent(c, rows, s.agent, id, call);
      }
    }
  }

  lemma DeleteKeepsInv(c: Config, s: State, id: Id, call: Call)
    requires Inv(c, s)
    ensures Inv(c, DeleteStep(c, s, id, call).0)
  {
    hide DeploymentFor, ValidName, AlignedPair;
  }

  lemma {:induction false} ReconcileKeepsConsistent(c: Config, s: State, calls: seq<(Id, Call)>)
    requires NamesOk(s.rows) && Consistent(c, s)
    ensures Consistent(c, s.(agent := ReconcileAgent(c, s, calls)))
  {
    if calls != [] {
      var (id, call) := calls[|calls| - 1];
      ReconcileKeepsConsistent(c, s, calls[..|calls| - 1]);
      if id in s.rows {
        hide NamesOk, DeploymentFor;
        EnsureKeepsConsistent(c, s.rows, ReconcileAgent(c, s, calls[..|calls| - 1]), id, call);
      }
    }
  }

  lemma ApplyKeepsInv(c: Config, s: State, e: Event)
    requires Inv(c, s)
    ensures Inv(c, Apply(c, s, e).0)
  {
    hide CreateStep, DeleteStep;
    match e
    case Create(id, name, call) => CreateKeepsInv(c, s, id, name, call);
    case Delete(id, call) => DeleteKeepsInv(c, s, id, call);
    case Reconcile(calls) =>
      hide NamesOk, PortsAligned, Consistent;
      if c.hasAgent {
        ReconcileKeepsConsistent(c, s, calls);
      }
  }

  /** In every run, whatever the agent knew at the start and however its calls fail, each local row the
      agent knows about has its current ports and URLs there. */
  lemma {:induction false} EveryRunIsConsistent(c: Config, agent: Registry, es: seq<Event>)
    ensures Inv(c, Run(c, agent, es))
  {
    if es != [] {
      EveryRunIsConsistent(c, agent, es[..|es| - 1]);
      hide Inv, Apply;
      ApplyKeepsInv(c, Run(c, agent, es[..|es| - 1]), es[|es| - 1]);
    }
  }

  /** A failed Create or Delete leaves the local rows as they were; a successful Create leaves the new
      row registered, and a successful Delete leaves the agent without the name. */
  lemma ResultsMeanWhatTheySay(c: Config, s: State, e: Event)
    requires Inv(c, s) && !e.Reconcile?
    ensures
      var (t, r) := Apply(c, s, e);
      && (r != Ok ==> t.rows == s.rows)
      && (r == Ok && e.Create? ==>
            e.id in t.rows && t.rows - {e.id} == s.rows && t.rows[e.id].name == e.name
            && (c.hasAgent ==> Registered(c, t.rows[e.id], t.agent)))
      && (r == Ok && e.Delete? ==>
            e.id in s.rows && t.rows == s.rows - {e.id} && (c.hasAgent ==> s.rows[e.id].name !in t.agent))
  {
    hide Inv, ProjectStore.Create, DeploymentFor, CreateOutcome;
    if e.Create? && e.id !in s.rows && CreateOutcome(s.rows, e.name) == Created {
      CreateRow(s.rows, e.id, e.name);
    }
  }

  /** When each operation returns nil: a create if the name is valid and free, a port pair is left and the agent
      answered; a delete if there is such a row and the agent answered; a reconcile if every push succeeded. */
  lemma OkIff(c: Config, s: State, e: Event)
    ensures Apply(c, s, e).1 == Ok <==>
      match e
      case Create(id, name, call) =>
        id !in s.rows && CreateOutcome(s.rows, name) == Created && (c.hasAgent ==> call.Succeeds?)
      case Delete(id, call) => id in s.rows && (c.hasAgent ==> call.Succeeds?)
      case Reconcile(calls) => c.hasAgent ==> forall i | 0 <= i < |calls| :: calls[i].1.Succeeds?
  {
    hide CreateOutcome, ProjectStore.Create, DeploymentFor;
  }

  /** No operation touches the agent's entry under a name it is not about. */
  lemma OtherNamesAreUntouched(c: Config, s: State, e: Event, name: string)
    requires !AboutName(s, e, name)
    ensures
      var agent := Apply(c, s, e).0.agent;
      (name in agent <==> name in s.agent) && (name in agent ==> agent[name] == s.agent[name])
  {
    hide DeploymentFor, CreateOutcome, ProjectStore.Create;
    if e.Reconcile? {
      PushesKeepOtherNames(c, s, e.calls, name);
    }
  }

  ghost predicate AboutName(s: State, e: Event, name: string) {
    match e
    case Create(_, created, _) => created == name
    case Delete(id, _) => id in s.rows && s.rows[id].name == name
    case Reconcile(_) => exists id :: id in s.rows && s.rows[id].name == name
  }

  lemma {:induction false} PushesKeepOtherNames(c: Config, s: State, calls: seq<(Id, Call)>, name: string)
    requires forall id | id in s.rows :: s.rows[id].name != name
    ensures
      var agent := ReconcileAgent(c, s, calls);
      (name in agent <==> name in s.agent) && (name in agent ==> agent[name] == s.agent[name])
  {
    if calls != [] {
      PushesKeepOtherNames(c, s, calls[..|calls| - 1], name);
    }
  }

  ghost predicate ListsAll(rows: Rows, calls: seq<(Id, Call)>) {
    forall id | id in rows :: exists i :: 0 <= i < |calls| && calls[i].0 == id
  }

  lemma {:induction false} SuccessfulCallRegisters(c: Config, s: State, calls: seq<(Id, Call)>, id: Id)
    requires NamesOk(s.rows) && id in s.rows
    requires forall i | 0 <= i < |calls| :: calls[i].1.Succeeds?
    requires exists i :: 0 <= i < |calls| && calls[i].0 == id
    ensures Registered(c, s.rows[id], ReconcileAgent(c, s, calls))
  {
    var last := calls[|calls| - 1];
    if last.0 != id {
      var i :| 0 <= i < |calls| && calls[i].0 == id;
      assert calls[..|calls| - 1][i].0 == id;
      SuccessfulCallRegisters(c, s, calls[..|calls| - 1], id);
    }
  }

  /** After a Reconcile over all rows that returns nil, every local row is registered with its current
      ports and URLs. */
  lemma ReconcileRegistersEverything(c: Config, s: State, calls: seq<(Id, Call)>)
    requires Inv(c, s) && c.hasAgent && ListsAll(s.rows, calls)
    requires ReconcileStep(c, s, calls).1 == Ok
    ensures
      var t := ReconcileStep(c, s, calls).0;
      t.rows == s.rows && forall id | id in t.rows :: Registered(c, t.rows[id], t.agent)
  {
    AlignedNames(s.rows);
    hide Inv, NamesOk, ReconcileAgent, Registered;
    forall id | id in s.rows ensures Registered(c, s.rows[id], ReconcileAgent(c, s, calls)) {
      SuccessfulCallRegisters(c, s, calls, id);
    }
  }

  /** What the agent was told is what the edge does: every URL it holds for a local row dispatches to
      the port it holds for it, whenever the site's hosts are routable. */
  lemma AgentUrlsRoute(c: Config, agent: Registry, es: seq<Event>, id: Id, dev: bool)
    requires
      var s := Run(c, agent, es);
      && c.hasAgent && id in s.rows && s.rows[id].name in s.agent
      && c.site.baseDomain != "" && SurvivesStripping(c.site)
      && PublicHost(c.site, Subdomain(s.rows[id], dev)) !in c.site.aliases
    ensures
      var s := Run(c, agent, es);
      var d := s.agent[s.rows[id].name];
      var target := if dev then d.dev else d.prod;
      Dispatch(c.site, s.rows, HostHeader(target.url)) == Proxy(target.port)
  {
    EveryRunIsConsistent(c, agent, es);
    hide Run;
    var s := Run(c, agent, es);
    assert Registered(c, s.rows[id], s.agent);
    hide Consistent, Registered;
    UrlRoundTrip(c.site, s.rows, id, dev);
  }

  class Manager {
    const config: Config
    var rows: Rows
    var agent: Registry

    ghost function View(): (s: State)
      reads this
    {
      State(rows, agent)
    }

    constructor (config: Config, agent: Registry)
      ensures this.config == config && View() == State(map[], agent)
    {
      this.config := config;
      rows, this.agent := map[], agent;
    }

    method CreateProject(id: Id, name: string, call: Call) returns (r: Result)
      requires id !in rows
      modifies this
      ensures (View(), r) == CreateStep(config, old(View()), id, name, call)
    {
      var outcome := CreateOutcome(rows, name);
      if outcome != Created {
        return StoreError(outcome);
      }
      rows := ProjectStore.Create(rows, id, name);
      if config.hasAgent {
        agent := Ensure(agent, name, DeploymentFor(config.site, rows[id]), call);
        if !call.Succeeds? {
          rows := rows - {id};
          return AgentError;
        }
      }
      return Ok;
    }

    method DeleteProject(id: Id, call: Call) returns (r: Result)
      modifies this
      ensures (View(), r) == DeleteStep(config, old(View()), id, call)
    {
      if id !in rows {
        return NotFound;
      }
      if config.hasAgent {
        if call.TookEffect() {
          agent := agent - {rows[id].name};
        }
        if !call.Succeeds? {
          return AgentError;
        }
      }
      rows := rows - {id};
      return Ok;
    }

    /** The reconcile loop: collects an error per failed registration and never stops early. */
    method ReconcileAgentProjects(calls: seq<(Id, Call)>) returns (r: Result)
      modifies this`agent
      ensures (View(), r) == ReconcileStep(config, old(View()), calls)
    {
      if !config.hasAgent {
        return Ok;
      }
      var errors := 0;
      for i := 0 to |calls|
        invariant agent == ReconcileAgent(config, old(View()), calls[..i])
        invariant 0 <= errors && (errors == 0 <==> forall j | 0 <= j < i :: calls[j].1.Succeeds?)
      {
        assert calls[..i + 1][..i] == calls[..i];
        var (id, call) := calls[i];
        if id in rows {
          agent := Ensure(agent, rows[id].name, DeploymentFor(config.site, rows[id]), call);
        }
        if !call.Succeeds? {
          errors := errors + 1;
        }
      }
      assert calls[..|calls|] == calls;
      return if errors == 0 then Ok else AgentError;
    }
  }
}
