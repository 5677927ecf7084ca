/**
 The outer-container supervisor (internal/containerruntime/docker.go, supervisor.go): drift
 detection, and EnsureRunning and Recreate as state machines against a daemon that may
 answer anything.
 */
module Supervisor {
  import opened Wrappers
  import opened ContainerSpec

  // ---- Drift ---------------------------------------------------------------------------------------

  datatype Reason = ImageDiffers | PortNotPublished(port: int)

  function PortReasons(wanted: seq<int>, ports: set<int>): (r: seq<Reason>) {
    if wanted == [] then []
    else
      var p := wanted[|wanted| - 1];
      PortReasons(wanted[..|wanted| - 1], ports) + if p in ports then [] else [PortNotPublished(p)]
  }

  function WantedPorts(s: Spec): (r: seq<int>) {
    [s.apiPort, s.appPortStart, s.appPortEnd]
  }

  function Drift(s: Spec, c: Container): (r: seq<Reason>) {
    (if c.image != s.image then [ImageDiffers] else []) + PortReasons(WantedPorts(s), c.ports)
  }

  method DriftReasons(s: Spec, c: Container) returns (reasons: seq<Reason>)
    ensures reasons == Drift(s, c)
    ensures reasons == [] <==> Matches(s, c)
    ensures ImageDiffers in reasons <==> c.image != s.image
    ensures forall p :: PortNotPublished(p) in reasons <==>
              (p == s.apiPort || p == s.appPortStart || p == s.appPortEnd) && p !in c.ports
  {
    hide PortReasons, Matches;
    NoWantedPorts(c.ports);
    reasons := if c.image != s.image then [ImageDiffers] else [];
    ghost var first := reasons;
    var want := WantedPorts(s);
    for i := 0 to |want|
      invariant reasons == first + PortReasons(want[..i], c.ports)
    {
      assert want[..i + 1] == want[..i] + [want[i]];
      PortReasonsSnoc(want[..i], want[i], c.ports);
      if want[i] !in c.ports {
        reasons := reasons + [PortNotPublished(want[i])];
      }
    }
    assert want[..|want|] == want;
    NoReasons(s, c);
    forall p ensures PortNotPublished(p) in reasons <==> p in want && p !in c.ports {
      PortReasonsAre(want, c.ports, p);
    }
    PortReasonsAre(want, c.ports, 0);
  }

  lemma NoWantedPorts(ports: set<int>)
    ensures PortReasons([], ports) == []
  {
  }

  lemma PortReasonsSnoc(wanted: seq<int>, p: int, ports: set<int>)
    ensures PortReasons(wanted + [p], ports) ==
            PortReasons(wanted, ports) + if p in ports then [] else [PortNotPublished(p)]
  {
    assert (wanted + [p])[..|wanted|] == wanted;
  }

  /** The container has the spec's image and publishes its three ports. */
  ghost predicate Matches(s: Spec, c: Container) {
    c.image == s.image && s.apiPort in c.ports && s.appPortStart in c.ports && s.appPortEnd in c.ports
  }

  lemma {:induction false} PortReasonsAre(wanted: seq<int>, ports: set<int>, p: int)
    ensures PortNotPublished(p) in PortReasons(wanted, ports) <==> p in wanted && p !in ports
    ensures ImageDiffers !in PortReasons(wanted, ports)
  {
    if wanted != [] {
      var n := |wanted| - 1;
      PortReasonsAre(wanted[..n], ports, p);
      assert wanted == wanted[..n] + [wanted[n]];
    }
  }

  lemma {:induction false} NoPortReasons(wanted: seq<int>, ports: set<int>)
    ensures PortReasons(wanted, ports) == [] <==> forall i | 0 <= i < |wanted| :: wanted[i] in ports
  {
    if wanted != [] {
      var n := |wanted| - 1;
      NoPortReasons(wanted[..n], ports);
      assert forall i | 0 <= i < n :: wanted[..n][i] == wanted[i];
    }
  }

  lemma NoReasons(s: Spec, c: Container)
    ensures Drift(s, c) == [] <==> Matches(s, c)
  {
    var want := WantedPorts(s);
    NoPortReasons(want, c.ports);
    assert want[0] == s.apiPort && want[1] == s.appPortStart && want[2] == s.appPortEnd;
  }

  /** A container created from a spec's own RunArgs never shows drift against that spec. */
  lemma FreshContainerHasNoDrift(s: Spec, running: bool)
    ensures
      match CreateContainer(RunArgs(s), running)
      case None => true
      case Some(c) => Drift(s, c) == []
  {
    hide CreateContainer, RunArgs, Drift;
    CreatedFromRunArgs(s, running);
    if CreateContainer(RunArgs(s), running).Some? {
      NoReasons(s, CreateContainer(RunArgs(s), running).value);
    }
  }

  // ---- EnsureRunning and Recreate against any daemon -----------------------------------------------

  /** Validate finds nothing missing. */
  predicate Complete(s: Spec) {
    && s.image != "" && s.name != "" && s.seccompProfilePath != "" && s.apiPort != 0
    && s.appPortStart != 0 && s.appPortEnd != 0 && s.readinessUrl != ""
  }

  datatype Inspect = DaemonDown | InspectFailed | Absent | Found(c: Container)

  datatype Reply = Done | NoDaemon | NoImage | NoSuchObject | Refused

  /** What the daemon will answer; `probes` are the readiness probes made before the deadline, of which
      there is always at least one. */
  datatype Replies = Replies(inspect: Inspect, run: Reply, start: Reply, rm: Reply,
                             firstProbe: bool, laterProbes: seq<bool>)

  datatype Command = InspectCmd | RunCmd(args: seq<string>) | StartCmd | RmCmd | Probe(ok: bool)

  datatype Result =
    | Healthy | InvalidSpec | DaemonUnavailable | ImageMissing | CommandFailed
    | SpecDrift(reasons: seq<Reason>) | Unhealthy

  predicate Changing(c: Command) { c.RunCmd? || c.StartCmd? || c.RmCmd? }

  /** The one command EnsureRunning issues on what it saw, if any. */
  function Decide(s: Spec, inspect: Inspect): (r: Option<Command>) {
    match inspect
    case Absent => Some(RunCmd(RunArgs(s)))
    case Found(c) => if Drift(s, c) == [] && !c.running then Some(StartCmd) else None
    case _ => None
  }

  /** Polls until a probe answers or the deadline cuts the probes short. */
  method WaitHealthy(firstProbe: bool, laterProbes: seq<bool>) returns (r: Result, log: seq<Command>)
    ensures r == (if firstProbe || true in laterProbes then Healthy else Unhealthy)
    ensures log != [] && forall i | 0 <= i < |log| :: log[i].Probe?
    ensures log[|log| - 1].ok == r.Healthy? && forall i | 0 <= i < |log| - 1 :: !log[i].ok
  {
    log := [Probe(firstProbe)];
    if firstProbe {
      return Healthy, log;
    }
    for i := 0 to |laterProbes|
      invariant log != [] && forall j | 0 <= j < |log| :: log[j] == Probe(false)
      invariant true !in laterProbes[..i]
    {
      assert laterProbes[..i + 1] == laterProbes[..i] + [laterProbes[i]];
      log := log + [Probe(laterProbes[i])];
      if laterProbes[i] {
        return Healthy, log;
      }
    }
    assert laterProbes[..|laterProbes|] == laterProbes;
    return Unhealthy, log;
  }

  function CreateError(reply: Reply): (r: Result) {
    match reply
    case NoDaemon => DaemonUnavailable
    case NoImage => ImageMissing
    case _ => CommandFailed
  }

  function ProbeResult(d: Replies): (r: Result) {
    if d.firstProbe || true in d.laterProbes then Healthy else Unhealthy
  }

  /** The error that reaches the caller, by what the daemon answered. */
  function EnsureResult(s: Spec, d: Replies): (r: Result) {
    match d.inspect
    case DaemonDown => DaemonUnavailable
    case InspectFailed => CommandFailed
    case Absent => if d.run != Done then CreateError(d.run) else ProbeResult(d)
    case Found(c) =>
      if Drift(s, c) != [] then SpecDrift(Drift(s, c))
      else if c.running || d.start == Done then ProbeResult(d)
      else if d.start == NoDaemon then DaemonUnavailable else CommandFailed
  }

  lemma InPrefix<T>(a: seq<T>, b: seq<T>)
    ensures forall x | x in a :: x in a + b
    ensures b != [] ==> (a + b)[|a + b| - 1] == b[|b| - 1]
  {
  }

  /** Whatever the daemon answers: never `rm`; at most one of `run` and `start`, and exactly the one
      Decide names; neither under drift; nil only after a successful probe. */
  method EnsureRunning(s: Spec, d: Replies) returns (r: Result, log: seq<Command>)
    ensures forall i | 0 <= i < |log| :: !log[i].RmCmd?
    ensures forall i, j | 0 <= i < j < |log| :: !(Changing(log[i]) && Changing(log[j]))
    ensures forall i | 0 <= i < |log| && Changing(log[i]) :: Some(log[i]) == Decide(s, d.inspect)
    ensures Complete(s) && Decide(s, d.inspect).Some? ==> Decide(s, d.inspect).value in log
    ensures Complete(s) && d.inspect.Found? && Drift(s, d.inspect.c) != [] ==>
              r == SpecDrift(Drift(s, d.inspect.c)) && log == [InspectCmd]
    ensures !Complete(s) ==> r == InvalidSpec && log == []
    ensures r.Healthy? ==> log != [] && log[|log| - 1] == Probe(true)
    ensures Complete(s) ==> r == EnsureResult(s, d)
    ensures Complete(s) ==> (StartCmd in log <==> d.inspect.Found? && !d.inspect.c.running && Matches(s, d.inspect.c))
    ensures Complete(s) ==> (RunCmd(RunArgs(s)) in log <==> d.inspect.Absent?)
    ensures r == InvalidSpec <==>
              || s.image == "" || s.name == "" || s.seccompProfilePath == "" || s.apiPort == 0
              || s.appPortStart == 0 || s.appPortEnd == 0 || s.readinessUrl == ""
  {
    hide Drift, RunArgs, Matches;
    if !Complete(s) {
      return InvalidSpec, [];
    }
    log := [InspectCmd];
    match d.inspect {
      case DaemonDown => return DaemonUnavailable, log;
      case InspectFailed => return CommandFailed, log;
      case Absent =>
        var args := BuildRunArgs(s);
        log := log + [RunCmd(args)];
        if d.run != Done {
          return CreateError(d.run), log;
        }
      case Found(c) =>
        var reasons := DriftReasons(s, c);
        if |reasons| > 0 {
          return SpecDrift(reasons), log;
        }
        if !c.running {
          log := log + [StartCmd];
          if d.start != Done {
            return if d.start == NoDaemon then DaemonUnavailable else CommandFailed, log;
          }
        }
    }
    var probes;
    r, probes := WaitHealthy(d.firstProbe, d.laterProbes);
    InPrefix(log, probes);
    assert StartCmd !in probes && RunCmd(RunArgs(s)) !in probes;
    log := log + probes;
  }

  /** The error that reaches the caller, error by error, in terms of what the daemon answered. */
  lemma ErrorTable(s: Spec, d: Replies)
    ensures
      var r := EnsureResult(s, d);
      var found := d.inspect.Found?;
      var starts := found && Matches(s, d.inspect.c) && !d.inspect.c.running;
      && (r == DaemonUnavailable <==>
          d.inspect.DaemonDown? || (d.inspect.Absent? && d.run == NoDaemon) || (starts && d.start == NoDaemon))
      && (r == ImageMissing <==> d.inspect.Absent? && d.run == NoImage)
      && (r == CommandFailed <==>
          || d.inspect.InspectFailed?
          || (d.inspect.Absent? && (d.run == NoSuchObject || d.run == Refused))
          || (starts && d.start != Done && d.start != NoDaemon))
      && (r.SpecDrift? <==> found && !Matches(s, d.inspect.c))
      && (r == Unhealthy || r == Healthy <==>
          (d.inspect.Absent? && d.run == Done)
          || (found && Matches(s, d.inspect.c) && (d.inspect.c.running || d.start == Done)))
      && (r == Healthy ==> d.firstProbe || true in d.laterProbes)
      && (r == Unhealthy ==> !d.firstProbe && true !in d.laterProbes)
  {
    hide Drift, Matches;
    if d.inspect.Found? {
      NoReasons(s, d.inspect.c);
    }
  }

  function RecreateResult(d: Replies): (r: Result) {
    match d.rm
    case NoDaemon => DaemonUnavailable
    case NoImage => CommandFailed
    case Refused => CommandFailed
    case _ => if d.run != Done then CreateError(d.run) else ProbeResult(d)
  }

  /** The same for Recreate. */
  lemma RecreateErrorTable(d: Replies)
    ensures
      var r := RecreateResult(d);
      var runs := d.rm == Done || d.rm == NoSuchObject;
      && (r == DaemonUnavailable <==> d.rm == NoDaemon || (runs && d.run == NoDaemon))
      && (r == ImageMissing <==> runs && d.run == NoImage)
      && (r == CommandFailed <==>
          d.rm == NoImage || d.rm == Refused || (runs && (d.run == NoSuchObject || d.run == Refused)))
      && (r == Healthy <==> runs && d.run == Done && (d.firstProbe || true in d.laterProbes))
  {
  }

  /** Recreate removes first, tolerating an absent container, and runs only after that; nil again only
      after a successful probe. */
  method Recreate(s: Spec, d: Replies) returns (r: Result, log: seq<Command>)
    ensures forall i | 0 <= i < |log| && log[i].RunCmd? :: log[i].args == RunArgs(s) && i == 1 && log[0] == RmCmd
    ensures forall i | 0 < i < |log| :: !log[i].RmCmd? && !log[i].StartCmd?
    ensures Complete(s) ==> (RunCmd(RunArgs(s)) in log <==> d.rm == Done || d.rm == NoSuchObject)
    ensures Complete(s) ==> r == RecreateResult(d) && log != [] && log[0] == RmCmd
    ensures !Complete(s) ==> r == InvalidSpec && log == []
    ensures r.Healthy? ==> log != [] && log[|log| - 1] == Probe(true)
  {
    hide RunArgs;
    if !Complete(s) {
      return InvalidSpec, [];
    }
    log := [RmCmd];
    if d.rm == NoDaemon {
      return DaemonUnavailable, log;
    }
    if d.rm != Done && d.rm != NoSuchObject {
      return CommandFailed, log;
    }
    var args := BuildRunArgs(s);
    log := log + [RunCmd(args)];
    if d.run != Done {
      return CreateError(d.run), log;
    }
    var probes;
    r, probes := WaitHealthy(d.firstProbe, d.laterProbes);
    InPrefix(log, probes);
    log := log + probes;
  }

  // ---- Repeated EnsureRunning ----------------------------------------------------------------------

  /** One EnsureRunning call against the real container (`seen` unless inspect fails; its command takes
      effect or not, and leaves the container running or not), or the container starting or stopping on
      its own. Nothing here removes the container. */
  datatype Event = Ensure(seen: bool, takesEffect: bool, running: bool) | RunningChanged(running: bool)

  function InspectOf(w: Option<Container>, seen: bool): (r: Inspect) {
    if !seen then InspectFailed else if w.None? then Absent else Found(w.value)
  }

  function Issued(s: Spec, w: Option<Container>, e: Event): (r: Option<Command>) {
    if e.Ensure? then Decide(s, InspectOf(w, e.seen)) else None
  }

  function Apply(s: Spec, w: Option<Container>, e: Event): (r: Option<Container>) {
    match e
    case RunningChanged(running) => if w.None? then None else Some(w.value.(running := running))
    case Ensure(_, takesEffect, running) =>
      match Issued(s, w, e)
      case Some(RunCmd(args)) => if takesEffect then CreateContainer(args, running) else w
      case Some(StartCmd) => if takesEffect && w.Some? then Some(w.value.(running := running)) else w
      case _ => w
  }

  function Run(s: Spec, w: Option<Container>, es: seq<Event>): (r: Option<Container>) {
    if es == [] then w else Apply(s, Run(s, w, es[..|es| - 1]), es[|es| - 1])
  }

  /** In every run from no container at all, the container shows no drift for its own spec. */
  lemma {:induction false} NeverDrifts(s: Spec, es: seq<Event>)
    ensures Run(s, None, es).Some? ==> Drift(s, Run(s, None, es).value) == []
  {
    hide RunArgs, CreateContainer;
    if es != [] {
      var w := Run(s, None, es[..|es| - 1]);
      NeverDrifts(s, es[..|es| - 1]);
      if w.None? && Apply(s, w, es[|es| - 1]).Some? {
        FreshContainerHasNoDrift(s, es[|es| - 1].running);
      }
    }
  }

  /** In every run from no container: an EnsureRunning that sees the daemon's true state and whose command
      takes effect leaves the container there and running, unless the daemon refuses the spec's own
      arguments; so a stopped container is started again. */
  lemma EnsureGetsItRunning(s: Spec, es: seq<Event>)
    ensures
      var w := Run(s, None, es);
      var t := Apply(s, w, Ensure(true, true, true));
      (t.Some? && t.value.running) <==> w.Some? || CreateContainer(RunArgs(s), true).Some?
  {
    NeverDrifts(s, es);
    hide Drift, RunArgs, CreateContainer, Run;
    CreatedRuns(RunArgs(s));
  }

  lemma CreatedRuns(words: seq<string>)
    ensures CreateContainer(words, true).Some? ==> CreateContainer(words, true).value.running
  {
  }

  /** Once the container exists it keeps its image and ports, and no later EnsureRunning runs it again. */
  lemma {:induction false} NeverRunsAgain(s: Spec, es: seq<Event>, fs: seq<Event>, e: Event)
    requires Run(s, None, es).Some?
    ensures
      var w, v := Run(s, None, es), Run(s, Run(s, None, es), fs);
      && v.Some? && v.value.image == w.value.image && v.value.ports == w.value.ports
      && (Issued(s, v, e).Some? ==> Issued(s, v, e).value == StartCmd)
  {
    if fs != [] {
      hide Drift, RunArgs, Run;
      NeverRunsAgain(s, es, fs[..|fs| - 1], fs[|fs| - 1]);
      RunLast(s, Run(s, None, es), fs);
    }
  }

  lemma RunLast(s: Spec, w: Option<Container>, fs: seq<Event>)
    requires fs != []
    ensures Run(s, w, fs) == Apply(s, Run(s, w, fs[..|fs| - 1]), fs[|fs| - 1])
  {
  }
}
