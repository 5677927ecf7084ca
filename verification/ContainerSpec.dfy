/**
 The outer container's specification (internal/containerruntime/spec.go): the argument
 vector of `docker run` as the words the source appends, and what the daemon's command
 line reads from them. The options are printed and parsed, so what the container gets is
 a statement about the words.
 */
module ContainerSpec {
  import opened Text
  import opened Wrappers

  datatype Spec = Spec(image: string, name: string, seccompProfilePath: string,
                       apiBindHost: string, apiPort: int, appBindHost: string, appPortStart: int, appPortEnd: int,
                       volumes: seq<(string, string)>, env: seq<(string, string)>, envPassthrough: seq<string>,
                       addHosts: seq<string>, memory: string, cpus: string, readinessUrl: string, restartPolicy: string)

  /** Flags that take a value. */
  datatype Flag =
    | Name | Device | SecurityOpt | Restart | Memory | Cpus | AddHost | Env | Volume | Publish | CapAdd

  datatype Arg = Detach | Privileged | Opt(flag: Flag, value: string) | Image(ref: string)

  // ---- The command line --------------------------------------------------------------------------

  function FlagWord(flag: Flag): (r: string) {
    match flag
    case Name => "--name"
    case Device => "--device"
    case SecurityOpt => "--security-opt"
    case Restart => "--restart"
    case Memory => "--memory"
    case Cpus => "--cpus"
    case AddHost => "--add-host"
    case Env => "-e"
    case Volume => "-v"
    case Publish => "-p"
    case CapAdd => "--cap-add"
  }

  function FlagOf(word: string): (r: Option<Flag>) {
    if word == "--name" then Some(Name)
    else if word == "--device" then Some(Device)
    else if word == "--security-opt" then Some(SecurityOpt)
    else if word == "--restart" then Some(Restart)
    else if word == "--memory" then Some(Memory)
    else if word == "--cpus" then Some(Cpus)
    else if word == "--add-host" then Some(AddHost)
    else if word == "-e" then Some(Env)
    else if word == "-v" then Some(Volume)
    else if word == "-p" then Some(Publish)
    else if word == "--cap-add" then Some(CapAdd)
    else None
  }

  function Words(arg: Arg): (r: seq<string>) {
    match arg
    case Detach => ["-d"]
    case Privileged => ["--privileged"]
    case Opt(flag, value) => [FlagWord(flag), value]
    case Image(ref) => [ref]
  }

  function Printed(args: seq<Arg>): (r: seq<string>) {
    if args == [] then [] else Printed(args[..|args| - 1]) + Words(args[|args| - 1])
  }

  /** A word in option position that starts with a dash is a flag; a lone dash is not. */
  predicate IsFlag(word: string) {
    |word| > 1 && word[0] == '-'
  }

  /** Reading a command line: options up to the first word that is not a flag, which is the image; what
      follows is the container's own command. A flag's value is the next word, whatever it looks like. */
  function Parse(words: seq<string>): (r: Option<seq<Arg>>) {
    if words == [] then None
    else if !IsFlag(words[0]) then Some([Image(words[0])])
    else if words[0] == "-d" then Before(Detach, Parse(words[1..]))
    else if words[0] == "--privileged" then Before(Privileged, Parse(words[1..]))
    else if FlagOf(words[0]).None? || |words| < 2 then None
    else Before(Opt(FlagOf(words[0]).value, words[1]), Parse(words[2..]))
  }

  function Before(arg: Arg, rest: Option<seq<Arg>>): (r: Option<seq<Arg>>) {
    match rest
    case None => None
    case Some(args) => Some([arg] + args)
  }

  lemma {:induction false} PrintedAppend(a: seq<Arg>, b: seq<Arg>)
    ensures Printed(a + b) == Printed(a) + Printed(b)
  {
    hide Words;
    if b == [] {
      assert a + b == a;
    } else {
      var n := |b| - 1;
      PrintedAppend(a, b[..n]);
      assert (a + b)[..|a + b| - 1] == a + b[..n];
    }
  }

  lemma PrintedOne(arg: Arg)
    ensures Printed([arg]) == Words(arg)
  {
    assert [arg][..0] == [];
  }

  lemma PrintedFirst(arg: Arg, rest: seq<Arg>)
    ensures Printed([arg] + rest) == Words(arg) + Printed(rest)
  {
    PrintedAppend([arg], rest);
    PrintedOne(arg);
  }

  lemma FlagWordsAreRead(flag: Flag)
    ensures FlagOf(FlagWord(flag)) == Some(flag) && IsFlag(FlagWord(flag))
    ensures FlagWord(flag) != "-d" && FlagWord(flag) != "--privileged"
  {
  }

  /** The spelling of each flag. */
  lemma FlagSpelling()
    ensures FlagWord(Name) == "--name" && FlagWord(Device) == "--device" && FlagWord(SecurityOpt) == "--security-opt"
    ensures FlagWord(Restart) == "--restart" && FlagWord(Memory) == "--memory" && FlagWord(Cpus) == "--cpus"
    ensures FlagWord(AddHost) == "--add-host" && FlagWord(Env) == "-e" && FlagWord(Volume) == "-v"
    ensures FlagWord(Publish) == "-p" && FlagWord(CapAdd) == "--cap-add"
  {
  }

  /** One printed option in front is read as that option. */
  lemma ParseFirst(arg: Arg, words: seq<string>)
    requires !arg.Image?
    ensures Parse(Words(arg) + words) == Before(arg, Parse(words))
  {
    hide FlagOf, FlagWord;
    var all := Words(arg) + words;
    match arg
    case Opt(flag, value) =>
      FlagWordsAreRead(flag);
      assert all[0] == FlagWord(flag) && all[1] == value && all[2..] == words;
    case Detach => assert all[0] == "-d" && all[1..] == words;
    case Privileged => assert all[0] == "--privileged" && all[1..] == words;
  }

  lemma ParseImage(ref: string)
    ensures Parse([ref]) == if IsFlag(ref) then None else Some([Image(ref)])
  {
    hide FlagOf, IsFlag;
    assert [ref][1..] == [] && Parse([]) == None;
  }

  /** Printing options and an image and reading the words back gives the same options and image, exactly when
      the image does not look like a flag; otherwise the command line is refused. */
  lemma {:induction false} ParsePrinted(opts: seq<Arg>, ref: string)
    requires forall i | 0 <= i < |opts| :: !opts[i].Image?
    ensures Parse(Printed(opts) + [ref]) == if IsFlag(ref) then None else Some(opts + [Image(ref)])
  {
    hide Parse, IsFlag, Words, Printed;
    if opts == [] {
      PrintedNothing();
      assert [] + [ref] == [ref] && opts + [Image(ref)] == [Image(ref)];
      ParseImage(ref);
    } else {
      var rest := opts[1..];
      ParsePrinted(rest, ref);
      assert opts == [opts[0]] + rest;
      PrintedFirst(opts[0], rest);
      assert Words(opts[0]) + Printed(rest) + [ref] == Words(opts[0]) + (Printed(rest) + [ref]);
      ParseFirst(opts[0], Printed(rest) + [ref]);
      assert [opts[0]] + (rest + [Image(ref)]) == opts + [Image(ref)];
    }
  }

  lemma PrintedNothing()
    ensures Printed([]) == []
  {
  }

  // ---- RunArgs -----------------------------------------------------------------------------------

  /** "host:port:port" */
  function PublishOne(host: string, port: int): (r: string) {
    host + ":" + Itoa(port) + ":" + Itoa(port)
  }

  /** "host:start-end:start-end" */
  function PublishRange(host: string, start: int, end: int): (r: string) {
    host + ":" + Itoa(start) + "-" + Itoa(end) + ":" + Itoa(start) + "-" + Itoa(end)
  }

  function Optional(flag: Flag, value: string): (r: seq<Arg>) {
    if value != "" then [Opt(flag, value)] else []
  }

  function Each(flag: Flag, values: seq<string>): (r: seq<Arg>) {
    seq(|values|, i requires 0 <= i < |values| => Opt(flag, values[i]))
  }

  function Pairs(sep: string, pairs: seq<(string, string)>): (r: seq<string>) {
    seq(|pairs|, i requires 0 <= i < |pairs| => pairs[i].0 + sep + pairs[i].1)
  }

  function Boundary(s: Spec): (r: seq<Arg>) {
    [Detach, Opt(Name, s.name), Opt(Device, "/dev/net/tun"),
     Opt(SecurityOpt, "seccomp=" + s.seccompProfilePath),
     Opt(SecurityOpt, "apparmor=unconfined"), Opt(SecurityOpt, "systempaths=unconfined")]
  }

  function Extras(s: Spec): (r: seq<Arg>) {
    Optional(Restart, s.restartPolicy) + Optional(Memory, s.memory) + Optional(Cpus, s.cpus)
    + Each(AddHost, s.addHosts) + Each(Env, s.envPassthrough)
    + Each(Env, Pairs("=", s.env)) + Each(Volume, Pairs(":", s.volumes))
  }

  function Publishes(s: Spec): (r: seq<Arg>) {
    [Opt(Publish, PublishOne(s.apiBindHost, s.apiPort)),
     Opt(Publish, PublishRange(s.appBindHost, s.appPortStart, s.appPortEnd))]
  }

  function Options(s: Spec): (r: seq<Arg>) {
    Boundary(s) + Extras(s) + Publishes(s)
  }

  /** The words after the binary's name. */
  function RunArgs(s: Spec): (r: seq<string>) {
    ["run"] + (Printed(Options(s)) + [s.image])
  }

  method AppendEach(words: seq<string>, ghost built: seq<Arg>, flag: Flag, values: seq<string>)
    returns (r: seq<string>)
    requires words == ["run"] + Printed(built)
    ensures r == ["run"] + Printed(built + Each(flag, values))
  {
    hide Printed, FlagWord;
    r := words;
    assert built + Each(flag, values[..0]) == built;
    for i := 0 to |values|
      invariant r == ["run"] + Printed(built + Each(flag, values[..i]))
    {
      var next := Opt(flag, values[i]);
      assert built + Each(flag, values[..i + 1]) == built + Each(flag, values[..i]) + [next];
      PrintedAppend(built + Each(flag, values[..i]), [next]);
      PrintedOne(next);
      r := r + [FlagWord(flag), values[i]];
    }
    assert values[..|values|] == values;
  }

  method AppendOptional(words: seq<string>, ghost built: seq<Arg>, flag: Flag, value: string)
    returns (r: seq<string>)
    requires words == ["run"] + Printed(built)
    ensures r == ["run"] + Printed(built + Optional(flag, value))
  {
    hide Printed, FlagWord;
    r := words;
    assert built + [] == built;
    if value != "" {
      PrintedAppend(built, [Opt(flag, value)]);
      PrintedOne(Opt(flag, value));
      r := r + [FlagWord(flag), value];
    }
  }

  lemma PrintedBoundary(s: Spec)
    ensures Printed(Boundary(s)) ==
            ["-d", "--name", s.name, "--device", "/dev/net/tun", "--security-opt", "seccomp=" + s.seccompProfilePath,
             "--security-opt", "apparmor=unconfined", "--security-opt", "systempaths=unconfined"]
  {
    var b := Boundary(s);
    hide Printed;
    PrintedNothing();
    assert b[6..] == [];
    PrintedStep(b, 5);
    PrintedStep(b, 4);
    PrintedStep(b, 3);
    PrintedStep(b, 2);
    PrintedStep(b, 1);
    PrintedStep(b, 0);
    assert b[0..] == b;
  }

  lemma PrintedStep(args: seq<Arg>, i: nat)
    requires i < |args|
    ensures Printed(args[i..]) == Words(args[i]) + Printed(args[i + 1..])
  {
    hide Words, Printed;
    assert args[i..] == [args[i]] + args[i + 1..];
    PrintedFirst(args[i], args[i + 1..]);
  }

  lemma PrintedPublishes(s: Spec)
    ensures Printed(Publishes(s)) ==
            ["-p", PublishOne(s.apiBindHost, s.apiPort),
             "-p", PublishRange(s.appBindHost, s.appPortStart, s.appPortEnd)]
  {
    var p := Publishes(s);
    hide Printed, PublishOne, PublishRange;
    PrintedOne(p[1]);
    PrintedFirst(p[0], [p[1]]);
    assert p == [p[0]] + [p[1]];
  }

  method BuildRunArgs(s: Spec) returns (args: seq<string>)
    ensures args == RunArgs(s)
  {
    hide Each, Optional, Pairs, Printed, PublishOne, PublishRange, Publishes;
    ghost var built := Boundary(s);
    PrintedBoundary(s);
    args := ["run", "-d", "--name", s.name, "--device", "/dev/net/tun",
             "--security-opt", "seccomp=" + s.seccompProfilePath,
             "--security-opt", "apparmor=unconfined", "--security-opt", "systempaths=unconfined"];
    hide Boundary;
    args := AppendOptional(args, built, Restart, s.restartPolicy);
    built := built + Optional(Restart, s.restartPolicy);
    args := AppendOptional(args, built, Memory, s.memory);
    built := built + Optional(Memory, s.memory);
    args := AppendOptional(args, built, Cpus, s.cpus);
    built := built + Optional(Cpus, s.cpus);
    args := AppendEach(args, built, AddHost, s.addHosts);
    built := built + Each(AddHost, s.addHosts);
    args := AppendEach(args, built, Env, s.envPassthrough);
    built := built + Each(Env, s.envPassthrough);
    args := AppendEach(args, built, Env, Pairs("=", s.env));
    built := built + Each(Env, Pairs("=", s.env));
    args := AppendEach(args, built, Volume, Pairs(":", s.volumes));
    built := built + Each(Volume, Pairs(":", s.volumes));
    assert built == Boundary(s) + Extras(s);
    PrintedPublishes(s);
    PrintedAppend(built, Publishes(s));
    args := args + ["-p", PublishOne(s.apiBindHost, s.apiPort)];
    args := args + ["-p", PublishRange(s.appBindHost, s.appPortStart, s.appPortEnd)];
    args := args + [s.image];
  }

  // ---- What the container gets -----------------------------------------------------------------------

  function ValueOf(flag: Flag, arg: Arg): (r: seq<string>) {
    if arg.Opt? && arg.flag == flag then [arg.value] else []
  }

  /** The values given to one flag, in order. */
  function Values(flag: Flag, args: seq<Arg>): (r: seq<string>) {
    if args == [] then [] else Values(flag, args[..|args| - 1]) + ValueOf(flag, args[|args| - 1])
  }

  lemma {:induction false} ValuesAppend(flag: Flag, a: seq<Arg>, b: seq<Arg>)
    ensures Values(flag, a + b) == Values(flag, a) + Values(flag, b)
  {
    hide ValueOf;
    if b == [] {
      assert a + b == a;
    } else {
      var n := |b| - 1;
      ValuesAppend(flag, a, b[..n]);
      assert (a + b)[..|a + b| - 1] == a + b[..n];
    }
  }

  lemma {:induction false} NoValues(flag: Flag, args: seq<Arg>)
    requires forall i | 0 <= i < |args| :: !(args[i].Opt? && args[i].flag == flag)
    ensures Values(flag, args) == []
  {
    if args != [] {
      NoValues(flag, args[..|args| - 1]);
    }
  }

  lemma ValuesLast(flag: Flag, args: seq<Arg>, arg: Arg)
    ensures Values(flag, args + [arg]) == Values(flag, args) + ValueOf(flag, arg)
  {
    assert (args + [arg])[..|args|] == args;
  }

  /** The flags that decide what the container may do and publish; Extras sets none of them. */
  predicate Guarded(flag: Flag) {
    flag.Device? || flag.SecurityOpt? || flag.Publish? || flag.CapAdd?
  }

  lemma ExtrasAreHarmless(s: Spec, flag: Flag)
    requires Guarded(flag)
    ensures Values(flag, Extras(s)) == [] && Privileged !in Extras(s)
    ensures forall i | 0 <= i < |Extras(s)| :: Extras(s)[i].Opt?
  {
    hide Pairs, Values;
    NoValues(flag, Extras(s));
  }

  function SecurityOpts(s: Spec): (r: seq<string>) {
    ["seccomp=" + s.seccompProfilePath, "apparmor=unconfined", "systempaths=unconfined"]
  }

  /** What Boundary and Publishes give a guarded flag. */
  function GuardedValues(s: Spec, flag: Flag): (r: seq<string>) {
    match flag
    case Device => ["/dev/net/tun"]
    case SecurityOpt => SecurityOpts(s)
    case Publish => [PublishOne(s.apiBindHost, s.apiPort), PublishRange(s.appBindHost, s.appPortStart, s.appPortEnd)]
    case _ => []
  }

  lemma ValuesOfBoundary(s: Spec, flag: Flag)
    requires Guarded(flag)
    ensures Values(flag, Boundary(s)) == if flag.Publish? then [] else GuardedValues(s, flag)
  {
    hide Values, PublishOne, PublishRange;
    var b := Boundary(s);
    NoValues(flag, b[..2]);
    assert b[..3] == b[..2] + [b[2]] && b[..4] == b[..3] + [b[3]] && b[..5] == b[..4] + [b[4]] && b == b[..5] + [b[5]];
    ValuesLast(flag, b[..2], b[2]);
    ValuesLast(flag, b[..3], b[3]);
    ValuesLast(flag, b[..4], b[4]);
    ValuesLast(flag, b[..5], b[5]);
  }

  lemma ValuesOfPublishes(s: Spec, flag: Flag)
    requires Guarded(flag)
    ensures Values(flag, Publishes(s)) == if flag.Publish? then GuardedValues(s, flag) else []
  {
    hide Values, PublishOne, PublishRange, SecurityOpts;
    var p := Publishes(s);
    NoValues(flag, []);
    assert p == [p[0]] + [p[1]] && [] + [p[0]] == [p[0]];
    ValuesLast(flag, [], p[0]);
    ValuesLast(flag, [p[0]], p[1]);
  }

  lemma ValuesOfOptions(s: Spec, flag: Flag)
    requires Guarded(flag)
    ensures Values(flag, Options(s)) == GuardedValues(s, flag)
  {
    hide Values, Boundary, Extras, Publishes, GuardedValues;
    ValuesAppend(flag, Boundary(s), Extras(s));
    ValuesAppend(flag, Boundary(s) + Extras(s), Publishes(s));
    ValuesOfBoundary(s, flag);
    ExtrasAreHarmless(s, flag);
    ValuesOfPublishes(s, flag);
  }

  lemma EachSnoc(f: Flag, values: seq<string>, value: string)
    ensures Each(f, values + [value]) == Each(f, values) + [Opt(f, value)] && Each(f, []) == []
  {
  }

  lemma {:induction false} ValuesOfEach(flag: Flag, f: Flag, values: seq<string>)
    ensures Values(flag, Each(f, values)) == if f == flag then values else []
  {
    hide Values, Each;
    EachSnoc(f, [], "");
    if values == [] {
      NoValues(flag, []);
    } else {
      var init, last := values[..|values| - 1], values[|values| - 1];
      assert values == init + [last];
      ValuesOfEach(flag, f, init);
      EachSnoc(f, init, last);
      ValuesLast(flag, Each(f, init), Opt(f, last));
    }
  }

  lemma ValuesOfOptional(flag: Flag, f: Flag, value: string)
    ensures Values(flag, Optional(f, value)) == if f == flag && value != "" then [value] else []
  {
    ValuesLast(flag, [], Opt(f, value));
    assert [] + [Opt(f, value)] == [Opt(f, value)];
  }

  lemma ValuesOfExtras(s: Spec, flag: Flag)
    ensures Values(flag, Extras(s)) ==
            Values(flag, Optional(Restart, s.restartPolicy)) + Values(flag, Optional(Memory, s.memory))
            + Values(flag, Optional(Cpus, s.cpus)) + Values(flag, Each(AddHost, s.addHosts))
            + Values(flag, Each(Env, s.envPassthrough)) + Values(flag, Each(Env, Pairs("=", s.env)))
            + Values(flag, Each(Volume, Pairs(":", s.volumes)))
  {
    hide Values, Each, Optional, Pairs;
    var e1 := Optional(Restart, s.restartPolicy) + Optional(Memory, s.memory);
    var e2 := e1 + Optional(Cpus, s.cpus);
    var e3 := e2 + Each(AddHost, s.addHosts);
    var e4 := e3 + Each(Env, s.envPassthrough);
    var e5 := e4 + Each(Env, Pairs("=", s.env));
    ValuesAppend(flag, Optional(Restart, s.restartPolicy), Optional(Memory, s.memory));
    ValuesAppend(flag, e1, Optional(Cpus, s.cpus));
    ValuesAppend(flag, e2, Each(AddHost, s.addHosts));
    ValuesAppend(flag, e3, Each(Env, s.envPassthrough));
    ValuesAppend(flag, e4, Each(Env, Pairs("=", s.env)));
    ValuesAppend(flag, e5, Each(Volume, Pairs(":", s.volumes)));
  }

  lemma ValuesBesideExtras(s: Spec, flag: Flag)
    requires !Guarded(flag)
    ensures Values(flag, Options(s)) == (if flag.Name? then [s.name] else []) + Values(flag, Extras(s))
  {
    hide Values, Extras, PublishOne, PublishRange;
    ValuesAppend(flag, Boundary(s), Extras(s));
    ValuesAppend(flag, Boundary(s) + Extras(s), Publishes(s));
    NoValues(flag, Publishes(s));
    var b := Boundary(s);
    assert b == b[..1] + [b[1]] + b[2..];
    ValuesAppend(flag, b[..1] + [b[1]], b[2..]);
    ValuesLast(flag, b[..1], b[1]);
    NoValues(flag, b[..1]);
    NoValues(flag, b[2..]);
  }

  /** Every other flag by name, in terms of the spec's own fields: an empty optional field gives no value, the
      passed-through variables come before the explicit ones, and nothing is lost, added or reordered. */
  lemma OptionTable(s: Spec)
    ensures Values(Name, Options(s)) == [s.name]
    ensures Values(Restart, Options(s)) == if s.restartPolicy != "" then [s.restartPolicy] else []
    ensures Values(Memory, Options(s)) == if s.memory != "" then [s.memory] else []
    ensures Values(Cpus, Options(s)) == if s.cpus != "" then [s.cpus] else []
    ensures Values(AddHost, Options(s)) == s.addHosts
    ensures
      var env, n := Values(Env, Options(s)), |s.envPassthrough|;
      && |env| == n + |s.env| && env[..n] == s.envPassthrough
      && forall i | 0 <= i < |s.env| :: env[n + i] == s.env[i].0 + "=" + s.env[i].1
    ensures
      var volumes := Values(Volume, Options(s));
      |volumes| == |s.volumes| && forall i | 0 <= i < |volumes| :: volumes[i] == s.volumes[i].0 + ":" + s.volumes[i].1
  {
    hide Values, Options, Pairs;
    ValuesByPart(s, Name);
    ValuesByPart(s, Restart);
    ValuesByPart(s, Memory);
    ValuesByPart(s, Cpus);
    ValuesByPart(s, AddHost);
    ValuesByPart(s, Env);
    ValuesByPart(s, Volume);
    PairsAre("=", s.env);
    PairsAre(":", s.volumes);
  }

  lemma PairsAre(sep: string, pairs: seq<(string, string)>)
    ensures |Pairs(sep, pairs)| == |pairs|
    ensures forall i | 0 <= i < |pairs| :: Pairs(sep, pairs)[i] == pairs[i].0 + sep + pairs[i].1
  {
  }

  /** What the unguarded flags are given. */
  function OtherValues(s: Spec, flag: Flag): (r: seq<string>) {
    match flag
    case Name => [s.name]
    case Restart => if s.restartPolicy != "" then [s.restartPolicy] else []
    case Memory => if s.memory != "" then [s.memory] else []
    case Cpus => if s.cpus != "" then [s.cpus] else []
    case AddHost => s.addHosts
    case Env => s.envPassthrough + Pairs("=", s.env)
    case Volume => Pairs(":", s.volumes)
    case _ => []
  }

  lemma ValuesByPart(s: Spec, flag: Flag)
    requires !Guarded(flag)
    ensures Values(flag, Options(s)) == OtherValues(s, flag)
  {
    hide Values, Options, Extras, Each, Optional, Pairs;
    ValuesBesideExtras(s, flag);
    ValuesOfExtras(s, flag);
    ValuesOfOptional(flag, Restart, s.restartPolicy);
    ValuesOfOptional(flag, Memory, s.memory);
    ValuesOfOptional(flag, Cpus, s.cpus);
    ValuesOfEach(flag, AddHost, s.addHosts);
    ValuesOfEach(flag, Env, s.envPassthrough);
    ValuesOfEach(flag, Env, Pairs("=", s.env));
    ValuesOfEach(flag, Volume, Pairs(":", s.volumes));
  }

  lemma OptionsAreOptions(s: Spec)
    ensures Privileged !in Options(s) && Options(s) != [] && Options(s)[0] == Detach
    ensures forall i | 0 <= i < |Options(s)| :: !Options(s)[i].Image?
  {
    hide Extras, PublishOne, PublishRange;
    ExtrasAreHarmless(s, CapAdd);
  }

  /** What the daemon reads from RunArgs: the very options the source appended, with the image behind them,
      exactly when the image does not look like a flag; no value, however odd, is taken for a flag. */
  lemma DaemonReadsOptions(s: Spec)
    ensures RunArgs(s) != [] && RunArgs(s)[0] == "run"
    ensures Parse(RunArgs(s)[1..]) == if IsFlag(s.image) then None else Some(Options(s) + [Image(s.image)])
  {
    hide Parse, IsFlag, Options, Printed;
    assert RunArgs(s)[1..] == Printed(Options(s)) + [s.image];
    OptionsAreOptions(s);
    ParsePrinted(Options(s), s.image);
  }

  /** The hard invariants, for every spec whatsoever: whatever the daemon reads from the words is not
      privileged, adds no capability, gets the one device, and has exactly the three security options,
      in order; no environment value, volume, alias or limit can change that. */
  lemma SecurityBoundaryHolds(s: Spec)
    ensures
      match Parse(RunArgs(s)[1..])
      case None => true
      case Some(args) =>
        && args != [] && args[0] == Detach
        && Privileged !in args && Values(CapAdd, args) == []
        && Values(Device, args) == ["/dev/net/tun"]
        && Values(SecurityOpt, args) == SecurityOpts(s)
  {
    hide Parse, IsFlag, Options, Values, RunArgs, SecurityOpts;
    DaemonReadsOptions(s);
    OptionsAreOptions(s);
    var image := Image(s.image);
    ValuesOfOptions(s, CapAdd);
    ValuesOfOptions(s, Device);
    ValuesOfOptions(s, SecurityOpt);
    ValuesLast(CapAdd, Options(s), image);
    ValuesLast(Device, Options(s), image);
    ValuesLast(SecurityOpt, Options(s), image);
  }

  /** Of the banned security options, no-new-privileges never appears, and an unconfined seccomp profile
      appears exactly when the configured path is that word. */
  lemma UnconfinedOnlyByPath(s: Spec)
    ensures "no-new-privileges" !in SecurityOpts(s)
    ensures "seccomp=unconfined" in SecurityOpts(s) <==> s.seccompProfilePath == "unconfined"
  {
    var opts := SecurityOpts(s);
    assert opts[0][8..] == s.seccompProfilePath;
    assert "seccomp=unconfined"[8..] == "unconfined";
    assert "seccomp=" + "unconfined" == "seccomp=unconfined";
    assert opts[0][0] == 's' && opts[1][0] == 'a' && opts[2][0] == 's' && opts[2][1] == 'y';
    assert forall o | o in opts :: o == opts[0] || o == opts[1] || o == opts[2];
  }

  // ---- Published ports -------------------------------------------------------------------------------

  datatype Container = Container(image: string, ports: set<int>, running: bool)

  const MAX_PORT: int := 65535

  /** A decimal port number, as strconv.ParseUint(s, 10, 16) reads it. */
  function ParsePort(s: string): (r: Option<int>) {
    if s == "" || !IsDigits(s) || ParseDigits(s) > MAX_PORT then None else Some(ParseDigits(s))
  }

  /** One port or an inclusive range. */
  function ParseRange(s: string): (r: Option<(int, int)>) {
    var parts := Split(s, '-');
    var start := ParsePort(parts[0]);
    var end := if |parts| == 1 then start else ParsePort(parts[1]);
    if start.None? || end.None? || end.value < start.value then None else Some((start.value, end.value))
  }

  /** The container side of a publish value is what follows its last colon. */
  function ContainerSide(value: string): (r: string) {
    value[LastIndexOf(value, ':') + 1..]
  }

  function PortRange(start: int, end: int): (r: set<int>)
    ensures forall p :: p in r <==> start <= p <= end
    decreases end - start
  {
    if end < start then {} else {start} + PortRange(start + 1, end)
  }

  /** The ports of a list of publish values; None if one of them does not parse. */
  function PortsOf(values: seq<string>): (r: Option<set<int>>) {
    if values == [] then Some({})
    else
      var before := PortsOf(values[..|values| - 1]);
      var range := ParseRange(ContainerSide(values[|values| - 1]));
      if before.None? || range.None? then None
      else Some(before.value + PortRange(range.value.0, range.value.1))
  }

  /** `docker run`: refused when the words or a publish value do not parse. */
  function CreateContainer(words: seq<string>, running: bool): (r: Option<Container>) {
    if words == [] || words[0] != "run" then None
    else
      match Parse(words[1..])
      case None => None
      case Some(args) =>
        var ports := PortsOf(Values(Publish, args));
        if ports.None? || args == [] || !args[|args| - 1].Image? then None
        else Some(Container(args[|args| - 1].ref, ports.value, running))
  }

  // ---- Printed ports are read back -----------------------------------------------------------------

  predicate ValidPort(p: int) { 0 <= p <= MAX_PORT }

  lemma ReadsPrintedPort(p: int)
    ensures ParsePort(Itoa(p)) == if ValidPort(p) then Some(p) else None
    ensures p >= 0 ==> '-' !in Itoa(p)
    ensures p < 0 ==> Split(Itoa(p), '-')[0] == ""
  {
    if p >= 0 {
      ParseNatText(p);
    } else {
      assert Itoa(p)[0] == '-';
      assert !IsDigits(Itoa(p));
    }
  }

  lemma ReadsPrintedRange(start: int, end: int)
    ensures ParseRange(Itoa(start) + "-" + Itoa(end)) ==
            if ValidPort(start) && ValidPort(end) && start <= end then Some((start, end)) else None
  {
    hide Split, ParsePort, Itoa;
    var text := Itoa(start) + "-" + Itoa(end);
    ReadsPrintedPort(start);
    ReadsPrintedPort(end);
    NoPortInEmpty();
    if start >= 0 {
      SplitHead(Itoa(start), '-', Itoa(end));
    } else {
      LeadingMinus(start, "-" + Itoa(end));
      assert text == Itoa(start) + ("-" + Itoa(end));
    }
  }

  lemma NoPortInEmpty()
    ensures ParsePort("").None?
  {
  }

  lemma LeadingMinus(p: int, rest: string)
    requires p < 0
    ensures Split(Itoa(p) + rest, '-')[0] == ""
  {
  }

  lemma ReadsPrintedOne(p: int)
    ensures ParseRange(Itoa(p)) == if ValidPort(p) then Some((p, p)) else None
  {
    ReadsPrintedPort(p);
  }

  lemma SideAfterColon(head: string, tail: string)
    requires ':' !in tail
    ensures ContainerSide(head + ":" + tail) == tail
  {
    var value := head + ":" + tail;
    LastIndexUnique(value, ':', |head|);
  }

  lemma PublishedSides(host: string, port: int, start: int, end: int)
    ensures ContainerSide(PublishOne(host, port)) == Itoa(port)
    ensures ContainerSide(PublishRange(host, start, end)) == Itoa(start) + "-" + Itoa(end)
  {
    SideAfterColon(host + ":" + Itoa(port), Itoa(port));
    var head, range := host + ":" + Itoa(start) + "-" + Itoa(end), Itoa(start) + "-" + Itoa(end);
    assert ':' !in range;
    hide ContainerSide, Itoa;
    SideAfterColon(head, range);
    Regroup(head + ":", Itoa(start), "-", Itoa(end));
  }

  lemma Regroup(s: string, a: string, b: string, c: string)
    ensures s + a + b + c == s + (a + b + c)
  {
  }

  /** What stands before the container side: the host ports after their last colon, and the address the
      host binds, everything before that colon. */
  function HostPart(value: string): (r: string) {
    if ':' in value then value[..LastIndexOf(value, ':')] else ""
  }

  function BindHost(value: string): (r: string) {
    HostPart(HostPart(value))
  }

  function HostSide(value: string): (r: string) {
    ContainerSide(HostPart(value))
  }

  lemma HostPartOf(head: string, tail: string)
    requires ':' !in tail
    ensures HostPart(head + ":" + tail) == head && ContainerSide(head + ":" + tail) == tail
  {
    var value := head + ":" + tail;
    assert value[|head|] == ':';
    LastIndexUnique(value, ':', |head|);
  }

  lemma BindsAndMaps(host: string, ports: string)
    requires ':' !in ports
    ensures
      var value := host + ":" + ports + ":" + ports;
      BindHost(value) == host && HostSide(value) == ContainerSide(value) == ports
  {
    hide HostPart, ContainerSide;
    HostPartOf(host + ":" + ports, ports);
    HostPartOf(host, ports);
  }

  lemma RangeText(host: string, start: int, end: int)
    ensures
      var range := Itoa(start) + "-" + Itoa(end);
      ':' !in range && PublishRange(host, start, end) == host + ":" + range + ":" + range
  {
    hide Itoa;
    var a, b := Itoa(start), Itoa(end);
    InAppend(a + "-", b, ':');
    InAppend(a, "-", ':');
    Regroup(host + ":", a, "-", b);
    Regroup(host + ":" + (a + "-" + b) + ":", a, "-", b);
  }

  /** Each publish binds the configured address and maps every port to itself, and the two addresses are the
      API's for the API port and the apps' for the range. */
  lemma PublishesBindTheirHosts(s: Spec)
    ensures
      var published := Values(Publish, Options(s));
      && |published| == 2
      && BindHost(published[0]) == s.apiBindHost && BindHost(published[1]) == s.appBindHost
      && HostSide(published[0]) == ContainerSide(published[0]) == Itoa(s.apiPort)
      && HostSide(published[1]) == ContainerSide(published[1]) == Itoa(s.appPortStart) + "-" + Itoa(s.appPortEnd)
  {
    hide Values, Options, Itoa, BindHost, HostSide, ContainerSide, PublishRange;
    ValuesOfOptions(s, Publish);
    RangeText(s.appBindHost, s.appPortStart, s.appPortEnd);
    BindsAndMaps(s.apiBindHost, Itoa(s.apiPort));
    BindsAndMaps(s.appBindHost, Itoa(s.appPortStart) + "-" + Itoa(s.appPortEnd));
  }

  predicate PortsAreValid(s: Spec) {
    ValidPort(s.apiPort) && ValidPort(s.appPortStart) && ValidPort(s.appPortEnd) && s.appPortStart <= s.appPortEnd
  }

  lemma PortsOfLast(values: seq<string>, value: string)
    ensures
      var range := ParseRange(ContainerSide(value));
      PortsOf(values + [value]) ==
        if PortsOf(values).None? || range.None? then None
        else Some(PortsOf(values).value + PortRange(range.value.0, range.value.1))
  {
    assert (values + [value])[..|values|] == values;
  }

  lemma PortsOfTwo(one: string, range: string)
    ensures
      var r1, r2 := ParseRange(ContainerSide(one)), ParseRange(ContainerSide(range));
      PortsOf([one, range]) ==
        if r1.None? || r2.None? then None
        else Some(PortRange(r1.value.0, r1.value.1) + PortRange(r2.value.0, r2.value.1))
  {
    hide ParseRange, ContainerSide, PortRange;
    PortsOfLast([], one);
    PortsOfLast([one], range);
    assert [] + [one] == [one] && [one] + [range] == [one, range];
    assert forall ports: set<int> :: {} + ports == ports;
  }

  /** The two publish values publish the API port and the whole app range, exactly when the ports are ports
      and the range is not empty. */
  lemma PortsOfRunArgs(s: Spec)
    ensures PortsOf(GuardedValues(s, Publish)) ==
            if PortsAreValid(s) then Some({s.apiPort} + PortRange(s.appPortStart, s.appPortEnd)) else None
  {
    hide PublishOne, PublishRange, ContainerSide, ParseRange, PortsOf, ValidPort, Itoa;
    PortsOfTwo(PublishOne(s.apiBindHost, s.apiPort), PublishRange(s.appBindHost, s.appPortStart, s.appPortEnd));
    PublishedSides(s.apiBindHost, s.apiPort, s.appPortStart, s.appPortEnd);
    PublishedSides(s.appBindHost, s.apiPort, s.appPortStart, s.appPortEnd);
    ReadsPrintedOne(s.apiPort);
    ReadsPrintedRange(s.appPortStart, s.appPortEnd);
    assert PortRange(s.apiPort, s.apiPort) == {s.apiPort};
  }

  /** `docker run` on a spec's own arguments: accepted exactly when the image does not look like a flag and
      the ports are valid, and then with that image and those ports. */
  lemma CreatedFromRunArgs(s: Spec, running: bool)
    ensures CreateContainer(RunArgs(s), running) ==
            if IsFlag(s.image) || !PortsAreValid(s) then None
            else Some(Container(s.image, {s.apiPort} + PortRange(s.appPortStart, s.appPortEnd), running))
  {
    hide Parse, IsFlag, Options, Values, RunArgs, PortsOf, GuardedValues, PortsAreValid, PortRange;
    DaemonReadsOptions(s);
    ValuesOfOptions(s, Publish);
    ValuesLast(Publish, Options(s), Image(s.image));
    PortsOfRunArgs(s);
    assert Values(Publish, Options(s)) + [] == Values(Publish, Options(s));
  }
}
