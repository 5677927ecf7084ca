/**
 Allowlist writers that overlap (internal/egress/store.go): AddToAllowlist drops its lock
 after inserting the entry, takes a snapshot, saves it and installs it, each as a step of
 its own, so other calls run in between. SetAllowlist is the last two steps on the
 caller's list. Database writes may fail, and a restart forgets every call.
 */
module AllowlistOverlap {
  import opened Wrappers
  import Allowlist

  /** Where a call is: entry inserted, list in hand but not saved, saved but not installed, or over. */
  datatype Call = Inserted | Holding(entries: set<string>) | Saved(entries: set<string>) | Returned(ok: bool) {

    /** The list this call is about to save or install, if it has one, contains b. */
    predicate Carries(b: string) {
      Holding? || Saved? ==> b in entries
    }
  }

  /** A call is named by its position in `calls`. */
  datatype State = State(mem: set<string>, saved: Option<set<string>>, calls: seq<Call>)

  datatype Event =
    | BeginAdd(entry: string)
    | BeginSet(entries: set<string>)
    | Snapshot(c: nat)
    | Save(c: nat, ok: bool)
    | Install(c: nat)
    | Restart(readOk: bool)

  function Boot(saved: Option<set<string>>, readOk: bool): (s: State) {
    State(Allowlist.Loaded(saved, readOk), saved, [])
  }

  function SetCall(s: State, c: nat, call: Call): (r: State)
    requires c < |s.calls|
  {
    s.(calls := s.calls[c := call])
  }

  function Apply(s: State, e: Event): (r: State) {
    match e
    case BeginAdd(entry) =>
      if entry in s.mem then s.(calls := s.calls + [Returned(true)])
      else s.(mem := s.mem + {entry}, calls := s.calls + [Inserted])
    case BeginSet(entries) => s.(calls := s.calls + [Holding(entries)])
    case Snapshot(c) =>
      if c < |s.calls| && s.calls[c].Inserted? then SetCall(s, c, Holding(s.mem)) else s
    case Save(c, ok) =>
      if c >= |s.calls| || !s.calls[c].Holding? then s
      else if ok then SetCall(s.(saved := Some(s.calls[c].entries)), c, Saved(s.calls[c].entries))
      else SetCall(s, c, Returned(false))
    case Install(c) =>
      if c < |s.calls| && s.calls[c].Saved? then SetCall(s.(mem := s.calls[c].entries), c, Returned(true)) else s
    case Restart(readOk) => Boot(s.saved, readOk)
  }

  function Run(s: State, es: seq<Event>): (r: State)
    decreases |es|
  {
    if es == [] then s else Run(Apply(s, es[0]), es[1..])
  }

  lemma {:induction false} RunAppend(s: State, es: seq<Event>, fs: seq<Event>)
    ensures Run(s, es + fs) == Run(Run(s, es), fs)
    decreases |es|
  {
    if es == [] {
      assert es + fs == fs;
    } else {
      assert (es + fs)[1..] == es[1..] + fs;
      RunAppend(Apply(s, es[0]), es[1..], fs);
    }
  }

  lemma RunTwo(s: State, e: Event, f: Event)
    ensures Run(s, [e, f]) == Apply(Apply(s, e), f)
  {
    assert [e, f][1..] == [f] && [f][1..] == [];
    assert Run(Apply(s, e), [f]) == Run(Apply(Apply(s, e), f), []);
  }

  /** A call that nothing interrupts is the single step of the sequential model. */
  lemma AloneIsAddStep(s: State, entry: string, ok: bool)
    ensures
      var c := |s.calls|;
      var t := Apply(Apply(Apply(Apply(s, BeginAdd(entry)), Snapshot(c)), Save(c, ok)), Install(c));
      Allowlist.State(t.mem, t.saved) == Allowlist.AddStep(Allowlist.State(s.mem, s.saved), entry, ok)
  {
  }

  /** A restart is the sequential one, and forgets every call in flight. */
  lemma RestartIsBoot(s: State, readOk: bool)
    ensures
      var t := Apply(s, Restart(readOk));
      && Allowlist.State(t.mem, t.saved)
         == Allowlist.Apply(Allowlist.State(s.mem, s.saved), Allowlist.Restart(readOk))
      && t.calls == [] && t.saved == s.saved
  {
  }

  /** So is a SetAllowlist call that nothing interrupts: memory and disk both become the caller's list. */
  lemma AloneIsSetStep(s: State, entries: set<string>, ok: bool)
    ensures
      var c := |s.calls|;
      var t := Apply(Apply(Apply(s, BeginSet(entries)), Save(c, ok)), Install(c));
      && Allowlist.State(t.mem, t.saved) == Allowlist.SetStep(Allowlist.State(s.mem, s.saved), entries, ok)
      && (ok ==> t.mem == entries && t.saved == Some(entries))
  {
  }

  // ---- Which entries survive -------------------------------------------------------------------

  /** Only AddToAllowlist steps and the rest of calls already begun: no list is replaced on purpose. */
  ghost predicate AddsOnly(es: seq<Event>) {
    forall i | 0 <= i < |es| :: !es[i].BeginSet? && !es[i].Restart?
  }

  /** b is in memory and no call past its snapshot holds a list without it. */
  ghost predicate Keeps(s: State, b: string) {
    b in s.mem && forall c | 0 <= c < |s.calls| :: s.calls[c].Carries(b)
  }

  ghost predicate AlwaysInMemory(s: State, b: string) {
    forall es | AddsOnly(es) :: b in Run(s, es).mem
  }

  ghost predicate OnDisk(s: State, b: string) {
    b in Allowlist.Reloaded(s.saved)
  }

  ghost predicate AlwaysOnDisk(s: State, b: string) {
    forall es | AddsOnly(es) :: OnDisk(Run(s, es), b)
  }

  lemma StepKeeps(s: State, e: Event, b: string)
    requires Keeps(s, b) && !e.BeginSet? && !e.Restart?
    ensures Keeps(Apply(s, e), b) && (OnDisk(s, b) ==> OnDisk(Apply(s, e), b))
  {
  }

  lemma {:induction false} RunKeeps(s: State, es: seq<Event>, b: string)
    requires Keeps(s, b) && AddsOnly(es)
    ensures Keeps(Run(s, es), b) && (OnDisk(s, b) ==> OnDisk(Run(s, es), b))
    decreases |es|
  {
    if es != [] {
      StepKeeps(s, es[0], b);
      RunKeeps(Apply(s, es[0]), es[1..], b);
    }
  }

  /** A call holding a list without b, left to finish, takes b out of memory again. */
  lemma StaleCallRemoves(s: State, c: nat, b: string) returns (es: seq<Event>)
    requires c < |s.calls| && !s.calls[c].Carries(b)
    ensures AddsOnly(es) && b !in Run(s, es).mem
  {
    es := [Save(c, true), Install(c)];
    RunTwo(s, Save(c, true), Install(c));
  }

  /** An entry stays allowed, whatever adds follow or finish, exactly when it is in memory and every call
      past its snapshot carries it. */
  lemma StaysInMemoryIff(s: State, b: string)
    ensures AlwaysInMemory(s, b) <==> Keeps(s, b)
  {
    if Keeps(s, b) {
      forall es | AddsOnly(es) ensures b in Run(s, es).mem {
        RunKeeps(s, es, b);
      }
    } else if b !in s.mem {
      assert AddsOnly([]) && Run(s, []) == s;
    } else {
      var c :| 0 <= c < |s.calls| && !s.calls[c].Carries(b);
      var es := StaleCallRemoves(s, c, b);
    }
  }

  // ---- What a restart would load ---------------------------------------------------------------

  lemma {:induction false} LongerThanAll(entries: set<string>) returns (n: nat)
    ensures forall e | e in entries :: |e| < n
    decreases |entries|
  {
    n := 0;
    if entries != {} {
      var e :| e in entries;
      n := LongerThanAll(entries - {e});
      n := if n <= |e| then |e| + 1 else n;
    }
  }

  lemma NewEntry(entries: set<string>) returns (e: string)
    ensures e !in entries
  {
    var n := LongerThanAll(entries);
    e := seq(n, i => 'a');
  }

  /** Once b is out of memory, the next add writes a list without it. */
  lemma NextAddForgets(s: State, b: string) returns (es: seq<Event>)
    requires b !in s.mem
    ensures AddsOnly(es) && !OnDisk(Run(s, es), b)
  {
    var entry := NewEntry(s.mem + {b});
    var c := |s.calls|;
    var added := Apply(s, BeginAdd(entry));
    es := [BeginAdd(entry)] + [Snapshot(c), Save(c, true)];
    assert es[1..] == [Snapshot(c), Save(c, true)];
    RunTwo(added, Snapshot(c), Save(c, true));
  }

  /** A restart at any later point loads an entry exactly when it is on disk now and survives in memory. */
  lemma StaysOnDiskIff(s: State, b: string)
    ensures AlwaysOnDisk(s, b) <==> OnDisk(s, b) && Keeps(s, b)
  {
    if OnDisk(s, b) && Keeps(s, b) {
      forall es | AddsOnly(es) ensures OnDisk(Run(s, es), b) {
        RunKeeps(s, es, b);
      }
    } else if !OnDisk(s, b) {
      assert AddsOnly([]) && Run(s, []) == s;
    } else {
      var first: seq<Event> := [];
      if b in s.mem {
        var c :| 0 <= c < |s.calls| && !s.calls[c].Carries(b);
        first := StaleCallRemoves(s, c, b);
      }
      var second := NextAddForgets(Run(s, first), b);
      RunAppend(s, first, second);
      assert AddsOnly(first + second);
    }
  }

  /** The documented promise fails under overlap: when an add of b runs to its end between the snapshot and
      the save of an add of a, b is gone from memory and disk although both calls return nil. */
  lemma OverlappingAddsLoseAnEntry(s: State, a: string, b: string)
    requires a != b && a !in s.mem && b !in s.mem
    ensures
      var c := |s.calls|;
      var outer := Apply(Apply(s, BeginAdd(a)), Snapshot(c));
      var inner := Apply(Apply(Apply(Apply(outer, BeginAdd(b)), Snapshot(c + 1)), Save(c + 1, true)), Install(c + 1));
      var t := Apply(Apply(inner, Save(c, true)), Install(c));
      && b in inner.mem && OnDisk(inner, b) && !Keeps(inner, b)
      && b !in t.mem && !OnDisk(t, b)
      && t.calls == s.calls + [Returned(true), Returned(true)]
  {
    var c := |s.calls|;
    var outer := Apply(Apply(s, BeginAdd(a)), Snapshot(c));
    var inner := Apply(Apply(Apply(Apply(outer, BeginAdd(b)), Snapshot(c + 1)), Save(c + 1, true)), Install(c + 1));
    assert inner.calls[c] == Holding(s.mem + {a});
    assert !inner.calls[c].Carries(b);
  }

  // ---- Memory and disk -------------------------------------------------------------------------

  ghost predicate NobodySaved(s: State) {
    forall c | 0 <= c < |s.calls| :: !s.calls[c].Saved?
  }

  /** No call saves while another is between its save and its install, and a restart that cannot read the
      row finds no more than the defaults in it. */
  ghost predicate Orderly(s: State, e: Event) {
    && (e.Save? ==> NobodySaved(s))
    && (e.Restart? && !e.readOk ==> Allowlist.Reloaded(s.saved) <= Allowlist.SetOf(Allowlist.DEFAULT_ALLOWLIST))
  }

  ghost predicate SavesTakeTurns(s: State, es: seq<Event>)
    decreases |es|
  {
    es != [] ==> Orderly(s, es[0]) && SavesTakeTurns(Apply(s, es[0]), es[1..])
  }

  /** A saved list waiting for its install is the one on disk; otherwise memory includes the disk. */
  ghost predicate DiskOk(s: State) {
    && (forall c | 0 <= c < |s.calls| && s.calls[c].Saved? :: s.saved == Some(s.calls[c].entries))
    && (NobodySaved(s) ==> Allowlist.Reloaded(s.saved) <= s.mem)
  }

  lemma StepKeepsDiskOk(s: State, e: Event)
    requires DiskOk(s) && Orderly(s, e)
    ensures DiskOk(Apply(s, e))
  {
    var t := Apply(s, e);
    if NobodySaved(t) && !e.Install? && !e.Restart? {
      forall c | 0 <= c < |s.calls| ensures !s.calls[c].Saved? {
        assert !t.calls[c].Saved?;
      }
      assert e.Save? && e.c < |t.calls| ==> !t.calls[e.c].Saved?;
    }
  }

  lemma {:induction false} TurnsKeepDiskOk(s: State, es: seq<Event>)
    requires DiskOk(s) && SavesTakeTurns(s, es)
    ensures DiskOk(Run(s, es))
    decreases |es|
  {
    if es != [] {
      hide DiskOk, Apply;
      StepKeepsDiskOk(s, es[0]);
      TurnsKeepDiskOk(Apply(s, es[0]), es[1..]);
    }
  }

  /** With overlapping calls, failing writes and restarts, a restart still loads no more than memory holds
      between the writes, as long as no call saves inside another's save and install and no restart fails to
      read a row that holds more than the defaults. */
  lemma TurnsKeepDiskInsideMemory(saved: Option<set<string>>, es: seq<Event>)
    requires SavesTakeTurns(Boot(saved, true), es)
    ensures
      var s := Run(Boot(saved, true), es);
      NobodySaved(s) ==> Allowlist.Reloaded(s.saved) <= s.mem
  {
    TurnsKeepDiskOk(Boot(saved, true), es);
  }

  /** Without turns they part with no failed write at all: if two calls save in one order and install in the
      other, memory ends with the first one's list and the disk with the second one's. */
  lemma CrossedWritesDiverge(s: State, c: nat, d: nat)
    requires c < |s.calls| && d < |s.calls| && c != d && s.calls[c].Holding? && s.calls[d].Holding?
    ensures
      var t := Apply(Apply(Apply(Apply(s, Save(c, true)), Save(d, true)), Install(d)), Install(c));
      && t.mem == s.calls[c].entries && t.saved == Some(s.calls[d].entries)
      && t.calls[c] == t.calls[d] == Returned(true)
  {
  }

  /** The calls past their snapshot save and install in some order; nothing new begins. */
  ghost predicate FinishOnly(es: seq<Event>) {
    forall i | 0 <= i < |es| :: es[i].Save? || es[i].Install?
  }

  /** If call c is next to install, memory will then hold everything a restart would load. */
  ghost predicate InstallsInSync(s: State, c: nat) {
    c < |s.calls| && s.calls[c].Saved? ==> Allowlist.Reloaded(s.saved) <= s.calls[c].entries
  }

  ghost predicate AlwaysInstallsInSync(s: State) {
    forall es, c | FinishOnly(es) :: InstallsInSync(Run(s, es), c)
  }

  /** d's unsaved list would not outgrow the list c is going to install. */
  ghost predicate NoCrossing(s: State, c: nat, d: nat) {
    c < |s.calls| && d < |s.calls| && c != d && s.calls[d].Holding? && (s.calls[c].Holding? || s.calls[c].Saved?) ==>
      s.calls[d].entries <= s.calls[c].entries
  }

  ghost predicate CannotCross(s: State) {
    && (forall c :: InstallsInSync(s, c))
    && (forall c, d :: NoCrossing(s, c, d))
  }

  lemma StepCannotCross(s: State, e: Event)
    requires CannotCross(s) && (e.Save? || e.Install?)
    ensures CannotCross(Apply(s, e))
  {
    var t := Apply(s, e);
    forall c: nat ensures InstallsInSync(t, c) {
      assert InstallsInSync(s, c) && NoCrossing(s, c, e.c);
    }
    forall c: nat, d: nat ensures NoCrossing(t, c, d) {
      assert NoCrossing(s, c, d);
    }
  }

  lemma {:induction false} RunCannotCross(s: State, es: seq<Event>)
    requires CannotCross(s) && FinishOnly(es)
    ensures CannotCross(Run(s, es))
    decreases |es|
  {
    if es != [] {
      hide CannotCross, Apply;
      StepCannotCross(s, es[0]);
      RunCannotCross(Apply(s, es[0]), es[1..]);
    }
  }

  /** However the calls in flight finish, each that returns nil leaves a restart nothing that memory lacks:
      exactly when the lists waiting to be installed include the disk and every list still to be saved. */
  lemma InSyncIff(s: State)
    ensures AlwaysInstallsInSync(s) <==> CannotCross(s)
  {
    if CannotCross(s) {
      forall es, c | FinishOnly(es) ensures InstallsInSync(Run(s, es), c) {
        RunCannotCross(s, es);
      }
    } else if c :| !InstallsInSync(s, c) {
      assert FinishOnly([]) && Run(s, []) == s;
    } else {
      var c, d :| !NoCrossing(s, c, d);
      var es := [Save(c, true), Save(d, true)];
      RunTwo(s, Save(c, true), Save(d, true));
      assert FinishOnly(es) && !InstallsInSync(Run(s, es), c);
    }
  }
}
