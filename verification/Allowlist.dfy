/**
 The egress allowlist (internal/egress/store.go): host patterns matched label by label,
 the exact-match fast path in front of a scan, and the copy kept in the settings table.
 */
module Allowlist {
  import opened Text
  import opened LabelGlob
  import opened Wrappers

  // ---- Host patterns ---------------------------------------------------------------------------

  ghost predicate LabelsAccept(pp: seq<string>, hp: seq<string>) {
    |pp| == |hp| && forall i | 0 <= i < |pp| :: Accepts(pp[i], hp[i])
  }

  ghost predicate HostAccepts(pattern: string, host: string) {
    LabelsAccept(Split(pattern, '.'), Split(host, '.'))
  }

  method WildcardHostMatch(pattern: string, host: string) returns (ok: bool)
    ensures ok == HostAccepts(pattern, host)
  {
    var pp := Split(pattern, '.');
    var hp := Split(host, '.');
    if |pp| != |hp| {
      return false;
    }
    hide Accepts;
    for i := 0 to |pp|
      invariant forall j | 0 <= j < i :: Accepts(pp[j], hp[j])
    {
      var labelOk := MatchLabel(pp[i], hp[i]);
      if !labelOk {
        return false;
      }
    }
    return true;
  }

  lemma {:induction false} SplitKeepsChars(s: string, sep: char, c: char)
    requires c !in s
    ensures forall i | 0 <= i < |Split(s, sep)| :: c !in Split(s, sep)[i]
  {
    if s != "" {
      SplitKeepsChars(s[1..], sep, c);
    }
  }

  /** Wildcards never span a dot: an accepted host has the pattern's labels one for one, none of which
      contains a dot, and agrees with it on every label that has no star. */
  lemma WildcardsStayInsideLabels(pattern: string, host: string)
    requires HostAccepts(pattern, host)
    ensures |Split(pattern, '.')| == |Split(host, '.')|
    ensures forall i | 0 <= i < |Split(host, '.')| ::
              && '.' !in Split(host, '.')[i]
              && ('*' !in Split(pattern, '.')[i] ==> Split(host, '.')[i] == Split(pattern, '.')[i])
  {
  }

  /** A pattern without a star matches only itself. */
  lemma StarFreeIsExact(pattern: string, host: string)
    requires '*' !in pattern
    ensures HostAccepts(pattern, host) <==> pattern == host
  {
    if HostAccepts(pattern, host) {
      WildcardsStayInsideLabels(pattern, host);
      SplitKeepsChars(pattern, '.', '*');
      assert Split(pattern, '.') == Split(host, '.');
      SplitInjective(pattern, host, '.');
    }
    if pattern == host {
      HostAcceptsItself(host);
    }
  }

  lemma HostAcceptsItself(host: string)
    ensures HostAccepts(host, host)
  {
    hide Accepts;
    var hp := Split(host, '.');
    forall i | 0 <= i < |hp| ensures Accepts(hp[i], hp[i]) {
      AcceptsReflexive(hp[i]);
    }
  }

  // ---- The pattern read as one glob --------------------------------------------------------------

  /** The declarative meaning of a host pattern: '*' stands for any run of characters other than dots, and
      every other character for itself. */
  predicate DotGlob(p: string, h: string)
    decreases |p| + |h|
  {
    if p == "" then h == ""
    else if p[0] == '*' then DotGlob(p[1..], h) || (h != "" && h[0] != '.' && DotGlob(p, h[1..]))
    else h != "" && h[0] == p[0] && DotGlob(p[1..], h[1..])
  }

  ghost predicate LabelsGlob(pp: seq<string>, hp: seq<string>) {
    |pp| == |hp| && forall i | 0 <= i < |pp| :: Glob(pp[i], hp[i])
  }

  lemma LabelsGlobFirst(a: string, ps: seq<string>, b: string, hs: seq<string>)
    ensures LabelsGlob([a] + ps, [b] + hs) <==> Glob(a, b) && LabelsGlob(ps, hs)
  {
    hide Glob;
    var pp, hp := [a] + ps, [b] + hs;
    assert pp[0] == a && hp[0] == b;
    if |ps| == |hs| {
      assert forall i | 0 <= i < |ps| :: pp[i + 1] == ps[i] && hp[i + 1] == hs[i];
      if Glob(a, b) && LabelsGlob(ps, hs) {
        forall i | 0 <= i < |pp| ensures Glob(pp[i], hp[i]) {
          assert i > 0 ==> Glob(ps[i - 1], hs[i - 1]);
        }
      }
    }
  }

  lemma SplitFirst(s: string, sep: char)
    requires s != ""
    ensures
      var rest := Split(s[1..], sep);
      Split(s, sep) == if s[0] == sep then [""] + rest else [[s[0]] + rest[0]] + rest[1..]
  {
  }

  /** The first labels of a pattern and a host: how the glob on them unfolds. */
  lemma GlobFirst(c: char, a: string, b: string)
    ensures Glob([c] + a, "") <==> c == '*' && Glob(a, "")
    ensures Glob("", b) <==> b == ""
    ensures forall d :: Glob([c] + a, [d] + b) <==>
              if c == '*' then Glob(a, [d] + b) || Glob([c] + a, b) else c == d && Glob(a, b)
  {
    assert ([c] + a)[1..] == a;
    assert forall d: char :: ([d] + b)[1..] == b;
  }

  lemma {:induction false} DotGlobIsLabelwise(p: string, h: string)
    ensures DotGlob(p, h) <==> LabelsGlob(Split(p, '.'), Split(h, '.'))
    decreases |p| + |h|
  {
    hide Split, LabelsGlob, Glob;
    if p == "" {
      EmptyPattern(h);
      return;
    }
    var sp, hl := Split(p[1..], '.'), Split(h, '.');
    SplitFirst(p, '.');
    if p[0] == '*' {
      DotGlobIsLabelwise(p[1..], h);
    }
    if h == "" {
      NothingLeft(p[0], sp);
      return;
    }
    var sh := Split(h[1..], '.');
    SplitFirst(h, '.');
    DotGlobIsLabelwise(p[1..], h[1..]);
    if p[0] == '*' && h[0] != '.' {
      DotGlobIsLabelwise(p, h[1..]);
    }
    LabelsUnfold(p[0], sp, h[0], sh);
  }

  lemma EmptyPattern(h: string)
    ensures LabelsGlob(Split("", '.'), Split(h, '.')) <==> h == ""
  {
    assert Split("", '.') == [""];
  }

  lemma NothingLeft(c: char, sp: seq<string>)
    requires |sp| >= 1
    ensures
      var pl := if c == '.' then [""] + sp else [[c] + sp[0]] + sp[1..];
      LabelsGlob(pl, Split("", '.')) <==> c == '*' && LabelsGlob(sp, Split("", '.'))
  {
    assert Split("", '.') == [""];
    hide Glob;
    GlobFirst(c, sp[0], "");
  }

  /** How matching label by label unfolds on the first characters of pattern and host. */
  lemma LabelsUnfold(c: char, sp: seq<string>, d: char, sh: seq<string>)
    requires |sp| >= 1 && |sh| >= 1
    ensures
      var pl := if c == '.' then [""] + sp else [[c] + sp[0]] + sp[1..];
      var hl := if d == '.' then [""] + sh else [[d] + sh[0]] + sh[1..];
      LabelsGlob(pl, hl) <==>
        if c == '*' then LabelsGlob(sp, hl) || (d != '.' && LabelsGlob(pl, sh)) else c == d && LabelsGlob(sp, sh)
  {
    hide LabelsGlob, Glob;
    var a, ps, b, hs := sp[0], sp[1..], sh[0], sh[1..];
    assert sp == [a] + ps && sh == [b] + hs;
    GlobFirst(c, a, b);
    GlobFirst('x', a, [d] + b);
    GlobOfEmpty(a);
    LabelsGlobFirst(a, ps, b, hs);
    LabelsGlobFirst("", sp, "", sh);
    LabelsGlobFirst("", sp, [d] + b, hs);
    LabelsGlobFirst([c] + a, ps, "", sh);
    LabelsGlobFirst([c] + a, ps, [d] + b, hs);
    LabelsGlobFirst([c] + a, ps, b, hs);
    LabelsGlobFirst(a, ps, [d] + b, hs);
    LabelsGlobFirst(a, ps, "", sh);
    GlobFirst(c, a, "");
  }

  lemma GlobOfEmpty(a: string)
    ensures Glob("", "")
  {
  }

  /** The label-by-label matcher against the declarative meaning of the whole pattern, for all patterns and
      hosts: the glob holds exactly when the matcher accepts and in every label with a star its scan left
      room for the last part. In particular every host the glob accepts is accepted. */
  lemma DotGlobIffAcceptsWithRoom(p: string, h: string)
    ensures
      var pp, hp := Split(p, '.'), Split(h, '.');
      DotGlob(p, h) <==> HostAccepts(p, h) && forall i | 0 <= i < |pp| && i < |hp| :: HasRoom(pp[i], hp[i])
  {
    var pp, hp := Split(p, '.'), Split(h, '.');
    DotGlobIsLabelwise(p, h);
    hide Split, Glob, Accepts, HasRoom, DotGlob;
    forall i | 0 <= i < |pp| && i < |hp|
      ensures Glob(pp[i], hp[i]) <==> Accepts(pp[i], hp[i]) && HasRoom(pp[i], hp[i])
    {
      GlobNeedsRoom(pp[i], hp[i]);
    }
  }

  /** The label has no star, or its scan left at least as many characters as the last part has. */
  predicate HasRoom(p: string, l: string) {
    '*' in p ==> Remainder(p, l).Some? && |Remainder(p, l).value| >= |Last(p)|
  }

  lemma GlobNeedsRoom(p: string, l: string)
    ensures Glob(p, l) <==> Accepts(p, l) && HasRoom(p, l)
  {
    hide Glob;
    GlobIffAcceptsWithRoom(p, l);
  }

  // ---- IsAllowed -------------------------------------------------------------------------------

  function Entry(host: string, port: int): (r: string) {
    host + ":" + Itoa(port)
  }

  /** Some entry is `pattern:port` for a pattern that accepts the host. */
  ghost predicate Allowed(entries: set<string>, host: string, port: int) {
    exists pattern: string :: Entry(pattern, port) in entries && HostAccepts(pattern, host)
  }

  /** What the scan accepts of one entry: a star somewhere, the port, and a matching pattern. */
  ghost predicate ScanAccepts(entry: string, host: string, port: int) {
    var suffix := ":" + Itoa(port);
    '*' in entry && HasSuffix(entry, suffix) && HostAccepts(TrimSuffix(entry, suffix), host)
  }

  lemma EntryIsAppend(pattern: string, port: int)
    ensures Entry(pattern, port) == pattern + (":" + Itoa(port))
    ensures HasSuffix(Entry(pattern, port), ":" + Itoa(port))
    ensures TrimSuffix(Entry(pattern, port), ":" + Itoa(port)) == pattern
    ensures '*' in Entry(pattern, port) <==> '*' in pattern
  {
  }

  /** The exact-match lookup is only an optimisation: lookup or scan succeeds exactly when some entry
      `pattern:port` accepts the host. */
  lemma FastPathIsSound(entries: set<string>, host: string, port: int)
    ensures Allowed(entries, host, port) <==>
            Entry(host, port) in entries || exists e :: e in entries && ScanAccepts(e, host, port)
  {
    hide HostAccepts, HasSuffix, TrimSuffix;
    var suffix := ":" + Itoa(port);
    if Allowed(entries, host, port) {
      var pattern :| Entry(pattern, port) in entries && HostAccepts(pattern, host);
      EntryIsAppend(pattern, port);
      if '*' in pattern {
        assert ScanAccepts(Entry(pattern, port), host, port);
      } else {
        StarFreeIsExact(pattern, host);
      }
    }
    if Entry(host, port) in entries {
      HostAcceptsItself(host);
    }
    if e :| e in entries && ScanAccepts(e, host, port) {
      TrimmedEntry(e, port);
      assert Entry(TrimSuffix(e, suffix), port) == e;
    }
  }

  lemma TrimmedEntry(e: string, port: int)
    requires HasSuffix(e, ":" + Itoa(port))
    ensures Entry(TrimSuffix(e, ":" + Itoa(port)), port) == e
  {
  }

  /** An exact entry as an operator writes it allows its host on its port. */
  lemma WrittenEntryAllows(entries: set<string>, host: string)
    requires host + ":443" in entries
    ensures Allowed(entries, host, 443)
  {
    PrintedInDecimal();
    assert host + ":" + "443" == host + ":443";
    HostAcceptsItself(host);
    assert Entry(host, 443) in entries;
  }

  // ---- Persistence -----------------------------------------------------------------------------

  const DEFAULT_ALLOWLIST: seq<string> := [
    "api.anthropic.com:443", "api.openai.com:443", "proxy.golang.org:443", "sum.golang.org:443",
    "registry.npmjs.org:443", "bedrock-runtime.*.amazonaws.com:443"
  ]

  /** The in-memory set and the settings row; the saved list's order does not matter to a reload. */
  datatype State = State(mem: set<string>, saved: Option<set<string>>)

  datatype Event =
    | Set(entries: set<string>, writeOk: bool)
    | Add(entry: string, writeOk: bool)
    | Restart(readOk: bool)

  function SetOf(entries: seq<string>): (r: set<string>) {
    set e | e in entries
  }

  /** What reloadAllowlist installs when it can read the row. */
  function Reloaded(saved: Option<set<string>>): (r: set<string>) {
    match saved
    case None => SetOf(DEFAULT_ALLOWLIST)
    case Some(entries) => entries
  }

  /** Starting up; when the row cannot be read the defaults are installed and the row stays. */
  function Boot(saved: Option<set<string>>, readOk: bool): (s: State) {
    State(Loaded(saved, readOk), saved)
  }

  function Loaded(saved: Option<set<string>>, readOk: bool): (r: set<string>) {
    if readOk then Reloaded(saved) else SetOf(DEFAULT_ALLOWLIST)
  }

  function SetStep(s: State, entries: set<string>, writeOk: bool): (r: State) {
    if writeOk then State(entries, Some(entries)) else s
  }

  /** The entry joins the in-memory set before the write of a snapshot is attempted. */
  function AddStep(s: State, entry: string, writeOk: bool): (r: State) {
    if entry in s.mem then s else SetStep(s.(mem := s.mem + {entry}), s.mem + {entry}, writeOk)
  }

  function Apply(s: State, e: Event): (r: State) {
    match e
    case Set(entries, writeOk) => SetStep(s, entries, writeOk)
    case Add(entry, writeOk) => AddStep(s, entry, writeOk)
    case Restart(readOk) => Boot(s.saved, readOk)
  }

  function Run(s: State, es: seq<Event>): (r: State) {
    if es == [] then s else Apply(Run(s, es[..|es| - 1]), es[|es| - 1])
  }

  /** The settings row lists the entry, or there is no row and it is a default. */
  predicate Lists(saved: Option<set<string>>, entry: string) {
    match saved
    case None => entry in DEFAULT_ALLOWLIST
    case Some(entries) => entry in entries
  }

  /** Whether an entry is allowed after a run, read off the history: a successful SetAllowlist decides it by
      its own list, an add of it allows it whether or not the write succeeds, and a restart by what is on
      disk, or by the defaults when the row cannot be read. */
  predicate InMemory(saved: Option<set<string>>, readOk: bool, es: seq<Event>, entry: string) {
    if es == [] then if readOk then Lists(saved, entry) else entry in DEFAULT_ALLOWLIST
    else
      var before := es[..|es| - 1];
      match es[|es| - 1]
      case Set(entries, writeOk) => if writeOk then entry in entries else InMemory(saved, readOk, before, entry)
      case Add(added, _) => entry == added || InMemory(saved, readOk, before, entry)
      case Restart(ok) => if ok then OnDisk(saved, readOk, before, entry) else entry in DEFAULT_ALLOWLIST
  }

  /** Whether a good restart would load an entry: a successful SetAllowlist writes its own list, a successful
      add of something new writes memory and the new entry, and nothing else writes. */
  predicate OnDisk(saved: Option<set<string>>, readOk: bool, es: seq<Event>, entry: string) {
    if es == [] then Lists(saved, entry)
    else
      var before := es[..|es| - 1];
      match es[|es| - 1]
      case Set(entries, writeOk) => if writeOk then entry in entries else OnDisk(saved, readOk, before, entry)
      case Add(added, writeOk) =>
        if writeOk && !InMemory(saved, readOk, before, added)
        then entry == added || InMemory(saved, readOk, before, entry)
        else OnDisk(saved, readOk, before, entry)
      case Restart(_) => OnDisk(saved, readOk, before, entry)
  }

  /** Over every run, entry by entry, memory and disk are what the history says. */
  lemma {:induction false} EntriesFollowHistory(saved: Option<set<string>>, readOk: bool, es: seq<Event>, entry: string)
    ensures
      var s := Run(Boot(saved, readOk), es);
      && (entry in s.mem <==> InMemory(saved, readOk, es, entry))
      && (entry in Reloaded(s.saved) <==> OnDisk(saved, readOk, es, entry))
  {
    if es != [] {
      EntriesFollowHistory(saved, readOk, es[..|es| - 1], entry);
      if es[|es| - 1].Add? {
        EntriesFollowHistory(saved, readOk, es[..|es| - 1], es[|es| - 1].entry);
      }
    }
  }

  /** No later step of the run than the i-th replaces the list. */
  ghost predicate LastReplaced(es: seq<Event>, i: int) {
    && -1 <= i < |es|
    && (i >= 0 ==> es[i].Set? && es[i].writeOk)
    && forall j | i < j < |es| :: !(es[j].Set? && es[j].writeOk)
  }

  /** Without restarts: an entry is allowed exactly when the last successful SetAllowlist lists it, or the
      loaded list does if there was none, or it was added since. */
  lemma {:induction false} AllowedSinceLastSet(saved: Option<set<string>>, es: seq<Event>, last: int, entry: string)
    requires LastReplaced(es, last) && forall i | 0 <= i < |es| :: !es[i].Restart?
    ensures entry in Run(Boot(saved, true), es).mem <==>
            || (if last < 0 then Lists(saved, entry) else entry in es[last].entries)
            || exists i :: last < i < |es| && es[i].Add? && es[i].entry == entry
  {
    if es != [] && last < |es| - 1 {
      var before := es[..|es| - 1];
      AllowedSinceLastSet(saved, before, last, entry);
      assert forall i | 0 <= i < |before| :: before[i] == es[i];
      assert es[|es| - 1].Add? && es[|es| - 1].entry == entry ==> entry in Run(Boot(saved, true), es).mem;
    }
  }

  /** Which saved entries memory lacks, read off the history: a restart that could not read the row hides
      all but the defaults, a failing add brings its entry back, and a successful write or read settles. */
  function Missing(saved: Option<set<string>>, readOk: bool, es: seq<Event>): (r: set<string>) {
    if es == [] then Hidden(saved, readOk)
    else
      var before, prior := Run(Boot(saved, readOk), es[..|es| - 1]), Missing(saved, readOk, es[..|es| - 1]);
      match es[|es| - 1]
      case Set(_, writeOk) => if writeOk then {} else prior
      case Add(entry, writeOk) =>
        if entry in before.mem then prior else if writeOk then {} else prior - {entry}
      case Restart(ok) => Hidden(before.saved, ok)
  }

  /** Which entries only memory has: failed adds, and defaults put there by a restart that could not read. */
  function Extra(saved: Option<set<string>>, readOk: bool, es: seq<Event>): (r: set<string>) {
    if es == [] then Invented(saved, readOk)
    else
      var before, prior := Run(Boot(saved, readOk), es[..|es| - 1]), Extra(saved, readOk, es[..|es| - 1]);
      match es[|es| - 1]
      case Set(_, writeOk) => if writeOk then {} else prior
      case Add(entry, writeOk) =>
        if entry in before.mem then prior
        else if writeOk then {} else prior + ({entry} - Reloaded(before.saved))
      case Restart(ok) => Invented(before.saved, ok)
  }

  function Hidden(saved: Option<set<string>>, readOk: bool): (r: set<string>) {
    if readOk then {} else Reloaded(saved) - SetOf(DEFAULT_ALLOWLIST)
  }

  function Invented(saved: Option<set<string>>, readOk: bool): (r: set<string>) {
    if readOk then {} else SetOf(DEFAULT_ALLOWLIST) - Reloaded(saved)
  }

  /** Over every run with failing writes and reads, exactly what a good restart would add to memory and
      take from it; so it loads a subset of memory if and only if nothing is missing. */
  lemma {:induction false} RestartDifference(saved: Option<set<string>>, readOk: bool, es: seq<Event>)
    ensures
      var s := Run(Boot(saved, readOk), es);
      && Reloaded(s.saved) - s.mem == Missing(saved, readOk, es)
      && s.mem - Reloaded(s.saved) == Extra(saved, readOk, es)
      && (Reloaded(s.saved) <= s.mem <==> Missing(saved, readOk, es) == {})
      && (Reloaded(s.saved) == s.mem <==> Missing(saved, readOk, es) == {} == Extra(saved, readOk, es))
  {
    hide SetOf;
    if es != [] {
      RestartDifference(saved, readOk, es[..|es| - 1]);
    }
    var s := Run(Boot(saved, readOk), es);
    SubsetIff(Reloaded(s.saved), s.mem);
    SubsetIff(s.mem, Reloaded(s.saved));
  }

  lemma SubsetIff(a: set<string>, b: set<string>)
    ensures a <= b <==> a - b == {}
  {
    if a - b == {} {
      forall e | e in a ensures e in b {
        assert e !in a - b;
      }
    }
  }

  /** No add has failed to reach the database since the last successful write or restart. */
  ghost predicate Synced(s: State, es: seq<Event>) {
    es == [] ||
    match es[|es| - 1]
    case Set(_, writeOk) => writeOk || Synced(s, es[..|es| - 1])
    case Add(entry, writeOk) =>
      if entry in Run(s, es[..|es| - 1]).mem then Synced(s, es[..|es| - 1]) else writeOk
    case Restart(_) => true
  }

  ghost predicate ReadsSucceed(es: seq<Event>) {
    forall i | 0 <= i < |es| && es[i].Restart? :: es[i].readOk
  }

  /** As long as reads succeed, a restart never loads more than is in memory, and it loads exactly that if
      and only if no add has failed since the last successful write or restart. */
  lemma {:induction false} RestartLosesOnlyFailedAdds(saved: Option<set<string>>, es: seq<Event>)
    ensures
      var s := Run(Boot(saved, true), es);
      ReadsSucceed(es) ==>
        && Reloaded(s.saved) <= s.mem
        && (Reloaded(s.saved) == s.mem <==> Synced(Boot(saved, true), es))
  {
    if es != [] {
      var before := Run(Boot(saved, true), es[..|es| - 1]);
      RestartLosesOnlyFailedAdds(saved, es[..|es| - 1]);
      var e := es[|es| - 1];
      if ReadsSucceed(es) && e.Add? && e.entry !in before.mem && !e.writeOk {
        assert e.entry in Apply(before, e).mem && e.entry !in Reloaded(before.saved);
      }
    }
  }

  /** A read that fails once does lasting harm: the next successful add writes the defaults over the saved
      list, and every entry of the operator's is gone from memory and disk. */
  lemma FailedReadForgets(s: State, entry: string, x: string)
    requires x in Reloaded(s.saved) && x !in DEFAULT_ALLOWLIST && x != entry && entry !in DEFAULT_ALLOWLIST
    ensures
      var t := Apply(Apply(s, Restart(false)), Add(entry, true));
      x !in t.mem && x !in Reloaded(t.saved)
  {
  }

  class Store {
    var allowlist: set<string>
    var saved: Option<set<string>>

    ghost function View(): (s: State)
      reads this
    {
      State(allowlist, saved)
    }

    constructor (saved: Option<set<string>>, readOk: bool)
      ensures View() == Boot(saved, readOk)
    {
      this.saved := saved;
      allowlist := if readOk && saved.Some? then saved.value else SetOf(DEFAULT_ALLOWLIST);
    }

    method SetAllowlist(entries: seq<string>, writeOk: bool) returns (ok: bool)
      modifies this
      ensures ok == writeOk && View() == SetStep(old(View()), SetOf(entries), writeOk)
      ensures ok ==> forall e :: e in allowlist <==> e in entries
      ensures ok ==> saved.Some? && forall e :: e in saved.value <==> e in entries
      ensures !ok ==> allowlist == old(allowlist) && saved == old(saved)
    {
      if !writeOk {
        return false;
      }
      saved := Some(SetOf(entries));
      allowlist := {};
      for i := 0 to |entries|
        invariant allowlist == SetOf(entries[..i]) && saved == Some(SetOf(entries))
      {
        allowlist := allowlist + {entries[i]};
        assert entries[..i + 1] == entries[..i] + [entries[i]];
      }
      assert entries[..|entries|] == entries;
      return true;
    }

    /** GetAllowlist copies the map's keys in some order. */
    method GetAllowlist() returns (entries: seq<string>)
      ensures SetOf(entries) == allowlist
    {
      entries := [];
      var todo := allowlist;
      while todo != {}
        invariant SetOf(entries) == allowlist - todo && todo <= allowlist
        decreases todo
      {
        var e :| e in todo;
        assert SetOf(entries + [e]) == SetOf(entries) + {e};
        entries := entries + [e];
        todo := todo - {e};
      }
    }

    /** Whether or not the write succeeds, the host is allowed once the call has returned. */
    method AddToAllowlist(host: string, port: int, writeOk: bool) returns (ok: bool)
      modifies this
      ensures View() == AddStep(old(View()), Entry(host, port), writeOk)
      ensures forall e :: e in allowlist <==> e in old(allowlist) || e == Entry(host, port)
      ensures ok == (Entry(host, port) in old(allowlist) || writeOk)
      ensures Allowed(allowlist, host, port)
    {
      HostAcceptsItself(host);
      var entry := Entry(host, port);
      if entry in allowlist {
        return true;
      }
      allowlist := allowlist + {entry};
      var current := GetAllowlist();
      ok := SetAllowlist(current, writeOk);
    }

    method IsAllowed(host: string, port: int) returns (ok: bool)
      ensures ok == Allowed(allowlist, host, port)
    {
      FastPathIsSound(allowlist, host, port);
      var key := Entry(host, port);
      var portSuffix := ":" + Itoa(port);
      if key in allowlist {
        return true;
      }
      hide Allowed, HostAccepts, HasSuffix, TrimSuffix;
      var todo := allowlist;
      while todo != {}
        invariant todo <= allowlist
        invariant forall e | e in allowlist - todo :: !ScanAccepts(e, host, port)
        decreases todo
      {
        var entry :| entry in todo;
        todo := todo - {entry};
        if '*' in entry && HasSuffix(entry, portSuffix) {
          var matched := WildcardHostMatch(TrimSuffix(entry, portSuffix), host);
          if matched {
            return true;
          }
        }
      }
      return false;
    }
  }
}
