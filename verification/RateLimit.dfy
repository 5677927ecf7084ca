/**
 The sliding-window login rate limiter (internal/server/ratelimit.go). The limiter
 forgets timestamps that have left the window; the reference limiter below never forgets
 anything, and both must take the same decisions.
 */
module RateLimit {

  /** The timestamps strictly after the cutoff, in order. */
  function Recent(times: seq<int>, cutoff: int): (r: seq<int>) {
    if times == [] then []
    else
      var n := |times| - 1;
      Recent(times[..n], cutoff) + if times[n] > cutoff then [times[n]] else []
  }

  datatype Config = Config(window: int, max: int)

  type Attempts = map<string, seq<int>>

  function TimesOf(attempts: Attempts, ip: string): (r: seq<int>) {
    if ip in attempts then attempts[ip] else []
  }

  datatype Event = Allow(ip: string, now: int) | Cleanup(now: int)

  /** A limiter's memory and the decisions it has taken so far, one per Allow. */
  datatype State = State(attempts: Attempts, decisions: seq<bool>)

  const START: State := State(map[], [])

  function AllowStep(c: Config, s: State, ip: string, now: int): (r: State) {
    var valid := Recent(TimesOf(s.attempts, ip), now - c.window);
    if |valid| >= c.max then State(s.attempts[ip := valid], s.decisions + [false])
    else State(s.attempts[ip := valid + [now]], s.decisions + [true])
  }

  /** What survives a cleanup: recent timestamps, and no entry without any. */
  function Kept(attempts: Attempts, cutoff: int): (r: Attempts) {
    map ip | ip in attempts && Recent(attempts[ip], cutoff) != [] :: Recent(attempts[ip], cutoff)
  }

  function CleanupStep(c: Config, s: State, now: int): (r: State) {
    s.(attempts := Kept(s.attempts, now - c.window))
  }

  function Apply(c: Config, s: State, e: Event): (r: State) {
    match e
    case Allow(ip, now) => AllowStep(c, s, ip, now)
    case Cleanup(now) => CleanupStep(c, s, now)
  }

  function Run(c: Config, es: seq<Event>): (r: State) {
    if es == [] then START else Apply(c, Run(c, es[..|es| - 1]), es[|es| - 1])
  }

  /** The reference: keeps every admission for ever, admits while fewer than max of them lie in the
      window that ends now, and does nothing on cleanup. */
  function ReferenceApply(c: Config, s: State, e: Event): (r: State) {
    match e
    case Cleanup(_) => s
    case Allow(ip, now) =>
      var admitted := TimesOf(s.attempts, ip);
      if |Within(admitted, now - c.window, now)| < c.max
      then State(s.attempts[ip := admitted + [now]], s.decisions + [true])
      else s.(decisions := s.decisions + [false])
  }

  function Reference(c: Config, es: seq<Event>): (r: State) {
    if es == [] then START else ReferenceApply(c, Reference(c, es[..|es| - 1]), es[|es| - 1])
  }

  /** The timestamps in the half-open interval (from, to]. */
  function Within(times: seq<int>, from: int, to: int): (r: seq<int>) {
    if times == [] then []
    else
      var n := |times| - 1;
      Within(times[..n], from, to) + if from < times[n] <= to then [times[n]] else []
  }

  ghost predicate ClockNeverGoesBack(es: seq<Event>) {
    forall i, j | 0 <= i < j < |es| :: es[i].now <= es[j].now
  }

  // ---- Facts about the filters -----------------------------------------------------------------

  lemma RecentSnoc(times: seq<int>, t: int, cutoff: int)
    ensures Recent(times + [t], cutoff) == Recent(times, cutoff) + if t > cutoff then [t] else []
  {
  }

  lemma WithinSnoc(times: seq<int>, t: int, from: int, to: int)
    ensures Within(times + [t], from, to) == Within(times, from, to) + if from < t <= to then [t] else []
  {
  }

  lemma {:induction false} RecentTwice(times: seq<int>, early: int, late: int)
    requires early <= late
    ensures Recent(Recent(times, early), late) == Recent(times, late)
  {
    if times != [] {
      var n := |times| - 1;
      RecentTwice(times[..n], early, late);
      if times[n] > early {
        RecentSnoc(Recent(times[..n], early), times[n], late);
      } else {
        assert Recent(times, early) == Recent(times[..n], early);
      }
    }
  }

  /** Narrowing the interval never counts more. */
  lemma {:induction false} WithinAtMostRecent(times: seq<int>, cutoff: int, from: int, to: int)
    requires cutoff <= from
    ensures |Within(times, from, to)| <= |Recent(times, cutoff)|
  {
    if times != [] {
      WithinAtMostRecent(times[..|times| - 1], cutoff, from, to);
    }
  }

  lemma {:induction false} RecentIsWithin(times: seq<int>, cutoff: int, now: int)
    requires forall i | 0 <= i < |times| :: times[i] <= now
    ensures Within(times, cutoff, now) == Recent(times, cutoff)
  {
    if times != [] {
      RecentIsWithin(times[..|times| - 1], cutoff, now);
    }
  }

  /** Pruning keeps every timestamp after the cutoff as often as it occurs and drops every other one. */
  lemma {:induction false} RecentIsExact(times: seq<int>, cutoff: int, t: int)
    ensures multiset(Recent(times, cutoff))[t] == if t > cutoff then multiset(times)[t] else 0
  {
    if times != [] {
      var n := |times| - 1;
      RecentIsExact(times[..n], cutoff, t);
      RecentSnoc(times[..n], times[n], cutoff);
      hide Recent;
      assert times == times[..n] + [times[n]];
    }
  }

  lemma RecentIsEmptyIff(times: seq<int>, cutoff: int)
    ensures Recent(times, cutoff) == [] <==> forall i | 0 <= i < |times| :: times[i] <= cutoff
  {
    hide Recent;
    var recent := Recent(times, cutoff);
    if recent != [] {
      RecentIsExact(times, cutoff, recent[0]);
      assert recent[0] in multiset(recent);
      assert recent[0] > cutoff && recent[0] in multiset(times);
      var i :| 0 <= i < |times| && times[i] == recent[0];
    }
    if i :| 0 <= i < |times| && times[i] > cutoff {
      RecentIsExact(times, cutoff, times[i]);
      assert times[i] in multiset(times);
      assert times[i] in multiset(recent);
    }
  }

  /** After a cleanup no address is left without a timestamp in the window and none with one is gone; what is
      left of each holds no stale timestamp and every other one as often as before. */
  lemma CleanupLeavesNothingStale(c: Config, s: State, now: int)
    ensures
      var attempts, cutoff := s.attempts, now - c.window;
      var kept := Apply(c, s, Cleanup(now)).attempts;
      && Apply(c, s, Cleanup(now)).decisions == s.decisions
      && (forall ip :: ip in kept <==>
            ip in attempts && exists i :: 0 <= i < |attempts[ip]| && attempts[ip][i] > cutoff)
      && (forall ip, t | ip in kept ::
            multiset(kept[ip])[t] == if t > cutoff then multiset(attempts[ip])[t] else 0)
  {
    hide Recent;
    var attempts, cutoff := s.attempts, now - c.window;
    forall ip | ip in attempts
      ensures Recent(attempts[ip], cutoff) == [] <==> forall i | 0 <= i < |attempts[ip]| :: attempts[ip][i] <= cutoff
    {
      RecentIsEmptyIff(attempts[ip], cutoff);
    }
    forall ip, t | ip in attempts
      ensures multiset(Recent(attempts[ip], cutoff))[t] == if t > cutoff then multiset(attempts[ip])[t] else 0
    {
      RecentIsExact(attempts[ip], cutoff, t);
    }
  }

  // ---- Pruning is invisible ----------------------------------------------------------------------

  /** From `now` on, the pruned memory answers every window query like the full history. */
  ghost predicate Agree(c: Config, pruned: seq<int>, full: seq<int>, now: int) {
    && (forall cutoff | cutoff >= now - c.window :: Recent(pruned, cutoff) == Recent(full, cutoff))
    && (forall i | 0 <= i < |full| :: full[i] <= now)
  }

  lemma AgreeLater(c: Config, pruned: seq<int>, full: seq<int>, now: int, later: int)
    requires Agree(c, pruned, full, now) && now <= later
    ensures Agree(c, pruned, full, later)
  {
  }

  /** Pruning at `now` keeps agreement. */
  lemma AgreePruned(c: Config, pruned: seq<int>, full: seq<int>, now: int)
    requires Agree(c, pruned, full, now)
    ensures Agree(c, Recent(pruned, now - c.window), full, now)
  {
    forall cutoff | cutoff >= now - c.window
      ensures Recent(Recent(pruned, now - c.window), cutoff) == Recent(full, cutoff)
    {
      RecentTwice(pruned, now - c.window, cutoff);
    }
  }

  lemma AgreeAdmitted(c: Config, pruned: seq<int>, full: seq<int>, now: int)
    requires Agree(c, pruned, full, now)
    ensures Agree(c, pruned + [now], full + [now], now)
  {
  }

  ghost predicate StatesAgree(c: Config, s: State, ref: State, now: int) {
    && s.decisions == ref.decisions
    && forall ip :: Agree(c, TimesOf(s.attempts, ip), TimesOf(ref.attempts, ip), now)
  }

  lemma StepAgrees(c: Config, s: State, ref: State, now: int, e: Event)
    requires StatesAgree(c, s, ref, now) && now <= e.now
    ensures StatesAgree(c, Apply(c, s, e), ReferenceApply(c, ref, e), e.now)
  {
    hide Agree, Recent, Within;
    var t, u := Apply(c, s, e), ReferenceApply(c, ref, e);
    forall ip ensures Agree(c, TimesOf(t.attempts, ip), TimesOf(u.attempts, ip), e.now) {
      var pruned, full := TimesOf(s.attempts, ip), TimesOf(ref.attempts, ip);
      AgreeLater(c, pruned, full, now, e.now);
      AgreePruned(c, pruned, full, e.now);
      NothingRecent(e.now - c.window);
      if e.Allow? && e.ip == ip {
        SameDecision(c, pruned, full, e.now);
        AgreeAdmitted(c, Recent(pruned, e.now - c.window), full, e.now);
      }
    }
    if e.Allow? {
      AgreeLater(c, TimesOf(s.attempts, e.ip), TimesOf(ref.attempts, e.ip), now, e.now);
      SameDecision(c, TimesOf(s.attempts, e.ip), TimesOf(ref.attempts, e.ip), e.now);
    }
  }

  lemma NothingRecent(cutoff: int)
    ensures Recent([], cutoff) == []
  {
  }

  lemma SameDecision(c: Config, pruned: seq<int>, full: seq<int>, now: int)
    requires Agree(c, pruned, full, now)
    ensures Recent(pruned, now - c.window) == Within(full, now - c.window, now)
  {
    RecentIsWithin(full, now - c.window, now);
  }

  lemma {:induction false} RunAgrees(c: Config, es: seq<Event>, now: int)
    requires ClockNeverGoesBack(es) && forall i | 0 <= i < |es| :: es[i].now <= now
    ensures StatesAgree(c, Run(c, es), Reference(c, es), now)
  {
    if es == [] {
      assert forall ip :: Agree(c, TimesOf(START.attempts, ip), TimesOf(START.attempts, ip), now);
    } else {
      var before, e := es[..|es| - 1], es[|es| - 1];
      RunAgrees(c, before, e.now);
      var s, ref := Run(c, before), Reference(c, before);
      hide Apply, ReferenceApply, Agree;
      StepAgrees(c, s, ref, e.now, e);
      forall ip ensures Agree(c, TimesOf(Run(c, es).attempts, ip), TimesOf(Reference(c, es).attempts, ip), now) {
        AgreeLater(c, TimesOf(Run(c, es).attempts, ip), TimesOf(Reference(c, es).attempts, ip), e.now, now);
      }
    }
  }

  /** Over every run under a non-decreasing clock, every decision equals that of the limiter that never
      prunes: a request is refused exactly when max admissions lie in the window ending at it, and a
      cleanup may run at any point without anyone noticing. */
  lemma DecisionsMatchReference(c: Config, es: seq<Event>)
    requires ClockNeverGoesBack(es)
    ensures Run(c, es).decisions == Reference(c, es).decisions
  {
    RunAgrees(c, es, if es == [] then 0 else es[|es| - 1].now);
  }

  /** When the limiter admitted requests of ip, read off its own decisions. */
  function Admitted(c: Config, es: seq<Event>, ip: string): (r: seq<int>) {
    if es == [] then []
    else
      var before, e := es[..|es| - 1], es[|es| - 1];
      var decisions := Run(c, es).decisions;
      Admitted(c, before, ip)
      + if e.Allow? && e.ip == ip && decisions != [] && decisions[|decisions| - 1] then [e.now] else []
  }

  lemma {:induction false} AdmittedIsReference(c: Config, es: seq<Event>, ip: string)
    requires ClockNeverGoesBack(es)
    ensures Admitted(c, es, ip) == TimesOf(Reference(c, es).attempts, ip)
  {
    if es != [] {
      AdmittedIsReference(c, es[..|es| - 1], ip);
      DecisionsMatchReference(c, es);
      hide Run, ClockNeverGoesBack;
    }
  }

  /** After any run, the next request of an address is admitted exactly when fewer than max of the admissions
      the limiter has granted it lie in the window that ends now. */
  lemma DecisionIff(c: Config, es: seq<Event>, ip: string, now: int)
    requires ClockNeverGoesBack(es + [Allow(ip, now)])
    ensures
      var decisions := Run(c, es + [Allow(ip, now)]).decisions;
      && decisions != []
      && (decisions[|decisions| - 1] <==> |Within(Admitted(c, es, ip), now - c.window, now)| < c.max)
  {
    var all := es + [Allow(ip, now)];
    DecisionsMatchReference(c, all);
    assert forall i | 0 <= i < |es| :: es[i] == all[i];
    AdmittedIsReference(c, es, ip);
    hide Within, Run, Reference, ReferenceApply, ClockNeverGoesBack;
    ReferenceDecides(c, es, ip, now);
  }

  lemma ReferenceDecides(c: Config, es: seq<Event>, ip: string, now: int)
    ensures
      var decisions := Reference(c, es + [Allow(ip, now)]).decisions;
      var admitted := TimesOf(Reference(c, es).attempts, ip);
      && decisions != []
      && (decisions[|decisions| - 1] <==> |Within(admitted, now - c.window, now)| < c.max)
  {
    hide Within;
    var all := es + [Allow(ip, now)];
    assert all[..|all| - 1] == es;
  }

  lemma AdmittedByNow(c: Config, es: seq<Event>, ip: string, now: int)
    requires ClockNeverGoesBack(es) && forall i | 0 <= i < |es| :: es[i].now <= now
    ensures
      var admitted := TimesOf(Reference(c, es).attempts, ip);
      forall i | 0 <= i < |admitted| :: admitted[i] <= now
  {
  }

  lemma AdmissionKeepsBound(c: Config, admitted: seq<int>, now: int, from: int, bound: int)
    requires forall i | 0 <= i < |admitted| :: admitted[i] <= now
    requires |Within(admitted, from, from + c.window)| <= bound && c.max <= bound
    requires |Within(admitted, now - c.window, now)| < c.max
    ensures |Within(admitted + [now], from, from + c.window)| <= bound
  {
    hide Within, Recent;
    WithinSnoc(admitted, now, from, from + c.window);
    if from < now <= from + c.window {
      RecentIsWithin(admitted, now - c.window, now);
      WithinAtMostRecent(admitted, now - c.window, from, from + c.window);
    }
  }

  lemma {:induction false} ReferenceBounded(c: Config, es: seq<Event>, ip: string, from: int, bound: nat)
    requires ClockNeverGoesBack(es) && c.max <= bound
    ensures |Within(TimesOf(Reference(c, es).attempts, ip), from, from + c.window)| <= bound
  {
    if es != [] {
      var before, e := es[..|es| - 1], es[|es| - 1];
      ReferenceBounded(c, before, ip, from, bound);
      AdmittedByNow(c, before, ip, e.now);
      hide Within, ClockNeverGoesBack;
      var admitted := TimesOf(Reference(c, before).attempts, ip);
      if e.Allow? && e.ip == ip && |Within(admitted, e.now - c.window, e.now)| < c.max {
        AdmissionKeepsBound(c, admitted, e.now, from, bound);
      }
    }
  }

  /** No IP is admitted more than max times in any half-open interval of the window's length. */
  lemma NeverMoreThanMax(c: Config, es: seq<Event>, ip: string, from: int)
    requires ClockNeverGoesBack(es)
    ensures |Within(Admitted(c, es, ip), from, from + c.window)| <= if c.max < 0 then 0 else c.max
  {
    AdmittedIsReference(c, es, ip);
    ReferenceBounded(c, es, ip, from, if c.max < 0 then 0 else c.max);
  }

  // ---- The limiter object ------------------------------------------------------------------------

  /** `valid := times[:0]` followed by appends: the slice is compacted in place. */
  method Compact(times: array<int>, cutoff: int) returns (n: nat)
    modifies times
    ensures n <= times.Length && times[..n] == Recent(old(times[..]), cutoff)
  {
    n := 0;
    for i := 0 to times.Length
      invariant n <= i
      invariant times[..n] == Recent(old(times[..i]), cutoff)
      invariant forall k | i <= k < times.Length :: times[k] == old(times[k])
    {
      assert old(times[..i + 1])[..i] == old(times[..i]);
      if times[i] > cutoff {
        times[n] := times[i];
        n := n + 1;
      }
    }
    assert old(times[..times.Length]) == old(times[..]);
  }

  method Prune(times: seq<int>, cutoff: int) returns (valid: seq<int>)
    ensures valid == Recent(times, cutoff)
  {
    var slice := new int[|times|](i requires 0 <= i < |times| => times[i]);
    assert slice[..] == times;
    var n := Compact(slice, cutoff);
    valid := slice[..n];
  }

  /** cleanup's loop over the map, in whatever order it yields the addresses. */
  method Sweep(attempts: Attempts, cutoff: int) returns (kept: Attempts)
    ensures kept == Kept(attempts, cutoff)
  {
    hide Recent;
    kept := attempts;
    var todo := attempts.Keys;
    while todo != {}
      invariant todo <= attempts.Keys
      invariant forall ip :: ip in kept <==> ip in attempts && (ip in todo || Recent(attempts[ip], cutoff) != [])
      invariant forall ip | ip in kept ::
                  kept[ip] == if ip in todo then attempts[ip] else Recent(attempts[ip], cutoff)
      decreases todo
    {
      var ip :| ip in todo;
      todo := todo - {ip};
      var valid := Prune(attempts[ip], cutoff);
      if |valid| == 0 {
        kept := kept - {ip};
      } else {
        kept := kept[ip := valid];
      }
    }
  }

  class RateLimiter {
    const config: Config
    var attempts: Attempts

    constructor (window: int, max: int)
      ensures config == Config(window, max) && attempts == map[]
    {
      config := Config(window, max);
      attempts := map[];
    }

    method Allow(ip: string, now: int) returns (ok: bool)
      modifies this
      ensures AllowStep(config, State(old(attempts), []), ip, now) == State(attempts, [ok])
    {
      var valid := Prune(TimesOf(attempts, ip), now - config.window);
      if |valid| >= config.max {
        attempts := attempts[ip := valid];
        return false;
      }
      attempts := attempts[ip := valid + [now]];
      return true;
    }

    method Cleanup(now: int)
      modifies this
      ensures attempts == CleanupStep(config, State(old(attempts), []), now).attempts
    {
      attempts := Sweep(attempts, now - config.window);
    }
  }
}
