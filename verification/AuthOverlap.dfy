/**
 Login sessions under overlapping requests (internal/auth/store.go). ValidSession is a
 SELECT, a comparison with the clock and an UPDATE that may fail, with no transaction and
 no lock around them, and every protected request runs it; other statements run in
 between. A statement carries the clock reading it uses.
 */
module AuthOverlap {
  import AuthSessions

  type Token = AuthSessions.Token
  type Rows = AuthSessions.Rows

  const DURATION: int := AuthSessions.SESSION_DURATION

  /** A ValidSession call: it has read an expiry, it is about to slide it, or it has answered. */
  datatype Call = Read(token: Token, expires: int) | Sliding(token: Token) | Returned(ok: bool) {

    /** At `now` the call may still run its UPDATE on the token. */
    predicate CanSlide(t: Token, now: int) {
      (Sliding? && token == t) || (Read? && token == t && now < expires)
    }
  }

  /** A call is named by its position in `calls`. */
  datatype State = State(rows: Rows, calls: seq<Call>)

  datatype Event =
    | Create(token: Token, now: int)
    | Select(token: Token, now: int)
    | Check(c: nat, now: int)
    | Slide(c: nat, now: int, ok: bool)
    | Delete(token: Token, now: int)
    | DeleteAll(now: int)
    | Clean(now: int)

  const EMPTY: State := State(map[], [])

  function Apply(s: State, e: Event): (r: State) {
    match e
    case Create(token, now) =>
      if token in s.rows then s else s.(rows := s.rows[token := now + DURATION])
    case Select(token, _) =>
      s.(calls := s.calls + [if token in s.rows then Read(token, s.rows[token]) else Returned(false)])
    case Check(c, now) =>
      if c >= |s.calls| || !s.calls[c].Read? then s
      else s.(calls := s.calls[c := if now < s.calls[c].expires then Sliding(s.calls[c].token) else Returned(false)])
    case Slide(c, now, ok) =>
      if c >= |s.calls| || !s.calls[c].Sliding? then s
      else
        var t := s.calls[c].token;
        State(if ok && t in s.rows then s.rows[t := now + DURATION] else s.rows, s.calls[c := Returned(true)])
    case Delete(token, _) => s.(rows := s.rows - {token})
    case DeleteAll(_) => s.(rows := map[])
    case Clean(now) => s.(rows := map t | t in s.rows && s.rows[t] >= now :: s.rows[t])
  }

  function Run(s: State, es: seq<Event>): (r: State)
    decreases |es|
  {
    if es == [] then s else Run(Apply(s, es[0]), es[1..])
  }

  predicate Live(s: State, t: Token, now: int) {
    AuthSessions.Live(s.rows, t, now)
  }

  /** The clock runs from `from` through the events to `to` without going back. */
  ghost predicate Clock(from: int, es: seq<Event>, to: int) {
    && from <= to
    && (forall i | 0 <= i < |es| :: from <= es[i].now <= to)
    && (forall i, j | 0 <= i < j < |es| :: es[i].now <= es[j].now)
  }

  lemma ClockRest(from: int, es: seq<Event>, to: int)
    requires Clock(from, es, to) && es != []
    ensures from <= es[0].now <= to && Clock(es[0].now, es[1..], to)
  {
  }

  /** A call that nothing interrupts is the single step of the sequential model, answer included. */
  lemma AloneIsValidate(s: State, t: Token, now: int, slid: int, ok: bool)
    ensures
      var c := |s.calls|;
      var u := Apply(Apply(Apply(s, Select(t, now)), Check(c, now)), Slide(c, slid, ok));
      && c < |u.calls| && u.calls[c].Returned?
      && AuthSessions.State(u.rows, [u.calls[c].ok])
         == AuthSessions.Apply(AuthSessions.State(s.rows, []), AuthSessions.Validate(t, now, slid, ok))
  {
  }

  // ---- When a token is dead for good -----------------------------------------------------------

  ghost predicate NoCreate(es: seq<Event>, t: Token) {
    forall i | 0 <= i < |es| :: !(es[i].Create? && es[i].token == t)
  }

  /** No call that may still slide the token's expiry is in flight. */
  ghost predicate NoSlideOf(s: State, t: Token, now: int) {
    forall c | 0 <= c < |s.calls| :: !s.calls[c].CanSlide(t, now)
  }

  /** No continuation from `now` on has a live row for the token. */
  ghost predicate DeadForGood(s: State, t: Token, now: int) {
    forall es, later | Clock(now, es, later) && NoCreate(es, t) :: !Live(Run(s, es), t, later)
  }

  ghost predicate Dead(s: State, t: Token, now: int) {
    !Live(s, t, now) && (t !in s.rows || NoSlideOf(s, t, now))
  }

  lemma StepKeepsDead(s: State, e: Event, t: Token, now: int)
    requires Dead(s, t, now) && now <= e.now && !(e.Create? && e.token == t)
    ensures Dead(Apply(s, e), t, e.now)
  {
  }

  lemma {:induction false} RunKeepsDead(s: State, es: seq<Event>, t: Token, now: int, later: int)
    requires Dead(s, t, now) && Clock(now, es, later) && NoCreate(es, t)
    ensures !Live(Run(s, es), t, later)
    decreases |es|
  {
    if es != [] {
      ClockRest(now, es, later);
      StepKeepsDead(s, es[0], t, now);
      RunKeepsDead(Apply(s, es[0]), es[1..], t, es[0].now, later);
    }
  }

  lemma RunOne(s: State, e: Event)
    ensures Run(s, [e]) == Apply(s, e)
  {
    assert [e][1..] == [];
    assert Run(Apply(s, e), []) == Apply(s, e);
  }

  lemma RunTwo(s: State, e: Event, f: Event)
    ensures Run(s, [e, f]) == Apply(Apply(s, e), f)
  {
    assert [e, f][1..] == [f];
    RunOne(Apply(s, e), f);
  }

  /** A call that can slide, left to finish at `now`, makes a row that is still in the table live. */
  lemma SlideRevives(s: State, c: nat, t: Token, now: int) returns (es: seq<Event>)
    requires c < |s.calls| && s.calls[c].CanSlide(t, now)
    ensures Clock(now, es, now) && NoCreate(es, t)
    ensures Run(s, es).rows == if t in s.rows then s.rows[t := now + DURATION] else s.rows
  {
    if s.calls[c].Sliding? {
      es := [Slide(c, now, true)];
      RunOne(s, es[0]);
    } else {
      es := [Check(c, now), Slide(c, now, true)];
      RunTwo(s, es[0], es[1]);
    }
  }

  /** A token never becomes valid again, whatever statements follow, exactly when it has no live row and
      either no row at all or no validation in flight that may still slide it. */
  lemma NeverValidAgainIff(s: State, t: Token, now: int)
    ensures DeadForGood(s, t, now) <==> Dead(s, t, now)
  {
    if Dead(s, t, now) {
      forall es, later | Clock(now, es, later) && NoCreate(es, t) ensures !Live(Run(s, es), t, later) {
        RunKeepsDead(s, es, t, now, later);
      }
    } else if Live(s, t, now) {
      assert Clock(now, [], now) && NoCreate([], t) && Run(s, []) == s;
    } else {
      var c :| 0 <= c < |s.calls| && s.calls[c].CanSlide(t, now);
      var es := SlideRevives(s, c, t, now);
      assert Live(Run(s, es), t, now);
    }
  }

  /** The race: a validation reads the row just before it expires; two seconds later the token is refused,
      and then the late UPDATE makes it valid for another thirty days. */
  lemma ExpiredTokenRevives(t: Token, start: int)
    ensures
      var expiry := start + DURATION;
      var created := Apply(EMPTY, Create(t, start));
      var checked := Apply(Apply(created, Select(t, expiry - 1)), Check(0, expiry - 1));
      var refused := Apply(checked, Select(t, expiry + 1));
      var slid := Apply(refused, Slide(0, expiry + 1, true));
      && Apply(refused, Check(1, expiry + 1)).calls[1] == Returned(false)
      && !Live(refused, t, expiry + 1)
      && (forall later :: Live(slid, t, later) <==> later < expiry + 1 + DURATION)
  {
  }

  // ---- When cleaning is invisible --------------------------------------------------------------

  /** No token with an expired row has a validation in flight that may still slide it. */
  ghost predicate NothingStale(s: State, now: int) {
    forall t | t in s.rows && s.rows[t] < now :: NoSlideOf(s, t, now)
  }

  /** Random tokens are fresh: none that has a row is created again. */
  ghost predicate FreshFor(rows: Rows, es: seq<Event>) {
    forall i | 0 <= i < |es| && es[i].Create? :: es[i].token !in rows
  }

  /** The call has answered true, or is bound to. */
  predicate Accepted(call: Call) {
    call.Sliding? || call == Returned(true)
  }

  ghost predicate SameAnswers(a: seq<Call>, b: seq<Call>) {
    |a| == |b| && forall c | 0 <= c < |a| :: Accepted(a[c]) == Accepted(b[c])
  }

  /** A Clean at `now` changes no answer and no liveness in any continuation. */
  ghost predicate CleanIsInvisible(s: State, now: int) {
    forall es, t, later | Clock(now, es, later) && FreshFor(s.rows, es) :: Unnoticed(s, now, es, t, later)
  }

  ghost predicate Unnoticed(s: State, now: int, es: seq<Event>, t: Token, later: int) {
    && SameAnswers(Run(Apply(s, Clean(now)), es).calls, Run(s, es).calls)
    && Live(Run(Apply(s, Clean(now)), es), t, later) == Live(Run(s, es), t, later)
  }

  /** The same call in both runs, or one that read a row too late to be accepted where the other found none. */
  ghost predicate CallsAgree(a: seq<Call>, b: seq<Call>, now: int) {
    && |a| == |b|
    && forall c | 0 <= c < |a| :: a[c] == b[c] || (a[c] == Returned(false) && b[c].Read? && b[c].expires <= now)
  }

  /** u is s without some rows of `gone`, each of them expired and with nothing in flight to slide it. */
  ghost predicate Cleaner(u: State, s: State, gone: Rows, now: int) {
    && CallsAgree(u.calls, s.calls, now)
    && (forall t | t in u.rows :: t in s.rows && s.rows[t] == u.rows[t])
    && (forall t | t in s.rows && t !in u.rows :: t in gone && s.rows[t] <= now && NoSlideOf(s, t, now))
  }

  lemma StepKeepsCalls(u: State, s: State, gone: Rows, now: int, e: Event)
    requires Cleaner(u, s, gone, now) && now <= e.now
    ensures CallsAgree(Apply(u, e).calls, Apply(s, e).calls, e.now)
  {
    hide NoSlideOf;
  }

  /** A step gives no new chance to slide a row that is already expired. */
  lemma StepKeepsNoSlide(s: State, e: Event, t: Token, now: int)
    requires NoSlideOf(s, t, now) && now <= e.now && (t in s.rows ==> s.rows[t] <= now)
    ensures NoSlideOf(Apply(s, e), t, e.now)
  {
  }

  lemma StepKeepsCleaner(u: State, s: State, gone: Rows, now: int, e: Event)
    requires Cleaner(u, s, gone, now) && now <= e.now && (e.Create? ==> e.token !in gone)
    ensures Cleaner(Apply(u, e), Apply(s, e), gone, e.now)
  {
    var u', s' := Apply(u, e), Apply(s, e);
    StepKeepsCalls(u, s, gone, now, e);
    assert e.Slide? && e.c < |s.calls| && s.calls[e.c].Sliding? ==> u.calls[e.c] == s.calls[e.c];
    SlidesAlike(u, s, gone, now, e);
    hide CallsAgree, NoSlideOf;
    forall t | t in s'.rows && t !in u'.rows ensures t in gone && s'.rows[t] <= e.now && NoSlideOf(s', t, e.now) {
      assert t in s.rows && t !in u.rows && s'.rows[t] == s.rows[t];
      StepKeepsNoSlide(s, e, t, now);
    }
  }

  /** An UPDATE meets a row in both runs or in neither. */
  lemma SlidesAlike(u: State, s: State, gone: Rows, now: int, e: Event)
    requires Cleaner(u, s, gone, now)
    ensures e.Slide? && e.c < |s.calls| && s.calls[e.c].Sliding? ==>
              (s.calls[e.c].token in s.rows <==> s.calls[e.c].token in u.rows)
  {
    if e.Slide? && e.c < |s.calls| && s.calls[e.c].Sliding? {
      assert s.calls[e.c].CanSlide(s.calls[e.c].token, now);
    }
  }

  lemma {:induction false} RunKeepsCleaner(u: State, s: State, gone: Rows, now: int, es: seq<Event>, later: int)
    requires Cleaner(u, s, gone, now) && Clock(now, es, later) && FreshFor(gone, es)
    ensures Cleaner(Run(u, es), Run(s, es), gone, later)
    decreases |es|
  {
    if es == [] {
      assert forall t | NoSlideOf(s, t, now) :: NoSlideOf(s, t, later);
    } else {
      ClockRest(now, es, later);
      StepKeepsCleaner(u, s, gone, now, es[0]);
      RunKeepsCleaner(Apply(u, es[0]), Apply(s, es[0]), gone, es[0].now, es[1..], later);
    }
  }

  lemma CleanerIsUnnoticed(u: State, s: State, gone: Rows, now: int, t: Token)
    requires Cleaner(u, s, gone, now)
    ensures SameAnswers(u.calls, s.calls) && Live(u, t, now) == Live(s, t, now)
  {
  }

  /** Cleaning at `now` goes unnoticed in every continuation exactly when no token with an expired row has
      a validation in flight that may still slide it. */
  lemma CleaningIsInvisibleIff(s: State, now: int)
    ensures CleanIsInvisible(s, now) <==> NothingStale(s, now)
  {
    var u := Apply(s, Clean(now));
    if NothingStale(s, now) {
      assert Cleaner(u, s, s.rows, now);
      forall es, t, later | Clock(now, es, later) && FreshFor(s.rows, es) ensures Unnoticed(s, now, es, t, later) {
        RunKeepsCleaner(u, s, s.rows, now, es, later);
        CleanerIsUnnoticed(Run(u, es), Run(s, es), s.rows, later, t);
      }
    } else {
      var t :| t in s.rows && s.rows[t] < now && !NoSlideOf(s, t, now);
      var c :| 0 <= c < |s.calls| && s.calls[c].CanSlide(t, now);
      CleanLoses(s, c, t, now);
    }
  }

  /** With such a validation in flight, the UPDATE finds no row after the Clean and a live one without it. */
  lemma CleanLoses(s: State, c: nat, t: Token, now: int)
    requires c < |s.calls| && s.calls[c].CanSlide(t, now) && t in s.rows && s.rows[t] < now
    ensures !CleanIsInvisible(s, now)
  {
    var u := Apply(s, Clean(now));
    var es := if s.calls[c].Sliding? then [Slide(c, now, true)] else [Check(c, now), Slide(c, now, true)];
    if s.calls[c].Sliding? {
      RunOne(s, es[0]);
      RunOne(u, es[0]);
    } else {
      RunTwo(s, es[0], es[1]);
      RunTwo(u, es[0], es[1]);
    }
    assert Live(Run(s, es), t, now) && !Live(Run(u, es), t, now);
    assert Clock(now, es, now) && FreshFor(s.rows, es) && !Unnoticed(s, now, es, t, now);
  }

  /** The race: between the comparison and the UPDATE of a validation that answers true, a Clean removes the
      row, and the session is lost; without the Clean it would have had thirty more days. */
  lemma CleanLosesASession(t: Token, start: int)
    ensures
      var expiry := start + DURATION;
      var created := Apply(EMPTY, Create(t, start));
      var checked := Apply(Apply(created, Select(t, expiry - 1)), Check(0, expiry - 1));
      var cleaned := Apply(Apply(checked, Clean(expiry + 1)), Slide(0, expiry + 1, true));
      var kept := Apply(checked, Slide(0, expiry + 1, true));
      && cleaned.calls == kept.calls == [Returned(true)]
      && Live(kept, t, expiry + 1) && t !in cleaned.rows
  {
  }

  // ---- Answers follow the history ----------------------------------------------------------------

  type Touch = AuthSessions.Touch

  /** When the token was last created or had its expiry slid, since any deletion of it; cleaning is not
      consulted. `s` is the state before the event. */
  function NextTouch(s: State, prior: Touch, e: Event, t: Token): (r: Touch) {
    match e
    case Create(token, now) => if token == t then AuthSessions.At(now) else prior
    case Slide(c, now, ok) =>
      if ok && c < |s.calls| && s.calls[c] == Sliding(t) && prior.At? then AuthSessions.At(now) else prior
    case Delete(token, _) => if token == t then AuthSessions.Never else prior
    case DeleteAll(_) => AuthSessions.Never
    case _ => prior
  }

  function LastTouch(s: State, prior: Touch, es: seq<Event>, t: Token): (r: Touch)
    decreases |es|
  {
    if es == [] then prior else LastTouch(Apply(s, es[0]), NextTouch(s, prior, es[0], t), es[1..], t)
  }

  /** Every Clean of the run finds nothing stale, the condition under which it is invisible. */
  ghost predicate CleansAreSafe(s: State, es: seq<Event>)
    decreases |es|
  {
    es != [] ==> (es[0].Clean? ==> NothingStale(s, es[0].now)) && CleansAreSafe(Apply(s, es[0]), es[1..])
  }

  ghost predicate CreatedOnce(es: seq<Event>, t: Token) {
    forall i, j | 0 <= i < j < |es| && es[i].Create? && es[j].Create? :: !(es[i].token == es[j].token == t)
  }

  /** A row is the last touch plus thirty days; a touched token without a row has expired unslidably. */
  ghost predicate RowOk(s: State, touch: Touch, t: Token, now: int) {
    if t in s.rows then touch == AuthSessions.At(s.rows[t] - DURATION)
    else touch.At? ==> touch.time + DURATION <= now && NoSlideOf(s, t, now)
  }

  lemma StepKeepsRow(s: State, touch: Touch, e: Event, t: Token, now: int)
    requires RowOk(s, touch, t, now) && now <= e.now
    requires e.Create? && e.token == t ==> touch.Never?
    requires e.Clean? ==> NothingStale(s, e.now)
    ensures RowOk(Apply(s, e), NextTouch(s, touch, e, t), t, e.now)
  {
    if t !in s.rows && touch.At? {
      StepKeepsNoSlide(s, e, t, now);
    }
  }

  lemma {:induction false} RowsFollowHistory(s: State, touch: Touch, es: seq<Event>, t: Token, now: int, later: int)
    requires RowOk(s, touch, t, now) && Clock(now, es, later) && CleansAreSafe(s, es)
    requires CreatedOnce(es, t) && (touch.At? ==> NoCreate(es, t))
    ensures RowOk(Run(s, es), LastTouch(s, touch, es, t), t, later)
    decreases |es|
  {
    if es == [] {
      assert NoSlideOf(s, t, now) ==> NoSlideOf(s, t, later);
    } else {
      ClockRest(now, es, later);
      StepKeepsRow(s, touch, es[0], t, now);
      RowsFollowHistory(Apply(s, es[0]), NextTouch(s, touch, es[0], t), es[1..], t, es[0].now, later);
    }
  }

  /** Over every interleaving whose Cleans find nothing stale, failing UPDATEs included, a token is valid
      exactly when its last creation or slide, since any deletion of it, is less than thirty days old. */
  lemma LiveIffTouched(es: seq<Event>, t: Token, start: int, now: int)
    requires Clock(start, es, now) && CreatedOnce(es, t) && CleansAreSafe(EMPTY, es)
    ensures Live(Run(EMPTY, es), t, now) <==>
            AuthSessions.Within30Days(LastTouch(EMPTY, AuthSessions.Never, es, t), now)
  {
    RowsFollowHistory(EMPTY, AuthSessions.Never, es, t, start, now);
  }
}
