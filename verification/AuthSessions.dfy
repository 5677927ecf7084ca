/**
 Login sessions with sliding expiry (internal/auth/store.go). The table is keyed by the
 token itself, which stands for its hash because hashing is taken to be injective. Every
 call carries the instant at which it runs; a validation reads the clock a second time
 when it slides the expiry.
 */
module AuthSessions {

  type Token = nat

  const SESSION_DURATION: int := 30 * 24 * 60 * 60

  datatype Event =
    | Create(token: Token, now: int)
    | Validate(token: Token, now: int, slid: int, updated: bool)
    | Delete(token: Token, now: int)
    | DeleteAll(now: int)
    | Clean(now: int)
  {
    /** The last instant at which the call read the clock. */
    function End(): (t: int) {
      if Validate? then slid else now
    }
  }

  type Rows = map<Token, int>

  /** The table and the answers of the validations so far. */
  datatype State = State(rows: Rows, answers: seq<bool>)

  const EMPTY: State := State(map[], [])

  predicate Live(rows: Rows, token: Token, now: int) {
    token in rows && now < rows[token]
  }

  function Apply(s: State, e: Event): (r: State) {
    match e
    case Create(token, now) =>
      // The primary key refuses a token that is already in the table.
      if token in s.rows then s else s.(rows := s.rows[token := now + SESSION_DURATION])
    case Validate(token, now, slid, updated) =>
      if Live(s.rows, token, now)
      then State(if updated then s.rows[token := slid + SESSION_DURATION] else s.rows, s.answers + [true])
      else s.(answers := s.answers + [false])
    case Delete(token, _) => s.(rows := s.rows - {token})
    case DeleteAll(_) => s.(rows := map[])
    case Clean(now) => s.(rows := map t | t in s.rows && s.rows[t] >= now :: s.rows[t])
  }

  function Run(es: seq<Event>): (r: State) {
    if es == [] then EMPTY else Apply(Run(es[..|es| - 1]), es[|es| - 1])
  }

  // ---- The reference: read the answer off the history --------------------------------------------

  datatype Touch = Never | At(time: int)

  /** When the token was last created, or validated with its UPDATE going through, since any deletion of it. */
  function LastTouch(es: seq<Event>, token: Token): (r: Touch) {
    if es == [] then Never
    else NextTouch(LastTouch(es[..|es| - 1], token), es[|es| - 1], token)
  }

  function NextTouch(prior: Touch, e: Event, token: Token): (r: Touch) {
    match e
    case Create(t, now) => if t == token then At(now) else prior
    case Validate(t, now, slid, updated) =>
      if t == token && updated && Within30Days(prior, now) then At(slid) else prior
    case Delete(t, _) => if t == token then Never else prior
    case DeleteAll(_) => Never
    case Clean(_) => prior
  }

  predicate Within30Days(touch: Touch, now: int) {
    touch.At? && now - touch.time < 30 * 24 * 60 * 60
  }

  function ExpectedAnswers(es: seq<Event>): (r: seq<bool>) {
    if es == [] then []
    else
      var before, e := es[..|es| - 1], es[|es| - 1];
      ExpectedAnswers(before) + if e.Validate? then [Within30Days(LastTouch(before, e.token), e.now)] else []
  }

  /** Time never goes back, neither between calls nor inside one. */
  ghost predicate ClockOk(es: seq<Event>) {
    && (forall i | 0 <= i < |es| :: es[i].now <= es[i].End())
    && (forall i, j | 0 <= i < j < |es| :: es[i].End() <= es[j].now)
  }

  /** Random tokens are fresh: none is created twice. */
  ghost predicate FreshTokens(es: seq<Event>) {
    forall i, j | 0 <= i < j < |es| && es[i].Create? && es[j].Create? :: es[i].token != es[j].token
  }

  ghost predicate Created(es: seq<Event>, token: Token) {
    exists i :: 0 <= i < |es| && es[i].Create? && es[i].token == token
  }

  /** A row holds the last touch plus thirty days; a token without a row was never created, has been
      deleted, or had already expired. */
  ghost predicate RowOk(rows: Rows, touch: Touch, created: bool, token: Token, now: int) {
    if token in rows then created && touch == At(rows[token] - SESSION_DURATION)
    else touch.At? ==> touch.time + SESSION_DURATION < now
  }

  lemma CreatedSnoc(es: seq<Event>, e: Event, token: Token)
    ensures Created(es + [e], token) <==> Created(es, token) || (e.Create? && e.token == token)
  {
    var fs := es + [e];
    if Created(es, token) {
      var i :| 0 <= i < |es| && es[i].Create? && es[i].token == token;
      assert fs[i] == es[i];
    }
    if e.Create? && e.token == token {
      assert fs[|es|] == e;
    }
  }

  lemma {:induction false} RowsFollowHistory(es: seq<Event>, token: Token, now: int)
    requires ClockOk(es) && FreshTokens(es) && forall i | 0 <= i < |es| :: es[i].End() <= now
    ensures RowOk(Run(es).rows, LastTouch(es, token), Created(es, token), token, now)
  {
    hide Apply, NextTouch;
    if es != [] {
      var before, e := es[..|es| - 1], es[|es| - 1];
      assert es == before + [e];
      RowsFollowHistory(before, token, e.now);
      CreatedSnoc(before, e, token);
      assert e.Create? && e.token == token ==> !Created(before, token);
      RowStep(Run(before), LastTouch(before, token), Created(before, token), e, token, now);
    }
  }

  /** One event keeps a row in step with the token's last touch. */
  lemma RowStep(s: State, touch: Touch, created: bool, e: Event, token: Token, now: int)
    requires RowOk(s.rows, touch, created, token, e.now) && e.now <= e.End() <= now
    requires e.Create? && e.token == token ==> !created
    ensures RowOk(Apply(s, e).rows, NextTouch(touch, e, token), created || (e.Create? && e.token == token), token, now)
  {
  }

  /** For calls that do not overlap, ValidSession answers true exactly when the token's last creation or
      slid validation, since any deletion of it, is less than thirty days old; cleaning plays no part. */
  lemma {:induction false} AnswersFollowHistory(es: seq<Event>)
    requires ClockOk(es) && FreshTokens(es)
    ensures Run(es).answers == ExpectedAnswers(es)
  {
    if es != [] {
      var before, e := es[..|es| - 1], es[|es| - 1];
      AnswersFollowHistory(before);
      if e.Validate? {
        RowsFollowHistory(before, e.token, e.now);
      }
    }
  }

  /** A clean leaves no row whose expiry is in the past and changes no other. */
  lemma CleanLeavesNothingExpired(s: State, now: int, t: Token)
    ensures
      var u := Apply(s, Clean(now));
      && u.answers == s.answers
      && (t in u.rows ==> t in s.rows && u.rows[t] == s.rows[t] >= now)
      && (t in s.rows && t !in u.rows ==> s.rows[t] < now && !Live(s.rows, t, now))
  {
  }

  // ---- Consequences ------------------------------------------------------------------------------

  lemma {:induction false} TouchIgnoresClean(es: seq<Event>, now: int, rest: seq<Event>, token: Token)
    ensures LastTouch(es + [Clean(now)] + rest, token) == LastTouch(es + rest, token)
  {
    var with, without := es + [Clean(now)] + rest, es + rest;
    if rest == [] {
      assert with[..|with| - 1] == es && without == es;
    } else {
      var init := rest[..|rest| - 1];
      TouchIgnoresClean(es, now, init, token);
      assert with[..|with| - 1] == es + [Clean(now)] + init;
      assert without[..|without| - 1] == es + init;
    }
  }

  lemma {:induction false} ExpectedIgnoresClean(es: seq<Event>, now: int, rest: seq<Event>)
    ensures ExpectedAnswers(es + [Clean(now)] + rest) == ExpectedAnswers(es + rest)
  {
    var with, without := es + [Clean(now)] + rest, es + rest;
    if rest == [] {
      assert with[..|with| - 1] == es && without == es;
    } else {
      var init, e := rest[..|rest| - 1], rest[|rest| - 1];
      ExpectedIgnoresClean(es, now, init);
      assert with[..|with| - 1] == es + [Clean(now)] + init;
      assert without[..|without| - 1] == es + init;
      if e.Validate? {
        TouchIgnoresClean(es, now, init, e.token);
      }
    }
  }

  /** Between calls that do not overlap, running CleanExpiredSessions changes no answer, before or after. */
  lemma CleaningIsInvisible(es: seq<Event>, now: int, rest: seq<Event>)
    requires ClockOk(es + [Clean(now)] + rest) && FreshTokens(es + [Clean(now)] + rest)
    ensures Run(es + [Clean(now)] + rest).answers == Run(es + rest).answers
  {
    var with, without := es + [Clean(now)] + rest, es + rest;
    assert forall i | 0 <= i < |without| :: without[i] == with[if i < |es| then i else i + 1];
    AnswersFollowHistory(with);
    AnswersFollowHistory(without);
    ExpectedIgnoresClean(es, now, rest);
  }

  lemma {:induction false} NeverTouchedAgain(es: seq<Event>, now: int, rest: seq<Event>, token: Token, later: int)
    requires Created(es, token) && !Within30Days(LastTouch(es, token), now)
    requires FreshTokens(es + rest)
    requires forall i | 0 <= i < |rest| :: now <= rest[i].now
    requires now <= later
    ensures !Within30Days(LastTouch(es + rest, token), later)
  {
    if rest == [] {
      assert es + rest == es;
    } else {
      var init, e := rest[..|rest| - 1], rest[|rest| - 1];
      var all := es + rest;
      assert all[..|all| - 1] == es + init;
      assert FreshTokens(es + init) by {
        assert forall i | 0 <= i < |es + init| :: (es + init)[i] == all[i];
      }
      NeverTouchedAgain(es, now, init, token, e.now);
      NeverTouchedAgain(es, now, init, token, later);
      if e.Create? {
        var i :| 0 <= i < |es| && es[i].Create? && es[i].token == token;
        assert all[i] == es[i] && all[|all| - 1] == e;
      }
    }
  }

  /** Once a created token is expired or deleted it is never valid again, whatever calls follow: the table
      has no live row for it, so ValidSession answers false. */
  lemma NeverValidAgain(es: seq<Event>, now: int, rest: seq<Event>, token: Token, later: int)
    requires ClockOk(es + rest) && FreshTokens(es + rest) && Created(es, token)
    requires forall i | 0 <= i < |es| :: es[i].End() <= now
    requires forall i | 0 <= i < |rest| :: now <= rest[i].now && rest[i].End() <= later
    requires now <= later && !Live(Run(es).rows, token, now)
    ensures !Live(Run(es + rest).rows, token, later)
  {
    assert forall i | 0 <= i < |es| :: es[i] == (es + rest)[i];
    RowsFollowHistory(es, token, now);
    NeverTouchedAgain(es, now, rest, token, later);
    forall i | 0 <= i < |es + rest| ensures (es + rest)[i].End() <= later {
      assert i >= |es| ==> (es + rest)[i] == rest[i - |es|];
    }
    RowsFollowHistory(es + rest, token, later);
  }

  class Store {
    var rows: Rows

    constructor ()
      ensures rows == map[]
    {
      rows := map[];
    }

    method CreateSession(token: Token, now: int) returns (ok: bool)
      modifies this
      ensures State(rows, []) == Apply(State(old(rows), []), Create(token, now))
      ensures ok == (token !in old(rows)) && Live(rows, token, now) == (ok || Live(old(rows), token, now))
    {
      if token in rows {
        return false;
      }
      rows := rows[token := now + SESSION_DURATION];
      return true;
    }

    method ValidSession(token: Token, now: int, slid: int, updated: bool) returns (ok: bool)
      modifies this
      ensures State(rows, [ok]) == Apply(State(old(rows), []), Validate(token, now, slid, updated))
    {
      if token !in rows || now >= rows[token] {
        return false;
      }
      if updated {
        rows := rows[token := slid + SESSION_DURATION];
      }
      return true;
    }

    method DeleteSession(token: Token, now: int)
      modifies this
      ensures State(rows, []) == Apply(State(old(rows), []), Delete(token, now))
      ensures token !in rows && forall t | t != token :: t in rows <==> t in old(rows)
    {
      rows := rows - {token};
    }

    method DeleteAllSessions(now: int)
      modifies this
      ensures State(rows, []) == Apply(State(old(rows), []), DeleteAll(now))
      ensures rows == map[]
    {
      rows := map[];
    }

    method CleanExpiredSessions(now: int)
      modifies this
      ensures State(rows, []) == Apply(State(old(rows), []), Clean(now))
      ensures forall t :: t in rows <==> t in old(rows) && old(rows)[t] >= now
      ensures forall t | t in rows :: rows[t] == old(rows)[t]
    {
      rows := map t | t in rows && rows[t] >= now :: rows[t];
    }
  }
}
