/**
 The pending egress approval protocol (internal/egress/pending.go and the select in
 internal/egress/listener.go). Resolvers, the expiry sweep and the blocked handler race
 over one-shot channels; removing a request from the map is what transfers the right to
 answer it. Each locked region, channel operation and store call is one atomic step.
 */
module Pending {

  type Id = nat   // random request ids, assumed fresh
  type Tid = nat  // one per Resolve call

  datatype Request = Request(host: string, port: int, created: int)

  /** A `chan bool` of capacity one. `sent`, `closes` and `faults` are history: completed sends,
      completed closes, and operations on which Go would have panicked. */
  datatype Done = Done(queue: seq<bool>, sent: nat, closes: nat, faults: nat) {
    predicate Closed() { closes > 0 }

    predicate Full() { |queue| >= 1 }

    function Send(v: bool): (r: Done) {
      if Closed() then this.(faults := faults + 1) else this.(queue := queue + [v], sent := sent + 1)
    }

    /** select { case done <- v: default: } */
    function TrySend(v: bool): (r: Done) {
      if !Closed() && Full() then this else Send(v)
    }

    function Close(): (r: Done) {
      if Closed() then this.(faults := faults + 1) else this.(closes := closes + 1)
    }
  }

  const NEW_DONE: Done := Done([], 0, 0, 0)

  /** Where a Resolve call is. `Took` has removed the request; `Added` has returned from AddToAllowlist. */
  datatype Pc = Called | NotFound | Took | Added | Sent | Finished

  datatype Resolver = Resolver(id: Id, approved: bool, pc: Pc) {
    predicate Returned() { pc.NotFound? || pc.Finished? }

    /** Past the removal from the map. */
    predicate Active() { pc.Took? || pc.Added? || HasSent() }

    predicate HasSent() { pc.Sent? || pc.Finished? }
  }

  /** The blocked HTTP handler. `SawClosed` is the `!ok` case of its receive. */
  datatype Handler = Waiting | TimedOut(tid: Tid) | Answered(allowed: bool, timeout: bool) | SawClosed

  /** Who may answer a request: it is still in the map, or the sweep or one Resolve call removed it. */
  datatype Owner = InMap | BySweep | ByResolver(tid: Tid)

  /** A request with its channel and handler. `stored` lists the arguments of the AddToAllowlist calls made
      for it that have returned. */
  datatype Item = Item(req: Request, owner: Owner, ch: Done, handler: Handler, stored: seq<(string, int)>)

  /** `items` keeps every request ever added; the registry's map holds those that are InMap. */
  datatype State = State(hasStore: bool, timeout: int, items: map<Id, Item>, threads: map<Tid, Resolver>)

  datatype Event =
    | Add(id: Id, req: Request)
    | Call(tid: Tid, id: Id, approved: bool)
    | Take(tid: Tid)
    | StoreAdd(tid: Tid)
    | SendAnswer(tid: Tid)
    | CloseAnswer(tid: Tid)
    | Sweep(now: int)
    | Receive(id: Id)
    | Timer(id: Id, tid: Tid)
    | Respond(id: Id)

  function Init(hasStore: bool, timeout: int): (s: State) {
    State(hasStore, timeout, map[], map[])
  }

  function SetItem(s: State, id: Id, item: Item): (r: State) {
    s.(items := s.items[id := item])
  }

  function SetPc(s: State, tid: Tid, pc: Pc): (r: State)
    requires tid in s.threads
  {
    s.(threads := s.threads[tid := s.threads[tid].(pc := pc)])
  }

  function AddStep(s: State, id: Id, req: Request): (r: State) {
    if id in s.items then s else SetItem(s, id, Item(req, InMap, NEW_DONE, Waiting, []))
  }

  function CallStep(s: State, tid: Tid, id: Id, approved: bool): (r: State) {
    if tid in s.threads then s else s.(threads := s.threads[tid := Resolver(id, approved, Called)])
  }

  /** Resolve's locked region: whoever removes the request owns its channel. */
  function TakeStep(s: State, tid: Tid): (r: State) {
    if tid !in s.threads || s.threads[tid].pc != Called then s
    else
      var id := s.threads[tid].id;
      if id !in s.items || s.items[id].owner != InMap then SetPc(s, tid, NotFound)
      else SetPc(SetItem(s, id, s.items[id].(owner := ByResolver(tid))), tid, Took)
  }

  function StoreStep(s: State, tid: Tid): (r: State) {
    if tid !in s.threads || s.threads[tid].id !in s.items then s
    else
      var r := s.threads[tid];
      if r.pc != Took || !r.approved || !s.hasStore then s
      else
        var item := s.items[r.id];
        SetPc(SetItem(s, r.id, item.(stored := item.stored + [(item.req.host, item.req.port)])), tid, Added)
  }

  /** An approving resolver with a store has to have called it before it sends. */
  predicate ReadyToSend(hasStore: bool, r: Resolver) {
    r.pc == Added || (r.pc == Took && !(r.approved && hasStore))
  }

  /** A send on a full channel blocks, that is, the step does nothing. */
  function SendStep(s: State, tid: Tid): (r: State) {
    if tid !in s.threads || s.threads[tid].id !in s.items then s
    else
      var r := s.threads[tid];
      var item := s.items[r.id];
      if !ReadyToSend(s.hasStore, r) || (!item.ch.Closed() && item.ch.Full()) then s
      else SetPc(SetItem(s, r.id, item.(ch := item.ch.Send(r.approved))), tid, Sent)
  }

  function CloseStep(s: State, tid: Tid): (r: State) {
    if tid !in s.threads || s.threads[tid].id !in s.items || s.threads[tid].pc != Sent then s
    else
      var id := s.threads[tid].id;
      SetPc(SetItem(s, id, s.items[id].(ch := s.items[id].ch.Close())), tid, Finished)
  }

  predicate Expired(item: Item, cutoff: int) {
    item.owner == InMap && item.req.created < cutoff
  }

  function SweepItem(item: Item, cutoff: int): (r: Item) {
    if Expired(item, cutoff) then item.(owner := BySweep, ch := item.ch.TrySend(false).Close()) else item
  }

  function Swept(items: map<Id, Item>, cutoff: int): (r: map<Id, Item>) {
    map id | id in items :: SweepItem(items[id], cutoff)
  }

  /** cleanup: one locked region answers, closes and removes every expired request. */
  function SweepStep(s: State, now: int): (r: State) {
    s.(items := Swept(s.items, now - s.timeout))
  }

  function ReceiveStep(s: State, id: Id): (r: State) {
    if id !in s.items || s.items[id].handler != Waiting then s
    else
      var item := s.items[id];
      if item.ch.queue != [] then
        SetItem(s, id, item.(handler := Answered(item.ch.queue[0], false), ch := item.ch.(queue := item.ch.queue[1..])))
      else if item.ch.Closed() then SetItem(s, id, item.(handler := SawClosed))
      else s
  }

  /** The timer fires first: the handler calls Resolve(id, false) itself. */
  function TimerStep(s: State, id: Id, tid: Tid): (r: State) {
    if id !in s.items || s.items[id].handler != Waiting || tid in s.threads then s
    else CallStep(SetItem(s, id, s.items[id].(handler := TimedOut(tid))), tid, id, false)
  }

  function RespondStep(s: State, id: Id): (r: State) {
    if id in s.items && s.items[id].handler.TimedOut? && s.items[id].handler.tid in s.threads
       && s.threads[s.items[id].handler.tid].Returned()
    then SetItem(s, id, s.items[id].(handler := Answered(false, true)))
    else s
  }

  function Apply(s: State, e: Event): (r: State) {
    match e
    case Add(id, req) => AddStep(s, id, req)
    case Call(tid, id, approved) => CallStep(s, tid, id, approved)
    case Take(tid) => TakeStep(s, tid)
    case StoreAdd(tid) => StoreStep(s, tid)
    case SendAnswer(tid) => SendStep(s, tid)
    case CloseAnswer(tid) => CloseStep(s, tid)
    case Sweep(now) => SweepStep(s, now)
    case Receive(id) => ReceiveStep(s, id)
    case Timer(id, tid) => TimerStep(s, id, tid)
    case Respond(id) => RespondStep(s, id)
  }

  function Run(s: State, es: seq<Event>): (r: State) {
    if es == [] then s else Apply(Run(s, es[..|es| - 1]), es[|es| - 1])
  }

  // ---- Invariants ------------------------------------------------------------------------------

  /** The single value the owner sends. */
  ghost predicate Verdict(item: Item, threads: map<Tid, Resolver>) {
    item.owner.ByResolver? && item.owner.tid in threads && threads[item.owner.tid].approved
  }

  /** What a Resolve call past the removal has added to the store: the request's own host and port, once,
      if it approves and there is a store. */
  function StoredBy(hasStore: bool, req: Request, r: Resolver): (a: seq<(string, int)>) {
    if r.approved && hasStore && !r.pc.Took? then [(req.host, req.port)] else []
  }

  /** The channel's life follows its owner's progress: untouched, one send, then one close. An approval
      is sent only after its store call returned, and nothing else reaches the store. */
  ghost predicate OwnerOk(hasStore: bool, id: Id, item: Item, threads: map<Tid, Resolver>) {
    match item.owner
    case InMap => item.ch.sent == 0 && item.ch.closes == 0 && item.stored == []
    case BySweep => item.ch.sent == 1 && item.ch.closes == 1 && item.stored == []
    case ByResolver(tid) =>
      && tid in threads && threads[tid].id == id && threads[tid].Active()
      && item.ch.sent == (if threads[tid].HasSent() then 1 else 0)
      && item.ch.closes == (if threads[tid].pc.Finished? then 1 else 0)
      && (threads[tid].pc.Added? ==> threads[tid].approved && hasStore)
      && item.stored == StoredBy(hasStore, item.req, threads[tid])
  }

  /** A sent value is in the channel until the handler takes it; nothing is lost or duplicated. */
  ghost predicate HandlerOk(verdict: bool, ch: Done, h: Handler) {
    match h
    case Answered(allowed, false) => ch.queue == [] && ch.sent == 1 && allowed == verdict
    case Answered(allowed, true) => !allowed && ch.queue == (if ch.sent == 1 then [verdict] else [])
    case SawClosed => false
    case _ => ch.queue == (if ch.sent == 1 then [verdict] else [])
  }

  ghost predicate ItemOk(hasStore: bool, id: Id, item: Item, threads: map<Tid, Resolver>) {
    && item.ch.faults == 0
    && OwnerOk(hasStore, id, item, threads)
    && HandlerOk(Verdict(item, threads), item.ch, item.handler)
  }

  /** A Resolve call past the map removal is the recorded owner of its request. */
  ghost predicate ThreadOk(tid: Tid, r: Resolver, items: map<Id, Item>) {
    r.Active() ==> r.id in items && items[r.id].owner == ByResolver(tid)
  }

  ghost predicate Inv(s: State) {
    && (forall id | id in s.items :: ItemOk(s.hasStore, id, s.items[id], s.threads))
    && (forall tid | tid in s.threads :: ThreadOk(tid, s.threads[tid], s.items))
  }

  lemma AddKeepsInv(s: State, id: Id, req: Request)
    requires Inv(s)
    ensures Inv(AddStep(s, id, req))
  {
  }

  lemma CallKeepsInv(s: State, tid: Tid, id: Id, approved: bool)
    requires Inv(s)
    ensures Inv(CallStep(s, tid, id, approved))
  {
  }

  lemma TakeKeepsItem(s: State, tid: Tid, id: Id)
    requires id in s.items && ItemOk(s.hasStore, id, s.items[id], s.threads)
    ensures id in TakeStep(s, tid).items
    ensures ItemOk(s.hasStore, id, TakeStep(s, tid).items[id], TakeStep(s, tid).threads)
  {
    if tid in s.threads && s.threads[tid].pc == Called {
      var r := TakeStep(s, tid).threads[tid];
      if r.id == id && s.items[id].owner == InMap {
        TakenItem(s.hasStore, id, s.items[id], s.threads, tid);
      } else {
        hide HandlerOk;
        assert s.items[id].owner != ByResolver(tid);
      }
    }
  }

  lemma TakenItem(hasStore: bool, id: Id, item: Item, threads: map<Tid, Resolver>, tid: Tid)
    requires ItemOk(hasStore, id, item, threads) && item.owner == InMap && tid in threads && threads[tid].id == id
    ensures ItemOk(hasStore, id, item.(owner := ByResolver(tid)), threads[tid := threads[tid].(pc := Took)])
  {
  }

  lemma TakeKeepsInv(s: State, tid: Tid)
    requires Inv(s)
    ensures Inv(TakeStep(s, tid))
  {
    hide ItemOk;
    var t := TakeStep(s, tid);
    forall i | i in t.items ensures ItemOk(t.hasStore, i, t.items[i], t.threads) {
      TakeKeepsItem(s, tid, i);
    }
    forall x | x in t.threads ensures ThreadOk(x, t.threads[x], t.items) {
      assert ThreadOk(x, s.threads[x], s.items);
    }
  }

  /** A Resolve call advances on the request it owns: no other request or call can notice. */
  lemma OwnerAdvances(s: State, tid: Tid, item: Item, pc: Pc)
    requires Inv(s) && tid in s.threads && s.threads[tid].id in s.items
    requires
      var id, r := s.threads[tid].id, s.threads[tid].(pc := pc);
      && item.owner == s.items[id].owner == ByResolver(tid)
      && ItemOk(s.hasStore, id, item, s.threads[tid := r])
    ensures Inv(SetPc(SetItem(s, s.threads[tid].id, item), tid, pc))
  {
    hide ItemOk;
    var t := SetPc(SetItem(s, s.threads[tid].id, item), tid, pc);
    forall i | i in t.items ensures ItemOk(t.hasStore, i, t.items[i], t.threads) {
      assert ItemOk(s.hasStore, i, s.items[i], s.threads);
      if i != s.threads[tid].id {
        OtherItem(s.hasStore, i, s.items[i], s.threads, tid, t.threads[tid]);
      }
    }
  }

  lemma OtherItem(hasStore: bool, id: Id, item: Item, threads: map<Tid, Resolver>, tid: Tid, r: Resolver)
    requires ItemOk(hasStore, id, item, threads) && tid in threads && threads[tid].id != id
    ensures ItemOk(hasStore, id, item, threads[tid := r])
  {
  }

  /** A step of a request's handler, or of the sweep on one request: no call can notice. */
  lemma ItemMoves(s: State, id: Id, item: Item)
    requires Inv(s) && id in s.items && item.owner == s.items[id].owner && ItemOk(s.hasStore, id, item, s.threads)
    ensures Inv(SetItem(s, id, item))
  {
    hide ItemOk;
  }

  lemma ItemOf(s: State, id: Id)
    requires Inv(s)
    ensures id in s.items ==> ItemOk(s.hasStore, id, s.items[id], s.threads)
  {
    hide ItemOk;
  }

  /** The call past the removal and the request it owns. */
  lemma OwnedItem(s: State, tid: Tid)
    requires Inv(s) && tid in s.threads && s.threads[tid].Active()
    ensures
      var id := s.threads[tid].id;
      id in s.items && s.items[id].owner == ByResolver(tid) && ItemOk(s.hasStore, id, s.items[id], s.threads)
  {
  }

  lemma StoreKeepsInv(s: State, tid: Tid)
    requires Inv(s)
    ensures Inv(StoreStep(s, tid))
  {
    hide Inv;
    if StoreStep(s, tid) != s {
      OwnedItem(s, tid);
      OwnerAdvances(s, tid, StoreStep(s, tid).items[s.threads[tid].id], Added);
    }
  }

  lemma SendKeepsInv(s: State, tid: Tid)
    requires Inv(s)
    ensures Inv(SendStep(s, tid))
  {
    hide Inv;
    if SendStep(s, tid) != s {
      OwnedItem(s, tid);
      OwnerAdvances(s, tid, SendStep(s, tid).items[s.threads[tid].id], Sent);
    }
  }

  lemma CloseKeepsInv(s: State, tid: Tid)
    requires Inv(s)
    ensures Inv(CloseStep(s, tid))
  {
    hide Inv;
    if CloseStep(s, tid) != s {
      OwnedItem(s, tid);
      OwnerAdvances(s, tid, CloseStep(s, tid).items[s.threads[tid].id], Finished);
    }
  }

  lemma SweepKeepsItem(hasStore: bool, id: Id, item: Item, threads: map<Tid, Resolver>, cutoff: int)
    requires ItemOk(hasStore, id, item, threads)
    ensures ItemOk(hasStore, id, SweepItem(item, cutoff), threads)
    ensures item.owner.ByResolver? ==> SweepItem(item, cutoff) == item
  {
  }

  lemma SweepKeepsInv(s: State, now: int)
    requires Inv(s)
    ensures Inv(SweepStep(s, now))
  {
    hide ItemOk, SweepItem;
    var t := SweepStep(s, now);
    forall i | i in s.items ensures ItemOk(t.hasStore, i, t.items[i], t.threads)
      ensures s.items[i].owner.ByResolver? ==> t.items[i] == s.items[i]
    {
      SweepKeepsItem(s.hasStore, i, s.items[i], s.threads, now - s.timeout);
    }
    forall x | x in t.threads ensures ThreadOk(x, t.threads[x], t.items) {
      assert ThreadOk(x, s.threads[x], s.items);
    }
  }

  lemma ReceiveKeepsInv(s: State, id: Id)
    requires Inv(s)
    ensures Inv(ReceiveStep(s, id))
  {
    hide Inv;
    ItemOf(s, id);
    if ReceiveStep(s, id) != s {
      ItemMoves(s, id, ReceiveStep(s, id).items[id]);
    }
  }

  lemma TimerKeepsInv(s: State, id: Id, tid: Tid)
    requires Inv(s)
    ensures Inv(TimerStep(s, id, tid))
  {
    hide Inv, CallStep;
    ItemOf(s, id);
    if id in s.items && s.items[id].handler == Waiting && tid !in s.threads {
      var item := s.items[id].(handler := TimedOut(tid));
      ItemMoves(s, id, item);
      CallKeepsInv(SetItem(s, id, item), tid, id, false);
    }
  }

  lemma RespondKeepsInv(s: State, id: Id)
    requires Inv(s)
    ensures Inv(RespondStep(s, id))
  {
    hide Inv;
    ItemOf(s, id);
    if RespondStep(s, id) != s {
      ItemMoves(s, id, RespondStep(s, id).items[id]);
    }
  }

  lemma ApplyKeepsInv(s: State, e: Event)
    requires Inv(s)
    ensures Inv(Apply(s, e))
  {
    hide Inv, AddStep, CallStep, TakeStep, StoreStep, SendStep, CloseStep;
    hide SweepStep, ReceiveStep, TimerStep, RespondStep;
    match e
    case Add(id, req) => AddKeepsInv(s, id, req);
    case Call(tid, id, approved) => CallKeepsInv(s, tid, id, approved);
    case Take(tid) => TakeKeepsInv(s, tid);
    case StoreAdd(tid) => StoreKeepsInv(s, tid);
    case SendAnswer(tid) => SendKeepsInv(s, tid);
    case CloseAnswer(tid) => CloseKeepsInv(s, tid);
    case Sweep(now) => SweepKeepsInv(s, now);
    case Receive(id) => ReceiveKeepsInv(s, id);
    case Timer(id, tid) => TimerKeepsInv(s, id, tid);
    case Respond(id) => RespondKeepsInv(s, id);
  }

  /** The invariant holds in every interleaving of Add, Resolve, sweep and handler steps. */
  lemma {:induction false} EveryInterleaving(hasStore: bool, timeout: int, es: seq<Event>)
    ensures Inv(Run(Init(hasStore, timeout), es)) && Run(Init(hasStore, timeout), es).hasStore == hasStore
  {
    if es != [] {
      var s := Run(Init(hasStore, timeout), es[..|es| - 1]);
      EveryInterleaving(hasStore, timeout, es[..|es| - 1]);
      hide Inv, Apply;
      ApplyKeepsInv(s, es[|es| - 1]);
      ConfigIsFixed(s, es[|es| - 1]);
    }
  }

  lemma ConfigIsFixed(s: State, e: Event)
    ensures Apply(s, e).hasStore == s.hasStore && Apply(s, e).timeout == s.timeout
  {
  }

  // ---- What the invariant means for the callers ------------------------------------------------

  /** Each request's channel gets at most one value and one close, no operation on it ever panics, and
      the handler's `!ok` case never happens. */
  lemma OneShotChannel(hasStore: bool, timeout: int, es: seq<Event>, id: Id)
    requires id in Run(Init(hasStore, timeout), es).items
    ensures
      var item := Run(Init(hasStore, timeout), es).items[id];
      item.ch.sent <= 1 && item.ch.closes <= 1 && item.ch.faults == 0 && item.handler != SawClosed
  {
    var s := Run(Init(hasStore, timeout), es);
    EveryInterleaving(hasStore, timeout, es);
    assert ItemOk(s.hasStore, id, s.items[id], s.threads);
  }

  /** Neither a resolver's send nor the sweep's ever meets a closed or full channel: the send cannot
      block and the sweep's `default` case never happens. */
  lemma SendsAlwaysFit(hasStore: bool, timeout: int, es: seq<Event>)
    ensures
      var s := Run(Init(hasStore, timeout), es);
      && (forall tid | tid in s.threads && ReadyToSend(s.hasStore, s.threads[tid]) ::
            var id := s.threads[tid].id;
            && id in s.items && !s.items[id].ch.Closed() && !s.items[id].ch.Full()
            && SendStep(s, tid).threads[tid].pc == Sent)
      && (forall id | id in s.items && s.items[id].owner == InMap ::
            !s.items[id].ch.Closed() && !s.items[id].ch.Full())
  {
    var s := Run(Init(hasStore, timeout), es);
    EveryInterleaving(hasStore, timeout, es);
    forall tid | tid in s.threads && ReadyToSend(s.hasStore, s.threads[tid])
      ensures s.threads[tid].id in s.items
      ensures !s.items[s.threads[tid].id].ch.Closed() && !s.items[s.threads[tid].id].ch.Full()
    {
      assert ThreadOk(tid, s.threads[tid], s.items);
      assert ItemOk(s.hasStore, s.threads[tid].id, s.items[s.threads[tid].id], s.threads);
    }
    forall id | id in s.items && s.items[id].owner == InMap
      ensures !s.items[id].ch.Closed() && !s.items[id].ch.Full()
    {
      assert ItemOk(s.hasStore, id, s.items[id], s.threads);
    }
  }

  /** Exactly one taker wins each removed request: two Resolve calls past the removal never share one. */
  lemma OneTaker(hasStore: bool, timeout: int, es: seq<Event>, tid1: Tid, tid2: Tid)
    requires
      var s := Run(Init(hasStore, timeout), es);
      && tid1 in s.threads && s.threads[tid1].Active()
      && tid2 in s.threads && s.threads[tid2].Active()
      && s.threads[tid1].id == s.threads[tid2].id
    ensures tid1 == tid2
  {
    var s := Run(Init(hasStore, timeout), es);
    EveryInterleaving(hasStore, timeout, es);
    assert ThreadOk(tid1, s.threads[tid1], s.items) && ThreadOk(tid2, s.threads[tid2], s.items);
  }

  lemma ApplyKeepsOwner(s: State, e: Event, id: Id)
    requires Inv(s) && id in s.items && s.items[id].owner != InMap
    ensures id in Apply(s, e).items && Apply(s, e).items[id].owner == s.items[id].owner
  {
    hide ItemOk, ThreadOk;
  }

  /** Ownership never changes hands: once removed from the map, a request keeps its taker for ever. */
  lemma {:induction false} OwnerIsFinal(s: State, es: seq<Event>, id: Id)
    requires Inv(s) && id in s.items && s.items[id].owner != InMap
    ensures Inv(Run(s, es)) && id in Run(s, es).items && Run(s, es).items[id].owner == s.items[id].owner
  {
    if es != [] {
      var t := Run(s, es[..|es| - 1]);
      OwnerIsFinal(s, es[..|es| - 1], id);
      hide Inv, Apply;
      ApplyKeepsInv(t, es[|es| - 1]);
      ApplyKeepsOwner(t, es[|es| - 1], id);
    }
  }

  /** The handler reports allowed=true only if an approving Resolve took the request and its
      AddToAllowlist call had already returned, and never together with a timeout. */
  lemma AllowedMeansApprovedAndStored(hasStore: bool, timeout: int, es: seq<Event>, id: Id, timedOut: bool)
    requires
      var s := Run(Init(hasStore, timeout), es);
      id in s.items && s.items[id].handler == Answered(true, timedOut)
    ensures !timedOut
    ensures
      var s := Run(Init(hasStore, timeout), es);
      && s.items[id].owner.ByResolver? && s.items[id].owner.tid in s.threads
      && s.threads[s.items[id].owner.tid].id == id && s.threads[s.items[id].owner.tid].approved
      && s.items[id].stored == (if hasStore then [(s.items[id].req.host, s.items[id].req.port)] else [])
  {
    var s := Run(Init(hasStore, timeout), es);
    EveryInterleaving(hasStore, timeout, es);
    assert ItemOk(s.hasStore, id, s.items[id], s.threads);
  }

  /** A handler that did not time out relays exactly the decision of whoever took its request, so a
      denial or an expiry is never reported as allowed and an approval never as denied. */
  lemma AnswerIsTheTakersDecision(hasStore: bool, timeout: int, es: seq<Event>, id: Id, allowed: bool)
    requires
      var s := Run(Init(hasStore, timeout), es);
      id in s.items && s.items[id].handler == Answered(allowed, false)
    ensures
      var s := Run(Init(hasStore, timeout), es);
      match s.items[id].owner
      case InMap => false
      case BySweep => !allowed && s.items[id].stored == []
      case ByResolver(tid) =>
        && tid in s.threads && allowed == s.threads[tid].approved
        && (!allowed ==> s.items[id].stored == [])
  {
    var s := Run(Init(hasStore, timeout), es);
    EveryInterleaving(hasStore, timeout, es);
    assert ItemOk(s.hasStore, id, s.items[id], s.threads);
  }

  /** A handler that timed out always reports a denial, yet the host may have been added: exactly when an
      approving Resolve took the request and got past its store call. */
  lemma TimedOutButStoredIff(hasStore: bool, timeout: int, es: seq<Event>, id: Id, allowed: bool)
    requires
      var s := Run(Init(hasStore, timeout), es);
      id in s.items && s.items[id].handler == Answered(allowed, true)
    ensures !allowed
    ensures
      var s := Run(Init(hasStore, timeout), es);
      var item := s.items[id];
      item.stored != [] <==>
        && hasStore && item.owner.ByResolver? && item.owner.tid in s.threads
        && s.threads[item.owner.tid].approved && !s.threads[item.owner.tid].pc.Took?
  {
    var s := Run(Init(hasStore, timeout), es);
    EveryInterleaving(hasStore, timeout, es);
    assert ItemOk(s.hasStore, id, s.items[id], s.threads);
  }

  /** The race: an operator's approval is stored, then the timer fires before the answer is sent, and the
      handler's own denial finds the request gone. */
  lemma ApprovalLosesToTimer(timeout: int, id: Id, req: Request)
    ensures
      var stored := StoreStep(TakeStep(CallStep(AddStep(Init(true, timeout), id, req), 0, id, true), 0), 0);
      var answered := RespondStep(TakeStep(TimerStep(stored, id, 1), 1), id);
      && id in answered.items && answered.items[id].handler == Answered(false, true)
      && answered.items[id].stored == [(req.host, req.port)]
  {
    assert [] + [(req.host, req.port)] == [(req.host, req.port)];
  }

  // ---- Who approves, and what is asked -----------------------------------------------------------

  /** The i-th step starts Resolve call `tid` for `id` with an approval. */
  predicate ApprovesAt(s: State, es: seq<Event>, i: nat, tid: Tid, id: Id) {
    i < |es| && es[i] == Call(tid, id, true) && tid !in Run(s, es[..i]).threads
  }

  lemma ApprovesInPrefix(s: State, es: seq<Event>, n: nat, i: nat, tid: Tid, id: Id)
    requires i < n <= |es|
    ensures ApprovesAt(s, es[..n], i, tid, id) <==> ApprovesAt(s, es, i, tid, id)
  {
    assert es[..n][..i] == es[..i];
  }

  /** What one step does to a Resolve call's identity: only a Call that takes effect gives an approval. */
  lemma StepApproves(s: State, e: Event, tid: Tid)
    requires tid in Apply(s, e).threads
    ensures
      var r := Apply(s, e).threads[tid];
      if tid in s.threads then r.id == s.threads[tid].id && r.approved == s.threads[tid].approved
      else r.approved <==> e == Call(tid, r.id, true)
    ensures tid !in s.threads && e.Call? ==> e.tid == tid && e.id == Apply(s, e).threads[tid].id
  {
  }

  lemma {:induction false} ThreadsStay(s: State, es: seq<Event>, i: nat, tid: Tid)
    requires i <= |es| && tid in Run(s, es[..i]).threads
    ensures tid in Run(s, es).threads
    decreases |es| - i
  {
    if i == |es| {
      assert es[..i] == es;
    } else {
      assert es[..i + 1][..i] == es[..i];
      ThreadStays(Run(s, es[..i]), es[i], tid);
      ThreadsStay(s, es, i + 1, tid);
    }
  }

  lemma ThreadStays(s: State, e: Event, tid: Tid)
    requires tid in s.threads
    ensures tid in Apply(s, e).threads
  {
  }

  /** A Resolve call approves exactly when an operator's call with approved=true started it; the call a
      handler makes when its timer fires never does. */
  lemma {:induction false} ApprovedIffCalled(hasStore: bool, timeout: int, es: seq<Event>, tid: Tid)
    requires tid in Run(Init(hasStore, timeout), es).threads
    ensures
      var r := Run(Init(hasStore, timeout), es).threads[tid];
      r.approved <==> exists i: nat :: ApprovesAt(Init(hasStore, timeout), es, i, tid, r.id)
  {
    var s0 := Init(hasStore, timeout);
    if es == [] {
      return;
    }
    var n := |es| - 1;
    var before := Run(s0, es[..n]);
    var r := Run(s0, es).threads[tid];
    StepApproves(before, es[n], tid);
    assert Run(s0, es) == Apply(before, es[n]);
    hide Apply;
    if tid in before.threads {
      ApprovedIffCalled(hasStore, timeout, es[..n], tid);
      forall i: nat | i < n ensures ApprovesAt(s0, es[..n], i, tid, r.id) <==> ApprovesAt(s0, es, i, tid, r.id) {
        ApprovesInPrefix(s0, es, n, i, tid, r.id);
      }
      assert !ApprovesAt(s0, es, n, tid, r.id);
    } else {
      assert ApprovesAt(s0, es, n, tid, r.id) <==> r.approved;
      forall i: nat | i < n ensures !ApprovesAt(s0, es, i, tid, r.id) {
        if ApprovesAt(s0, es, i, tid, r.id) {
          assert es[..i + 1][..i] == es[..i];
          CallStarts(Run(s0, es[..i]), es[i], tid);
          assert es[..n][..i + 1] == es[..i + 1];
          ThreadsStay(s0, es[..n], i + 1, tid);
        }
      }
    }
  }

  lemma CallStarts(s: State, e: Event, tid: Tid)
    requires e.Call? && e.tid == tid
    ensures tid in Apply(s, e).threads
  {
  }

  /** Nothing reaches the allowlist for a request, and no handler reports allowed=true, unless some operator
      called Resolve on that request with approved=true, whatever timers and sweeps do. */
  lemma NothingWithoutApproval(hasStore: bool, timeout: int, es: seq<Event>, id: Id)
    requires forall i | 0 <= i < |es| && es[i].Call? && es[i].id == id :: !es[i].approved
    ensures
      var s := Run(Init(hasStore, timeout), es);
      id in s.items ==>
        && s.items[id].stored == []
        && s.items[id].handler != Answered(true, false) && s.items[id].handler != Answered(true, true)
  {
    var s0 := Init(hasStore, timeout);
    var s := Run(s0, es);
    EveryInterleaving(hasStore, timeout, es);
    hide Run;
    if id in s.items {
      assert ItemOk(s.hasStore, id, s.items[id], s.threads);
      if s.items[id].owner.ByResolver? {
        ApprovedIffCalled(hasStore, timeout, es, s.items[id].owner.tid);
      }
    }
  }

  /** The i-th step adds the request. */
  predicate AddsAt(s: State, es: seq<Event>, i: nat, id: Id, req: Request) {
    i < |es| && es[i] == Add(id, req) && id !in Run(s, es[..i]).items
  }

  lemma StepKeepsRequest(s: State, e: Event, id: Id)
    requires id in Apply(s, e).items
    ensures if id in s.items then Apply(s, e).items[id].req == s.items[id].req
            else e == Add(id, Apply(s, e).items[id].req)
  {
  }

  /** A request keeps the host, port and creation time of the Add that made it. */
  lemma {:induction false} RequestIsTheOneAdded(hasStore: bool, timeout: int, es: seq<Event>, id: Id)
    requires id in Run(Init(hasStore, timeout), es).items
    ensures exists i: nat :: AddsAt(Init(hasStore, timeout), es, i, id, Run(Init(hasStore, timeout), es).items[id].req)
  {
    if es == [] {
      return;
    }
    var s0, n := Init(hasStore, timeout), |es| - 1;
    var before := Run(s0, es[..n]);
    StepKeepsRequest(before, es[n], id);
    if id in before.items {
      RequestIsTheOneAdded(hasStore, timeout, es[..n], id);
      var req := before.items[id].req;
      var i: nat :| AddsAt(s0, es[..n], i, id, req);
      assert es[..n][..i] == es[..i];
      assert AddsAt(s0, es, i, id, req);
    } else {
      assert AddsAt(s0, es, n, id, Run(s0, es).items[id].req);
    }
  }

  /** A sweep takes a request exactly when it is still pending and older than the timeout; then a handler that
      is still waiting is told no, and no Resolve call can take it any more. Every other request stays as
      it is. */
  lemma SweepTakesExactlyTheOld(s: State, now: int, id: Id)
    requires Inv(s) && id in s.items
    ensures
      var t := SweepStep(s, now);
      var overdue := s.items[id].owner == InMap && s.items[id].req.created < now - s.timeout;
      && id in t.items && t.threads == s.threads && t.items.Keys == s.items.Keys
      && (t.items[id].owner == BySweep <==> overdue || s.items[id].owner == BySweep)
      && (!overdue ==> t.items[id] == s.items[id])
      && (overdue && s.items[id].handler == Waiting ==>
            ReceiveStep(t, id).items[id].handler == Answered(false, false))
  {
    assert ItemOk(s.hasStore, id, s.items[id], s.threads);
  }

  /** A handler whose timer fired waits for its own Resolve call, a denial of its own request. */
  ghost predicate TimersOk(s: State) {
    forall id | id in s.items && s.items[id].handler.TimedOut? :: TimerOk(id, s.items[id].handler.tid, s.threads)
  }

  ghost predicate TimerOk(id: Id, tid: Tid, threads: map<Tid, Resolver>) {
    tid in threads && threads[tid].id == id && !threads[tid].approved
  }

  lemma StepKeepsTimers(s: State, e: Event)
    requires TimersOk(s)
    ensures TimersOk(Apply(s, e))
  {
    var t := Apply(s, e);
    forall id | id in t.items && t.items[id].handler.TimedOut? ensures TimerOk(id, t.items[id].handler.tid, t.threads) {
      HandlerStep(s, e, id);
      if id in s.items && t.items[id].handler == s.items[id].handler {
        assert TimerOk(id, s.items[id].handler.tid, s.threads);
        ThreadStays(s, e, s.items[id].handler.tid);
        StepApproves(s, e, s.items[id].handler.tid);
      }
    }
  }

  lemma HandlerStep(s: State, e: Event, id: Id)
    requires id in Apply(s, e).items && Apply(s, e).items[id].handler.TimedOut?
    ensures
      var t := Apply(s, e);
      var tid := t.items[id].handler.tid;
      || (id in s.items && t.items[id].handler == s.items[id].handler)
      || (e == Timer(id, tid) && TimerOk(id, tid, t.threads))
  {
  }

  /** Over every run, a handler whose timer fired answers, with a denial and a timeout, exactly once its own
      Resolve call has returned. */
  lemma {:induction false} TimedOutHandlerAnswersIff(hasStore: bool, timeout: int, es: seq<Event>, id: Id)
    ensures
      var s := Run(Init(hasStore, timeout), es);
      && TimersOk(s)
      && (id in s.items && s.items[id].handler.TimedOut? ==>
            var r := s.threads[s.items[id].handler.tid];
            && r.id == id && !r.approved
            && (Apply(s, Respond(id)).items[id].handler == Answered(false, true) <==>
                r.pc == NotFound || r.pc == Finished)
            && (Apply(s, Respond(id)) == s <==> r.pc != NotFound && r.pc != Finished))
  {
    if es != [] {
      TimedOutHandlerAnswersIff(hasStore, timeout, es[..|es| - 1], id);
      hide Apply;
      StepKeepsTimers(Run(Init(hasStore, timeout), es[..|es| - 1]), es[|es| - 1]);
    }
    var s := Run(Init(hasStore, timeout), es);
    hide Run;
    if id in s.items && s.items[id].handler.TimedOut? {
      assert TimerOk(id, s.items[id].handler.tid, s.threads);
      RespondIff(s, id);
    }
  }

  lemma RespondIff(s: State, id: Id)
    requires id in s.items && s.items[id].handler.TimedOut? && s.items[id].handler.tid in s.threads
    ensures
      var pc, t := s.threads[s.items[id].handler.tid].pc, Apply(s, Respond(id));
      && id in t.items
      && (t.items[id].handler == Answered(false, true) <==> pc == NotFound || pc == Finished)
      && (t == s <==> pc != NotFound && pc != Finished)
  {
    var t := Apply(s, Respond(id));
    assert t != s ==> t.items[id].handler != s.items[id].handler;
  }

  /** Nobody who has been answered keeps waiting: once the owner has sent, a handler that is still in its
      select receives the owner's decision, whether or not the channel is closed by then. */
  lemma SentAnswerIsReceived(hasStore: bool, timeout: int, es: seq<Event>, id: Id)
    requires
      var s := Run(Init(hasStore, timeout), es);
      && id in s.items && s.items[id].handler == Waiting
      && (s.items[id].ch.sent > 0 || s.items[id].ch.Closed())
    ensures
      var s := Run(Init(hasStore, timeout), es);
      Apply(s, Receive(id)).items[id].handler == Answered(Verdict(s.items[id], s.threads), false)
  {
    var s := Run(Init(hasStore, timeout), es);
    EveryInterleaving(hasStore, timeout, es);
    assert ItemOk(s.hasStore, id, s.items[id], s.threads);
  }

  // ---- The registry object ---------------------------------------------------------------------

  /** A Resolve call with nothing in between; after NotFound the later steps do nothing. */
  function ResolveAll(s: State, tid: Tid, id: Id, approved: bool): (r: State) {
    CloseStep(SendStep(StoreStep(TakeStep(CallStep(s, tid, id, approved), tid), tid), tid), tid)
  }

  /** What a finished Resolve call has added to the allowlist. */
  function Stored(s: State, id: Id, approved: bool): (a: seq<(string, int)>)
    requires id in s.items
  {
    if approved && s.hasStore then [(s.items[id].req.host, s.items[id].req.port)] else []
  }

  /** A request whose Resolve call ran to its end: owned, stored if approved, answered and closed. */
  function Resolved(s: State, tid: Tid, id: Id, approved: bool): (r: Item)
    requires id in s.items
  {
    s.items[id].(owner := ByResolver(tid), stored := Stored(s, id, approved), ch := Done([approved], 1, 1, 0))
  }

  lemma ResolveAllKeepsInv(s: State, tid: Tid, id: Id, approved: bool)
    requires Inv(s)
    ensures Inv(ResolveAll(s, tid, id, approved))
  {
    hide Inv, CallStep, TakeStep, StoreStep, SendStep, CloseStep;
    CallKeepsInv(s, tid, id, approved);
    var s1 := CallStep(s, tid, id, approved);
    TakeKeepsInv(s1, tid);
    StoreKeepsInv(TakeStep(s1, tid), tid);
    var s3 := StoreStep(TakeStep(s1, tid), tid);
    SendKeepsInv(s3, tid);
    CloseKeepsInv(SendStep(s3, tid), tid);
  }

  lemma ResolveAllEffect(s: State, tid: Tid, id: Id, approved: bool)
    requires Inv(s) && tid !in s.threads
    ensures
      var t := ResolveAll(s, tid, id, approved);
      && t.hasStore == s.hasStore
      && if id !in s.items || s.items[id].owner != InMap then t.items == s.items
         else t.items == s.items[id := Resolved(s, tid, id, approved)] && Resolved(s, tid, id, approved).owner != InMap
  {
    hide Inv, CallStep, TakeStep, StoreStep, SendStep, CloseStep;
    if id !in s.items || s.items[id].owner != InMap {
      TakeFails(s, tid, id, approved);
      NothingFollows(TakeStep(CallStep(s, tid, id, approved), tid), tid);
    } else {
      InMapIsUntouched(s, id);
      TakeAndStore(s, tid, id, approved);
      SendAndClose(StoreStep(TakeStep(CallStep(s, tid, id, approved), tid), tid), tid);
    }
  }

  lemma TakeFails(s: State, tid: Tid, id: Id, approved: bool)
    requires tid !in s.threads && (id !in s.items || s.items[id].owner != InMap)
    ensures
      var t := TakeStep(CallStep(s, tid, id, approved), tid);
      t.items == s.items && t.hasStore == s.hasStore && tid in t.threads && t.threads[tid].pc == NotFound
  {
  }

  lemma NothingFollows(s: State, tid: Tid)
    requires tid in s.threads && s.threads[tid].pc == NotFound
    ensures CloseStep(SendStep(StoreStep(s, tid), tid), tid) == s
  {
  }

  lemma InMapIsUntouched(s: State, id: Id)
    requires Inv(s) && id in s.items && s.items[id].owner == InMap
    ensures s.items[id].ch == NEW_DONE && s.items[id].stored == []
  {
  }

  lemma TakeAndStore(s: State, tid: Tid, id: Id, approved: bool)
    requires tid !in s.threads && id in s.items && s.items[id].owner == InMap && s.items[id].stored == []
    ensures
      var t := StoreStep(TakeStep(CallStep(s, tid, id, approved), tid), tid);
      && t.hasStore == s.hasStore && tid in t.threads
      && t.threads[tid].id == id && t.threads[tid].approved == approved && ReadyToSend(s.hasStore, t.threads[tid])
      && t.items == s.items[id := s.items[id].(owner := ByResolver(tid), stored := Stored(s, id, approved))]
  {
    assert [] + [(s.items[id].req.host, s.items[id].req.port)] == [(s.items[id].req.host, s.items[id].req.port)];
  }

  lemma SendAndClose(s: State, tid: Tid)
    requires tid in s.threads && ReadyToSend(s.hasStore, s.threads[tid])
    requires s.threads[tid].id in s.items && s.items[s.threads[tid].id].ch == NEW_DONE
    ensures
      var t := CloseStep(SendStep(s, tid), tid);
      var id := s.threads[tid].id;
      && t.hasStore == s.hasStore
      && t.items == s.items[id := s.items[id].(ch := Done([s.threads[tid].approved], 1, 1, 0))]
  {
    assert [] + [s.threads[tid].approved] == [s.threads[tid].approved];
  }

  function InMapIds(items: map<Id, Item>): (r: set<Id>) {
    set id | id in items && items[id].owner == InMap
  }

  lemma InMapMember(items: map<Id, Item>, id: Id)
    ensures id in InMapIds(items) <==> id in items && items[id].owner == InMap
  {
  }

  lemma InMapAfter(items: map<Id, Item>, id: Id, item: Item)
    ensures InMapIds(items[id := item]) == InMapIds(items) - {id} + (if item.owner == InMap then {id} else {})
  {
  }

  lemma SweepOne(item: Item, cutoff: int)
    ensures SweepItem(item, cutoff) ==
            if Expired(item, cutoff) then item.(owner := BySweep, ch := item.ch.TrySend(false).Close()) else item
  {
  }

  /** cleanup's loop over the registry's map, in whatever order the map yields the requests: it answers,
      closes and deletes the expired ones and no other. */
  method SweepLoop(all: map<Id, Item>, cutoff: int) returns (items: map<Id, Item>, requests: set<Id>)
    ensures items == Swept(all, cutoff) && requests == InMapIds(items)
    ensures forall id :: id in requests <==> id in all && all[id].owner == InMap && all[id].req.created >= cutoff
  {
    items, requests := all, InMapIds(all);
    var todo := requests;
    while todo != {}
      invariant items.Keys == all.Keys && todo <= requests == InMapIds(items)
      invariant forall id | id in all :: items[id] == if id in todo then all[id] else SweepItem(all[id], cutoff)
      decreases todo
    {
      var id :| id in todo;
      todo := todo - {id};
      SweepOne(items[id], cutoff);
      if items[id].req.created < cutoff {
        items := items[id := items[id].(owner := BySweep, ch := items[id].ch.TrySend(false).Close())];
        requests := requests - {id};
      }
    }
  }

  lemma PendingAreItems(items: map<Id, Item>)
    ensures forall id :: id in InMapIds(items) <==> id in items && items[id].owner == InMap
  {
  }

  class PendingRegistry {
    var requests: set<Id>  // keys of the source's map
    var state: State

    ghost predicate Valid()
      reads this
    {
      Inv(state) && requests == InMapIds(state.items)
    }

    constructor (hasStore: bool, timeout: int)
      ensures Valid() && state == Init(hasStore, timeout)
    {
      requests, state := {}, Init(hasStore, timeout);
    }

    method Add(id: Id, req: Request)
      requires Valid() && id !in state.items
      modifies this
      ensures Valid() && state == AddStep(old(state), id, req) && requests == old(requests) + {id}
    {
      AddKeepsInv(state, id, req);
      InMapAfter(state.items, id, AddStep(state, id, req).items[id]);
      state, requests := AddStep(state, id, req), requests + {id};
    }

    /** A Resolve call that runs to its end: unknown ids are refused and change no request; otherwise
        the request leaves the map and its channel holds the decision and is closed. */
    method Resolve(tid: Tid, id: Id, approved: bool) returns (ok: bool)
      requires Valid() && tid !in state.threads
      modifies this
      ensures Valid() && ok == (id in old(requests)) && requests == old(requests) - {id}
      ensures !ok ==> state.items == old(state).items
      ensures ok ==>
                state.items == old(state).items[id := Resolved(old(state), tid, id, approved)]
    {
      hide Inv, InMapIds, CallStep, TakeStep, StoreStep, SendStep, CloseStep, Resolved;
      ResolveAllKeepsInv(state, tid, id, approved);
      ResolveAllEffect(state, tid, id, approved);
      InMapMember(state.items, id);
      ok := id in requests;
      if ok {
        InMapAfter(state.items, id, Resolved(state, tid, id, approved));
      }
      state := CallStep(state, tid, id, approved);
      state := TakeStep(state, tid);
      state := StoreStep(state, tid);
      state := SendStep(state, tid);
      state := CloseStep(state, tid);
      requests := requests - {id};
    }

    method Cleanup(now: int)
      requires Valid()
      modifies this
      ensures Valid() && state == SweepStep(old(state), now)
      ensures forall id :: id in requests <==>
                id in old(requests) && old(state).items[id].req.created >= now - old(state).timeout
    {
      hide Inv, Swept, InMapIds;
      PendingAreItems(state.items);
      SweepKeepsInv(state, now);
      var items, left := SweepLoop(state.items, now - state.timeout);
      state, requests := state.(items := items), left;
    }

    /** List sweeps first, so it never shows an expired request and never drops a live one. */
    method List(now: int) returns (pending: set<Id>)
      requires Valid()
      modifies this
      ensures Valid() && state == SweepStep(old(state), now)
      ensures forall id :: id in pending <==>
                id in old(requests) && old(state).items[id].req.created >= now - old(state).timeout
    {
      Cleanup(now);
      pending := requests;
    }
  }
}
