/**
 One terminal session's output fan-out (internal/terminal/manager.go): a pump that
 writes the replay buffer and broadcasts to bounded subscriber channels, evicting slow
 ones, while other goroutines subscribe, unsubscribe, receive and tear down. Every
 locked region and every channel receive is one atomic step, so an interleaving is a
 sequence of events and a claim about every run is a claim about every interleaving.
 */
module Fanout {
  import opened RingBuffers

  const SUBSCRIBER_BUF_SIZE: nat := 256

  type Chunk = seq<Byte>

  /** A Go channel of chunks. `start`, `received` and `faults` are history: how many chunks
      had been pumped at creation, what the reader took, and how often Go would have panicked. */
  datatype Channel = Channel(start: nat, received: seq<Chunk>, queue: seq<Chunk>, closed: bool, faults: nat) {

    /** Everything ever delivered: what the reader consumed, then what is still queued. */
    function Stream(): (r: seq<Chunk>) {
      received + queue
    }

    predicate HasRoom() {
      |queue| < SUBSCRIBER_BUF_SIZE
    }

    /** close(ch): a second close panics. */
    function Close(): (r: Channel) {
      if closed then this.(faults := faults + 1) else this.(closed := true)
    }

    /** The pump's select: a send on a closed channel panics, a full channel is evicted. */
    function SendOrEvict(data: Chunk): (r: Channel) {
      if closed then this.(faults := faults + 1)
      else if HasRoom() then this.(queue := queue + [data])
      else Close()
    }

    /** A receive; a closed channel still hands out what was queued. */
    function Receive(): (r: Channel) {
      if queue == [] then this else this.(received := received + [queue[0]], queue := queue[1..])
    }
  }

  /** `out` is the history of broadcast chunks; `replay` is the ring buffer's contents. */
  datatype State = State(size: nat, out: seq<Chunk>, replay: seq<Byte>, chans: map<nat, Channel>, subs: set<nat>)

  datatype Event =
    | Subscribe(c: nat)
    | Unsubscribe(c: nat)
    | Pump(data: Chunk)
    | Receive(c: nat)
    | CloseSubs

  function Init(size: nat): (s: State) {
    State(size, [], [], map[], {})
  }

  function Record(s: State, data: Chunk): (r: State) {
    s.(replay := LastN(s.size, s.replay + data))
  }

  function Broadcast(s: State, data: Chunk): (r: State) {
    s.(out := s.out + [data],
       chans := map c | c in s.chans :: if c in s.subs then s.chans[c].SendOrEvict(data) else s.chans[c],
       subs := set c | c in s.subs && c in s.chans && s.chans[c].HasRoom())
  }

  function CloseAllSubs(s: State): (r: State) {
    s.(chans := map c | c in s.chans :: if c in s.subs then s.chans[c].Close() else s.chans[c], subs := {})
  }

  /** One atomic step. Subscribing needs a channel that does not exist yet. */
  function Apply(s: State, e: Event): (r: State) {
    match e
    case Subscribe(c) =>
      if c in s.chans then s
      else s.(chans := s.chans[c := Channel(|s.out|, [], [], false, 0)], subs := s.subs + {c})
    case Unsubscribe(c) => s.(subs := s.subs - {c})
    case Pump(data) => Broadcast(Record(s, data), data)
    case Receive(c) => if c in s.chans then s.(chans := s.chans[c := s.chans[c].Receive()]) else s
    case CloseSubs => CloseAllSubs(s)
  }

  function Run(s: State, es: seq<Event>): (r: State) {
    if es == [] then s else Apply(Run(s, es[..|es| - 1]), es[|es| - 1])
  }

  /** No panic, at most 256 queued, and the delivered chunks are one contiguous run of the output. */
  ghost predicate ChannelOk(out: seq<Chunk>, ch: Channel) {
    && ch.faults == 0
    && |ch.queue| <= 256
    && ch.start + |ch.Stream()| <= |out|
    && ch.Stream() == out[ch.start..ch.start + |ch.Stream()|]
  }

  /** A live subscriber is open and has been given every chunk since it subscribed. */
  ghost predicate Current(out: seq<Chunk>, ch: Channel) {
    !ch.closed && ch.start + |ch.Stream()| == |out|
  }

  ghost predicate Inv(s: State) {
    && s.subs <= s.chans.Keys
    && (forall c | c in s.chans :: ChannelOk(s.out, s.chans[c]))
    && (forall c | c in s.subs :: Current(s.out, s.chans[c]))
  }

  ghost predicate ReplayOk(s: State) {
    s.replay == LastN(s.size, Flatten(s.out))
  }

  lemma SendOk(out: seq<Chunk>, ch: Channel, data: Chunk)
    requires ChannelOk(out, ch) && Current(out, ch)
    ensures ChannelOk(out + [data], ch.SendOrEvict(data))
    ensures ch.HasRoom() ==> Current(out + [data], ch.SendOrEvict(data))
  {
    var ch' := ch.SendOrEvict(data);
    if ch.HasRoom() {
      assert ch'.Stream() == ch.Stream() + [data];
    }
    assert (out + [data])[..|out|] == out;
  }

  lemma IdleOk(out: seq<Chunk>, ch: Channel, data: Chunk)
    requires ChannelOk(out, ch)
    ensures ChannelOk(out + [data], ch)
  {
  }

  lemma BroadcastKeepsInv(s: State, data: Chunk)
    requires Inv(s)
    ensures Inv(Broadcast(s, data))
  {
    hide ChannelOk, Current;
    var s' := Broadcast(s, data);
    forall c | c in s'.chans
      ensures ChannelOk(s'.out, s'.chans[c]) && (c in s'.subs ==> Current(s'.out, s'.chans[c]))
    {
      if c in s.subs {
        SendOk(s.out, s.chans[c], data);
      } else {
        IdleOk(s.out, s.chans[c], data);
      }
    }
  }

  lemma CloseOk(out: seq<Chunk>, ch: Channel)
    requires ChannelOk(out, ch) && Current(out, ch)
    ensures ChannelOk(out, ch.Close())
  {
  }

  lemma CloseAllKeepsInv(s: State)
    requires Inv(s)
    ensures Inv(CloseAllSubs(s))
  {
    hide ChannelOk, Current;
    var t := CloseAllSubs(s);
    forall c | c in t.chans ensures ChannelOk(t.out, t.chans[c]) {
      if c in s.subs {
        CloseOk(s.out, s.chans[c]);
      }
    }
  }

  lemma NewChannelOk(out: seq<Chunk>)
    ensures ChannelOk(out, Channel(|out|, [], [], false, 0)) && Current(out, Channel(|out|, [], [], false, 0))
  {
  }

  lemma ReceiveOk(out: seq<Chunk>, ch: Channel)
    requires ChannelOk(out, ch)
    ensures ChannelOk(out, ch.Receive()) && (Current(out, ch) ==> Current(out, ch.Receive()))
  {
    assert ch.Receive().Stream() == ch.Stream();
  }

  /** Every step keeps the invariant; in particular no channel is closed twice or sent to after close. */
  lemma ApplyKeepsInv(s: State, e: Event)
    requires Inv(s)
    ensures Inv(Apply(s, e))
  {
    hide Broadcast, CloseAllSubs, ChannelOk, Current;
    NewChannelOk(s.out);
    match e
    case Pump(data) => BroadcastKeepsInv(Record(s, data), data);
    case CloseSubs => CloseAllKeepsInv(s);
    case Receive(c) =>
      if c in s.chans {
        ReceiveOk(s.out, s.chans[c]);
      }
    case _ =>
  }

  lemma ApplyKeepsReplay(s: State, e: Event)
    requires ReplayOk(s)
    ensures ReplayOk(Apply(s, e))
  {
    if e.Pump? {
      var out' := s.out + [e.data];
      assert out'[..|out'| - 1] == s.out;
      LastNAbsorbs(s.size, Flatten(s.out), e.data);
    }
  }

  /** In every interleaving each subscriber's chunks are a hole-free run of the output from its
      subscription point, live subscribers are complete, and the replay buffer is the output's tail. */
  lemma {:induction false} EveryRun(size: nat, es: seq<Event>)
    ensures Inv(Run(Init(size), es)) && ReplayOk(Run(Init(size), es)) && Run(Init(size), es).size == size
  {
    if es != [] {
      var before := es[..|es| - 1];
      EveryRun(size, before);
      ApplyKeepsInv(Run(Init(size), before), es[|es| - 1]);
      ApplyKeepsReplay(Run(Init(size), before), es[|es| - 1]);
    }
  }

  /** Output only grows, and a channel keeps existing with the subscription point it was given. */
  ghost predicate Extends(s: State, t: State) {
    && s.out <= t.out && t.size == s.size
    && forall c | c in s.chans :: c in t.chans && t.chans[c].start == s.chans[c].start
  }

  lemma ApplyExtends(s: State, e: Event)
    ensures Extends(s, Apply(s, e))
  {
  }

  lemma ExtendsTransitive(s: State, t: State, u: State)
    requires Extends(s, t) && Extends(t, u)
    ensures Extends(s, u)
  {
  }

  lemma {:induction false} RunKeeps(s: State, es: seq<Event>)
    requires Inv(s) && ReplayOk(s)
    ensures Inv(Run(s, es)) && ReplayOk(Run(s, es)) && Extends(s, Run(s, es))
  {
    if es != [] {
      hide Inv, ReplayOk, Apply, Extends;
      var t := Run(s, es[..|es| - 1]);
      RunKeeps(s, es[..|es| - 1]);
      ApplyKeepsInv(t, es[|es| - 1]);
      ApplyKeepsReplay(t, es[|es| - 1]);
      ApplyExtends(t, es[|es| - 1]);
      ExtendsTransitive(s, t, Apply(t, es[|es| - 1]));
    }
  }

  /** Channel c exists, is outside the subscriber set, and has been delivered exactly `stream`. */
  ghost predicate Detached(s: State, c: nat, stream: seq<Chunk>, closed: bool) {
    c in s.chans && c !in s.subs && s.chans[c].Stream() == stream && s.chans[c].closed == closed
  }

  lemma DetachedStep(s: State, e: Event, c: nat, stream: seq<Chunk>, closed: bool)
    requires Detached(s, c, stream, closed)
    ensures Detached(Apply(s, e), c, stream, closed)
  {
  }

  /** Nothing is delivered after eviction, unsubscription or close: once a channel has left the
      subscriber set it never returns, and its chunks stay what they were, whatever happens next. */
  lemma {:induction false} DetachedIsFrozen(s: State, es: seq<Event>, c: nat, stream: seq<Chunk>, closed: bool)
    requires Detached(s, c, stream, closed)
    ensures Detached(Run(s, es), c, stream, closed)
  {
    if es != [] {
      hide Detached, Apply;
      DetachedIsFrozen(s, es[..|es| - 1], c, stream, closed);
      DetachedStep(Run(s, es[..|es| - 1]), es[|es| - 1], c, stream, closed);
    }
  }

  /** A broadcast drops a subscriber exactly when its channel already holds 256 chunks; it is then
      closed with its stream cut at the previous chunk, and every other subscriber gets the new one. */
  lemma EvictsExactlyTheFull(s: State, data: Chunk, c: nat)
    requires Inv(s) && c in s.subs
    ensures
      var s' := Apply(s, Pump(data));
      && (c !in s'.subs <==> |s.chans[c].queue| == 256)
      && (c !in s'.subs ==> s'.chans[c] == s.chans[c].(closed := true))
      && (c in s'.subs ==> s'.chans[c].Stream() == s.chans[c].Stream() + [data])
  {
  }

  lemma RunSnoc(s: State, es: seq<Event>, e: Event)
    ensures Run(s, es + [e]) == Apply(Run(s, es), e) && Run(s, []) == s
  {
    assert (es + [e])[..|es|] == es;
  }

  lemma {:induction false} RunAppend(s: State, es: seq<Event>, fs: seq<Event>)
    ensures Run(s, es + fs) == Run(Run(s, es), fs)
  {
    hide Run, Apply;
    if fs == [] {
      assert es + fs == es;
      RunSnoc(Run(s, es), [], CloseSubs);
    } else {
      var init, last := fs[..|fs| - 1], fs[|fs| - 1];
      RunAppend(s, es, init);
      assert fs == init + [last] && es + fs == (es + init) + [last];
      RunSnoc(s, es + init, last);
      RunSnoc(Run(s, es), init, last);
    }
  }

  // ---- What was pumped, and who gets it ----------------------------------------------------------

  /** The chunks the pump read over a run, in order. */
  function Pumped(es: seq<Event>): (r: seq<Chunk>) {
    if es == [] then []
    else Pumped(es[..|es| - 1]) + if es[|es| - 1].Pump? then [es[|es| - 1].data] else []
  }

  /** Every chunk the pump reads becomes output, subscribers or not, and nothing else does; so the replay
      buffer of a run is the tail of what was pumped. */
  lemma {:induction false} OutputIsWhatWasPumped(s: State, es: seq<Event>)
    ensures Run(s, es).out == s.out + Pumped(es)
  {
    if es != [] {
      OutputIsWhatWasPumped(s, es[..|es| - 1]);
    }
  }

  /** The steps that end a subscription: the client unsubscribes, the session is torn down, or a chunk meets
      256 queued ones. */
  ghost predicate Ends(s: State, e: Event, c: nat) {
    || e == Unsubscribe(c)
    || e.CloseSubs?
    || (e.Pump? && c in s.chans && |s.chans[c].queue| >= 256)
  }

  /** No step of the run ends c's subscription. */
  ghost predicate Uninterrupted(s: State, es: seq<Event>, c: nat) {
    es != [] ==>
      Uninterrupted(s, es[..|es| - 1], c) && !Ends(Run(s, es[..|es| - 1]), es[|es| - 1], c)
  }

  lemma SubscribedStep(s: State, e: Event, c: nat)
    requires c in s.chans
    ensures c in Apply(s, e).chans
    ensures c in Apply(s, e).subs <==> c in s.subs && !Ends(s, e, c)
  {
  }

  lemma {:induction false} SubscribedWhileUninterrupted(s: State, es: seq<Event>, c: nat)
    requires c in s.chans
    ensures c in Run(s, es).chans && (c in Run(s, es).subs <==> c in s.subs && Uninterrupted(s, es, c))
  {
    if es != [] {
      SubscribedWhileUninterrupted(s, es[..|es| - 1], c);
      SubscribedStep(Run(s, es[..|es| - 1]), es[|es| - 1], c);
    }
  }

  /** A subscriber is in the set, open, and has been given exactly what was pumped since it subscribed, as
      long as it is not unsubscribed, torn down or met full; and from that step on it is out of the set. */
  lemma SubscriberGetsEverything(s: State, c: nat, es: seq<Event>)
    requires Inv(s) && ReplayOk(s) && c !in s.chans
    ensures
      var sub := Apply(s, Subscribe(c));
      var t := Run(sub, es);
      && c in t.chans && (c in t.subs <==> Uninterrupted(sub, es, c))
      && (c in t.subs ==> !t.chans[c].closed && t.chans[c].Stream() == Pumped(es))
  {
    var sub := Apply(s, Subscribe(c));
    assert c in sub.subs && sub.chans[c].start == |s.out|;
    ApplyKeepsInv(s, Subscribe(c));
    ApplyKeepsReplay(s, Subscribe(c));
    hide Apply, Inv, ReplayOk, Pumped, Ends;
    SubscribedWhileUninterrupted(sub, es, c);
    RunKeeps(sub, es);
    OutputIsWhatWasPumped(sub, es);
    StreamIsSlice(Run(sub, es), c);
    if c in Run(sub, es).subs {
      OpenWhileSubscribed(Run(sub, es), c);
    }
  }

  lemma OpenWhileSubscribed(s: State, c: nat)
    requires Inv(s) && c in s.subs
    ensures c in s.chans && !s.chans[c].closed
  {
    assert Current(s.out, s.chans[c]);
  }

  function Receives(c: nat, k: nat): (r: seq<Event>) {
    seq(k, i => Receive(c))
  }

  /** What is received is always the front of what was delivered, the rest is queued. */
  lemma ReceivedIsFront(ch: Channel)
    ensures |ch.Stream()| == |ch.received| + |ch.queue|
    ensures ch.received == ch.Stream()[..|ch.received|]
  {
  }

  lemma ReceiveOne(s: State, c: nat)
    requires c in s.chans
    ensures
      var ch, t := s.chans[c], Apply(s, Receive(c));
      && c in t.chans && t.chans[c].Stream() == ch.Stream()
      && |t.chans[c].received| == |ch.received| + if ch.queue == [] then 0 else 1
  {
    var ch := s.chans[c];
    if ch.queue != [] {
      assert [ch.queue[0]] + ch.queue[1..] == ch.queue;
      assert ch.received + [ch.queue[0]] + ch.queue[1..] == ch.received + ([ch.queue[0]] + ch.queue[1..]);
    }
  }

  lemma {:induction false} ReceiveMany(s: State, c: nat, k: nat)
    requires c in s.chans
    ensures
      var ch, t := s.chans[c], Run(s, Receives(c, k));
      && c in t.chans && t.chans[c].Stream() == ch.Stream()
      && |t.chans[c].received| == |ch.received| + if k <= |ch.queue| then k else |ch.queue|
  {
    hide Apply, Run;
    RunSnoc(s, [], Receive(c));
    if k == 0 {
      assert Receives(c, 0) == [];
    } else {
      ReceiveMany(s, c, k - 1);
      assert Receives(c, k) == Receives(c, k - 1) + [Receive(c)];
      RunSnoc(s, Receives(c, k - 1), Receive(c));
      var mid := Run(s, Receives(c, k - 1));
      ReceiveOne(mid, c);
      hide *;
      ReceivedIsFront(mid.chans[c]);
      ReceivedIsFront(s.chans[c]);
    }
  }

  /** Receiving k times hands over the next k delivered chunks, in order, or all of them. */
  lemma ReceivesDeliver(s: State, c: nat, k: nat)
    requires c in s.chans
    ensures
      var ch, t := s.chans[c], Run(s, Receives(c, k));
      && c in t.chans && t.chans[c].Stream() == ch.Stream()
      && t.chans[c].received == ch.Stream()[..|ch.received| + if k <= |ch.queue| then k else |ch.queue|]
  {
    hide Run, Receives;
    ReceiveMany(s, c, k);
    ReceivedIsFront(s.chans[c]);
    ReceivedIsFront(Run(s, Receives(c, k)).chans[c]);
  }

  // ---- Reconnect: subscribe first, then replay -------------------------------------------------

  const MAX_REPLAY_BYTES: nat := 64 * 1024

  /** The handler's replay frame: the buffer cut to its last 64 KB. */
  function ReplayFrame(s: State): (r: seq<Byte>) {
    LastN(MAX_REPLAY_BYTES, s.replay)
  }

  /** The handler sends no frame when it is empty: exactly when nothing was pumped or nothing is kept. */
  lemma EmptyFrameIff(s: State)
    requires ReplayOk(s)
    ensures ReplayFrame(s) == [] <==> s.size == 0 || Flatten(s.out) == []
  {
  }

  lemma FlattenSnoc(a: seq<Chunk>, c: Chunk)
    ensures Flatten(a + [c]) == Flatten(a) + c && Flatten<Byte>([]) == []
  {
    assert (a + [c])[..|a|] == a;
  }

  lemma {:induction false} FlattenAppend(a: seq<Chunk>, b: seq<Chunk>)
    ensures Flatten(a + b) == Flatten(a) + Flatten(b)
  {
    hide Flatten;
    FlattenSnoc(a, []);
    if b == [] {
      assert a + b == a;
    } else {
      var init, last := b[..|b| - 1], b[|b| - 1];
      FlattenAppend(a, init);
      assert b == init + [last] && a + b == (a + init) + [last];
      FlattenSnoc(a + init, last);
      FlattenSnoc(init, last);
    }
  }

  lemma LastNTwice<T>(n: nat, m: nat, s: seq<T>)
    ensures LastN(n, LastN(m, s)) == s[|s| - |LastN(n, LastN(m, s))|..]
  {
  }

  /** What a reconnecting client holds, in byte positions of the session's whole output: the replay
      frame is [from, replayed), the live stream is [subscribed, reached). Together they cover every
      byte from `from` to `reached` with no gap, and only bytes pumped between the two steps,
      [subscribed, replayed), can appear twice. */
  ghost predicate Covers(total: seq<Byte>, frame: seq<Byte>, live: seq<Byte>,
                         from: nat, subscribed: nat, replayed: nat, reached: nat)
  {
    && from <= replayed <= |total| && subscribed <= replayed && subscribed <= reached <= |total|
    && frame == total[from..replayed]
    && live == total[subscribed..reached]
  }

  /** Reconnect loses nothing: with Subscribe before ReplayBuffer, whatever runs before, between and
      after, frame and live stream cover the output from the start of the frame on; a client is still
      subscribed exactly when no step since its Subscribe ended that, and then it has been given
      everything up to the last byte pumped. */
  lemma Reconnect(size: nat, before: seq<Event>, c: nat, between: seq<Event>, after: seq<Event>)
    requires c !in Run(Init(size), before).chans
    ensures
      var s0 := Run(Init(size), before);
      var s1 := Run(Apply(s0, Subscribe(c)), between);
      var s2 := Run(s1, after);
      && c in s2.chans && ReconnectOk(s0.out, s1, s2, c)
      && (c in s2.subs <==>
          Uninterrupted(Apply(s0, Subscribe(c)), between, c) && Uninterrupted(s1, after, c))
  {
    var s0 := Run(Init(size), before);
    EveryRun(size, before);
    var sub := Apply(s0, Subscribe(c));
    ApplyKeepsInv(s0, Subscribe(c));
    ApplyKeepsReplay(s0, Subscribe(c));
    assert sub.out == s0.out && c in sub.chans && sub.chans[c].start == |s0.out|;
    assert c in sub.subs;
    hide Run, Apply, Inv, ReplayOk, ReconnectOk, Uninterrupted;
    RunKeeps(sub, between);
    var s1 := Run(sub, between);
    SubscribedWhileUninterrupted(sub, between, c);
    SubscribedWhileUninterrupted(s1, after, c);
    RunKeeps(s1, after);
    ReconnectPositions(s0.out, s1, Run(s1, after), c);
  }

  ghost predicate ReconnectOk(out0: seq<Chunk>, s1: State, s2: State, c: nat)
    requires c in s2.chans
  {
    var live := Flatten(s2.chans[c].Stream());
    var subscribed, replayed := |Flatten(out0)|, |Flatten(s1.out)|;
    var frame := ReplayFrame(s1);
    && frame == LastN(65536, LastN(s1.size, Flatten(s1.out)))
    && |frame| <= replayed
    && Covers(Flatten(s2.out), frame, live, replayed - |frame|, subscribed, replayed, subscribed + |live|)
    && (c in s2.subs ==> subscribed + |live| == |Flatten(s2.out)|)
  }

  lemma LivePart(out0: seq<Chunk>, out: seq<Chunk>, stream: seq<Chunk>)
    requires |out0| + |stream| <= |out| && out0 <= out
    requires stream == out[|out0|..|out0| + |stream|]
    ensures Flatten(out0) + Flatten(stream) <= Flatten(out)
    ensures |out0| + |stream| == |out| ==> Flatten(out0) + Flatten(stream) == Flatten(out)
  {
    hide Flatten;
    PrefixPlusSlice(out0, out, stream);
    FlattenAppend(out0, stream);
    PrefixBytes(out0 + stream, out);
  }

  lemma PrefixPlusSlice<T>(a: seq<T>, t: seq<T>, b: seq<T>)
    requires |a| + |b| <= |t| && a <= t && b == t[|a|..|a| + |b|]
    ensures a + b <= t && (|a| + |b| == |t| ==> a + b == t)
  {
  }

  lemma PrefixBytes(a: seq<Chunk>, b: seq<Chunk>)
    requires a <= b
    ensures Flatten(a) <= Flatten(b)
  {
    assert b == a + b[|a|..];
    FlattenAppend(a, b[|a|..]);
  }

  lemma CoversFromPrefixes(f0: seq<Byte>, f1: seq<Byte>, f2: seq<Byte>, frame: seq<Byte>, live: seq<Byte>)
    requires f0 <= f1 <= f2 && f0 + live <= f2 && |frame| <= |f1| && frame == f1[|f1| - |frame|..]
    ensures Covers(f2, frame, live, |f1| - |frame|, |f0|, |f1|, |f0| + |live|)
  {
  }

  /** What the invariant says of one channel, spelled out. */
  lemma StreamIsSlice(s: State, c: nat)
    requires Inv(s) && c in s.chans
    ensures
      var ch := s.chans[c];
      && ch.start + |ch.Stream()| <= |s.out|
      && ch.Stream() == s.out[ch.start..ch.start + |ch.Stream()|]
      && (c in s.subs ==> ch.start + |ch.Stream()| == |s.out|)
  {
  }

  lemma ReconnectPositions(out0: seq<Chunk>, s1: State, s2: State, c: nat)
    requires Inv(s2) && ReplayOk(s1) && out0 <= s1.out <= s2.out
    requires c in s2.chans && s2.chans[c].start == |out0|
    ensures ReconnectOk(out0, s1, s2, c)
  {
    hide Inv, Flatten, LastN, Covers;
    StreamIsSlice(s2, c);
    PrefixTransitive(out0, s1.out, s2.out);
    LivePart(out0, s2.out, s2.chans[c].Stream());
    PrefixBytes(out0, s1.out);
    PrefixBytes(s1.out, s2.out);
    LastNTwice(MAX_REPLAY_BYTES, s1.size, Flatten(s1.out));
    CoversFromPrefixes(Flatten(out0), Flatten(s1.out), Flatten(s2.out), ReplayFrame(s1),
                       Flatten(s2.chans[c].Stream()));
  }

  lemma PrefixTransitive<T>(a: seq<T>, b: seq<T>, c: seq<T>)
    requires a <= b <= c
    ensures a <= c
  {
  }
}
