# appx: verified kernels of the control plane

appx is a control plane that runs agent-built projects behind one edge. This project
models its stateful kernels in Dafny and proves what they promise, for every input,
every run or every interleaving:

- **Terminal fan-out** (`RingBuffer`, `Fanout`, `Terminal`, `SessionCap`,
  `TerminalObjects`, `LocalTerminal`):
  the replay buffer as an array, the output pump with bounded subscriber channels and
  slow-subscriber eviction, the two-index session registry, racy teardown, and
  reconnection by subscribe-then-replay.
- **Egress approval** (`Pending`): resolvers, the expiry sweep and a blocked handler with
  a timer racing over one-shot channels.
- **Egress allowlist** (`Text`, `LabelGlob`, `Allowlist`, `AllowlistOverlap`): the greedy label matcher against the
  declarative glob, the exact-match fast path against a one-line existential, and the
  copy kept in the database.
- **Rate limiter and login sessions** (`RateLimit`, `AuthSessions`, `AuthOverlap`): pruned state
  that answers like the full history, and what overlapping requests do to it.
- **Projects** (`ProjectStore`, `Routing`, `Lifecycle`, `LifecycleOverlap`, `Health`): names, port pairs,
  published URLs and subdomain dispatch, the two-store lifecycle, and the health sweep.
- **Outer container** (`ContainerSpec`, `Supervisor`): the words of the run arguments and what
  the daemon reads from them, drift, and EnsureRunning against a daemon that may answer anything.

Concurrent code is a step function over a state, one step per locked region, channel
operation or outside call; a run is any sequence of steps, so a statement about every run
is a statement about every interleaving. Objects that the source updates in place are
classes whose methods are proved equal to those steps; loops over Go maps pick the
next key arbitrarily. Counters such as `faults`, `closes` and `received` in channel values
are history: they record what Go would have done, so that "never panics" is a
statement about the state.

Assumptions: time is an integer that never decreases; random ids and tokens are fresh and
`hashToken` is injective; SQL statements and transactions are atomic, each running at
the instant whose clock reading it carries; encoding and
decoding a JSON list of strings is the identity; a mutex region is one atomic step; a
string is a sequence of characters; integers do not overflow.

Where the code and its own documentation differ, the model follows the code:

- `labelGlob` (internal/egress/store.go:203) tests the suffix against the whole label, so it
  accepts more than the documented "`*` matches zero or more characters";
  `LabelGlob.AcceptsMoreThanTheGlob` has the input and `LabelGlob.GlobIffAcceptsWithRoom` the exact condition.
- CloseSession is documented to close all subscriber channels
  (internal/terminal/manager.go:277-279); a subscriber whose lookup came before the teardown
  and whose insert came after it is missed (`Terminal.LateSubscriberHappens`).
  `Terminal.TeardownClosesSubscribers` says who is closed, and `Terminal.LateSubscriberClosedIff`
  when a missed one ever is.
- CreateSession is documented to return the existing session of a project
  (internal/terminal/manager.go:149-152); calls that overlap can each register one.
  `SessionCap.OverlappingCreatesBreakTheCap` has the steps, `SessionCap.RegisterKeepsCapIff` and
  `SessionCap.CapHoldsIff` the exact conditions.
- AddToAllowlist is documented to add and persist an entry (internal/egress/store.go:132-133);
  a call that overlaps can undo it (`AllowlistOverlap.OverlappingAddsLoseAnEntry`).
  `AllowlistOverlap.StaysInMemoryIff` and `AllowlistOverlap.StaysOnDiskIff` say exactly which
  entries survive, and `AllowlistOverlap.InSyncIff` when memory and disk agree.
- ValidSession is documented to slide the expiry of a valid session (internal/auth/store.go:149-153)
  and CleanExpiredSessions to remove only the past (lines 183-185). The SELECT and the UPDATE are separate
  statements: a late UPDATE revives an expired token (`AuthOverlap.ExpiredTokenRevives`) and a Clean in
  between loses an accepted session (`AuthOverlap.CleanLosesASession`).
  `AuthOverlap.NeverValidAgainIff` and `AuthOverlap.CleaningIsInvisibleIff` are the exact conditions.
- Create and ReconcileAgentProjects rely on EnsureProject being an idempotent upsert
  (internal/project/manager.go:77-83); one that lands late can leave the agent with stale ports
  (`LifecycleOverlap.SlowCreateOverwrites`). `LifecycleOverlap.ConsistentIff` and
  `LifecycleOverlap.CreateIsSafeIff` are the exact conditions.
- An allowlist that cannot be read at startup falls back to the defaults
  (internal/egress/store.go:228); the next successful add then overwrites the saved list
  (`Allowlist.FailedReadForgets`, exact difference in `Allowlist.RestartDifference`).
- The text of ErrInvalidName (internal/project/project.go:95) and the pattern at line 116 differ in
  both directions: the pattern also needs two characters and a letter or digit at the end, and
  it admits 63 characters where the text stops at 62 (`ProjectStore.PatternIffDocumented`,
  `ProjectStore.PatternAndTextDiffer`).
- The replay frame is documented as always sent (internal/terminal/handler.go:131-133); it is sent
  exactly under the condition of `Terminal.FrameSentIff`.
- The invariant "no seccomp=unconfined" (internal/containerruntime/spec.go:97-98) depends on the
  configured path (`ContainerSpec.UnconfinedOnlyByPath`). At startup cmd/appx/main.go:380 stats that
  path, so the word gets through only if a file of that name exists in the working directory.

## Model

| member | source | states |
|---|---|---|
| `RingBuffers.HoldsTailOfAllWrites` | internal/terminal/ringbuf.go:24-63 | for every sequence of writes of any sizes the buffer holds exactly the last min(size, total) bytes of their concatenation |
| `RingBuffers.LastNAbsorbs` | internal/terminal/ringbuf.go:24-47 | truncating after every write keeps what one late truncation would keep |
| `RingBuffers.OversizedWrite` | internal/terminal/ringbuf.go:26-32 | data at least as long as the buffer: array, position and flag after the copy read as the tail of old contents plus data |
| `RingBuffers.WrappingWrite` | internal/terminal/ringbuf.go:35-39 | a write split over the end of the array: the two copies leave the newest `size` bytes, wherever the buffer stood and whether or not it had wrapped |
| `RingBuffers.FittingWrite` | internal/terminal/ringbuf.go:40-46 | a write that stays before the end or fills it exactly, before and after the first wrap |
| `RingBuffers.Copy` | internal/terminal/ringbuf.go:28-37 | the built-in copy into a slice: how many bytes it moves and the whole array afterwards |
| `RingBuffers.RingBuffer.constructor` | internal/terminal/ringbuf.go:14-19 | a new buffer of any size, zero included, is empty |
| `RingBuffers.RingBuffer.Write` | internal/terminal/ringbuf.go:24-47 | new contents are the last `size` bytes of old contents followed by the data; the array object stays the same |
| `RingBuffers.RingBuffer.WriteAll` | internal/terminal/ringbuf.go:24-47 | the buffer object, written to any number of times with any sizes, holds the last `size` bytes of everything written |
| `RingBuffers.RingBuffer.Bytes` | internal/terminal/ringbuf.go:51-63 | returns the contents, oldest byte first |
| `Fanout.BroadcastKeepsInv` | internal/terminal/manager.go:407-423 | one broadcast keeps every channel a hole-free run of the output and every remaining subscriber complete and open |
| `Fanout.ApplyKeepsInv` | internal/terminal/manager.go:245-307 | subscribe, unsubscribe, pump, receive and teardown each keep: no double close, no send after close, at most 256 queued, contiguous delivery |
| `Fanout.ApplyKeepsReplay` | internal/terminal/manager.go:408-410 | every step keeps the replay buffer equal to the tail of all output |
| `Fanout.EveryRun` | internal/terminal/manager.go:399-435 | in every interleaving, consumed plus queued chunks of each subscriber are a contiguous run of the output from its subscription point, and live subscribers have all of it |
| `Fanout.EvictsExactlyTheFull` | internal/terminal/manager.go:413-422 | a broadcast evicts a subscriber if and only if 256 chunks are queued for it; the evicted stream ends at the previous chunk, every other one gains exactly the new chunk |
| `Fanout.DetachedIsFrozen` | internal/terminal/manager.go:263-307 | nothing is delivered after eviction, unsubscription or close, over every continuation |
| `Fanout.RunKeeps` | internal/terminal/manager.go:399-435 | from any reachable state on, output only grows and channels keep their subscription points |
| `Fanout.EmptyFrameIff` | internal/terminal/handler.go:131-143 | the capped frame is empty exactly when the buffer size is zero or nothing has been pumped |
| `Fanout.OutputIsWhatWasPumped` | internal/terminal/manager.go:402-410 | over every run the output is exactly the chunks the pump read, subscribers or not |
| `Fanout.SubscriberGetsEverything` | internal/terminal/manager.go:245-260 | over every continuation a subscriber is in the set exactly until it unsubscribes, the session is torn down or a chunk meets it with 256 queued, and until then it is open and has been given exactly what was pumped since it subscribed |
| `Fanout.SubscribedWhileUninterrupted` | internal/terminal/manager.go:263-307 | a channel leaves the subscriber set by those three steps and no other, and does not come back |
| `Fanout.ReceivesDeliver` | internal/terminal/handler.go:150-163 | receiving k times hands over the next k delivered chunks in order, or all of them |
| `Fanout.Reconnect` | internal/terminal/handler.go:122-143 | subscribe then replay: frame and live stream are byte ranges of the output that leave no gap and overlap only in bytes pumped between the two steps; a client is still subscribed, and complete, exactly when no step since ended its subscription |
| `Fanout.ReconnectPositions` | internal/terminal/handler.go:135-138 | where the 64 KB-capped frame and the live stream lie in the session output |
| `Terminal.IndexEntries` | internal/terminal/manager.go:209-215 | registering adds exactly one entry to the per-project index |
| `Terminal.UnindexEntries` | internal/terminal/manager.go:287-294 | removal deletes exactly one entry and drops a project whose inner map became empty |
| `Terminal.RegisterKeepsInv` | internal/terminal/manager.go:209-215 | registration keeps both indexes mutually inverse |
| `Terminal.TakeKeepsInv` | internal/terminal/manager.go:280-294 | removal keeps both indexes mutually inverse and hands the session to exactly one closer |
| `Terminal.UpdateKeepsInv` | internal/terminal/manager.go:296-306 | what happens inside one session cannot disturb the registry or another session |
| `Terminal.ApplyKeepsInv` | internal/terminal/manager.go:209-307 | every locked region and closeOnce step keeps registry, teardown and fan-out invariants together |
| `Terminal.EveryInterleaving` | internal/terminal/manager.go:154-307 | in every interleaving the session map and the project index are mutually inverse with no empty inner map, `done` is closed at most once, and no channel operation panics |
| `Terminal.RunLater` | internal/terminal/manager.go:280-307 | a session that has left the map never reappears; identities and output are stable over any continuation |
| `Terminal.LookupIsStable` | internal/terminal/manager.go:381-388 | two successful lookups of one id, any number of steps apart, find the same session |
| `Terminal.SessionRunsFanout` | internal/terminal/manager.go:154-435 | over every run of the manager each session goes through exactly the fan-out run of its own subscriber, pump and teardown steps |
| `Terminal.StillSubscribed` | internal/terminal/manager.go:245-307 | in the whole manager, a channel stays subscribed exactly as long as no step concerning its session ends that |
| `Terminal.ReconnectInManager` | internal/terminal/handler.go:122-143 | the reconnect guarantee with lookups and locked regions as separate steps, among arbitrary other sessions, subscribers and closers; still subscribed, and complete, exactly when no step in between ended the subscription |
| `Terminal.TeardownClosesSubscribers` | internal/terminal/manager.go:300-305 | teardown closes exactly the channels subscribed at that moment, with their chunks intact |
| `Terminal.FrameSentIff` | internal/terminal/handler.go:131-143 | over every run: a replay frame is sent exactly when the second lookup succeeds, the buffer has room at all and output had been pumped by the read |
| `Terminal.ClosedAfterTeardownIff` | internal/terminal/manager.go:296-306 | after a teardown, over every continuation, a channel ends closed iff it was closed before or a late broadcast met it subscribed with 256 chunks queued |
| `Terminal.LateSubscriberClosedIff` | internal/terminal/manager.go:245-260 | a Subscribe whose lookup preceded a complete teardown leaves an open channel; over every continuation, pump included, it is closed iff a late broadcast finds it full |
| `Terminal.LateSubscriberHappens` | internal/terminal/manager.go:245-260 | that race is reachable, for every id, project and channel |
| `TerminalObjects.Session.constructor` | internal/terminal/manager.go:198-207 | a new session has an empty replay buffer and no subscribers |
| `TerminalObjects.Session.Subscribe` | internal/terminal/manager.go:254-258 | adds a fresh, open, empty channel to the subscriber set and nothing else; equals the Subscribe step |
| `TerminalObjects.Session.Unsubscribe` | internal/terminal/manager.go:272-274 | equals the Unsubscribe step, a no-op for unknown channels |
| `TerminalObjects.Session.ReplayBuffer` | internal/terminal/manager.go:390-392 | returns the replay contents of the abstract state |
| `TerminalObjects.Session.BroadcastLoop` | internal/terminal/manager.go:413-422 | the loop, in any map order, equals the simultaneous Broadcast step |
| `TerminalObjects.Session.Pump` | internal/terminal/manager.go:408-423 | the locked region equals the Pump step, ring buffer array included |
| `TerminalObjects.Session.CloseSubs` | internal/terminal/manager.go:300-305 | the loop, in any map order, equals the CloseSubs step |
| `SessionCap.AloneIsCreateSession` | internal/terminal/manager.go:154-220 | an uninterrupted call registers one session if the project has none and the exec succeeds, changes nothing otherwise, and leaves no call in flight |
| `SessionCap.RegisterKeepsCapIff` | internal/terminal/manager.go:209-215 | a registration keeps one session per project iff the project has none at that moment |
| `SessionCap.CapHoldsIff` | internal/terminal/manager.go:154-215 | for every reachable manager and any calls in flight: with no new call the cap holds in every continuation iff it holds now and each call still creating has its project to itself |
| `SessionCap.StepKeepsExclusive` | internal/terminal/manager.go:154-307 | every step but a new lookup keeps the cap and each creating call alone on its project |
| `SessionCap.CloseMakesRoom` | internal/terminal/manager.go:280-294 | closing the one session of a project makes room for the next |
| `SessionCap.OverlappingCreatesBreakTheCap` | internal/terminal/manager.go:155-165 | two calls that both look before either registers break the cap, from every capped state without that project and for any two fresh ids |
| `TerminalObjects.Manager.CreateSession` | internal/terminal/manager.go:154-220 | without overlap: returns an existing session iff the project has one, changes nothing if exec fails, else registers one fresh session and keeps the one-per-project cap |
| `TerminalObjects.Manager.CloseSession` | internal/terminal/manager.go:280-307 | removes exactly that id from both maps, ends with `done` closed and no subscribers, and is a no-op for unknown ids |
| `TerminalObjects.CloseSteps` | internal/terminal/manager.go:280-307 | take, closeOnce and subscriber close, run in sequence, have that combined effect |
| `TerminalObjects.Manager.CloseEach` | internal/terminal/manager.go:319-322 | the closing loop over a snapshot of ids removes exactly those ids |
| `TerminalObjects.Manager.CloseProjectSessions` | internal/terminal/manager.go:311-323 | every session of the project goes and no other registration changes |
| `TerminalObjects.Manager.CloseAll` | internal/terminal/manager.go:327-338 | both maps end empty |
| `LocalTerminal.ActKeepsOk` | internal/terminal/local.go:249-313 | each step on a session keeps one `done` close, open subscribers and a single Close taker |
| `LocalTerminal.ApplyKeepsInv` | internal/terminal/local.go:123-313 | every step of create, Close, pump, subscriber and unregistration keeps the invariant for all sessions |
| `LocalTerminal.EveryInterleaving` | internal/terminal/local.go:249-313 | with Close and pump end racing in any order, `done` is closed at most once, no channel operation panics, and an ended pump leaves its session unregistered |
| `LocalTerminal.SessionRunsFanout` | internal/terminal/local.go:193-313 | over every run each session goes through exactly the fan-out run of its own steps, so the fan-out results hold of it |
| `LocalTerminal.CloseIsFinal` | internal/terminal/local.go:249-262 | a Close unregisters the session for good, and once its closeOnce has run `done` is closed once, for good, whatever runs in between and after |
| `LocalTerminal.CloseAlone` | internal/terminal/local.go:249-262 | an uninterrupted Close leaves the id unregistered and `done` closed |
| `LocalTerminal.PumpEndCleansUp` | internal/terminal/local.go:296-313 | the pump end closes and forgets every subscriber, closes `done` and unregisters the session |
| `LocalTerminal.ClosedIsFrozen` | internal/terminal/local.go:296-312 | once the pump has closed its subscribers, over every continuation no channel of the session is ever closed again |
| `LocalTerminal.LateSubscriberIsNeverClosed` | internal/terminal/local.go:196-208 | a Subscribe that finds the session before it is unregistered, but after that close, gets a channel nobody ever closes, over every continuation |
| `Pending.AddKeepsInv` | internal/egress/pending.go:45-60 | adding a request keeps the protocol invariant |
| `Pending.TakeKeepsInv` | internal/egress/pending.go:77-84 | the locked removal makes the caller the only owner |
| `Pending.OwnerAdvances` | internal/egress/pending.go:86-92 | an owner working on its request is invisible to every other request and call |
| `Pending.StoreKeepsInv` | internal/egress/pending.go:86-88 | the allowlist call happens at most once per request, by its approving owner, with its own host and port |
| `Pending.SendKeepsInv` | internal/egress/pending.go:90 | the answer is sent once, by the owner, after the store call |
| `Pending.CloseKeepsInv` | internal/egress/pending.go:91 | the channel is closed once, by the owner, after the send |
| `Pending.SweepKeepsInv` | internal/egress/pending.go:97-111 | the expiry sweep takes, answers and closes only requests still in the map |
| `Pending.ReceiveKeepsInv` | internal/egress/listener.go:79-83 | receiving consumes the one value and never sees a bare close |
| `Pending.TimerKeepsInv` | internal/egress/listener.go:84-87 | a timeout that races a resolver keeps the invariant |
| `Pending.EveryInterleaving` | internal/egress/pending.go:45-111 | the protocol invariant holds in every interleaving of Add, Resolve, sweep, handler and timer steps |
| `Pending.OneShotChannel` | internal/egress/pending.go:76-111 | at most one value and one close per request, no panic, and the handler's `!ok` case is unreachable |
| `Pending.SendsAlwaysFit` | internal/egress/pending.go:90-107 | no send meets a closed or full channel, so Resolve never blocks and the sweep's `default` case is unreachable |
| `Pending.OneTaker` | internal/egress/pending.go:76-84 | two Resolve calls past the removal never hold the same request |
| `Pending.OwnerIsFinal` | internal/egress/pending.go:83 | a removed request keeps its taker over every continuation |
| `Pending.AllowedMeansApprovedAndStored` | internal/egress/listener.go:78-94 | allowed=true is answered only if an approving Resolve took the request and its single AddToAllowlist call, with that host and port, had returned; never with a timeout |
| `Pending.AnswerIsTheTakersDecision` | internal/egress/listener.go:78-94 | an answer without timeout is exactly its taker's decision; a denial or expiry stores nothing |
| `Pending.ApprovedIffCalled` | internal/egress/listener.go:84-88 | over every run a Resolve call approves iff an operator call with approved=true started it; the call of a fired timer never does |
| `Pending.NothingWithoutApproval` | internal/egress/pending.go:76-92 | without an operator approval of a request nothing is stored for it and no handler reports it allowed, whatever timers and sweeps do |
| `Pending.TimedOutHandlerAnswersIff` | internal/egress/listener.go:84-94 | over every run a handler whose timer fired answers a denial with timeout exactly once its own Resolve call, a denial of its own request, has returned |
| `Pending.RequestIsTheOneAdded` | internal/egress/pending.go:45-60 | over every run a request keeps the host, port and creation time of the Add that made it |
| `Pending.SweepTakesExactlyTheOld` | internal/egress/pending.go:97-111 | a sweep takes a request iff it is pending and created before now minus the timeout; a waiting handler is then told no, and every other request stays as it is |
| `Pending.TimedOutButStoredIff` | internal/egress/listener.go:84-88 | a timed-out handler reports a denial, and the host was nevertheless added iff an approving Resolve took the request and got past its store call |
| `Pending.ApprovalLosesToTimer` | internal/egress/pending.go:86-91 | that race is reachable for every request |
| `Pending.SentAnswerIsReceived` | internal/egress/listener.go:79-83 | a handler still waiting after its owner sent or closed receives the owner's decision |
| `Pending.ResolveAllEffect` | internal/egress/pending.go:76-93 | the combined effect of an uninterrupted Resolve on all requests |
| `Pending.SweepLoop` | internal/egress/pending.go:101-110 | the loop, in any map order, equals the one-step sweep and keeps exactly the pending requests created at or after the cutoff |
| `Pending.PendingRegistry.constructor` | internal/egress/pending.go:34-40 | an empty registry |
| `Pending.PendingRegistry.Add` | internal/egress/pending.go:45-60 | the request joins the map with an untouched channel |
| `Pending.PendingRegistry.Resolve` | internal/egress/pending.go:76-93 | unknown ids are refused and change no request; otherwise the request leaves the map with the decision sent, channel closed and host stored iff approved |
| `Pending.PendingRegistry.Cleanup` | internal/egress/pending.go:97-111 | equals the sweep step; left are the pending requests no older than the timeout |
| `Pending.PendingRegistry.List` | internal/egress/pending.go:63-72 | lists exactly the pending requests no older than the timeout |
| `LabelGlob.Scan` | internal/egress/store.go:207-213 | the loop over the middle parts, with its early exit, leaves what the greedy search leaves |
| `LabelGlob.MatchLabel` | internal/egress/store.go:194-215 | the checks and the loop together decide acceptance as specified |
| `LabelGlob.GreedyIsBest` | internal/egress/store.go:207-213 | leftmost search leaves the longest remainder of any ordered disjoint embedding, for every required length |
| `LabelGlob.LeftmostWorks` | internal/egress/store.go:208-212 | moving a part to its leftmost occurrence never spoils an embedding |
| `LabelGlob.GlobIsParts` | internal/egress/store.go:192-198 | the recursive glob equals its parts laid out with arbitrary gaps |
| `LabelGlob.TailIsEmbedding` | internal/egress/store.go:203-213 | gaps between all parts, the last anchored, is an embedding with room for the last part |
| `LabelGlob.AcceptsIsEmbedding` | internal/egress/store.go:194-215 | acceptance holds iff prefix and suffix hold and the middle parts embed in order and disjointly after the prefix |
| `LabelGlob.GlobIffAcceptsWithRoom` | internal/egress/store.go:192-215 | the glob holds iff labelGlob accepts and the scan left at least the length of the last part; so every label the glob accepts is accepted |
| `LabelGlob.AcceptsMoreThanTheGlob` | internal/egress/store.go:203-205 | `a*a` accepts `a`, which the glob does not |
| `LabelGlob.GlobReflexive` | internal/egress/store.go:192-215 | a pattern, stars included, matches itself as a glob |
| `LabelGlob.AcceptsReflexive` | internal/egress/store.go:194-215 | labelGlob accepts every pattern as a label of itself |
| `Allowlist.WildcardHostMatch` | internal/egress/store.go:178-190 | the label loop decides acceptance of all labels |
| `Allowlist.WildcardsStayInsideLabels` | internal/egress/store.go:174-190 | an accepted host has the pattern's label count and agrees with it on every star-free label |
| `Allowlist.StarFreeIsExact` | internal/egress/store.go:178-196 | a pattern without a star matches itself and nothing else |
| `Allowlist.HostAcceptsItself` | internal/egress/store.go:178-190 | every host string is accepted by itself read as a pattern |
| `Allowlist.DotGlobIsLabelwise` | internal/egress/store.go:174-190 | the whole-string glob whose stars do not match dots is the same as matching label by label |
| `Allowlist.DotGlobIffAcceptsWithRoom` | internal/egress/store.go:174-215 | for all patterns and hosts the declarative glob holds iff the matcher accepts and every label with a star leaves room for its last part |
| `Allowlist.FastPathIsSound` | internal/egress/store.go:153-172 | exact lookup or scan succeeds iff some entry `pattern:port` accepts the host, for every allowlist |
| `Allowlist.RestartLosesOnlyFailedAdds` | internal/egress/store.go:111-146 | over every run with failing writes whose reads succeed, a restart loads a subset of memory, and all of it iff no add failed since the last successful write or restart |
| `Allowlist.WrittenEntryAllows` | internal/egress/store.go:153-160 | an exact host:443 entry as an operator writes it allows that host on that port |
| `Allowlist.EntriesFollowHistory` | internal/egress/store.go:111-146 | over every run, entry by entry, memory and disk are what the successful sets, the adds, the writes and the restarts say |
| `Allowlist.AllowedSinceLastSet` | internal/egress/store.go:111-146 | without restarts an entry is allowed iff the last successful SetAllowlist lists it, or the loaded list if there was none, or it was added since |
| `Allowlist.RestartDifference` | internal/egress/store.go:111-146 | over every run with failing writes and failing settings reads: exactly which entries a good restart would add to memory and take from it, so it loads a subset of memory iff nothing is missing |
| `Allowlist.FailedReadForgets` | internal/egress/store.go:228-252 | after one failed read the next successful add removes every custom entry from memory and disk |
| `Allowlist.Store.constructor` | internal/egress/store.go:53-57 | loads the saved list, or the defaults when there is none or it cannot be read |
| `Allowlist.Store.SetAllowlist` | internal/egress/store.go:111-130 | on success memory and row both become exactly the listed entries, on failure neither changes |
| `Allowlist.Store.GetAllowlist` | internal/egress/store.go:100-108 | returns exactly the members |
| `Allowlist.Store.AddToAllowlist` | internal/egress/store.go:134-146 | adds that entry and no other, then tries to persist; the host is allowed afterwards even if the write failed |
| `Allowlist.Store.IsAllowed` | internal/egress/store.go:153-172 | true iff some entry `pattern:port` accepts the host |
| `AllowlistOverlap.AloneIsAddStep` | internal/egress/store.go:134-146 | insert, snapshot, save and install with nothing in between are the one step of the sequential model |
| `AllowlistOverlap.RestartIsBoot` | internal/egress/store.go:228-252 | a restart is the sequential one and forgets every call in flight |
| `AllowlistOverlap.AloneIsSetStep` | internal/egress/store.go:111-130 | an uninterrupted SetAllowlist makes memory and disk the caller's list |
| `AllowlistOverlap.RunKeeps` | internal/egress/store.go:134-146 | an entry carried by memory and by every list in flight stays so through any adds, finishing calls and failing writes |
| `AllowlistOverlap.StaysInMemoryIff` | internal/egress/store.go:134-146 | an entry stays allowed in every continuation of adds and finishing calls iff it is in memory and no call past its snapshot holds a list without it |
| `AllowlistOverlap.StaysOnDiskIff` | internal/egress/store.go:134-146 | a restart after any such continuation loads the entry iff it is on disk now and that same condition holds |
| `AllowlistOverlap.OverlappingAddsLoseAnEntry` | internal/egress/store.go:134-146 | an add that runs inside another add is undone in memory and on disk although both return nil |
| `AllowlistOverlap.TurnsKeepDiskInsideMemory` | internal/egress/store.go:111-146 | over every overlapping run with failing writes and restarts in which saves take turns and no failed read hides custom entries, a restart loads no more than memory holds between writes |
| `AllowlistOverlap.CrossedWritesDiverge` | internal/egress/store.go:116-128 | two calls that save in one order and install in the other leave memory and disk with different lists and no failed write |
| `AllowlistOverlap.InSyncIff` | internal/egress/store.go:116-128 | however the calls in flight finish, each install leaves memory with all a restart would load iff the lists to be installed include the disk and every list still to be saved |
| `Text.JoinSplit` | internal/egress/store.go:179-180 | joining the parts of a split gives the string back |
| `Text.NatTextOfParsed` | internal/egress/store.go:154-155 | printed numbers have no leading zero: every digit string without one is the printed form of the number it denotes |
| `Text.NoLeadingZero` | internal/egress/store.go:154-155 | a printed positive number never starts with a zero |
| `Text.PrintedInDecimal` | internal/egress/store.go:154-155 | numbers are printed in base ten |
| `Text.SplitInjective` | internal/egress/store.go:179-180 | splitting on dots loses nothing |
| `RateLimit.RecentTwice` | internal/server/ratelimit.go:51-58 | pruning early and again late equals pruning late |
| `RateLimit.CleanupLeavesNothingStale` | internal/server/ratelimit.go:47-65 | after a cleanup an address is left iff it has a timestamp in the window, and keeps exactly those |
| `RateLimit.RecentIsExact` | internal/server/ratelimit.go:51-58 | pruning keeps every timestamp after the cutoff as often as it occurs and no other |
| `RateLimit.DecisionIff` | internal/server/ratelimit.go:69-91 | after any run a request is admitted iff fewer than max of the admissions granted to its address lie in the window that ends now |
| `RateLimit.StepAgrees` | internal/server/ratelimit.go:47-91 | one allow or cleanup keeps pruned memory and full history indistinguishable for every later window |
| `RateLimit.RunAgrees` | internal/server/ratelimit.go:47-91 | so does every run under a non-decreasing clock |
| `RateLimit.DecisionsMatchReference` | internal/server/ratelimit.go:69-91 | every decision equals that of a limiter that never prunes and ignores cleanup: refused iff max admissions lie in the window |
| `RateLimit.AdmittedIsReference` | internal/server/ratelimit.go:84-90 | the admissions read off the decisions are the reference's history |
| `RateLimit.ReferenceBounded` | internal/server/ratelimit.go:84-90 | the reference never has more than max admissions in any interval of the window's length |
| `RateLimit.NeverMoreThanMax` | internal/server/ratelimit.go:69-91 | no IP is admitted more than max times in any half-open interval of length window |
| `RateLimit.Compact` | internal/server/ratelimit.go:77-82 | in-place compaction of the slice leaves the recent timestamps in order |
| `RateLimit.RateLimiter.constructor` | internal/server/ratelimit.go:25-33 | starts with no attempts |
| `RateLimit.Prune` | internal/server/ratelimit.go:51-58 | keeps exactly the timestamps after the cutoff |
| `RateLimit.RateLimiter.Allow` | internal/server/ratelimit.go:69-91 | equals the specified step, decision and memory |
| `RateLimit.Sweep` | internal/server/ratelimit.go:52-64 | the loop, in any map order, keeps exactly the recent timestamps and drops empty entries |
| `RateLimit.RateLimiter.Cleanup` | internal/server/ratelimit.go:47-65 | equals the specified step |
| `AuthSessions.RowsFollowHistory` | internal/auth/store.go:133-188 | for calls that do not overlap, a row is the last touch plus 30 days; a missing row means never created, deleted or already expired |
| `AuthSessions.AnswersFollowHistory` | internal/auth/store.go:154-168 | over every trace of calls that do not overlap, failing UPDATEs included, ValidSession is true iff the last creation or slide since any deletion is less than 30 days old |
| `AuthSessions.CleanLeavesNothingExpired` | internal/auth/store.go:186-188 | a clean leaves no row whose expiry is in the past and changes no other |
| `AuthSessions.CleaningIsInvisible` | internal/auth/store.go:186-188 | inserting CleanExpiredSessions between calls that do not overlap changes no answer |
| `AuthSessions.NeverValidAgain` | internal/auth/store.go:154-181 | for calls that do not overlap: once a created token has no live row, no later state of the table has one |
| `AuthSessions.Store.CreateSession` | internal/auth/store.go:133-147 | inserts a row that is valid from now on |
| `AuthSessions.Store.ValidSession` | internal/auth/store.go:154-168 | an uninterrupted call answers and slides the expiry as the step says, UPDATE failing or not |
| `AuthSessions.Store.DeleteSession` | internal/auth/store.go:172-174 | removes that token only |
| `AuthSessions.Store.DeleteAllSessions` | internal/auth/store.go:179-181 | removes every token |
| `AuthSessions.Store.CleanExpiredSessions` | internal/auth/store.go:186-188 | removes exactly the rows with expiry in the past |
| `AuthOverlap.AloneIsValidate` | internal/auth/store.go:154-168 | SELECT, comparison and UPDATE with nothing in between are the one step of the sequential model, answer included |
| `AuthOverlap.NeverValidAgainIff` | internal/auth/store.go:154-188 | with statements of any requests interleaved, a token is never valid again iff it has no live row and either no row at all or no validation in flight that may still slide it |
| `AuthOverlap.ExpiredTokenRevives` | internal/auth/store.go:154-168 | a validation that read the row before it expired makes a refused token valid for 30 more days |
| `AuthOverlap.CleaningIsInvisibleIff` | internal/auth/store.go:154-188 | a Clean changes no answer and no liveness in any continuation iff no token with an expired row has a validation in flight that may still slide it |
| `AuthOverlap.StepKeepsCleaner` | internal/auth/store.go:133-188 | every statement keeps a cleaned and an uncleaned table indistinguishable |
| `AuthOverlap.CleanLosesASession` | internal/auth/store.go:157-187 | a Clean between the comparison and the UPDATE of an accepted validation loses the session |
| `AuthOverlap.LiveIffTouched` | internal/auth/store.go:133-188 | over every interleaving whose Cleans meet that condition, failing UPDATEs included, a token is valid iff its last creation or slide since any deletion is less than 30 days old |
| `ProjectStore.PatternIffDocumented` | internal/project/project.go:115-116 | the name pattern in terms of the grammar printed in ErrInvalidName: two characters or more, a letter or digit at the end, and one character more |
| `ProjectStore.PatternAndTextDiffer` | internal/project/project.go:95-116 | names that only the pattern and only the printed grammar admit |
| `ProjectStore.OutcomeTable` | internal/project/store.go:31-60 | which of pattern, -dev suffix, free ports and name decides the result, in that order, spelled on names and rows |
| `ProjectStore.SlugIsPattern` | internal/project/project.go:115-116 | the pattern spelled with its alphabets |
| `ProjectStore.CreatedPortsWereFree` | internal/project/store.go:147-192 | for arbitrary rows a created project gets two ports of 10000-10199 that neither environment of any project held, PROD the lower, and every lower port was held |
| `ProjectStore.CrowdedIffNoPair` | internal/project/store.go:170-192 | for arbitrary rows allocation fails iff fewer than two ports of the range are held by nobody |
| `ProjectStore.UsedIsHeld` | internal/project/store.go:144-168 | a port is used iff the PROD or DEV column of some row holds it |
| `ProjectStore.NextFree` | internal/project/store.go:181-190 | the lowest unused port from a start on, or one past the range |
| `ProjectStore.PairIsTwoLowestFree` | internal/project/store.go:170-192 | for any set of used ports the pair is the two lowest free ones, lower first, and is missing iff fewer than two are free |
| `ProjectStore.UsedWhenAligned` | internal/project/store.go:147-168 | in an aligned store a port is used iff the even port at or below it is a PROD port |
| `ProjectStore.AllocatedPairIsAligned` | internal/project/store.go:175-192 | an aligned store allocates neighbours starting at an even port that no project has |
| `ProjectStore.CreateKeepsAligned` | internal/project/store.go:31-67 | creation keeps alignment, distinct pairs, valid and distinct names |
| `ProjectStore.StepRows` | internal/project/store.go:31-116 | a create adds its row iff it succeeds, a delete takes its row away, every other row stays what it was |
| `ProjectStore.EveryRunIsAligned` | internal/project/store.go:31-116 | from empty, every sequence of creates and deletes reaches only such stores |
| `ProjectStore.PortsAreDistinct` | internal/project/store.go:144-192 | all PROD and DEV ports together are pairwise distinct |
| `ProjectStore.FullAtOneHundred` | internal/project/project.go:41-45 | at most 100 projects exist, and allocation fails iff exactly 100 do |
| `ProjectStore.Store.UsedPorts` | internal/project/store.go:147-168 | the scan collects exactly the ports either column of some row holds |
| `ProjectStore.Store.NextAvailablePortPair` | internal/project/store.go:175-192 | the single upward scan finds the specified pair |
| `ProjectStore.Store.CreateProject` | internal/project/store.go:31-67 | which error in which order, and rows unchanged unless created |
| `ProjectStore.Store.DeleteProject` | internal/project/store.go:106-116 | removes the row, reporting whether there was one |
| `Routing.GetByName` | internal/project/store.go:120-130 | finds a row iff one has the name |
| `Routing.SubdomainSelects` | internal/server/router.go:152-177 | the label of an environment selects that environment of that project |
| `Routing.RoutedSubdomain` | internal/server/router.go:152-177 | only an environment's own label routes to its port |
| `Routing.StripWithoutPort` | internal/server/router.go:214-223 | which printed hosts without a port are cut, and where |
| `Routing.StripWithPort` | internal/server/router.go:214-223 | a printed port is stripped iff the base domain has no colon or bracket |
| `Routing.HeaderOfAppUrl` | internal/project/manager.go:115-130 | the Host header of a printed URL is host, plus port iff it is shown |
| `Routing.IntactHostRoutes` | internal/server/router.go:131-177 | an intact host reaches its environment unless it is an alias |
| `Routing.CutHostGetsNowhere` | internal/server/router.go:140-150 | a host cut inside the base domain is never proxied |
| `Routing.UncutHostGetsNowhere` | internal/server/router.go:140-166 | a host that kept its port is never proxied |
| `Routing.UrlRoundTrip` | internal/project/manager.go:104-130 | dispatching the host of the URL deploymentFor prints reaches that environment's port if and only if a base domain is set, the host is no alias and the base domain survives port stripping |
| `Routing.UrlTable` | internal/project/manager.go:111-130 | every case of a printed URL: the scheme by mode, and the port iff it is set and not the default of the scheme |
| `Routing.RouteTable` | internal/server/router.go:107-150 | for arbitrary rows: which hosts get the dashboard, which are unknown, and which label decides the rest |
| `Routing.SubdomainTable` | internal/server/router.go:152-177 | no such project, a missing port and a proxied port told apart, for rows with NULL or zero ports too |
| `Routing.StripBracketed` | internal/server/router.go:214-223 | a bracketed address loses its brackets and its port |
| `Routing.HostsNeverShareAPort` | internal/server/router.go:131-177 | two distinct stripped hosts never route to one port |
| `Lifecycle.EnsureKeepsConsistent` | internal/project/manager.go:91 | registering one row leaves every other registration alone |
| `Lifecycle.CreateKeepsInv` | internal/project/manager.go:84-99 | a create that fails before or after taking effect at the agent keeps both stores consistent |
| `Lifecycle.DeleteKeepsInv` | internal/project/manager.go:138-152 | so does a delete |
| `Lifecycle.ReconcileKeepsConsistent` | internal/project/manager.go:196-202 | so does a reconcile with any pattern of failures |
| `Lifecycle.EveryRunIsConsistent` | internal/project/manager.go:84-203 | in every run, whatever the agent knew before, each local row it knows has matching ports and URLs there |
| `Lifecycle.ResultsMeanWhatTheySay` | internal/project/manager.go:84-152 | failed operations leave the local rows unchanged; a successful create is registered, a successful delete forgotten |
| `Lifecycle.OkIff` | internal/project/manager.go:84-203 | when each operation returns nil |
| `Lifecycle.OtherNamesAreUntouched` | internal/project/manager.go:84-203 | no operation changes the agent's entry under a name it is not about |
| `Lifecycle.ReconcileRegistersEverything` | internal/project/manager.go:188-203 | after a reconcile that returns nil every local row is registered with current metadata |
| `Lifecycle.AgentUrlsRoute` | internal/project/manager.go:101-130 | in every run, each URL the agent holds for a local row dispatches to the port it holds |
| `Lifecycle.Manager.CreateProject` | internal/project/manager.go:84-99 | equals the create step, rollback included |
| `Lifecycle.Manager.DeleteProject` | internal/project/manager.go:138-152 | equals the delete step |
| `Lifecycle.Manager.ReconcileAgentProjects` | internal/project/manager.go:188-203 | the loop with collected errors equals the reconcile step |
| `LifecycleOverlap.ConsistentIff` | internal/project/manager.go:84-203 | for any calls in flight: however they fail or finish, in any order, every settled row the agent knows has its current ports and URLs there iff it has them now and no push in flight is stale |
| `LifecycleOverlap.FinishKeepsOk` | internal/project/manager.go:84-203 | finishing steps of creates, deletes and reconciles keep consistency and make no push stale |
| `LifecycleOverlap.CreateIsSafeIff` | internal/project/manager.go:84-99 | a create may begin without endangering that iff every push still in flight under its name carries the ports it gets |
| `LifecycleOverlap.OrderlyRunsAreConsistent` | internal/project/manager.go:84-203 | over every interleaving with any failures from any agent registry, settled rows are consistent as long as each create begins when it is safe |
| `LifecycleOverlap.SlowCreateOverwrites` | internal/project/manager.go:84-99 | a slow EnsureProject of a deleted row lands after the name was created again and leaves the agent with the old ports, every call succeeding |
| `LifecycleOverlap.AloneIsCreate` | internal/project/manager.go:84-99 | an uninterrupted create, rollback included, is the sequential step |
| `LifecycleOverlap.AloneIsDelete` | internal/project/manager.go:138-152 | an uninterrupted delete is the sequential step |
| `LifecycleOverlap.AloneIsReconcile` | internal/project/manager.go:188-203 | an uninterrupted reconcile, listing first and pushing then, is the sequential step |
| `LifecycleOverlap.QuietIsConsistent` | internal/project/manager.go:84-203 | with no call in flight this is the consistency of the sequential model |
| `HealthSweep.SeedKeepsInv` | internal/project/health.go:78-90 | seeding an entry and spawning its probes keeps every other entry |
| `HealthSweep.FoldKeepsInv` | internal/project/health.go:71-75 | folding one verdict changes that environment of that project only |
| `HealthSweep.AcquireKeepsInv` | internal/project/health.go:66 | taking a semaphore slot keeps the bound |
| `HealthSweep.ReleaseKeepsInv` | internal/project/health.go:67 | releasing a slot keeps the bound |
| `HealthSweep.EveryRun` | internal/project/health.go:57-94 | in every order of steps each seeded entry reflects exactly the probes folded so far |
| `HealthSweep.NeverMoreThan64` | internal/project/health.go:61-67 | no reachable state has more than 64 probes in flight, repeated ids included |
| `HealthSweep.SlotIsGivenIff` | internal/project/health.go:66 | in every reachable state a waiting probe gets a slot iff fewer than 64 are held |
| `HealthSweep.FinishedMapIsComplete` | internal/project/health.go:92-93 | the returned map has exactly the given ids, each with its ports' verdicts and zero ports down |
| `HealthSweep.OrderDoesNotMatter` | internal/project/health.go:57-94 | any two finished orders return the same map |
| `HealthSweep.NeverStuck` | internal/project/health.go:57-94 | until the sweep is finished some step is enabled |
| `Supervisor.DriftReasons` | internal/containerruntime/supervisor.go:83-96 | the loop reports the image iff it differs and exactly the wanted ports that are not published |
| `Supervisor.FreshContainerHasNoDrift` | internal/containerruntime/supervisor.go:83-96 | a container created from a spec's own arguments never drifts from it |
| `Supervisor.WaitHealthy` | internal/containerruntime/docker.go:229-249 | polls until the first successful probe or the deadline; nil iff a probe succeeded |
| `Supervisor.EnsureRunning` | internal/containerruntime/docker.go:147-177 | against any daemon: never rm, at most one of run and start, start iff a matching container is stopped, run iff there is none, neither under drift, nil only after a successful probe, and the exact error otherwise |
| `Supervisor.ErrorTable` | internal/containerruntime/docker.go:147-249 | error by error, what the daemon answered |
| `Supervisor.RecreateErrorTable` | internal/containerruntime/docker.go:180-226 | the same for Recreate |
| `Supervisor.EnsureGetsItRunning` | internal/containerruntime/docker.go:155-177 | in every run from no container an EnsureRunning that sees the true state and takes effect leaves the container running, unless the daemon refuses the spec's arguments |
| `Supervisor.Recreate` | internal/containerruntime/docker.go:180-199 | removes first, tolerates an absent container, runs only after that, nil only after a successful probe, and the exact error otherwise |
| `Supervisor.NeverDrifts` | internal/containerruntime/docker.go:147-177 | in every run of EnsureRunning calls from no container, the container shows no drift |
| `Supervisor.NeverRunsAgain` | internal/containerruntime/docker.go:147-177 | once it exists, no later EnsureRunning issues anything but start, and image and ports stay |
| `ContainerSpec.ParsePrinted` | internal/containerruntime/spec.go:100-163 | printing any options and an image and reading the words back gives the same options and image iff the image does not look like a flag |
| `ContainerSpec.DaemonReadsOptions` | internal/containerruntime/spec.go:100-163 | the daemon reads from RunArgs the very options the source appended; no value is taken for a flag |
| `ContainerSpec.SecurityBoundaryHolds` | internal/containerruntime/spec.go:97-117 | for every spec, what the daemon reads is detached, not privileged, adds no capability, and has exactly the boundary's device and three security options |
| `ContainerSpec.UnconfinedOnlyByPath` | internal/containerruntime/spec.go:97-117 | no-new-privileges never appears, and seccomp=unconfined appears iff the configured path is that word |
| `ContainerSpec.ValuesOfOptions` | internal/containerruntime/spec.go:100-159 | what each guarded flag is given, whatever the optional parts of the spec are |
| `ContainerSpec.FlagSpelling` | internal/containerruntime/spec.go:101-158 | the spelling of each flag |
| `ContainerSpec.OptionTable` | internal/containerruntime/spec.go:100-154 | name, restart, limits, aliases, variables and volumes as read from the words, in terms of the spec's fields and in order |
| `ContainerSpec.PublishesBindTheirHosts` | internal/containerruntime/spec.go:156-159 | each publish binds its configured address and maps every port to itself |
| `ContainerSpec.AppendEach` | internal/containerruntime/spec.go:136-154 | a loop of appends adds the flag and one value after another |
| `ContainerSpec.AppendOptional` | internal/containerruntime/spec.go:123-133 | an empty value adds nothing |
| `ContainerSpec.BuildRunArgs` | internal/containerruntime/spec.go:100-163 | the appends build the words of the specified options |
| `ContainerSpec.ReadsPrintedPort` | internal/containerruntime/spec.go:157-159 | a printed port is read back, or rejected when it is not a port |
| `ContainerSpec.ReadsPrintedRange` | internal/containerruntime/spec.go:158-159 | a printed range is read back iff it is a nonempty range of ports |
| `ContainerSpec.PortsOfRunArgs` | internal/containerruntime/spec.go:156-159 | the publish values give the API port and the whole range iff the ports are valid and start <= end |
| `ContainerSpec.CreatedFromRunArgs` | internal/containerruntime/spec.go:100-163 | the container made from RunArgs: refused iff the image looks like a flag or the ports are invalid, else with that image and those ports |

## Left out

- HTTP handlers, middleware, reverse proxies, WebSocket framing, static files and the web client: input and output around the kernels.
- TLS, bcrypt, SHA-256, random numbers and the CONNECT tunnel: foreign libraries; hashing and ids are abstract values.
- SQL drivers, migrations, the egress log and time formats: tables are maps and times are integers.
- `path.Clean` mirror routing in internal/server/agent_proxy.go and the address parsing of internal/server/ratelimit.go: they rest on library code; the limiter is keyed by an opaque string.
- Terminal: exec creation and attachment succeed or fail as one parameter; WriteInput, Resize and process control are not modelled, and session ids are numbers.
- TerminalObjects.Manager.CreateSession: the one-per-project cap is stated for calls that do not overlap, because the lock is released before registration; the overlapping case is `SessionCap.CapHoldsIff`.
- TerminalObjects.Manager.CloseProjectSessions: the emptiness it promises is for calls that no registration overlaps; with overlap only `Terminal.EveryInterleaving` applies.
- Terminal.ReconnectInManager: when the session is removed between Subscribe and ReplayBuffer the frame is empty, and only the live part is covered.
- LocalTerminal.EveryInterleaving: the replay buffer of LocalManager is not modelled, because it is written and read outside the session lock and replayed before subscribing, so no reconnect guarantee holds there.
- Pending: the in-memory effect of AddToAllowlist is the list of its completed calls; whether an entry survives an overlapping allowlist write is the subject of `AllowlistOverlap`. The reason text of a request is not modelled.
- Pending.PendingRegistry.List: its sweep and its read are two locked regions, taken here with no other call in between.
- Allowlist.RestartLosesOnlyFailedAdds: stated for calls that do not overlap, the others are in `AllowlistOverlap`, and runs with failing settings reads in `Allowlist.RestartDifference`; the order of the saved list is not modelled.
- AuthSessions.AnswersFollowHistory: stated for calls that do not overlap, as are the other sequential results of `AuthSessions`; interleaved statements are in `AuthOverlap`.
- AuthOverlap.LiveIffTouched: stated for runs whose Cleans find nothing stale, the exact condition of `AuthOverlap.CleaningIsInvisibleIff`. A failing SELECT, INSERT or DELETE is not modelled.
- ProjectStore: status, error text and timestamps of rows, and database errors other than the unique name.
- Lifecycle: local row writes and reads are taken to succeed, the rollback of a failed create included; overlapping requests are in `LifecycleOverlap`.
- LifecycleOverlap.ConsistentIff: speaks of calls in flight with no new ones; new creates are covered by `LifecycleOverlap.CreateIsSafeIff`. A reconcile is a set of pushes of rows listed earlier, in any order.
- Routing: the Host header is what follows the scheme of the printed URL; a browser's own normalisation of host names is not modelled.
- HealthSweep: the port probe is a function of the port, constant during one sweep; the unlocked seeding write is one atomic step.
- ContainerSpec: the command line knows the flags the source uses and the two it bans, each in the spelling the source uses; any other flag-like word in option position is refused. `sortedEnv` is represented by the list it returns, and the daemon reads the container side of a publish value as a port or an inclusive range.
- Supervisor: output and stderr parsing are abstract replies.
