/**
 AsyncSharedMutex and Guarded: any number of lock requests on any number of event
 loops, every access to the atomic counter and every queue operation its own step.
 */
module SharedMutex {
  import opened Wrappers

  type Request = nat
  type Loop = nat

  datatype Kind = Shared | Unique

  /**
   Where a request is. `seen` is the value loaded before the exchange; `at` is
   the version of the guarded data since which the request owns the lock.
   */
  datatype Phase =
    | Trying(seen: Option<int>)    // in await_ready
    | Suspending                   // await_ready answered false
    | Waiting                      // its spin task is queued
    | Spinning(seen: Option<int>)  // its spin task is running
    | Requeueing                   // the spin task failed to acquire
    | Granted(at: nat)             // the spin task acquired
    | Resuming(at: nat)            // its resumption is queued
    | Holding(at: nat)             // the guard is alive
    | Released
  {
    predicate Owns() { Granted? || Resuming? || Holding? }
  }

  /**
   `on` is the loop whose thread runs, or ran last, the code of the request: its
   coroutine at first, then each of its tasks. `suspendedOn` is the loop it was
   suspended on; `resumed` counts how often its coroutine was resumed from a queue.
   */
  datatype Awaiter = Awaiter(kind: Kind, on: Loop, phase: Phase, suspendedOn: Option<Loop>, resumed: nat)

  datatype Task = Spin(req: Request) | Resume(req: Request)

  /** `version` counts the writes to the guarded data. */
  datatype Lock = Lock(
    state: int,
    awaiters: map<Request, Awaiter>,
    queues: map<Loop, seq<Task>>,
    version: nat)
  {
    function Queue(l: Loop): seq<Task> { if l in queues then queues[l] else [] }
  }

  const FRESH := Lock(0, map[], map[], 0)

  datatype Event =
    | Request(r: Request, kind: Kind, on: Loop)
    | Load(r: Request)
    | Exchange(r: Request)
    | Suspend(r: Request)
    | RunNext(l: Loop)
    | Requeue(r: Request)
    | PostResume(r: Request)
    | Write(r: Request)
    | Release(r: Request)

  function Move(l: Lock, r: Request, p: Phase): Lock
    requires r in l.awaiters
  {
    l.(awaiters := l.awaiters[r := l.awaiters[r].(phase := p)])
  }

  /** What a failed try_lock leads to. */
  function Failed(p: Phase): Phase {
    if p.Spinning? then Requeueing else Suspending
  }

  /** What a successful try_lock leads to: await_ready answers true, a spin task goes on to post. */
  function Acquired(p: Phase, version: nat): Phase {
    if p.Spinning? then Granted(version) else Holding(version)
  }

  /** queueInLoop on the loop of the thread that runs the request's code at this moment. */
  function Post(l: Lock, t: Task): Lock
    requires t.req in l.awaiters
  {
    var current := l.awaiters[t.req].on;
    l.(queues := l.queues[current := l.Queue(current) + [t]])
  }

  /** A shared try_lock loads first and only goes on when the lock is not unique. */
  predicate MayLoad(a: Awaiter) {
    a.kind == Shared && (a.phase.Trying? || a.phase.Spinning?) && a.phase.seen.None?
  }

  predicate MayExchange(a: Awaiter) {
    (a.phase.Trying? || a.phase.Spinning?) && (a.kind == Shared ==> a.phase.seen.Some?)
  }

  predicate Enabled(l: Lock, e: Event) {
    match e
    case Request(r, _, _) => r !in l.awaiters
    case Load(r) => r in l.awaiters && MayLoad(l.awaiters[r])
    case Exchange(r) => r in l.awaiters && MayExchange(l.awaiters[r])
    case Suspend(r) => r in l.awaiters && l.awaiters[r].phase.Suspending?
    case RunNext(loop) => l.Queue(loop) != [] && l.Queue(loop)[0].req in l.awaiters
    case Requeue(r) => r in l.awaiters && l.awaiters[r].phase.Requeueing?
    case PostResume(r) => r in l.awaiters && l.awaiters[r].phase.Granted?
    case Write(r) => r in l.awaiters && l.awaiters[r].phase.Holding? && l.awaiters[r].kind == Unique
    case Release(r) => r in l.awaiters && l.awaiters[r].phase.Holding?
  }

  /** The value the exchange expects and the one it stores. */
  function Expected(a: Awaiter): int
    requires MayExchange(a)
  {
    if a.kind == Shared then a.phase.seen.value else 0
  }

  function Desired(a: Awaiter): int
    requires MayExchange(a)
  {
    if a.kind == Shared then a.phase.seen.value + 1 else -1
  }

  function DoLoad(l: Lock, r: Request): Lock
    requires Enabled(l, Load(r))
  {
    var p := l.awaiters[r].phase;
    if l.state < 0 then Move(l, r, Failed(p))
    else Move(l, r, if p.Spinning? then Spinning(Some(l.state)) else Trying(Some(l.state)))
  }

  function DoExchange(l: Lock, r: Request): Lock
    requires Enabled(l, Exchange(r))
  {
    var a := l.awaiters[r];
    if l.state == Expected(a) then Move(l.(state := Desired(a)), r, Acquired(a.phase, l.version))
    else Move(l, r, Failed(a.phase))
  }

  /** The loop runs its oldest task: from here on its thread is the one that runs the request's code. */
  function DoRun(l: Lock, loop: Loop): Lock
    requires Enabled(l, RunNext(loop))
  {
    var t := l.Queue(loop)[0];
    var a := l.awaiters[t.req].(on := loop);
    var a' :=
      match t
      case Spin(_) => a.(phase := Spinning(None))
      case Resume(_) =>
        a.(resumed := a.resumed + 1, phase := if a.phase.Resuming? then Holding(a.phase.at) else a.phase);
    l.(queues := l.queues[loop := l.Queue(loop)[1..]], awaiters := l.awaiters[t.req := a'])
  }

  function DoSuspend(l: Lock, r: Request): Lock
    requires Enabled(l, Suspend(r))
  {
    var a := l.awaiters[r];
    Post(l.(awaiters := l.awaiters[r := a.(phase := Waiting, suspendedOn := Some(a.on))]), Spin(r))
  }

  function Step(l: Lock, e: Event): Lock
    requires Enabled(l, e)
  {
    match e
    case Request(r, kind, on) => l.(awaiters := l.awaiters[r := Awaiter(kind, on, Trying(None), None, 0)])
    case Load(r) => DoLoad(l, r)
    case Exchange(r) => DoExchange(l, r)
    case Suspend(r) => DoSuspend(l, r)
    case RunNext(loop) => DoRun(l, loop)
    case Requeue(r) => Post(Move(l, r, Waiting), Spin(r))
    case PostResume(r) => Post(Move(l, r, Resuming(l.awaiters[r].phase.at)), Resume(r))
    case Write(r) => Move(l.(version := l.version + 1), r, Holding(l.version + 1))
    case Release(r) =>
      Move(l.(state := if l.awaiters[r].kind == Shared then l.state - 1 else 0), r, Released)
  }

  // The invariant.

  function Owners(awaiters: map<Request, Awaiter>, kind: Kind): set<Request> {
    set r <- awaiters | awaiters[r].kind == kind && awaiters[r].phase.Owns()
  }

  /** The counter tells exactly who owns the lock: one writer and no reader, or so many readers. */
  ghost predicate Counts(state: int, readers: set<Request>, writers: set<Request>) {
    if state == -1 then |writers| == 1 && readers == {} else writers == {} && state == |readers|
  }

  ghost predicate StateOk(l: Lock) {
    Counts(l.state, Owners(l.awaiters, Shared), Owners(l.awaiters, Unique))
  }

  ghost predicate AwaiterOk(l: Lock, a: Awaiter) {
    && ((a.phase.Trying? || a.phase.Spinning?) && a.phase.seen.Some? ==> a.kind == Shared && a.phase.seen.value >= 0)
    && (a.phase.Owns() ==> a.phase.at == l.version)
    && a.resumed == (if a.suspendedOn.Some? && (a.phase.Holding? || a.phase.Released?) then 1 else 0)
    && (a.phase.Trying? || a.phase.Suspending? ==> a.suspendedOn.None?)
    && (a.phase.Waiting? || a.phase.Spinning? || a.phase.Requeueing? || a.phase.Granted? || a.phase.Resuming? ==>
          a.suspendedOn.Some?)
    && (a.suspendedOn.Some? ==> a.on == a.suspendedOn.value)
  }

  ghost predicate AwaitersOk(l: Lock) {
    forall r <- l.awaiters :: AwaiterOk(l, l.awaiters[r])
  }

  /** The queue entry a request should have. */
  function Pending(r: Request, a: Awaiter): Option<Task> {
    if a.phase.Waiting? then Some(Spin(r))
    else if a.phase.Resuming? then Some(Resume(r))
    else None
  }

  ghost predicate NoRepeats(q: seq<Task>) {
    forall i, j :: 0 <= i < j < |q| ==> q[i].req != q[j].req
  }

  /** Task `t` is queued on loop `loop` exactly when it is pending there. */
  ghost predicate QueuedOk(l: Lock, loop: Loop, t: Task) {
    t in l.Queue(loop) <==>
      && t.req in l.awaiters && l.awaiters[t.req].suspendedOn == Some(loop)
      && Pending(t.req, l.awaiters[t.req]) == Some(t)
  }

  ghost predicate QueuesOk(l: Lock) {
    && (forall loop: Loop, t: Task :: QueuedOk(l, loop, t))
    && (forall loop: Loop :: NoRepeats(l.Queue(loop)))
  }

  ghost predicate Invariant(l: Lock) {
    StateOk(l) && AwaitersOk(l) && QueuesOk(l)
  }

  // Owners change one request at a time.

  lemma OwnersAfter(awaiters: map<Request, Awaiter>, r: Request, a: Awaiter, k: Kind)
    requires r in awaiters && a.kind == awaiters[r].kind
    ensures Owners(awaiters[r := a], k) ==
            Owners(awaiters, k) - {r} + (if a.kind == k && a.phase.Owns() then {r} else {})
  {
  }

  /** Moving between phases that own, or between phases that do not. */
  lemma SameOwners(l: Lock, r: Request, a: Awaiter)
    requires if r in l.awaiters then a.kind == l.awaiters[r].kind && a.phase.Owns() == l.awaiters[r].phase.Owns()
             else !a.phase.Owns()
    ensures forall k: Kind :: Owners(l.awaiters[r := a], k) == Owners(l.awaiters, k)
  {
    forall k: Kind ensures Owners(l.awaiters[r := a], k) == Owners(l.awaiters, k) {
    }
  }

  /** A failed exchange leaves state and owners, a successful one adds an owner of its kind. */
  lemma ExchangeEffect(l: Lock, r: Request)
    requires Enabled(l, Exchange(r))
    ensures var l', a := DoExchange(l, r), l.awaiters[r];
            var readers, writers := Owners(l.awaiters, Shared), Owners(l.awaiters, Unique);
            var readers', writers' := Owners(l'.awaiters, Shared), Owners(l'.awaiters, Unique);
            && (l.state != Expected(a) ==> l'.state == l.state && readers' == readers && writers' == writers)
            && (l.state == Expected(a) && a.kind == Shared ==>
                  l'.state == l.state + 1 && readers' == readers + {r} && writers' == writers)
            && (l.state == Expected(a) && a.kind == Unique ==>
                  l'.state == -1 && readers' == readers && writers' == writers + {r})
            && (a.kind == Unique ==> Expected(a) == 0)
  {
    hide Owners;
    var a' := DoExchange(l, r).awaiters[r];
    NotAnOwner(l.awaiters, r, Shared);
    NotAnOwner(l.awaiters, r, Unique);
    OwnersAfter(l.awaiters, r, a', Shared);
    OwnersAfter(l.awaiters, r, a', Unique);
  }

  lemma AcquireKeepsState(l: Lock, r: Request)
    requires StateOk(l) && Enabled(l, Exchange(r)) && AwaiterOk(l, l.awaiters[r])
    ensures StateOk(DoExchange(l, r))
  {
    hide Owners, AwaiterOk, Counts, DoExchange, Expected;
    ExchangeEffect(l, r);
    NotAnOwner(l.awaiters, r, Shared);
    NotAnOwner(l.awaiters, r, Unique);
    SeenIsShared(l, l.awaiters[r]);
    OneMore(l.state, Owners(l.awaiters, Shared), Owners(l.awaiters, Unique), r);
  }

  lemma OneMore(state: int, readers: set<Request>, writers: set<Request>, r: Request)
    requires Counts(state, readers, writers) && r !in readers && r !in writers
    ensures state >= 0 ==> Counts(state + 1, readers + {r}, writers)
    ensures state == 0 ==> Counts(-1, readers, writers + {r})
  {
    assert |readers + {r}| == |readers| + 1;
    assert |writers + {r}| == |writers| + 1;
  }

  lemma SeenIsShared(l: Lock, a: Awaiter)
    requires AwaiterOk(l, a) && MayExchange(a)
    ensures Expected(a) >= 0
  {
  }

  lemma NotAnOwner(awaiters: map<Request, Awaiter>, r: Request, k: Kind)
    requires r in awaiters && !awaiters[r].phase.Owns()
    ensures r !in Owners(awaiters, k) && Owners(awaiters, k) - {r} == Owners(awaiters, k)
  {
  }

  /** Storing 0 never loses a reader, and subtracting never goes below 0. */
  lemma ReleaseKeepsState(l: Lock, r: Request)
    requires StateOk(l) && Enabled(l, Release(r))
    ensures StateOk(Step(l, Release(r)))
    ensures l.awaiters[r].kind == Unique ==> l.state == -1 && Owners(l.awaiters, Shared) == {}
    ensures l.awaiters[r].kind == Shared ==> l.state > 0
  {
    hide Owners;
    var a := l.awaiters[r];
    OwnerIn(l.awaiters, r);
    OwnersAfter(l.awaiters, r, a.(phase := Released), Shared);
    OwnersAfter(l.awaiters, r, a.(phase := Released), Unique);
    OwnerOfOneKind(l.awaiters, r);
    if a.kind == Unique && l.state == -1 {
      OnlyMember(Owners(l.awaiters, Unique), r);
    }
  }

  lemma OwnerIn(awaiters: map<Request, Awaiter>, r: Request)
    requires r in awaiters && awaiters[r].phase.Owns()
    ensures r in Owners(awaiters, awaiters[r].kind)
  {
  }

  lemma OwnerOfOneKind(awaiters: map<Request, Awaiter>, r: Request)
    requires r in awaiters
    ensures awaiters[r].kind == Shared ==> Owners(awaiters, Unique) - {r} == Owners(awaiters, Unique)
    ensures awaiters[r].kind == Unique ==> Owners(awaiters, Shared) - {r} == Owners(awaiters, Shared)
  {
  }

  lemma OnlyMember(s: set<Request>, r: Request)
    requires r in s && |s| == 1
    ensures s == {r} && s - {r} == {}
  {
    assert |s - {r}| == 0;
  }

  lemma StepKeepsState(l: Lock, e: Event)
    requires Invariant(l) && Enabled(l, e)
    ensures StateOk(Step(l, e))
  {
    match e
    case Exchange(r) => AcquireKeepsState(l, r);
    case Release(r) => ReleaseKeepsState(l, r);
    case RunNext(loop) =>
      var t := l.Queue(loop)[0];
      assert QueuedOk(l, loop, t);
      SameOwners(l, t.req, Step(l, e).awaiters[t.req]);
    case Request(r, _, _) => SameOwners(l, r, Step(l, e).awaiters[r]);
    case _ => SameOwners(l, e.r, Step(l, e).awaiters[e.r]);
  }

  // What every awaiter knows about itself.

  lemma OtherAwaiters(l: Lock, r: Request, a: Awaiter, version: nat)
    requires AwaitersOk(l)
    requires version != l.version ==> forall q <- l.awaiters :: q != r ==> !l.awaiters[q].phase.Owns()
    requires AwaiterOk(l.(version := version), a)
    ensures AwaitersOk(l.(awaiters := l.awaiters[r := a], version := version))
  {
    var l' := l.(awaiters := l.awaiters[r := a], version := version);
    forall q | q in l'.awaiters ensures AwaiterOk(l', l'.awaiters[q]) {
      assert q != r ==> AwaiterOk(l, l.awaiters[q]);
    }
  }

  /** A writer is alone: no other request owns the lock in any way. */
  lemma WriterIsAlone(l: Lock, r: Request, q: Request)
    requires StateOk(l) && r in l.awaiters && q in l.awaiters && q != r
    requires l.awaiters[r].phase.Owns() && l.awaiters[q].phase.Owns()
    ensures l.awaiters[r].kind == Shared && l.awaiters[q].kind == Shared
  {
    OwnerIn(l.awaiters, r);
    OwnerIn(l.awaiters, q);
    if l.state == -1 {
      OnlyMember(Owners(l.awaiters, Unique), if l.awaiters[r].kind == Unique then r else q);
    }
  }

  lemma StepKeepsAwaiters(l: Lock, e: Event)
    requires Invariant(l) && Enabled(l, e)
    ensures AwaitersOk(Step(l, e))
  {
    hide StateOk;
    var r := if e.RunNext? then l.Queue(e.l)[0].req else e.r;
    var l' := Step(l, e);
    if e.RunNext? {
      assert QueuedOk(l, e.l, l.Queue(e.l)[0]);
    }
    if e.Write? {
      forall q | q in l.awaiters && q != r ensures !l.awaiters[q].phase.Owns() {
        if l.awaiters[q].phase.Owns() {
          WriterIsAlone(l, r, q);
        }
      }
    }
    assert r in l.awaiters ==> AwaiterOk(l, l.awaiters[r]);
    OtherAwaiters(l, r, l'.awaiters[r], l'.version);
    AwaitersDoNotUseQueues(l.(awaiters := l'.awaiters, version := l'.version), l');
  }

  lemma AwaitersDoNotUseQueues(l: Lock, l': Lock)
    requires AwaitersOk(l) && l'.awaiters == l.awaiters && l'.version == l.version
    ensures AwaitersOk(l')
  {
    forall r | r in l'.awaiters ensures AwaiterOk(l', l'.awaiters[r]) {
      assert AwaiterOk(l, l.awaiters[r]);
    }
  }

  // The queues.

  /** A request changes without any task becoming pending or ceasing to be. */
  lemma SamePending(l: Lock, l': Lock, r: Request)
    requires QueuesOk(l) && l'.queues == l.queues && r in l'.awaiters && l'.awaiters == l.awaiters[r := l'.awaiters[r]]
    requires Pending(r, l'.awaiters[r]).None?
    requires r in l.awaiters ==> Pending(r, l.awaiters[r]).None?
    ensures QueuesOk(l')
  {
    forall loop: Loop, t: Task ensures QueuedOk(l', loop, t) {
      assert QueuedOk(l, loop, t);
    }
    forall loop: Loop ensures NoRepeats(l'.Queue(loop)) {
      assert NoRepeats(l.Queue(loop));
    }
  }

  /** A request posts its task while the loop it was suspended on runs it. */
  lemma PostKeepsQueues(l: Lock, a: Awaiter, t: Task)
    requires QueuesOk(l) && t.req in l.awaiters && a.suspendedOn == Some(a.on)
    requires Pending(t.req, l.awaiters[t.req]).None? && Pending(t.req, a) == Some(t)
    ensures QueuesOk(Post(l.(awaiters := l.awaiters[t.req := a]), t))
  {
    var l', home := Post(l.(awaiters := l.awaiters[t.req := a]), t), a.on;
    assert l'.Queue(home) == l.Queue(home) + [t];
    assert forall loop | loop != home :: l'.Queue(loop) == l.Queue(loop);
    forall loop: Loop, u: Task ensures QueuedOk(l', loop, u) {
      assert QueuedOk(l, loop, u);
    }
    forall loop: Loop ensures NoRepeats(l'.Queue(loop)) {
      assert NoRepeats(l.Queue(loop));
      if loop == home {
        forall i | 0 <= i < |l.Queue(home)| ensures l.Queue(home)[i].req != t.req {
          assert QueuedOk(l, home, l.Queue(home)[i]);
        }
      }
    }
  }

  /** The first task of a loop is taken and its request is no longer waiting for it. */
  lemma PopKeepsQueues(l: Lock, loop: Loop, a: Awaiter)
    requires QueuesOk(l) && l.Queue(loop) != [] && l.Queue(loop)[0].req in l.awaiters
    requires Pending(l.Queue(loop)[0].req, a).None?
    ensures QueuesOk(l.(queues := l.queues[loop := l.Queue(loop)[1..]],
                        awaiters := l.awaiters[l.Queue(loop)[0].req := a]))
  {
    var q := l.Queue(loop);
    var l' := l.(queues := l.queues[loop := q[1..]], awaiters := l.awaiters[q[0].req := a]);
    assert q == [q[0]] + q[1..] && QueuedOk(l, loop, q[0]) && NoRepeats(q);
    forall other: Loop, u: Task ensures QueuedOk(l', other, u) {
      assert QueuedOk(l, other, u);
    }
    forall other: Loop ensures NoRepeats(l'.Queue(other)) {
      assert NoRepeats(l.Queue(other));
    }
  }

  lemma StepKeepsQueues(l: Lock, e: Event)
    requires Invariant(l) && Enabled(l, e)
    ensures QueuesOk(Step(l, e))
  {
    hide QueuesOk, StateOk, NoRepeats;
    if e.Suspend? || e.Requeue? || e.PostResume? {
      assert AwaiterOk(l, l.awaiters[e.r]);
    }
    hide AwaitersOk;
    match e
    case Suspend(r) =>
      PostKeepsQueues(l, l.awaiters[r].(phase := Waiting, suspendedOn := Some(l.awaiters[r].on)), Spin(r));
    case Requeue(r) => PostKeepsQueues(l, l.awaiters[r].(phase := Waiting), Spin(r));
    case PostResume(r) => PostKeepsQueues(l, l.awaiters[r].(phase := Resuming(l.awaiters[r].phase.at)), Resume(r));
    case RunNext(loop) =>
      HeadIsPending(l, loop);
      PopKeepsQueues(l, loop, Step(l, e).awaiters[l.Queue(loop)[0].req]);
    case _ => SamePending(l, Step(l, e), e.r);
  }

  lemma HeadIsPending(l: Lock, loop: Loop)
    requires QueuesOk(l) && l.Queue(loop) != []
    ensures var t := l.Queue(loop)[0]; t.req in l.awaiters && Pending(t.req, l.awaiters[t.req]) == Some(t)
  {
    assert QueuedOk(l, loop, l.Queue(loop)[0]);
  }

  lemma StepKeepsInvariant(l: Lock, e: Event)
    requires Invariant(l) && Enabled(l, e)
    ensures Invariant(Step(l, e))
  {
    hide StateOk, AwaitersOk, QueuesOk, Step, Enabled;
    StepKeepsState(l, e);
    StepKeepsAwaiters(l, e);
    StepKeepsQueues(l, e);
  }

  // Runs: any interleaving of the steps of any number of requests.

  ghost predicate Run(l: Lock, events: seq<Event>, l': Lock)
    decreases |events|
  {
    if events == [] then l' == l
    else Enabled(l, events[0]) && Run(Step(l, events[0]), events[1..], l')
  }

  lemma {:induction false} RunOneMore(l: Lock, events: seq<Event>, l': Lock, e: Event)
    requires Run(l, events, l') && Enabled(l', e)
    ensures Run(l, events + [e], Step(l', e))
    decreases |events|
  {
    hide Enabled, Step;
    if events == [] {
      assert [e][1..] == [];
    } else {
      RunOneMore(Step(l, events[0]), events[1..], l', e);
      assert (events + [e])[1..] == events[1..] + [e];
    }
  }

  /** The events of a schedule that are enabled when their turn comes. */
  function Taken(l: Lock, schedule: seq<Event>): seq<Event>
    decreases |schedule|
  {
    if schedule == [] then []
    else if Enabled(l, schedule[0]) then [schedule[0]] + Taken(Step(l, schedule[0]), schedule[1..])
    else Taken(l, schedule[1..])
  }

  lemma {:induction false} RunKeepsInvariant(l: Lock, events: seq<Event>, l': Lock)
    requires Invariant(l) && Run(l, events, l')
    ensures Invariant(l')
    decreases |events|
  {
    hide Invariant, Enabled, Step;
    if events != [] {
      StepKeepsInvariant(l, events[0]);
      RunKeepsInvariant(Step(l, events[0]), events[1..], l');
    }
  }

  lemma FreshInvariant()
    ensures Invariant(FRESH)
  {
  }

  /** Mutual exclusion in every reachable state, and the counter as its exact witness. */
  lemma MutualExclusion(events: seq<Event>, l: Lock, r: Request, q: Request)
    requires Run(FRESH, events, l)
    ensures var readers, writers := Owners(l.awaiters, Shared), Owners(l.awaiters, Unique);
            && (l.state == -1 <==> |writers| == 1)
            && (l.state == -1 ==> readers == {})
            && (l.state != -1 ==> l.state == |readers| && writers == {})
    ensures r in l.awaiters && q in l.awaiters && r != q && l.awaiters[r].phase.Owns() && l.awaiters[q].phase.Owns() ==>
              l.awaiters[r].kind == Shared && l.awaiters[q].kind == Shared
    ensures Enabled(l, Release(r)) ==>
              if l.awaiters[r].kind == Unique then l.state == -1 && Owners(l.awaiters, Shared) == {} else l.state > 0
  {
    FreshInvariant();
    RunKeepsInvariant(FRESH, events, l);
    if r in l.awaiters && q in l.awaiters && r != q && l.awaiters[r].phase.Owns() && l.awaiters[q].phase.Owns() {
      WriterIsAlone(l, r, q);
    }
    if Enabled(l, Release(r)) {
      ReleaseKeepsState(l, r);
    }
  }

  /**
   Exactly one wake-up: a suspended request that does not run has exactly one task in
   all queues, on the loop it was suspended on. It is resumed once, after acquiring, and
   every task of it, the resumption included, runs on that loop.
   */
  lemma ExactlyOneWakeUp(events: seq<Event>, l: Lock, r: Request)
    requires Run(FRESH, events, l) && r in l.awaiters
    ensures var a := l.awaiters[r];
            && (Pending(r, a).Some? <==> exists loop: Loop, i :: 0 <= i < |l.Queue(loop)| && l.Queue(loop)[i].req == r)
            && (forall loop: Loop, i :: 0 <= i < |l.Queue(loop)| && l.Queue(loop)[i].req == r ==>
                  Some(loop) == a.suspendedOn && Some(l.Queue(loop)[i]) == Pending(r, a))
            && (forall loop: Loop, i, j :: 0 <= i < j < |l.Queue(loop)| ==>
                  l.Queue(loop)[i].req != l.Queue(loop)[j].req)
            && (a.suspendedOn.Some? ==> a.on == a.suspendedOn.value)
            && a.resumed <= 1
            && (a.resumed == 1 <==> a.suspendedOn.Some? && (a.phase.Holding? || a.phase.Released?))
  {
    hide StateOk;
    FreshInvariant();
    RunKeepsInvariant(FRESH, events, l);
    var a := l.awaiters[r];
    assert AwaiterOk(l, a);
    if Pending(r, a).Some? {
      var t, loop := Pending(r, a).value, a.suspendedOn.value;
      assert QueuedOk(l, loop, t);
      var i :| 0 <= i < |l.Queue(loop)| && l.Queue(loop)[i] == t;
    }
    forall loop: Loop, i | 0 <= i < |l.Queue(loop)| && l.Queue(loop)[i].req == r
      ensures Some(loop) == a.suspendedOn && Some(l.Queue(loop)[i]) == Pending(r, a)
    {
      assert QueuedOk(l, loop, l.Queue(loop)[i]);
    }
    forall loop: Loop ensures NoRepeats(l.Queue(loop)) {
    }
  }

  /** The loop that takes a task is the one its request was suspended on. */
  lemma TasksRunWhereSuspended(events: seq<Event>, l: Lock, loop: Loop)
    requires Run(FRESH, events, l) && Enabled(l, RunNext(loop))
    ensures l.awaiters[l.Queue(loop)[0].req].suspendedOn == Some(loop)
  {
    FreshInvariant();
    RunKeepsInvariant(FRESH, events, l);
    assert QueuedOk(l, loop, l.Queue(loop)[0]);
  }

  /** No task in a queue is ever dangling, so the loop can always run the next one. */
  lemma LoopsCanRun(events: seq<Event>, l: Lock, loop: Loop)
    requires Run(FRESH, events, l)
    ensures l.Queue(loop) != [] ==> Enabled(l, RunNext(loop))
  {
    FreshInvariant();
    RunKeepsInvariant(FRESH, events, l);
    if l.Queue(loop) != [] {
      HeadIsPending(l, loop);
    }
  }

  // Across a run.

  lemma OwnershipStep(l: Lock, e: Event, r: Request)
    requires Invariant(l) && Enabled(l, e) && r in l.awaiters
    ensures var a, a' := l.awaiters[r], Step(l, e).awaiters[r];
            && a'.kind == a.kind
            && (a.phase.Released? ==> a'.phase.Released?)
            && (a.phase.Owns() ==> a'.phase.Owns() || a'.phase.Released?)
            && (a.phase.Owns() && e != Write(r) ==> Step(l, e).version == l.version)
  {
    hide StateOk, AwaitersOk;
    if e.RunNext? {
      HeadIsPending(l, e.l);
    }
    if e.Write? && l.awaiters[r].phase.Owns() && e.r != r {
      WriterIsAloneNow(l, e.r, r);
    }
  }

  lemma WriterIsAloneNow(l: Lock, r: Request, q: Request)
    requires Invariant(l) && r in l.awaiters && q in l.awaiters && q != r
    requires l.awaiters[r].phase.Owns() && l.awaiters[r].kind == Unique
    ensures !l.awaiters[q].phase.Owns()
  {
    if l.awaiters[q].phase.Owns() {
      WriterIsAlone(l, r, q);
    }
  }

  function WritesOf(events: seq<Event>, r: Request): nat {
    if events == [] then 0
    else (if events[0] == Write(r) then 1 else 0) + WritesOf(events[1..], r)
  }

  /** As long as a request owns the lock, the guarded data changes only by its own writes. */
  lemma {:induction false} OwnersSeeNoOtherWrites(l: Lock, events: seq<Event>, l': Lock, r: Request)
    requires Invariant(l) && Run(l, events, l') && r in l.awaiters && l.awaiters[r].phase.Owns()
    ensures r in l'.awaiters && l'.awaiters[r].kind == l.awaiters[r].kind
    ensures l'.awaiters[r].phase.Owns() || l'.awaiters[r].phase.Released?
    ensures l'.awaiters[r].phase.Owns() ==>
              && l'.version == l.version + WritesOf(events, r)
              && (l.awaiters[r].kind == Shared ==> l'.version == l.version)
    decreases |events|
  {
    if events != [] {
      var next := Step(l, events[0]);
      OwnershipStep(l, events[0], r);
      VersionStep(l, events[0]);
      StepKeepsInvariant(l, events[0]);
      hide Invariant, Step, Enabled;
      if next.awaiters[r].phase.Owns() {
        OwnersSeeNoOtherWrites(next, events[1..], l', r);
      } else {
        ReleasedForever(next, events[1..], l', r);
      }
    }
  }

  lemma VersionStep(l: Lock, e: Event)
    requires Enabled(l, e)
    ensures Step(l, e).version == if e.Write? then l.version + 1 else l.version
    ensures e.Write? ==> l.awaiters[e.r].kind == Unique
  {
  }

  lemma {:induction false} ReleasedForever(l: Lock, events: seq<Event>, l': Lock, r: Request)
    requires Invariant(l) && Run(l, events, l') && r in l.awaiters && l.awaiters[r].phase.Released?
    ensures r in l'.awaiters && l'.awaiters[r].phase.Released? && l'.awaiters[r].kind == l.awaiters[r].kind
    decreases |events|
  {
    if events != [] {
      OwnershipStep(l, events[0], r);
      StepKeepsInvariant(l, events[0]);
      hide Invariant, Step, Enabled;
      ReleasedForever(Step(l, events[0]), events[1..], l', r);
    }
  }

  /** Somewhere in the run another request takes or releases the lock, changing the counter. */
  ghost predicate Interferes(l: Lock, events: seq<Event>, r: Request)
    requires events != [] ==> Enabled(l, events[0])
    decreases |events|
  {
    events != [] &&
    var e, next := events[0], Step(l, events[0]);
    || ((e.Exchange? || e.Release?) && e.r != r && next.state != l.state)
    || ((|events| > 1 ==> Enabled(next, events[1])) && Interferes(next, events[1..], r))
  }

  lemma StateStep(l: Lock, e: Event)
    requires Enabled(l, e) && !e.Exchange? && !e.Release?
    ensures Step(l, e).state == l.state
  {
  }

  /** If the counter differs from what was seen, somebody else changed it. */
  lemma {:induction false} CounterMoved(l: Lock, events: seq<Event>, l': Lock, r: Request)
    requires Run(l, events, l') && l'.state != l.state
    requires forall i :: 0 <= i < |events| ==> events[i] != Exchange(r) && events[i] != Release(r)
    ensures Interferes(l, events, r)
    decreases |events|
  {
    var e, next, rest := events[0], Step(l, events[0]), events[1..];
    if next.state == l.state {
      assert forall i :: 0 <= i < |rest| ==> rest[i] == events[i + 1];
      hide Step, Enabled;
      CounterMoved(next, rest, l', r);
    } else if !e.Exchange? && !e.Release? {
      StateStep(l, e);
    }
  }

  /** A request between its load and its exchange is moved by nothing but that exchange. */
  lemma SeenStep(l: Lock, e: Event, r: Request, seen: int)
    requires Invariant(l) && Enabled(l, e) && e != Exchange(r) && r in l.awaiters
    requires (l.awaiters[r].phase.Trying? || l.awaiters[r].phase.Spinning?) && l.awaiters[r].phase.seen == Some(seen)
    ensures Step(l, e).awaiters[r] == l.awaiters[r] && e != Release(r)
  {
    hide StateOk, AwaitersOk;
    if e.RunNext? {
      HeadIsPending(l, e.l);
    }
  }

  lemma {:induction false} SeenStays(l: Lock, events: seq<Event>, l': Lock, r: Request, seen: int)
    requires Invariant(l) && Run(l, events, l') && r in l.awaiters && Exchange(r) !in events
    requires (l.awaiters[r].phase.Trying? || l.awaiters[r].phase.Spinning?) && l.awaiters[r].phase.seen == Some(seen)
    ensures r in l'.awaiters && l'.awaiters[r] == l.awaiters[r] && Release(r) !in events
    decreases |events|
  {
    if events != [] {
      SeenStep(l, events[0], r, seen);
      StepKeepsInvariant(l, events[0]);
      hide Invariant, Step, Enabled;
      SeenStays(Step(l, events[0]), events[1..], l', r, seen);
    }
  }

  /**
   In any run: between a load that saw a non-negative counter and the exchange that
   then fails, another request took or released the lock. (That the counter may have
   changed and changed back is harmless: MutualExclusion holds whenever one succeeds.)
   */
  lemma FailedExchangeHasACause(before: seq<Event>, l0: Lock, r: Request, between: seq<Event>, l: Lock)
    requires Run(FRESH, before, l0) && Enabled(l0, Load(r)) && l0.state >= 0
    requires Run(Step(l0, Load(r)), between, l) && Exchange(r) !in between
    ensures Enabled(l, Exchange(r))
    ensures l.state != Expected(l.awaiters[r]) ==> Interferes(Step(l0, Load(r)), between, r)
  {
    FreshInvariant();
    RunKeepsInvariant(FRESH, before, l0);
    StepKeepsInvariant(l0, Load(r));
    var loaded := Step(l0, Load(r));
    SeenStays(loaded, between, l, r, l0.state);
    if l.state != Expected(l.awaiters[r]) {
      assert forall i :: 0 <= i < |between| ==> between[i] in between;
      CounterMoved(loaded, between, l, r);
    }
  }
}
