/**
 That the lock is taken when it can be: the first attempt on a free lock, the next
 turn of a suspended request on one, its resumption, and why an attempt fails.
 */
module LockProgress {
  import opened Wrappers
  import opened SharedMutex

  /** Nobody owns the lock in a way that excludes the request. */
  ghost predicate Free(l: Lock, kind: Kind) {
    Owners(l.awaiters, Unique) == {} && (kind == Unique ==> Owners(l.awaiters, Shared) == {})
  }

  lemma FreeMeansCounter(l: Lock, kind: Kind)
    requires StateOk(l)
    ensures Free(l, kind) <==> (if kind == Shared then l.state >= 0 else l.state == 0)
  {
  }

  /** The atomic accesses of one attempt. */
  function Attempt(r: Request, kind: Kind): seq<Event> {
    if kind == Shared then [Load(r), Exchange(r)] else [Exchange(r)]
  }

  lemma RunTwo(l: Lock, e: Event, f: Event)
    requires Enabled(l, e) && Enabled(Step(l, e), f)
    ensures Run(l, [e, f], Step(Step(l, e), f))
  {
    hide Step, Enabled;
    assert [e, f][1..] == [f] && [f][1..] == [];
    assert Run(Step(l, e), [f], Step(Step(l, e), f));
  }

  lemma RunOneEvent(l: Lock, e: Event)
    requires Enabled(l, e)
    ensures Run(l, [e], Step(l, e))
  {
    hide Step, Enabled;
    assert [e][1..] == [];
  }

  /** An attempt on a free lock succeeds, from await_ready as well as from a spin task. */
  lemma AttemptSucceeds(l: Lock, r: Request) returns (l': Lock)
    requires StateOk(l) && r in l.awaiters
    requires l.awaiters[r].phase in {Trying(None), Spinning(None)} && Free(l, l.awaiters[r].kind)
    ensures Run(l, Attempt(r, l.awaiters[r].kind), l')
    ensures var a := l.awaiters[r];
            var phase := if a.phase.Spinning? then Granted(l.version) else Holding(l.version);
            l'.awaiters == l.awaiters[r := a.(phase := phase)] && l'.queues == l.queues && l'.version == l.version
  {
    var kind := l.awaiters[r].kind;
    FreeMeansCounter(l, kind);
    if kind == Shared {
      var loaded := Step(l, Load(r));
      l' := Step(loaded, Exchange(r));
      RunTwo(l, Load(r), Exchange(r));
    } else {
      l' := Step(l, Exchange(r));
      RunOneEvent(l, Exchange(r));
    }
  }

  /** A request for a free lock gets it at once, without being suspended. */
  lemma FreeLockIsTakenAtOnce(l: Lock, r: Request, kind: Kind, on: Loop) returns (l': Lock)
    requires Invariant(l) && r !in l.awaiters && Free(l, kind)
    ensures Run(l, [Request(r, kind, on)] + Attempt(r, kind), l')
    ensures l'.awaiters == l.awaiters[r := Awaiter(kind, on, Holding(l.version), None, 0)] && l'.queues == l.queues
  {
    var asked := Step(l, Request(r, kind, on));
    StepKeepsInvariant(l, Request(r, kind, on));
    SameOwners(l, r, asked.awaiters[r]);
    l' := AttemptSucceeds(asked, r);
    hide Run, Step, Enabled;
    RunsOn(l, Request(r, kind, on), Attempt(r, kind), l');
  }

  lemma RunsOn(l: Lock, e: Event, events: seq<Event>, l': Lock)
    requires Enabled(l, e) && Run(Step(l, e), events, l')
    ensures Run(l, [e] + events, l')
  {
    hide Enabled, Step;
    assert ([e] + events)[0] == e && ([e] + events)[1..] == events;
  }

  /** The next turn of a suspended request, once the lock is free, ends with the request owning it. */
  lemma FreeLockIsTaken(l: Lock, loop: Loop, r: Request) returns (l': Lock)
    requires Invariant(l) && l.Queue(loop) != [] && l.Queue(loop)[0] == Spin(r)
    requires r in l.awaiters && Free(l, l.awaiters[r].kind)
    ensures Enabled(l, RunNext(loop)) && Run(l, [RunNext(loop)] + Attempt(r, l.awaiters[r].kind), l')
    ensures r in l'.awaiters && l'.awaiters[r].phase == Granted(l.version) && l'.awaiters[r].phase.Owns()
    ensures Enabled(l', PostResume(r))
  {
    HeadIsPending(l, loop);
    var running := Step(l, RunNext(loop));
    StepKeepsInvariant(l, RunNext(loop));
    SameOwners(l, r, running.awaiters[r]);
    l' := AttemptSucceeds(running, r);
    hide Run, Step;
    RunsOn(l, RunNext(loop), Attempt(r, l.awaiters[r].kind), l');
  }

  /** An owner's resumption, when its turn comes, hands its coroutine the guard. */
  lemma OwnerIsResumed(l: Lock, loop: Loop, r: Request)
    requires Invariant(l) && l.Queue(loop) != [] && l.Queue(loop)[0] == Resume(r)
    ensures Enabled(l, RunNext(loop))
    ensures var l' := Step(l, RunNext(loop));
            && r in l'.awaiters && l'.awaiters[r].phase == Holding(l.version) && l'.awaiters[r].resumed == 1
            && Enabled(l', Release(r))
  {
    HeadIsPending(l, loop);
    assert AwaiterOk(l, l.awaiters[r]);
  }

  lemma Leaves(l: Lock, r: Request, k: Kind)
    requires Enabled(l, Release(r))
    ensures Owners(Step(l, Release(r)).awaiters, k) == Owners(l.awaiters, k) - {r}
  {
    hide Owners;
    OwnersAfter(l.awaiters, r, l.awaiters[r].(phase := Released), k);
  }

  /** The owners a release leaves. */
  lemma OwnersLeft(l: Lock, r: Request)
    requires Invariant(l) && Enabled(l, Release(r))
    ensures var l' := Step(l, Release(r));
            && Owners(l'.awaiters, Shared) == Owners(l.awaiters, Shared) - {r}
            && Owners(l'.awaiters, Unique) == {}
            && (l.awaiters[r].kind == Unique ==> Owners(l.awaiters, Shared) == {})
  {
    hide AwaitersOk, QueuesOk, Owners, Step;
    Leaves(l, r, Shared);
    Leaves(l, r, Unique);
    ReleaseKeepsState(l, r);
    OwnerIn(l.awaiters, r);
    if l.awaiters[r].kind == Unique {
      OnlyMember(Owners(l.awaiters, Unique), r);
    } else {
      assert Owners(l.awaiters, Unique) == {};
    }
  }

  /** Releasing makes the lock free: for everybody after a writer, for writers after the last reader. */
  lemma ReleaseFrees(l: Lock, r: Request)
    requires Invariant(l) && Enabled(l, Release(r))
    ensures var l' := Step(l, Release(r));
            && Free(l', Shared)
            && (Free(l', Unique) <==> l.awaiters[r].kind == Unique || Owners(l.awaiters, Shared) == {r})
  {
    hide Invariant, Owners, Step;
    OwnersLeft(l, r);
    HasOwner(l, r);
    var readers := Owners(l.awaiters, Shared);
    assert readers - {r} == {} <==> readers == {} || readers == {r};
  }

  lemma HasOwner(l: Lock, r: Request)
    requires Enabled(l, Release(r))
    ensures r in Owners(l.awaiters, l.awaiters[r].kind)
  {
    OwnerIn(l.awaiters, r);
  }

  /** Why a step ends an attempt without the lock: a load that saw a writer, or a failed exchange. */
  ghost predicate Fails(l: Lock, e: Event, r: Request) {
    || (e == Load(r) && l.state == -1 && Owners(l.awaiters, Unique) != {})
    || (e == Exchange(r) && Enabled(l, e) && l.state != Expected(l.awaiters[r]))
  }

  /** In any run, a request is suspended or queued again only by an attempt that failed. */
  lemma OnlyFailureSuspends(events: seq<Event>, l: Lock, e: Event, r: Request)
    requires Run(FRESH, events, l) && Enabled(l, e) && r in Step(l, e).awaiters
    requires Step(l, e).awaiters[r].phase in {Suspending, Requeueing}
    ensures r in l.awaiters && (Step(l, e).awaiters[r].phase == l.awaiters[r].phase || Fails(l, e, r))
  {
    FreshInvariant();
    RunKeepsInvariant(FRESH, events, l);
    hide AwaitersOk, Run;
    if e.RunNext? {
      HeadIsPending(l, e.l);
    }
  }

  /** A failed attempt at a free lock is one that another request's step came in between. */
  lemma FailsAtFreeLock(l: Lock, e: Event, r: Request)
    requires Invariant(l) && Enabled(l, e) && Fails(l, e, r) && Free(l, l.awaiters[r].kind)
    ensures e == Exchange(r) && l.awaiters[r].kind == Shared && l.awaiters[r].phase.seen.value != l.state
  {
    FreeMeansCounter(l, l.awaiters[r].kind);
  }
}
