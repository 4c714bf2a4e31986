/**
 The lock as an object: the counter and the queues of the event loops updated in
 place, one method for each atomic step. The awaiters stand for the frames of the
 waiting coroutines, `version` for the guarded data. Every method keeps the
 invariant, so what SharedMutex proves of runs holds of the object.
 */
module AsyncMutex {
  import opened Wrappers
  import opened SharedMutex

  class AsyncSharedMutex {
    var state: int
    var awaiters: map<Request, Awaiter>
    var queues: map<Loop, seq<Task>>
    var version: nat

    function View(): Lock
      reads this
    {
      Lock(state, awaiters, queues, version)
    }

    ghost predicate Valid()
      reads this
    {
      Invariant(View())
    }

    constructor ()
      ensures Valid() && View() == FRESH
    {
      state, awaiters, queues, version := 0, map[], map[], 0;
      new;
      FreshInvariant();
    }

    method SetPhase(r: Request, p: Phase)
      requires r in awaiters
      modifies this`awaiters
      ensures View() == Move(old(View()), r, p)
    {
      awaiters := awaiters[r := awaiters[r].(phase := p)];
    }

    /** queueInLoop on the loop of the running thread. */
    method QueueInLoop(t: Task)
      requires t.req in awaiters
      modifies this`queues
      ensures View() == Post(old(View()), t)
    {
      var current := awaiters[t.req].on;
      var queue := if current in queues then queues[current] else [];
      queues := queues[current := queue + [t]];
    }

    /** lock_shared and lock_unique, called by a coroutine that runs on loop `on`. */
    method Await(r: Request, kind: Kind, on: Loop)
      requires Valid() && Enabled(View(), Request(r, kind, on))
      modifies this
      ensures Valid() && View() == Step(old(View()), Request(r, kind, on))
    {
      StepKeepsInvariant(View(), Request(r, kind, on));
      awaiters := awaiters[r := Awaiter(kind, on, Trying(None), None, 0)];
    }

    /** The first half of a shared try_lock; it goes on only while nobody owns the lock alone. */
    method LoadState(r: Request)
      requires Valid() && Enabled(View(), Load(r))
      modifies this
      ensures Valid() && View() == Step(old(View()), Load(r))
      ensures Enabled(View(), Exchange(r)) <==> Owners(awaiters, Unique) == {}
    {
      StepKeepsInvariant(View(), Load(r));
      LoadSeesWriters(View(), r);
      var p, current := awaiters[r].phase, state;
      if current >= 0 {
        SetPhase(r, if p.Spinning? then Spinning(Some(current)) else Trying(Some(current)));
      } else {
        SetPhase(r, Failed(p));
      }
    }

    method CompareExchangeStrong(expected: int, desired: int) returns (ok: bool)
      modifies this`state
      ensures ok <==> old(state) == expected
      ensures state == if ok then desired else old(state)
    {
      ok := state == expected;
      if ok {
        state := desired;
      }
    }

    /**
     The second half of a shared try_lock, and the whole of a unique one. Success is
     ownership, of a writer without anybody else or of a reader without a writer.
     */
    method TryExchange(r: Request) returns (ok: bool)
      requires Valid() && Enabled(View(), Exchange(r))
      modifies this
      ensures Valid() && View() == Step(old(View()), Exchange(r))
      ensures ok <==> awaiters[r].phase.Owns()
      ensures ok && awaiters[r].kind == Unique ==> state == -1 && old(state) == 0 && Owners(old(awaiters), Shared) == {}
      ensures ok ==> forall q <- awaiters | q != r && awaiters[q].phase.Owns() ::
                awaiters[q].kind == Shared && awaiters[r].kind == Shared
      ensures !ok ==> state == old(state)
    {
      ghost var l := View();
      StepKeepsInvariant(l, Exchange(r));
      AcquiredAlone(l, r);
      var a := awaiters[r];
      if a.kind == Shared {
        var current := a.phase.seen.value;
        ok := CompareExchangeStrong(current, current + 1);
      } else {
        ok := CompareExchangeStrong(0, -1);
      }
      SetPhase(r, if ok then Acquired(a.phase, version) else Failed(a.phase));
    }

    /** The coroutine suspends with one task queued, on the loop it runs on and nowhere else. */
    method AwaitSuspend(r: Request)
      requires Valid() && Enabled(View(), Suspend(r))
      modifies this
      ensures Valid() && View() == Step(old(View()), Suspend(r))
      ensures forall loop: Loop ::
                Spin(r) in View().Queue(loop) <==> loop == old(awaiters[r].on)
    {
      ghost var l := View();
      StepKeepsInvariant(l, Suspend(r));
      OneTaskAfter(l, Suspend(r), r);
      var a := awaiters[r];
      awaiters := awaiters[r := a.(phase := Waiting, suspendedOn := Some(a.on))];
      QueueInLoop(Spin(r));
    }

    /** The event loop takes its next task: a spin starts over, a resumption hands the guard to the owner it resumes. */
    method RunOne(loop: Loop) returns (t: Task)
      requires Valid() && Enabled(View(), RunNext(loop))
      modifies this
      ensures Valid() && View() == Step(old(View()), RunNext(loop))
      ensures t.req in old(awaiters) && old(awaiters)[t.req].suspendedOn == Some(loop) && awaiters[t.req].on == loop
      ensures t.Resume? ==> old(awaiters)[t.req].phase.Resuming? && awaiters[t.req].phase.Holding?
      ensures t.Spin? ==> !awaiters[t.req].phase.Owns()
    {
      ghost var l := View();
      StepKeepsInvariant(l, RunNext(loop));
      HeadRuns(l, loop);
      t := queues[loop][0];
      queues := queues[loop := queues[loop][1..]];
      var a := awaiters[t.req].(on := loop);
      match t {
        case Spin(_) => a := a.(phase := Spinning(None));
        case Resume(_) =>
          var p := if a.phase.Resuming? then Holding(a.phase.at) else a.phase;
          a := a.(resumed := a.resumed + 1, phase := p);
      }
      awaiters := awaiters[t.req := a];
    }

    /** A failed spin is queued again where the coroutine was suspended. */
    method RequeueSpin(r: Request)
      requires Valid() && Enabled(View(), Requeue(r))
      modifies this
      ensures Valid() && View() == Step(old(View()), Requeue(r))
      ensures forall loop: Loop :: Spin(r) in View().Queue(loop) <==> Some(loop) == awaiters[r].suspendedOn
    {
      ghost var l := View();
      StepKeepsInvariant(l, Requeue(r));
      OneTaskAfter(l, Requeue(r), r);
      SetPhase(r, Waiting);
      QueueInLoop(Spin(r));
    }

    /** An owner's resumption is queued where its coroutine was suspended. */
    method QueueResumption(r: Request)
      requires Valid() && Enabled(View(), PostResume(r))
      modifies this
      ensures Valid() && View() == Step(old(View()), PostResume(r))
      ensures forall loop: Loop :: Resume(r) in View().Queue(loop) <==> Some(loop) == awaiters[r].suspendedOn
    {
      ghost var l := View();
      StepKeepsInvariant(l, PostResume(r));
      OneTaskAfter(l, PostResume(r), r);
      SetPhase(r, Resuming(awaiters[r].phase.at));
      QueueInLoop(Resume(r));
    }

    /** A write through a UniqueProxy: nobody else owns the lock. */
    method WriteData(r: Request)
      requires Valid() && Enabled(View(), Write(r))
      modifies this
      ensures Valid() && View() == Step(old(View()), Write(r))
      ensures forall q <- awaiters | q != r :: !awaiters[q].phase.Owns()
    {
      ghost var l := View();
      StepKeepsInvariant(l, Write(r));
      forall q | q in awaiters && q != r ensures !awaiters[q].phase.Owns() {
        WriterIsAloneNow(l, r, q);
      }
      version := version + 1;
      SetPhase(r, Holding(version));
    }

    /** The destructors of the two guards: the store of 0 ends the only ownership, the subtraction one of several. */
    method DropGuard(r: Request)
      requires Valid() && Enabled(View(), Release(r))
      modifies this
      ensures Valid() && View() == Step(old(View()), Release(r))
      ensures awaiters[r].kind == Unique ==>
                old(state) == -1 && Owners(awaiters, Shared) == Owners(awaiters, Unique) == {}
      ensures awaiters[r].kind == Shared ==> old(state) > 0 && state == |Owners(old(awaiters), Shared)| - 1
    {
      ghost var l := View();
      StepKeepsInvariant(l, Release(r));
      ReleaseKeepsState(l, r);
      NobodyWhenZero(Step(l, Release(r)));
      if awaiters[r].kind == Shared {
        state := state - 1;
      } else {
        state := 0;
      }
      SetPhase(r, Released);
    }

    method Handle(e: Event)
      requires Valid() && Enabled(View(), e)
      modifies this
      ensures Valid() && View() == Step(old(View()), e)
    {
      hide Invariant, Step, Enabled;
      match e {
        case Request(r, kind, on) => Await(r, kind, on);
        case Load(r) => LoadState(r);
        case Exchange(r) => var _ := TryExchange(r);
        case Suspend(r) => AwaitSuspend(r);
        case RunNext(loop) => var _ := RunOne(loop);
        case Requeue(r) => RequeueSpin(r);
        case PostResume(r) => QueueResumption(r);
        case Write(r) => WriteData(r);
        case Release(r) => DropGuard(r);
      }
    }

    /** Any schedule of steps, those that cannot be taken when their turn comes left out, is a run of the lock. */
    method Interleave(schedule: seq<Event>) returns (done: seq<Event>)
      requires Valid()
      modifies this
      ensures Valid()
      ensures done == Taken(old(View()), schedule) && Run(old(View()), done, View())
    {
      hide Invariant, Step, Enabled;
      done := [];
      for i := 0 to |schedule|
        invariant Valid() && Run(old(View()), done, View())
        invariant Taken(old(View()), schedule) == done + Taken(View(), schedule[i..])
      {
        var e := schedule[i];
        assert schedule[i..][0] == e && schedule[i..][1..] == schedule[i + 1..];
        if Enabled(View(), e) {
          RunOneMore(old(View()), done, View(), e);
          Handle(e);
          done := done + [e];
        }
      }
      assert schedule[|schedule|..] == [];
    }
  }

  /** A load goes on exactly when no writer owns the lock. */
  lemma LoadSeesWriters(l: Lock, r: Request)
    requires Invariant(l) && Enabled(l, Load(r))
    ensures Enabled(Step(l, Load(r)), Exchange(r)) <==> Owners(Step(l, Load(r)).awaiters, Unique) == {}
  {
    SameOwners(l, r, Step(l, Load(r)).awaiters[r]);
  }

  lemma AcquiredAlone(l: Lock, r: Request)
    requires Invariant(l) && Enabled(l, Exchange(r))
    ensures var l' := Step(l, Exchange(r));
            && (l'.awaiters[r].phase.Owns() <==> l.state == Expected(l.awaiters[r]))
            && (l'.awaiters[r].phase.Owns() ==>
                  && (l.awaiters[r].kind == Unique ==> Owners(l.awaiters, Shared) == {})
                  && forall q <- l'.awaiters | q != r && l'.awaiters[q].phase.Owns() ::
                       l'.awaiters[q].kind == Shared && l'.awaiters[r].kind == Shared)
  {
    var l' := Step(l, Exchange(r));
    StepKeepsInvariant(l, Exchange(r));
    if l'.awaiters[r].phase.Owns() {
      forall q | q in l'.awaiters && q != r && l'.awaiters[q].phase.Owns()
        ensures l'.awaiters[q].kind == Shared && l'.awaiters[r].kind == Shared
      {
        WriterIsAlone(l', r, q);
      }
    }
  }

  /** After a post the request's task is queued on one loop only. */
  lemma OneTaskAfter(l: Lock, e: Event, r: Request)
    requires Invariant(l) && Enabled(l, e) && (e == Suspend(r) || e == Requeue(r) || e == PostResume(r))
    ensures var l' := Step(l, e);
            var a := l'.awaiters[r];
            && Pending(r, a).Some? && a.suspendedOn == Some(l.awaiters[r].on)
            && forall loop: Loop :: Pending(r, a).value in l'.Queue(loop) <==> Some(loop) == a.suspendedOn
  {
    StepKeepsInvariant(l, e);
    hide StateOk;
    var l' := Step(l, e);
    assert AwaiterOk(l', l'.awaiters[r]);
    forall loop: Loop
      ensures Pending(r, l'.awaiters[r]).value in l'.Queue(loop) <==> Some(loop) == l'.awaiters[r].suspendedOn
    {
      assert QueuedOk(l', loop, Pending(r, l'.awaiters[r]).value);
    }
  }

  lemma HeadRuns(l: Lock, loop: Loop)
    requires Invariant(l) && Enabled(l, RunNext(loop))
    ensures var t := l.Queue(loop)[0];
            && t.req in l.awaiters && l.awaiters[t.req].suspendedOn == Some(loop)
            && (t.Resume? ==> l.awaiters[t.req].phase.Resuming?)
  {
    assert QueuedOk(l, loop, l.Queue(loop)[0]);
  }

  lemma NobodyWhenZero(l: Lock)
    requires Invariant(l)
    ensures l.state == 0 ==> Owners(l.awaiters, Shared) == Owners(l.awaiters, Unique) == {}
  {
  }
}
