/**
 What the view shows after each thing the user or somebody else does, while nothing
 else is awaited: where the window lies in the history afterwards.
 */
module WindowMoves {
  import opened MessageWindow
  import opened AwaitedPages

  /** A window with nothing awaited. */
  ghost predicate Rests(s: Session, lo: nat, hi: nat) {
    Contiguous(s, lo, hi) && s.requests == []
  }

  /** Opening, or jumping to the present, shows the newest page, whatever was shown. */
  lemma OpenedShowsNewest(s: Session)
    requires History(s.history) && s.requests == []
    ensures var s', h := Drained(Step(s, Start)), s.history;
            s'.history == h && Rests(s', Max(0, |h| - CHUNK_SIZE), |h|)
  {
    hide Received, Page, History, Slice, SplitsBefore, SplitsAfter;
    var cleared := s.(window := [], loadingOlder := false, loadingNewer := false);
    NothingIsSlice(s.history);
    LoadOlderKeeps(cleared, |s.history|, |s.history|);
    Answered(Step(s, Start), |s.history|, |s.history|);
  }

  lemma NothingIsSlice(h: seq<Message>)
    ensures Slice([], h, |h|, |h|)
  {
  }

  /** The awaited page moves the window by its size. */
  lemma Answered(s: Session, lo: nat, hi: nat)
    requires Contiguous(s, lo, hi) && s.requests != []
    ensures Drained(s).history == s.history
    ensures s.loadingOlder ==>
              Rests(Drained(s), Max(0, lo - CHUNK_SIZE), Min(hi, Max(0, lo - CHUNK_SIZE) + MAX_MESSAGES))
    ensures s.loadingNewer ==>
              var hi' := Min(|s.history|, hi + CHUNK_SIZE); Rests(Drained(s), Max(lo, hi' - MAX_MESSAGES), hi')
  {
    hide Received, Page, History, Slice, SplitsBefore, SplitsAfter;
    var h, r := s.history, s.requests[0];
    DrainedOne(s);
    BoundsOf(s.window, h, lo, hi);
    if s.loadingOlder {
      BeforeIsPrefix(h, r.ts, lo);
      OlderPageMoves(s.window, h, lo, hi, r.ts, CHUNK_SIZE);
      BoundsOf(Drained(s).window, h, Max(0, lo - CHUNK_SIZE), Min(hi, Max(0, lo - CHUNK_SIZE) + MAX_MESSAGES));
    } else {
      AfterIsSuffix(h, r.ts, hi);
      NewerPageMoves(s.window, h, lo, hi, r.ts, CHUNK_SIZE);
      var hi' := Min(|h|, hi + CHUNK_SIZE);
      BoundsOf(Drained(s).window, h, Max(lo, hi' - MAX_MESSAGES), hi');
    }
  }

  /** Scrolling up shows one page more at the top. */
  lemma ScrolledUp(s: Session, lo: nat, hi: nat)
    requires Rests(s, lo, hi) && s.window != []
    ensures var s', lo' := Drained(Step(s, ScrollUp)), Max(0, lo - CHUNK_SIZE);
            s'.history == s.history && Rests(s', lo', Min(hi, lo' + MAX_MESSAGES))
  {
    hide Received, Page, History, Slice, SplitsBefore, SplitsAfter;
    LoadOlderKeeps(s, lo, hi);
    Answered(Step(s, ScrollUp), lo, hi);
  }

  /** Scrolling down shows one page more at the bottom. */
  lemma ScrolledDown(s: Session, lo: nat, hi: nat)
    requires Rests(s, lo, hi) && s.window != []
    ensures var s', hi' := Drained(Step(s, ScrollDown)), Min(|s.history|, hi + CHUNK_SIZE);
            s'.history == s.history && Rests(s', Max(lo, hi' - MAX_MESSAGES), hi')
  {
    hide Received, Page, History, Slice, SplitsBefore, SplitsAfter;
    LoadNewerKeeps(s, lo, hi);
    Answered(Step(s, ScrollDown), lo, hi);
  }

  function AfterNewerPages(s: Session, n: nat): Session {
    if n == 0 then s else Drained(Step(AfterNewerPages(s, n - 1), ScrollDown))
  }

  /** Newer pages lead down to the newest message: n of them show 25n messages more, without a gap. */
  lemma {:induction false} NewerPagesEnumerate(s: Session, lo: nat, hi: nat, n: nat)
    requires Rests(s, lo, hi) && s.window != []
    ensures var s', hi' := AfterNewerPages(s, n), Min(|s.history|, hi + n * CHUNK_SIZE);
            s'.history == s.history && s'.window != [] && Rests(s', Max(lo, hi' - MAX_MESSAGES), hi')
  {
    hide Step, Drained, History, Awaits;
    Bounds(s, lo, hi);
    if n == 0 {
      Bounds(s, lo, hi);
    } else {
      var before, hi0 := AfterNewerPages(s, n - 1), Min(|s.history|, hi + (n - 1) * CHUNK_SIZE);
      NewerPagesEnumerate(s, lo, hi, n - 1);
      ScrolledDown(before, Max(lo, hi0 - MAX_MESSAGES), hi0);
    }
  }

  lemma Bounds(s: Session, lo: nat, hi: nat)
    requires Contiguous(s, lo, hi)
    ensures lo <= hi <= |s.history| && |s.window| == hi - lo <= MAX_MESSAGES
  {
  }

  /** A message that follows what is shown is shown below it. */
  lemma PostedShows(s: Session, lo: nat, hi: nat, m: Message)
    requires Rests(s, lo, hi) && Orderly(s, Post(m))
    ensures Step(s, Post(m)).history == s.history + [m]
    ensures Step(s, Post(m)).window == LastN(s.window + [m], MAX_MESSAGES)
  {
  }

  /** A deletion takes the message with the id away, from the history and from what is shown, and no other. */
  lemma DeletedIsGone(s: Session, lo: nat, hi: nat, id: int, x: Message)
    requires Contiguous(s, lo, hi)
    ensures var s' := Step(s, Delete(id));
            && (x in s'.history <==> x in s.history && x.id != id)
            && (x in s'.window <==> x in s.window && x.id != id)
            && s'.requests == s.requests && s'.loadingOlder == s.loadingOlder && s'.loadingNewer == s.loadingNewer
  {
    var h := s.history;
    assert forall i, j :: 0 <= i < j < |s.window| ==> s.window[i] == h[lo + i] && s.window[j] == h[lo + j];
    GoneFrom(h, id, x);
    GoneFrom(s.window, id, x);
  }

  lemma {:induction false} GoneFrom(ms: seq<Message>, id: int, x: Message)
    requires forall i, j :: 0 <= i < j < |ms| ==> ms[i].id != ms[j].id
    ensures x in WithoutId(ms, id) <==> x in ms && x.id != id
  {
    if ms != [] {
      if ms[0].id == id {
        if x in ms[1..] {
          var j :| 0 <= j < |ms[1..]| && ms[1..][j] == x;
          assert ms[j + 1] == x;
        }
      } else {
        GoneFrom(ms[1..], id, x);
      }
    }
  }
}
