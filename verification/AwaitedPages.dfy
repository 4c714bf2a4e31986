/**
 Live messages and reopenings while a page is awaited: what the view shows once
 everything awaited has arrived, and exactly when that is a stretch of the history.
 */
module AwaitedPages {
  import opened MessageWindow

  /** The session once every awaited page has arrived. */
  function Drained(s: Session): Session
    decreases |s.requests|
  {
    if s.requests == [] then s else Drained(Step(s, Answer))
  }

  ghost predicate ShowsSlice(s: Session) {
    exists lo: nat, hi: nat :: Slice(s.window, s.history, lo, hi)
  }

  /** The answer to the request awaited, from a history; nothing when none is awaited. */
  function AwaitedPage(s: Session, h: seq<Message>): seq<Message> {
    if s.requests == [] then [] else Page(h, s.requests[0].limit, s.requests[0].ts)
  }

  lemma DrainedNone(s: Session)
    requires s.requests == []
    ensures Drained(s) == s
  {
  }

  lemma DrainedOne(s: Session)
    requires |s.requests| == 1
    ensures Drained(s) == Step(s, Answer)
  {
    assert Step(s, Answer).requests == [];
  }

  // What a page holds.

  lemma {:induction false} BeforeElements(h: seq<Message>, ts: int)
    ensures forall x <- Before(h, ts) :: x in h && x.timestamp < ts
  {
    if h != [] {
      BeforeElements(h[1..], ts);
    }
  }

  lemma {:induction false} AfterElements(h: seq<Message>, ts: int)
    ensures forall x <- After(h, ts) :: x in h && x.timestamp > ts
  {
    if h != [] {
      AfterElements(h[1..], ts);
    }
  }

  lemma PageElements(h: seq<Message>, limit: int, ts: int)
    requires limit != 0
    ensures var page := Page(h, limit, ts);
            && |page| <= (if limit > 0 then limit else -limit)
            && forall i :: 0 <= i < |page| ==> page[i] in h && (limit > 0 ==> page[i].timestamp < ts)
  {
    hide Reverse;
    BeforeElements(h, ts);
    AfterElements(h, ts);
    var older := Before(h, ts);
    assert forall i :: 0 <= i < |older| ==> older[i] in older;
  }

  /** A window that falls back somewhere is no slice. */
  lemma FallsBack(window: seq<Message>, h: seq<Message>, i: nat)
    requires Ascending(h) && i + 1 < |window| && window[i].timestamp >= window[i + 1].timestamp
    ensures forall lo: nat, hi: nat :: !Slice(window, h, lo, hi)
  {
    forall lo: nat, hi: nat ensures !Slice(window, h, lo, hi) {
      if Slice(window, h, lo, hi) {
        Neighbours(window, h, lo, hi, i);
      }
    }
  }

  /** A page that does not continue the window is appended all the same, and shows. */
  lemma AppendedFallsBack(window: seq<Message>, page: seq<Message>, h: seq<Message>)
    requires Ascending(h) && window != [] && page != [] && |page| < MAX_MESSAGES
    requires window[|window| - 1].timestamp >= page[0].timestamp
    ensures forall lo: nat, hi: nat :: !Slice(Appended(window, page), h, lo, hi)
  {
    var all, shown := window + page, Appended(window, page);
    var dropped := |all| - |shown|;
    assert shown == all[dropped..];
    assert shown[|window| - 1 - dropped] == window[|window| - 1] && shown[|window| - dropped] == page[0];
    FallsBack(shown, h, |window| - 1 - dropped);
  }

  // A live message.

  /** No message of the history is newer than the live message. */
  lemma LatestIsLive(h: seq<Message>, m: Message, x: Message)
    requires Ascending(h + [m]) && x in h + [m]
    ensures x.timestamp <= m.timestamp
  {
    var h' := h + [m];
    var k :| 0 <= k < |h'| && h'[k] == x;
    assert h'[|h|] == m;
  }

  /** Prepended to a window that is not empty, the live message is not the last one shown. */
  lemma LastAfterPrepended(window: seq<Message>, h: seq<Message>, lo: nat, hi: nat, m: Message)
    requires Slice(window, h, lo, hi) && Ascending(h) && window != []
    ensures var window' := Received(window, [m], true);
            window' != [] && window'[|window'| - 1].timestamp >= h[lo].timestamp
  {
    var window' := Received(window, [m], true);
    assert Reverse([m]) == [m];
    assert window'[|window'| - 1] == window[|window'| - 2] == h[lo + |window'| - 2];
  }

  lemma LastAfterAppended(window: seq<Message>, m: Message)
    ensures var window' := Received(window, [m], false); window' != [] && window'[|window'| - 1] == m
    ensures Received([], [m], true) == [m]
  {
    assert Reverse([m]) == [m];
  }

  /** The last message shown right after a live message is none that an awaited older page could follow. */
  lemma LastAfterPost(s: Session, lo: nat, hi: nat, m: Message, x: Message)
    requires Contiguous(s, lo, hi) && History(s.history + [m]) && s.requests != []
    requires x in AwaitedPage(s, s.history + [m])
    ensures var window' := Received(s.window, [m], s.loadingOlder);
            window' != [] && window'[|window'| - 1].timestamp >= x.timestamp
  {
    hide Received, Page;
    var h', r := s.history + [m], s.requests[0];
    PageElements(h', r.limit, r.ts);
    LatestIsLive(s.history, m, x);
    LastAfterAppended(s.window, m);
    if s.loadingOlder && s.window != [] {
      LastAfterPrepended(s.window, s.history, lo, hi, m);
    }
  }

  /**
   Once what is awaited has arrived, a live message leaves the window contiguous if and
   only if the awaited request has nothing to deliver and the message was put where it
   belongs: the window was empty, or no older page was awaited and the newest message shown.
   */
  lemma PostDrainsIff(s: Session, lo: nat, hi: nat, m: Message)
    requires Contiguous(s, lo, hi) && History(s.history + [m])
    ensures ShowsSlice(Drained(Step(s, Post(m)))) <==>
              && AwaitedPage(s, s.history + [m]) == []
              && (s.window == [] || (!s.loadingOlder && hi == |s.history|))
  {
    hide Received, Page, Slice, SplitsBefore, SplitsAfter;
    var h', posted := s.history + [m], Step(s, Post(m));
    LiveMessageIff(s.window, s.history, lo, hi, m, s.loadingOlder);
    if s.requests == [] {
      DrainedNone(posted);
    } else {
      var page := AwaitedPage(s, h');
      DrainedOne(posted);
      NothingReceived(posted.window);
      if page != [] {
        LastAfterPost(s, lo, hi, m, page[0]);
        PageElements(h', s.requests[0].limit, s.requests[0].ts);
        PageIsAppended(posted.window, page);
        AppendedFallsBack(posted.window, page, h');
      }
    }
  }

  lemma NothingReceived(window: seq<Message>)
    ensures Received(window, [], false) == window && Received(window, [], true) == window
  {
  }

  lemma PageIsAppended(window: seq<Message>, page: seq<Message>)
    requires page != []
    ensures Received(window, page, false) == Appended(window, page)
  {
  }

  /** The request awaited is the one the shown window leads to: nothing shown was deleted since it was sent. */
  predicate AsAsked(s: Session) {
    s.requests == []
    || (s.loadingOlder && s.requests[0] == OldestRequest(s.window))
    || (s.loadingNewer && s.window != []
        && s.requests[0] == Request(-CHUNK_SIZE, s.window[|s.window| - 1].timestamp))
  }

  /** Then a live message is harmless exactly when nothing is awaited and it follows what is shown. */
  lemma PostDrainsWhenIdle(s: Session, lo: nat, hi: nat, m: Message)
    requires Contiguous(s, lo, hi) && History(s.history + [m]) && AsAsked(s)
    ensures ShowsSlice(Drained(Step(s, Post(m)))) <==>
              s.requests == [] && (s.window == [] || hi == |s.history|)
  {
    hide Received, Step;
    var h, h' := s.history, s.history + [m];
    PostDrainsIff(s, lo, hi, m);
    if s.requests != [] && !(s.loadingOlder && s.window != []) {
      assert h'[|h|] == m;
      assert s.window != [] ==> s.window[|s.window| - 1] == h[hi - 1] == h'[hi - 1];
      SomethingComes(h', s.requests[0], m);
    }
  }

  /** What can come in between: the only message is deleted while the page before it is awaited. */
  lemma DeletedSinceAsked(b: Message, m: Message) returns (s: Session)
    requires b.timestamp < m.timestamp < FAR_FUTURE
    ensures Run(Session([b], [], false, false, []), [Start, Answer, ScrollUp, Delete(b.id)], s)
    ensures s.requests != [] && ShowsSlice(Drained(Step(s, Post(m))))
  {
    hide Page, Reverse, Drained, ShowsSlice, Received;
    var asked := Request(CHUNK_SIZE, b.timestamp);
    s := Session([], [], true, false, [asked]);
    OnlyMessage(b);
    var started := Session([b], [], true, false, [OldestRequest([])]);
    var shown := Session([b], [b], false, false, []);
    var asking := Session([b], [b], true, false, [asked]);
    assert [b][1..] == [];
    assert Step(asking, Delete(b.id)) == s;
    assert Step(shown, ScrollUp) == asking && Step(started, Answer) == shown;
    assert Run(asking, [Delete(b.id)], s);
    assert Run(shown, [ScrollUp] + [Delete(b.id)], s);
    assert Run(started, [Answer] + [ScrollUp, Delete(b.id)], s);
    assert Step(Session([b], [], false, false, []), Start) == started;
    assert ([Start] + [Answer, ScrollUp, Delete(b.id)])[1..] == [Answer] + [ScrollUp, Delete(b.id)];
    NothingBefore(m, b.timestamp);
    assert [] + [m] == [m];
    assert Contiguous(s, 0, 0);
    PostDrainsIff(s, 0, 0, m);
  }

  lemma OnlyMessage(b: Message)
    requires b.timestamp < FAR_FUTURE
    ensures Received([], Page([b], CHUNK_SIZE, FAR_FUTURE), true) == [b]
  {
    NewestPage([b]);
    assert LastN([b], CHUNK_SIZE) == [b] && Reverse([b]) == [b];
  }

  lemma NothingBefore(m: Message, ts: int)
    requires ts < m.timestamp
    ensures Page([m], CHUNK_SIZE, ts) == []
  {
    BeforeIsPrefix([m], ts, 0);
    ReversedNothing();
  }

  /** A request whose range holds a message gets an answer. */
  lemma SomethingComes(h: seq<Message>, r: Request, m: Message)
    requires m in h && r.limit != 0
    requires if r.limit > 0 then m.timestamp < r.ts else m.timestamp > r.ts
    ensures Page(h, r.limit, r.ts) != []
  {
    InRange(h, r.ts, m);
  }

  lemma {:induction false} InRange(h: seq<Message>, ts: int, m: Message)
    requires m in h
    ensures m.timestamp < ts ==> Before(h, ts) != []
    ensures m.timestamp > ts ==> After(h, ts) != []
  {
    if h[0] != m {
      InRange(h[1..], ts, m);
    }
  }

  /** A live message that comes while a newer page is awaited, the newest message being shown, is shown twice. */
  lemma LiveMessageShownTwice(s: Session, lo: nat, hi: nat, m: Message)
    requires Contiguous(s, lo, hi) && History(s.history + [m]) && AsAsked(s)
    requires s.loadingNewer && hi == |s.history|
    ensures Drained(Step(s, Post(m))).window == LastN(s.window + [m, m], MAX_MESSAGES)
  {
    var h, h', posted := s.history, s.history + [m], Step(s, Post(m));
    assert h'[|h|] == m && s.window[|s.window| - 1] == h[hi - 1] == h'[hi - 1];
    DrainedOne(posted);
    AfterIsSuffix(h', s.requests[0].ts, |h|);
    assert h'[|h|..] == [m];
    assert AwaitedPage(s, h') == [m];
    assert s.window + [m] + [m] == s.window + [m, m];
  }

  // Reopening.

  /** The newest page of a history, as the server sends it. */
  lemma NewestPage(h: seq<Message>)
    requires History(h)
    ensures Page(h, CHUNK_SIZE, FAR_FUTURE) == Reverse(LastN(h, CHUNK_SIZE))
  {
    hide Reverse;
    BeforeIsPrefix(h, FAR_FUTURE, |h|);
    assert h[..|h|] == h;
    OlderPage(h, |h|, FAR_FUTURE, CHUNK_SIZE);
    assert h[Max(0, |h| - CHUNK_SIZE)..|h|] == LastN(h, CHUNK_SIZE);
  }

  /** Everything the server answers to a list of requests. */
  function Pages(h: seq<Message>, requests: seq<Request>): seq<Message> {
    if requests == [] then []
    else Page(h, requests[0].limit, requests[0].ts) + Pages(h, requests[1..])
  }

  lemma {:induction false} PagesAppend(h: seq<Message>, a: seq<Request>, b: seq<Request>)
    ensures Pages(h, a + b) == Pages(h, a) + Pages(h, b)
  {
    hide Page;
    if a == [] {
      assert a + b == b;
    } else {
      assert (a + b)[0] == a[0] && (a + b)[1..] == a[1..] + b;
      PagesAppend(h, a[1..], b);
    }
  }

  lemma OnePage(h: seq<Message>, r: Request)
    ensures Pages(h, [r]) == Page(h, r.limit, r.ts)
  {
    hide Page;
    assert [r][1..] == [] && Pages(h, []) == [];
  }

  lemma LastOfLast(a: seq<Message>, b: seq<Message>, n: nat)
    ensures LastN(LastN(a, n) + b, n) == LastN(a + b, n)
  {
  }

  /** Pages that arrive while no older one is awaited are appended one after the other. */
  lemma {:induction false} DrainedAppends(s: Session)
    requires !s.loadingOlder && |s.window| <= MAX_MESSAGES
    ensures Drained(s).history == s.history
    ensures Drained(s).window == LastN(s.window + Pages(s.history, s.requests), MAX_MESSAGES)
    decreases |s.requests|
  {
    hide Page;
    if s.requests == [] {
      assert s.window + [] == s.window;
    } else {
      var page := Page(s.history, s.requests[0].limit, s.requests[0].ts);
      var rest := Pages(s.history, s.requests[1..]);
      DrainedAppends(Step(s, Answer));
      assert s.window + [] == s.window;
      LastOfLast(s.window + page, rest, MAX_MESSAGES);
      assert s.window + page + rest == s.window + (page + rest);
    }
  }

  /**
   What a view shows that is reopened, whatever it showed and however many pages it
   awaits: the first of them as an older page, all others and the newest page as newer ones.
   */
  lemma ReopenedShowsAll(s: Session)
    requires History(s.history) && s.requests != []
    ensures var h, r := s.history, s.requests[0];
            && Drained(Step(s, Start)).history == h
            && Drained(Step(s, Start)).window ==
               LastN(FirstN(Reverse(Page(h, r.limit, r.ts)), MAX_MESSAGES)
                     + (Pages(h, s.requests[1..]) + Reverse(LastN(h, CHUNK_SIZE))), MAX_MESSAGES)
  {
    hide Page, Reverse, History;
    var h, r, newest := s.history, s.requests[0], Request(CHUNK_SIZE, FAR_FUTURE);
    var reopened := Step(s, Start);
    assert reopened == Session(h, [], true, false, s.requests + [newest]);
    assert (s.requests + [newest])[1..] == s.requests[1..] + [newest];
    var first := Step(reopened, Answer);
    assert Reverse(Page(h, r.limit, r.ts)) + [] == Reverse(Page(h, r.limit, r.ts));
    ReversedNothing();
    assert first == Session(h, FirstN(Reverse(Page(h, r.limit, r.ts)), MAX_MESSAGES), false, false,
                            s.requests[1..] + [newest]);
    DrainedAppends(first);
    PagesAppend(h, s.requests[1..], [newest]);
    OnePage(h, newest);
    NewestPage(h);
  }

  /**
   While one page is awaited: that page, an older one the right way up and a newer one
   upside down, and then the newest page upside down.
   */
  lemma ReopenedShows(s: Session, lo: nat, hi: nat)
    requires Contiguous(s, lo, hi) && s.requests != []
    ensures Drained(Step(s, Start)).history == s.history
    ensures Drained(Step(s, Start)).window ==
            Reverse(AwaitedPage(s, s.history)) + Reverse(LastN(s.history, CHUNK_SIZE))
    ensures AwaitedPage(s, s.history) ==
            if s.loadingOlder then Reverse(s.history[Max(0, lo - CHUNK_SIZE)..lo])
            else s.history[hi..Min(|s.history|, hi + CHUNK_SIZE)]
  {
    hide Reverse, Page, History, Step, Drained, SplitsBefore, SplitsAfter;
    var h, r := s.history, s.requests[0];
    BoundsOf(s.window, h, lo, hi);
    if s.loadingOlder {
      BeforeIsPrefix(h, r.ts, lo);
      OlderPage(h, lo, r.ts, CHUNK_SIZE);
    } else {
      AfterIsSuffix(h, r.ts, hi);
      NewerPage(h, hi, r.ts, CHUNK_SIZE);
    }
    PageElements(h, r.limit, r.ts);
    ReopenedShowsAll(s);
    assert Pages(h, s.requests[1..]) == [];
    assert [] + Reverse(LastN(h, CHUNK_SIZE)) == Reverse(LastN(h, CHUNK_SIZE));
  }

  lemma ReversedNothing()
    ensures Reverse([]) == []
  {
  }

  /**
   Once everything awaited has arrived, a reopened view shows a stretch of the history if
   and only if nothing was awaited, or the history has at most one message and no page
   awaited has any; whatever the view showed before and however many pages it awaited.
   */
  lemma StartDrainsIff(s: Session)
    requires History(s.history)
    ensures ShowsSlice(Drained(Step(s, Start))) <==>
              s.requests == [] || (|s.history| <= 1 && Pages(s.history, s.requests) == [])
  {
    hide Reverse, Page, Step, Drained, History, LastN;
    var h, shown := s.history, Drained(Step(s, Start));
    if s.requests == [] {
      ReopenedIdle(s);
    } else {
      var r := s.requests[0];
      var first, rest := FirstN(Reverse(Page(h, r.limit, r.ts)), MAX_MESSAGES), Pages(h, s.requests[1..]);
      ReopenedShowsAll(s);
      PagesIn(h, s.requests);
      FirstOf(Page(h, r.limit, r.ts));
      if |h| > 1 {
        EndsUpsideDown(h, first + rest);
        assert first + (rest + Reverse(LastN(h, CHUNK_SIZE))) == first + rest + Reverse(LastN(h, CHUNK_SIZE));
      } else if Pages(h, s.requests) == [] {
        ShortHistory(h);
        assert first + (rest + h) == h;
        assert Slice(shown.window, h, 0, |h|);
      } else {
        assert h != [];
        ShortHistory(h);
        assert first + (rest + h) == first + rest + h;
        ShownAgain(h, first + rest);
      }
    }
  }

  /** Messages of the pages are messages of the history. */
  lemma {:induction false} PagesIn(h: seq<Message>, requests: seq<Request>)
    ensures forall x <- Pages(h, requests) :: x in h
    ensures h == [] ==> Pages(h, requests) == []
  {
    hide Page;
    if requests != [] {
      PageIn(h, requests[0].limit, requests[0].ts);
      PagesIn(h, requests[1..]);
    }
  }

  lemma PageIn(h: seq<Message>, limit: int, ts: int)
    ensures forall x <- Page(h, limit, ts) :: x in h
    ensures h == [] ==> Page(h, limit, ts) == []
  {
    if limit != 0 {
      PageElements(h, limit, ts);
    }
  }

  lemma FirstOf(page: seq<Message>)
    ensures var first := FirstN(Reverse(page), MAX_MESSAGES);
            (first == [] <==> page == []) && forall x <- first :: x in page
  {
    hide Reverse;
    var first := FirstN(Reverse(page), MAX_MESSAGES);
    forall i | 0 <= i < |first| ensures first[i] in page {
      assert first[i] == page[|page| - 1 - i];
    }
  }

  lemma ShortHistory(h: seq<Message>)
    requires |h| <= 1
    ensures Reverse(LastN(h, CHUNK_SIZE)) == h && LastN(h, MAX_MESSAGES) == h
  {
  }

  /** The end of what is shown falls, from the second oldest message of the page to the oldest. */
  lemma EndsUpsideDown(h: seq<Message>, above: seq<Message>)
    requires History(h) && |h| > 1
    ensures forall lo: nat, hi: nat ::
              !Slice(LastN(above + Reverse(LastN(h, CHUNK_SIZE)), MAX_MESSAGES), h, lo, hi)
  {
    hide Reverse;
    var newest := LastN(h, CHUNK_SIZE);
    var all := above + Reverse(newest);
    var shown := LastN(all, MAX_MESSAGES);
    var n := |shown|;
    assert shown[n - 1] == all[|all| - 1] == newest[0] && shown[n - 2] == all[|all| - 2] == newest[1];
    FallsBack(shown, h, n - 2);
  }

  /** The only message, shown more than once. */
  lemma ShownAgain(h: seq<Message>, above: seq<Message>)
    requires History(h) && |h| == 1 && above != [] && forall x <- above :: x in h
    ensures forall lo: nat, hi: nat :: !Slice(LastN(above + h, MAX_MESSAGES), h, lo, hi)
  {
    var shown := LastN(above + h, MAX_MESSAGES);
    var n := |shown|;
    assert shown[n - 1] == h[0] && shown[n - 2] == above[|above| - 1];
    assert above[|above| - 1] in above;
    FallsBack(shown, h, n - 2);
  }

  lemma ReopenedIdle(s: Session)
    requires History(s.history) && s.requests == []
    ensures ShowsSlice(Drained(Step(s, Start)))
  {
    var cleared := s.(window := [], loadingOlder := false, loadingNewer := false);
    assert Contiguous(cleared, 0, 0);
    LoadOlderKeeps(cleared, 0, 0);
    var reopened := Step(s, Start);
    assert reopened == LoadOlder(cleared);
    DrainedOne(reopened);
    AnswerKeeps(reopened, |s.history|, |s.history|);
    var lo', hi' :| Contiguous(Step(reopened, Answer), lo', hi');
    assert Slice(Step(reopened, Answer).window, s.history, lo', hi');
  }
}
