/**
 The messages a MessageView shows, as values: a bounded window over the history of
 a room, moved by pages from the server and by live messages.
 */
module MessageWindow {
  const MAX_MESSAGES := 100
  const CHUNK_SIZE := 25
  const FAR_FUTURE := 32517734834000000

  datatype Message = Message(id: int, timestamp: int, text: string)

  ghost predicate Ascending(h: seq<Message>) {
    forall i, j :: 0 <= i < j < |h| ==> h[i].timestamp < h[j].timestamp
  }

  function Reverse(s: seq<Message>): (r: seq<Message>)
    ensures |r| == |s|
    ensures forall i :: 0 <= i < |s| ==> r[i] == s[|s| - 1 - i]
  {
    if s == [] then [] else Reverse(s[1..]) + [s[0]]
  }

  function FirstN(s: seq<Message>, n: nat): seq<Message> {
    if |s| <= n then s else s[..n]
  }

  function LastN(s: seq<Message>, n: nat): seq<Message> {
    if |s| <= n then s else s[|s| - n..]
  }

  // The server's side: handleGetMessages.

  function Before(h: seq<Message>, ts: int): seq<Message> {
    if h == [] then [] else (if h[0].timestamp < ts then [h[0]] else []) + Before(h[1..], ts)
  }

  function After(h: seq<Message>, ts: int): seq<Message> {
    if h == [] then [] else (if h[0].timestamp > ts then [h[0]] else []) + After(h[1..], ts)
  }

  /** A positive limit asks for older messages, newest first; a negative one for newer, oldest first. */
  function Page(h: seq<Message>, limit: int, ts: int): seq<Message> {
    if limit > 0 then FirstN(Reverse(Before(h, ts)), limit) else FirstN(After(h, ts), -limit)
  }

  /** Exactly the first `lo` messages are older than `ts`. */
  ghost predicate SplitsBefore(h: seq<Message>, ts: int, lo: nat) {
    && lo <= |h|
    && (forall i :: 0 <= i < lo ==> h[i].timestamp < ts)
    && (forall i :: lo <= i < |h| ==> h[i].timestamp >= ts)
  }

  /** Exactly the messages from `hi` on are newer than `ts`. */
  ghost predicate SplitsAfter(h: seq<Message>, ts: int, hi: nat) {
    && hi <= |h|
    && (forall i :: 0 <= i < hi ==> h[i].timestamp <= ts)
    && (forall i :: hi <= i < |h| ==> h[i].timestamp > ts)
  }

  lemma {:induction false} BeforeIsPrefix(h: seq<Message>, ts: int, lo: nat)
    requires SplitsBefore(h, ts, lo)
    ensures Before(h, ts) == h[..lo]
  {
    if h != [] {
      BeforeIsPrefix(h[1..], ts, if lo == 0 then 0 else lo - 1);
      if lo > 0 {
        assert h[..lo] == [h[0]] + h[1..][..lo - 1];
      }
    }
  }

  lemma {:induction false} AfterIsSuffix(h: seq<Message>, ts: int, hi: nat)
    requires SplitsAfter(h, ts, hi)
    ensures After(h, ts) == h[hi..]
  {
    if h != [] {
      AfterIsSuffix(h[1..], ts, if hi == 0 then 0 else hi - 1);
      if hi > 0 {
        assert h[hi..] == h[1..][hi - 1..];
      } else {
        assert h == [h[0]] + h[1..][0..];
      }
    }
  }

  // The client's side: OnMessagesReceived.

  /** Every message is pushed to the front, then the bottom is trimmed. */
  function Prepended(window: seq<Message>, messages: seq<Message>): seq<Message> {
    FirstN(Reverse(messages) + window, MAX_MESSAGES)
  }

  /** Every message is pushed to the back, then the top is trimmed. */
  function Appended(window: seq<Message>, messages: seq<Message>): seq<Message> {
    LastN(window + messages, MAX_MESSAGES)
  }

  function Received(window: seq<Message>, messages: seq<Message>, loadingOlder: bool): seq<Message> {
    if messages == [] then window
    else if loadingOlder then Prepended(window, messages)
    else Appended(window, messages)
  }

  /** The window is h[lo..hi], and not too long. */
  predicate Slice(window: seq<Message>, h: seq<Message>, lo: nat, hi: nat) {
    lo <= hi <= |h| && window == h[lo..hi] && |window| <= MAX_MESSAGES
  }

  function Max(a: int, b: int): int { if a < b then b else a }
  function Min(a: int, b: int): int { if a < b then a else b }

  lemma ReverseTwice(s: seq<Message>)
    ensures Reverse(Reverse(s)) == s
  {
    hide Reverse;
  }

  lemma {:induction false} FirstOfReversed(s: seq<Message>, n: nat)
    requires n <= |s|
    ensures Reverse(s)[..n] == Reverse(s[|s| - n..])
  {
    if n == |s| {
      assert s[0..] == s && Reverse(s)[..n] == Reverse(s);
    } else {
      FirstOfReversed(s[1..], n);
      assert s[1..][|s| - 1 - n..] == s[|s| - n..];
      assert Reverse(s)[..n] == Reverse(s[1..])[..n];
    }
  }

  lemma FirstOfSlice(h: seq<Message>, lo: nat, hi: nat, n: nat)
    requires lo <= hi <= |h|
    ensures FirstN(h[lo..hi], n) == h[lo..Min(hi, lo + n)]
    ensures LastN(h[lo..hi], n) == h[Max(lo, hi - n)..hi]
  {
  }

  lemma OlderPage(h: seq<Message>, lo: nat, ts: int, limit: nat)
    requires lo <= |h| && Before(h, ts) == h[..lo] && limit > 0
    ensures Page(h, limit, ts) == Reverse(h[Max(0, lo - limit)..lo])
  {
    hide Reverse;
    if limit <= lo {
      FirstOfReversed(h[..lo], limit);
      assert h[..lo][lo - limit..] == h[lo - limit..lo];
    } else {
      assert h[..lo] == h[0..lo];
    }
  }

  /** An older page moves the window back by the size of the page. */
  lemma OlderPageMoves(window: seq<Message>, h: seq<Message>, lo: nat, hi: nat, ts: int, limit: nat)
    requires Slice(window, h, lo, hi) && Before(h, ts) == h[..lo] && limit > 0
    ensures var page := Page(h, limit, ts);
            var lo' := Max(0, lo - limit);
            && page == Reverse(h[lo'..lo])
            && Slice(Received(window, page, true), h, lo', Min(hi, lo' + MAX_MESSAGES))
  {
    hide Reverse, Page, FirstN;
    var lo' := Max(0, lo - limit);
    OlderPage(h, lo, ts, limit);
    ReverseTwice(h[lo'..lo]);
    assert h[lo'..lo] + window == h[lo'..hi];
    FirstOfSlice(h, lo', hi, MAX_MESSAGES);
  }

  lemma NewerPage(h: seq<Message>, hi: nat, ts: int, limit: nat)
    requires hi <= |h| && After(h, ts) == h[hi..] && limit > 0
    ensures Page(h, 0 - limit, ts) == h[hi..Min(|h|, hi + limit)]
  {
  }

  /** A newer page moves it forward. */
  lemma NewerPageMoves(window: seq<Message>, h: seq<Message>, lo: nat, hi: nat, ts: int, limit: nat)
    requires Slice(window, h, lo, hi) && After(h, ts) == h[hi..] && limit > 0
    ensures var page := Page(h, 0 - limit, ts);
            var hi' := Min(|h|, hi + limit);
            && page == h[hi..hi']
            && Slice(Received(window, page, false), h, Max(lo, hi' - MAX_MESSAGES), hi')
  {
    hide Page, LastN;
    var hi' := Min(|h|, hi + limit);
    NewerPage(h, hi, ts, limit);
    assert window + h[hi..hi'] == h[lo..hi'];
    FirstOfSlice(h, lo, hi', MAX_MESSAGES);
  }

  /**
   A live message keeps a window contiguous exactly when the window is empty, or no
   older page is awaited and the newest message is in it.
   */
  lemma LiveMessageIff(window: seq<Message>, h: seq<Message>, lo: nat, hi: nat, m: Message, loadingOlder: bool)
    requires Slice(window, h, lo, hi) && Ascending(h + [m])
    ensures (exists lo': nat, hi': nat :: Slice(Received(window, [m], loadingOlder), h + [m], lo', hi')) <==>
            window == [] || (!loadingOlder && hi == |h|)
  {
    var h', window' := h + [m], Received(window, [m], loadingOlder);
    assert Reverse([m]) == [m];
    if window == [] {
      assert window' == [m] == h'[|h|..|h| + 1];
      assert Slice(window', h', |h|, |h| + 1);
    } else if !loadingOlder && hi == |h| {
      assert window + [m] == h'[lo..|h| + 1];
      assert Slice(window', h', Max(lo, |h| + 1 - MAX_MESSAGES), |h| + 1);
    } else {
      forall lo': nat, hi': nat ensures !Slice(window', h', lo', hi') {
        if Slice(window', h', lo', hi') {
          if loadingOlder {
            SliceMeansNotOlder(window, h, lo, hi, m, lo', hi');
          } else {
            SliceMeansNewest(window, h, lo, hi, m, lo', hi');
          }
        }
      }
    }
  }

  /** If the result is a slice, no older page was awaited. */
  lemma SliceMeansNotOlder(window: seq<Message>, h: seq<Message>, lo: nat, hi: nat, m: Message, lo': nat, hi': nat)
    requires Slice(window, h, lo, hi) && Ascending(h + [m]) && window != []
    ensures !Slice(Received(window, [m], true), h + [m], lo', hi')
  {
    var h', window' := h + [m], Received(window, [m], true);
    assert Reverse([m]) == [m];
    assert window'[0] == m && window'[1] == window[0] == h[lo];
    assert h'[lo] == h[lo] && h'[|h|] == m;
    if Slice(window', h', lo', hi') {
      Neighbours(window', h', lo', hi', 0);
    }
  }

  /** If the result is a slice, the message followed the newest of the window. */
  lemma SliceMeansNewest(window: seq<Message>, h: seq<Message>, lo: nat, hi: nat, m: Message, lo': nat, hi': nat)
    requires Slice(window, h, lo, hi) && Ascending(h + [m]) && window != []
    requires Slice(Received(window, [m], false), h + [m], lo', hi')
    ensures hi == |h|
  {
    var h', window' := h + [m], Received(window, [m], false);
    var k := |window'| - 2;
    assert window'[k] == window[|window| - 1] == h[hi - 1] && window'[k + 1] == m;
    assert h'[|h|] == m && h'[hi - 1] == h[hi - 1];
    Neighbours(window', h', lo', hi', k);
    SameIndex(h', lo' + k + 1, |h|);
    SameIndex(h', lo' + k, hi - 1);
  }

  lemma SameIndex(h: seq<Message>, i: nat, j: nat)
    requires Ascending(h) && i < |h| && j < |h| && h[i] == h[j]
    ensures i == j
  {
  }

  lemma Neighbours(window: seq<Message>, h: seq<Message>, lo: nat, hi: nat, k: nat)
    requires Slice(window, h, lo, hi) && k + 1 < |window| && Ascending(h)
    ensures window[k] == h[lo + k] && window[k + 1] == h[lo + k + 1]
    ensures window[k].timestamp < window[k + 1].timestamp
  {
  }

  // Whole sessions: one room, one view, requests answered in order.

  datatype Request = Request(limit: int, ts: int)

  datatype Session = Session(
    history: seq<Message>,
    window: seq<Message>,
    loadingOlder: bool,
    loadingNewer: bool,
    requests: seq<Request>)

  datatype Event =
    | Start             // the room is cleared, or the user jumps to the present
    | ScrollUp          // near the top
    | ScrollDown        // near the bottom
    | Answer            // the server answers and the view receives the page
    | Post(m: Message)  // somebody writes a message and the view receives it
    | Delete(id: int)   // a message is deleted and the view is told

  function OldestRequest(window: seq<Message>): Request {
    Request(CHUNK_SIZE, if window == [] then FAR_FUTURE else window[0].timestamp)
  }

  function WithoutId(s: seq<Message>, id: int): seq<Message> {
    if s == [] then [] else if s[0].id == id then s[1..] else [s[0]] + WithoutId(s[1..], id)
  }

  predicate Enabled(s: Session, e: Event) {
    e.Answer? ==> s.requests != []
  }

  function LoadOlder(s: Session): Session {
    if s.loadingOlder then s
    else s.(loadingOlder := true, requests := s.requests + [OldestRequest(s.window)])
  }

  function LoadNewer(s: Session): Session {
    if s.loadingNewer || s.window == [] then s
    else s.(loadingNewer := true,
            requests := s.requests + [Request(-CHUNK_SIZE, s.window[|s.window| - 1].timestamp)])
  }

  function Receive(s: Session, messages: seq<Message>): Session {
    s.(window := Received(s.window, messages, s.loadingOlder), loadingOlder := false, loadingNewer := false)
  }

  function Step(s: Session, e: Event): Session
    requires Enabled(s, e)
  {
    match e
    case Start => LoadOlder(s.(window := [], loadingOlder := false, loadingNewer := false))
    case ScrollUp => if s.loadingOlder || s.loadingNewer then s else LoadOlder(s)
    case ScrollDown => if s.loadingOlder || s.loadingNewer then s else LoadNewer(s)
    case Answer =>
      Receive(s.(requests := s.requests[1..]), Page(s.history, s.requests[0].limit, s.requests[0].ts))
    case Post(m) => Receive(s.(history := s.history + [m]), [m])
    case Delete(id) => s.(history := WithoutId(s.history, id), window := WithoutId(s.window, id))
  }

  /**
   The conditions: opening and live messages find nothing awaited, a live message
   follows the newest one shown, and a new message is later than all others.
   */
  predicate Orderly(s: Session, e: Event) {
    match e
    case Start => s.requests == []
    case Post(m) =>
      && s.requests == []
      && (s.window == [] || (s.history != [] && s.window[|s.window| - 1] == s.history[|s.history| - 1]))
      && m.timestamp < FAR_FUTURE
      && (forall x <- s.history :: x.timestamp < m.timestamp && x.id != m.id)
    case _ => true
  }

  ghost predicate History(h: seq<Message>) {
    && Ascending(h)
    && (forall i :: 0 <= i < |h| ==> h[i].timestamp < FAR_FUTURE)
    && (forall i, j :: 0 <= i < j < |h| ==> h[i].id != h[j].id)
  }

  /** What is awaited continues the window h[lo..hi] on the side of the flag. */
  ghost predicate Awaits(s: Session, lo: nat, hi: nat)
    requires lo <= hi <= |s.history|
  {
    && !(s.loadingOlder && s.loadingNewer)
    && (s.requests == [] <==> !s.loadingOlder && !s.loadingNewer)
    && |s.requests| <= 1
    && (s.loadingOlder ==>
          s.requests[0].limit == CHUNK_SIZE && SplitsBefore(s.history, s.requests[0].ts, lo))
    && (s.loadingNewer ==>
          s.requests[0].limit == -CHUNK_SIZE && SplitsAfter(s.history, s.requests[0].ts, hi))
  }

  ghost predicate Contiguous(s: Session, lo: nat, hi: nat) {
    History(s.history) && Slice(s.window, s.history, lo, hi) && Awaits(s, lo, hi)
  }

  lemma LoadOlderKeeps(s: Session, lo: nat, hi: nat)
    requires Contiguous(s, lo, hi) && s.requests == []
    ensures Contiguous(LoadOlder(s), if s.window == [] then |s.history| else lo,
                       if s.window == [] then |s.history| else hi)
  {
    assert s.window != [] ==> s.window[0] == s.history[lo];
  }

  lemma LoadNewerKeeps(s: Session, lo: nat, hi: nat)
    requires Contiguous(s, lo, hi) && s.requests == []
    ensures Contiguous(LoadNewer(s), lo, hi)
  {
    assert s.window != [] ==> s.window[|s.window| - 1] == s.history[hi - 1];
  }

  lemma AnswerKeeps(s: Session, lo: nat, hi: nat)
    requires Contiguous(s, lo, hi) && s.requests != []
    ensures exists lo', hi' :: Contiguous(Step(s, Answer), lo', hi')
  {
    hide Received, Page, History, Slice, Ascending, SplitsBefore, SplitsAfter;
    var h, r := s.history, s.requests[0];
    BoundsOf(s.window, h, lo, hi);
    if s.loadingOlder {
      BeforeIsPrefix(h, r.ts, lo);
      OlderPageMoves(s.window, h, lo, hi, r.ts, CHUNK_SIZE);
      var lo' := Max(0, lo - CHUNK_SIZE);
      BoundsOf(Step(s, Answer).window, h, lo', Min(hi, lo' + MAX_MESSAGES));
      assert Contiguous(Step(s, Answer), lo', Min(hi, lo' + MAX_MESSAGES));
    } else {
      AfterIsSuffix(h, r.ts, hi);
      NewerPageMoves(s.window, h, lo, hi, r.ts, CHUNK_SIZE);
      var hi' := Min(|h|, hi + CHUNK_SIZE);
      BoundsOf(Step(s, Answer).window, h, Max(lo, hi' - MAX_MESSAGES), hi');
      assert Contiguous(Step(s, Answer), Max(lo, hi' - MAX_MESSAGES), hi');
    }
  }

  lemma BoundsOf(window: seq<Message>, h: seq<Message>, lo: nat, hi: nat)
    requires Slice(window, h, lo, hi)
    ensures lo <= hi <= |h|
  {
  }

  lemma PostKeeps(s: Session, lo: nat, hi: nat, m: Message)
    requires Contiguous(s, lo, hi) && Orderly(s, Post(m))
    ensures exists lo', hi' :: Contiguous(Step(s, Post(m)), lo', hi')
  {
    var h, h' := s.history, s.history + [m];
    assert forall i :: 0 <= i < |h| ==> h[i] in h;
    assert History(h');
    if s.window != [] {
      assert s.window[|s.window| - 1] == h[hi - 1];
      assert hi == |h|;
    }
    LiveMessageIff(s.window, h, lo, hi, m, s.loadingOlder);
    var lo': nat, hi': nat :| Slice(Received(s.window, [m], s.loadingOlder), h', lo', hi');
    assert Contiguous(Step(s, Post(m)), lo', hi');
  }

  function Without(h: seq<Message>, k: nat): seq<Message>
    requires k < |h|
  {
    h[..k] + h[k + 1..]
  }

  lemma WithoutNext(h: seq<Message>, k: nat)
    requires 0 < k < |h|
    ensures Without(h, k) == [h[0]] + Without(h[1..], k - 1)
  {
    assert h[..k] == [h[0]] + h[1..][..k - 1] && h[k + 1..] == h[1..][k..];
  }

  lemma {:induction false} WithoutIdAt(h: seq<Message>, id: int, k: nat)
    requires k <= |h| && (forall i :: 0 <= i < k ==> h[i].id != id) && (k < |h| ==> h[k].id == id)
    ensures WithoutId(h, id) == if k < |h| then Without(h, k) else h
  {
    if k > 0 {
      hide Without;
      WithoutIdAt(h[1..], id, k - 1);
      if k < |h| {
        WithoutNext(h, k);
      } else {
        assert h == [h[0]] + h[1..];
      }
    }
  }

  function IndexOfId(h: seq<Message>, id: int): (k: nat)
    ensures k <= |h| && (forall i :: 0 <= i < k ==> h[i].id != id) && (k < |h| ==> h[k].id == id)
  {
    if h == [] || h[0].id == id then 0 else 1 + IndexOfId(h[1..], id)
  }

  lemma SliceAfter(h: seq<Message>, k: nat, lo: nat, hi: nat)
    requires k < lo <= hi <= |h|
    ensures Without(h, k)[lo - 1..hi - 1] == h[lo..hi]
  {
  }

  lemma SliceAround(h: seq<Message>, k: nat, lo: nat, hi: nat)
    requires lo <= k < hi <= |h|
    ensures Without(h, k)[lo..hi - 1] == Without(h[lo..hi], k - lo)
  {
    assert h[lo..hi][..k - lo] == h[lo..k] && h[lo..hi][k - lo + 1..] == h[k + 1..hi];
    assert Without(h, k)[lo..hi - 1] == h[lo..k] + h[k + 1..hi];
  }

  lemma SliceBelow(h: seq<Message>, k: nat, lo: nat, hi: nat)
    requires lo <= hi <= k < |h|
    ensures Without(h, k)[lo..hi] == h[lo..hi]
  {
  }

  lemma OtherIds(h: seq<Message>, id: int, i: nat)
    requires History(h) && i < |h| && i != IndexOfId(h, id)
    ensures h[i].id != id
  {
  }

  lemma WindowWithout(window: seq<Message>, h: seq<Message>, lo: nat, hi: nat, id: int)
    requires Slice(window, h, lo, hi) && History(h)
    ensures var k := IndexOfId(h, id);
            WithoutId(window, id) == if lo <= k < hi then Without(window, k - lo) else window
  {
    hide History, IndexOfId;
    var k := IndexOfId(h, id);
    forall i | 0 <= i < |window| && lo + i != k ensures window[i].id != id {
      OtherIds(h, id, lo + i);
    }
    WithoutIdAt(window, id, if lo <= k < hi then k - lo else |window|);
  }

  /** Deleting below, inside or above the window. */
  lemma DeleteFromSlice(window: seq<Message>, h: seq<Message>, lo: nat, hi: nat, id: int)
    requires Slice(window, h, lo, hi) && History(h)
    ensures var k := IndexOfId(h, id);
            Slice(WithoutId(window, id), WithoutId(h, id), if k < lo then lo - 1 else lo, if k < hi then hi - 1 else hi)
  {
    hide History, WithoutId;
    var k := IndexOfId(h, id);
    WithoutIdAt(h, id, k);
    WindowWithout(window, h, lo, hi, id);
    if k < lo {
      SliceAfter(h, k, lo, hi);
    } else if k < hi {
      SliceAround(h, k, lo, hi);
    } else if k < |h| {
      SliceBelow(h, k, lo, hi);
    }
  }

  lemma HistoryWithout(h: seq<Message>, k: nat)
    requires History(h) && k < |h|
    ensures History(Without(h, k))
  {
    var h' := Without(h, k);
    assert forall i :: 0 <= i < |h'| ==> h'[i] == h[if i < k then i else i + 1];
  }

  lemma SplitsWithout(h: seq<Message>, k: nat, ts: int, n: nat)
    requires k < |h| && n <= |h|
    ensures SplitsBefore(h, ts, n) ==> SplitsBefore(Without(h, k), ts, if k < n then n - 1 else n)
    ensures SplitsAfter(h, ts, n) ==> SplitsAfter(Without(h, k), ts, if k < n then n - 1 else n)
  {
    var h' := Without(h, k);
    assert forall i :: 0 <= i < |h'| ==> h'[i] == h[if i < k then i else i + 1];
  }

  lemma DeleteKeeps(s: Session, lo: nat, hi: nat, id: int)
    requires Contiguous(s, lo, hi)
    ensures exists lo', hi' :: Contiguous(Step(s, Delete(id)), lo', hi')
  {
    hide WithoutId, Slice, History, SplitsBefore, SplitsAfter;
    var h, k := s.history, IndexOfId(s.history, id);
    var lo', hi' := if k < lo then lo - 1 else lo, if k < hi then hi - 1 else hi;
    BoundsOf(s.window, h, lo, hi);
    WithoutIdAt(h, id, k);
    DeleteFromSlice(s.window, h, lo, hi, id);
    BoundsOf(WithoutId(s.window, id), WithoutId(h, id), lo', hi');
    if k < |h| {
      HistoryWithout(h, k);
      if s.requests != [] {
        SplitsWithout(h, k, s.requests[0].ts, lo);
        SplitsWithout(h, k, s.requests[0].ts, hi);
      }
    }
    assert Contiguous(Step(s, Delete(id)), lo', hi');
  }

  /** An orderly step leaves the window a contiguous slice, and what is awaited continues it. */
  lemma OrderlyKeepsWindow(s: Session, e: Event, lo: nat, hi: nat)
    requires Contiguous(s, lo, hi) && Enabled(s, e) && Orderly(s, e)
    ensures exists lo', hi' :: Contiguous(Step(s, e), lo', hi')
  {
    match e
    case Start =>
      var cleared := s.(window := [], loadingOlder := false, loadingNewer := false);
      assert Contiguous(cleared, lo, lo);
      LoadOlderKeeps(cleared, lo, lo);
      assert Step(s, e) == LoadOlder(cleared);
    case ScrollUp =>
      if s.loadingOlder || s.loadingNewer {
        assert Contiguous(Step(s, e), lo, hi);
      } else {
        LoadOlderKeeps(s, lo, hi);
        assert Step(s, e) == LoadOlder(s);
      }
    case ScrollDown =>
      if s.loadingOlder || s.loadingNewer {
        assert Contiguous(Step(s, e), lo, hi);
      } else {
        LoadNewerKeeps(s, lo, hi);
        assert Contiguous(Step(s, e), lo, hi);
      }
    case Answer => AnswerKeeps(s, lo, hi);
    case Post(m) => PostKeeps(s, lo, hi, m);
    case Delete(id) => DeleteKeeps(s, lo, hi, id);
  }

  /** A step keeps the window contiguous and what is awaited its continuation if and only if it is orderly. */
  lemma StepKeepsWindowIff(s: Session, e: Event, lo: nat, hi: nat)
    requires Contiguous(s, lo, hi) && Enabled(s, e)
    ensures (exists lo', hi' :: Contiguous(Step(s, e), lo', hi')) <==> Orderly(s, e)
  {
    if Orderly(s, e) {
      OrderlyKeepsWindow(s, e, lo, hi);
    }
    if lo', hi' :| Contiguous(Step(s, e), lo', hi') {
      if e.Post? {
        PostWasOrderly(s, e.m, lo, hi, lo', hi');
      } else if e.Start? {
        assert |s.requests + [OldestRequest([])]| <= 1;
      }
    }
  }

  lemma PostWasOrderly(s: Session, m: Message, lo: nat, hi: nat, lo': nat, hi': nat)
    requires Contiguous(s, lo, hi) && Contiguous(Step(s, Post(m)), lo', hi')
    ensures Orderly(s, Post(m))
  {
    var h, h' := s.history, s.history + [m];
    assert h'[|h|] == m;
    assert forall i :: 0 <= i < |h| ==> h'[i] == h[i] && h[i].timestamp < m.timestamp && h[i].id != m.id;
    LiveMessageIff(s.window, h, lo, hi, m, s.loadingOlder);
    assert s.window != [] ==> s.window[|s.window| - 1] == h[hi - 1];
  }

  ghost predicate Run(s: Session, events: seq<Event>, s': Session)
    decreases |events|
  {
    if events == [] then s' == s
    else Enabled(s, events[0]) && Orderly(s, events[0]) && Run(Step(s, events[0]), events[1..], s')
  }

  lemma {:induction false} RunKeepsWindow(s: Session, events: seq<Event>, s': Session, lo: nat, hi: nat)
    requires Contiguous(s, lo, hi) && Run(s, events, s')
    ensures exists lo', hi' :: Contiguous(s', lo', hi')
    decreases |events|
  {
    hide Contiguous, Step, Orderly;
    if events == [] {
      assert Contiguous(s', lo, hi);
    } else {
      OrderlyKeepsWindow(s, events[0], lo, hi);
      var lo', hi' :| Contiguous(Step(s, events[0]), lo', hi');
      RunKeepsWindow(Step(s, events[0]), events[1..], s', lo', hi');
    }
  }

  /** In every orderly session the view shows a contiguous stretch of the room's history. */
  lemma WindowIsContiguous(h: seq<Message>, events: seq<Event>, s: Session)
    requires History(h) && Run(Session(h, [], false, false, []), events, s)
    ensures exists lo: nat, hi: nat :: Slice(s.window, s.history, lo, hi)
    ensures Ascending(s.window) && |s.window| <= MAX_MESSAGES
  {
    assert Contiguous(Session(h, [], false, false, []), 0, 0);
    RunKeepsWindow(Session(h, [], false, false, []), events, s, 0, 0);
    var lo, hi :| Contiguous(s, lo, hi);
    assert Slice(s.window, s.history, lo, hi);
  }

  // Older pages enumerate the history.

  /** Nothing is awaited. */
  predicate Idle(s: Session) {
    s.requests == [] && !s.loadingOlder && !s.loadingNewer
  }

  /** Scroll to the top, receive the page. */
  function OlderRound(s: Session): (s': Session)
    requires Idle(s)
    ensures Idle(s')
  {
    Step(Step(s, ScrollUp), Answer)
  }

  function AfterOlderPages(s: Session, n: nat): (s': Session)
    requires Idle(s)
    ensures Idle(s')
  {
    if n == 0 then s else OlderRound(AfterOlderPages(s, n - 1))
  }

  /** All pages received, oldest first. */
  function PagesReceived(s: Session, n: nat): seq<Message>
    requires Idle(s)
  {
    if n == 0 then []
    else
      var before := AfterOlderPages(s, n - 1);
      var r := OldestRequest(before.window);
      Reverse(Page(before.history, r.limit, r.ts)) + PagesReceived(s, n - 1)
  }

  /** One page further back. */
  lemma OneOlderPage(s: Session, lo: nat)
    requires Idle(s) && History(s.history) && Slice(s.window, s.history, lo, Min(|s.history|, lo + MAX_MESSAGES))
    ensures var r := OldestRequest(s.window);
            var lo' := Max(0, lo - CHUNK_SIZE);
            && Reverse(Page(s.history, r.limit, r.ts)) == s.history[lo'..lo]
            && Slice(OlderRound(s).window, s.history, lo', Min(|s.history|, lo' + MAX_MESSAGES))
            && OlderRound(s).history == s.history
  {
    hide Page, Reverse, Received;
    var h, r := s.history, OldestRequest(s.window);
    var hi, lo' := Min(|h|, lo + MAX_MESSAGES), Max(0, lo - CHUNK_SIZE);
    OldestSplits(s.window, h, lo, hi);
    BeforeIsPrefix(h, r.ts, lo);
    OlderPageMoves(s.window, h, lo, hi, r.ts, CHUNK_SIZE);
    ReverseTwice(h[lo'..lo]);
    assert Min(hi, lo' + MAX_MESSAGES) == Min(|h|, lo' + MAX_MESSAGES);
  }

  /** From an empty view, the first `n` pages are the last 25n messages, each exactly once. */
  lemma {:induction false} OlderPagesEnumerate(h: seq<Message>, n: nat)
    requires History(h)
    ensures var s := AfterOlderPages(Session(h, [], false, false, []), n);
            var lo := Max(0, |h| - CHUNK_SIZE * n);
            && s.history == h
            && Slice(s.window, h, lo, Min(|h|, lo + MAX_MESSAGES))
            && PagesReceived(Session(h, [], false, false, []), n) == h[lo..]
    decreases n
  {
    hide Page, Reverse, OlderRound, Slice, History, OldestRequest;
    if n == 0 {
      NothingShown(h);
    } else {
      OlderPagesEnumerate(h, n - 1);
      var lo := Max(0, |h| - CHUNK_SIZE * (n - 1));
      var lo' := Max(0, |h| - CHUNK_SIZE * n);
      OneOlderPage(AfterOlderPages(Session(h, [], false, false, []), n - 1), lo);
      assert h[lo'..lo] + h[lo..] == h[lo'..];
    }
  }

  lemma NothingShown(h: seq<Message>)
    ensures Slice([], h, |h|, |h|) && h[|h|..] == []
  {
  }

  /** The oldest message shown is where the older part of the history ends. */
  lemma OldestSplits(window: seq<Message>, h: seq<Message>, lo: nat, hi: nat)
    requires History(h) && Slice(window, h, lo, hi)
    requires window == [] ==> lo == |h|
    ensures SplitsBefore(h, OldestRequest(window).ts, lo)
  {
    assert window != [] ==> window[0] == h[lo];
  }
}
