/**
 MessageView in place: the deque of widgets, the pool they come from and go back
 to, the loading flags, and the scroll row asked for after every batch.
 */
module MessageView {
  import opened Wrappers
  import opened MessageWindow

  class MessageWidget {
    var msg: Message
    var shown: bool

    constructor (m: Message)
      ensures msg == m
    {
      msg, shown := m, true;
    }

    method Update(m: Message)
      modifies this
      ensures msg == m && shown == old(shown)
    {
      msg := m;
    }

    method Hide()
      modifies this
      ensures msg == old(msg) && !shown
    {
      shown := false;
    }
  }

  ghost predicate NoRepeats(ws: seq<MessageWidget>) {
    forall i, j :: 0 <= i < j < |ws| ==> ws[i] != ws[j]
  }

  function Contents(ws: seq<MessageWidget>): (ms: seq<Message>)
    reads ws
    ensures |ms| == |ws|
  {
    seq(|ws|, i requires 0 <= i < |ws| reads ws => ws[i].msg)
  }

  lemma ContentsAt(ws: seq<MessageWidget>, i: nat)
    requires i < |ws|
    ensures Contents(ws)[i] == ws[i].msg
  {
  }

  ghost function Members(ws: seq<MessageWidget>): set<MessageWidget> {
    set w <- ws
  }

  class GenericCacher {
    var items: seq<MessageWidget>

    constructor ()
      ensures items == []
    {
      items := [];
    }

    /** The oldest pooled widget, updated; only an empty pool makes a new one. */
    method GetInstance(m: Message) returns (w: MessageWidget)
      modifies this, Members(items)
      ensures w.msg == m
      ensures old(items) != [] ==> w == old(items[0]) && items == old(items[1..])
      ensures old(items) == [] ==> fresh(w) && items == []
      ensures forall x <- old(items) :: x != w ==> x.msg == old(x.msg)
    {
      if items != [] {
        w := items[0];
        items := items[1..];
        w.Update(m);
      } else {
        w := new MessageWidget(m);
      }
    }

    method ReturnInstance(w: MessageWidget)
      modifies this, w
      ensures items == old(items) + [w]
      ensures w.msg == old(w.msg) && !w.shown
    {
      w.Hide();
      items := items + [w];
    }
  }

  function Total(h: Message -> nat, ms: seq<Message>): nat {
    if ms == [] then 0 else Total(h, ms[..|ms| - 1]) + h(ms[|ms| - 1])
  }

  /** A window after the first `i` messages of a newer batch. */
  ghost function WithFirst(window: seq<Message>, messages: seq<Message>, i: nat): seq<Message>
    requires i <= |messages|
  {
    window + messages[..i]
  }

  lemma NoneAdded(window: seq<Message>, messages: seq<Message>)
    ensures WithFirst(window, messages, 0) == window
    ensures WithFirst(window, messages, |messages|) == window + messages
  {
    assert messages[..|messages|] == messages;
  }

  lemma OneMoreAdded(window: seq<Message>, messages: seq<Message>, i: nat)
    requires i < |messages|
    ensures WithFirst(window, messages, i + 1) == WithFirst(window, messages, i) + [messages[i]]
  {
  }

  /** How many widgets a batch pushes out at the top. */
  function Overflow(shown: nat, batch: nat): nat {
    if shown + batch > MAX_MESSAGES then shown + batch - MAX_MESSAGES else 0
  }

  /** What the loop before adding sums up: it stops at the end of the deque. */
  function RemovedHeight(h: Message -> nat, window: seq<Message>, batch: nat): nat {
    Total(h, window[..Min(Overflow(|window|, batch), |window|)])
  }

  /** The row that UpdateLayoutAndScroll asks for. */
  function RequestedRow(h: Message -> nat, window: seq<Message>, messages: seq<Message>, loadingOlder: bool,
                        isHistory: bool, visibleBegin: int, clientHeight: int): int {
    if loadingOlder then
      if window == [] then Total(h, Prepended(window, messages)) - clientHeight
      else visibleBegin + Total(h, Reverse(messages))
    else if !isHistory && visibleBegin + clientHeight >= Total(h, window) - 5 then
      Total(h, Appended(window, messages))
    else Max(0, visibleBegin - RemovedHeight(h, window, |messages|))
  }

  class MessageView {
    const pool: GenericCacher
    const height: Message -> nat
    var widgets: seq<MessageWidget>
    var loadingOlder: bool
    var loadingNewer: bool
    var unitCount: nat
    var requestedRow: int

    /** Every widget is in the pool or in the deque, once. */
    ghost predicate Stocked()
      reads this, pool
    {
      NoRepeats(pool.items) && NoRepeats(widgets) && Members(pool.items) !! Members(widgets)
    }

    ghost predicate Valid()
      reads this, pool, widgets
    {
      Stocked() && |widgets| <= MAX_MESSAGES && unitCount == Total(height, Contents(widgets))
    }

    ghost function Everything(): set<MessageWidget>
      reads this, pool
    {
      Members(pool.items) + Members(widgets)
    }

    /** All 125 widgets are accounted for. */
    ghost predicate Full()
      reads this, pool
    {
      |pool.items| + |widgets| == MAX_MESSAGES + CHUNK_SIZE
    }

    constructor (height: Message -> nat)
      ensures Valid() && Full() && widgets == [] && !loadingOlder && !loadingNewer
      ensures fresh(pool) && fresh(Everything())
    {
      var cacher := new GenericCacher();
      pool, this.height := cacher, height;
      widgets, loadingOlder, loadingNewer, unitCount, requestedRow := [], false, false, 0, 0;
      new;
      for i := 0 to MAX_MESSAGES + CHUNK_SIZE
        invariant |pool.items| == i && NoRepeats(pool.items)
        invariant fresh(pool) && fresh(Members(pool.items))
        invariant widgets == [] && !loadingOlder && !loadingNewer && unitCount == 0
      {
        var w := new MessageWidget(Message(0, 0, ""));
        ghost var before := pool.items;
        pool.ReturnInstance(w);
        assert Members(pool.items) == Members(before) + {w};
      }
    }

    method AddMessageWidget(m: Message, prepend: bool)
      requires Stocked()
      modifies this`widgets, pool, Members(pool.items)
      ensures Stocked() && fresh(Everything() - old(Everything())) && old(Everything()) <= Everything()
      ensures |widgets| == old(|widgets|) + 1 && Members(pool.items) <= old(Members(pool.items))
      ensures Contents(widgets) == if prepend then [m] + old(Contents(widgets)) else old(Contents(widgets)) + [m]
      ensures old(pool.items) != [] ==> Everything() == old(Everything()) && |pool.items| == old(|pool.items|) - 1
    {
      ghost var before, stock := widgets, pool.items;
      var w := pool.GetInstance(m);
      if prepend {
        widgets := [w] + widgets;
      } else {
        widgets := widgets + [w];
      }
      TakenFromPool(stock, before, w, pool.items, widgets);
    }

    /** Give back one widget from the end of the deque. */
    method DropOne(fromTop: bool)
      requires Stocked() && widgets != []
      modifies this`widgets, pool, Members(widgets)
      ensures Stocked() && Everything() == old(Everything()) && Members(widgets) <= old(Members(widgets))
      ensures |pool.items| == old(|pool.items|) + 1
      ensures Contents(widgets) ==
              if fromTop then old(Contents(widgets))[1..] else old(Contents(widgets))[..|old(widgets)| - 1]
    {
      ghost var before, stock := widgets, pool.items;
      var toDelete;
      if fromTop {
        toDelete := widgets[0];
        widgets := widgets[1..];
      } else {
        toDelete := widgets[|widgets| - 1];
        widgets := widgets[..|widgets| - 1];
      }
      pool.ReturnInstance(toDelete);
      ReturnedToPool(stock, before, if fromTop then 0 else |before| - 1, pool.items, widgets);
    }

    method TrimWidgets(fromTop: bool)
      requires Stocked()
      modifies this`widgets, pool, Members(widgets)
      ensures Stocked() && Everything() == old(Everything())
      ensures |pool.items| + |widgets| == old(|pool.items| + |widgets|) && |widgets| <= MAX_MESSAGES
      ensures Contents(widgets) == if fromTop then LastN(old(Contents(widgets)), MAX_MESSAGES)
                                   else FirstN(old(Contents(widgets)), MAX_MESSAGES)
    {
      hide NoRepeats, Members, Contents, FirstN, LastN;
      ghost var ms := Contents(widgets);
      while |widgets| > MAX_MESSAGES
        invariant Stocked() && Everything() == old(Everything())
        invariant Members(widgets) <= old(Members(widgets))
        invariant |pool.items| + |widgets| == old(|pool.items| + |widgets|)
        invariant |widgets| <= |ms| && |widgets| >= Min(|ms|, MAX_MESSAGES)
        invariant Contents(widgets) == if fromTop then ms[|ms| - |widgets|..] else ms[..|widgets|]
      {
        ghost var before := Contents(widgets);
        DropOne(fromTop);
        ShorterBy(ms, before, |widgets|, fromTop);
      }
      EnoughTrimmed(ms, |widgets|);
    }

    method CalculateTotalHeight() returns (total: nat)
      ensures total == Total(height, Contents(widgets))
    {
      total := 0;
      ghost var ms := Contents(widgets);
      for i := 0 to |widgets|
        invariant total == Total(height, ms[..i])
      {
        assert ms[..i + 1][..i] == ms[..i];
        total := total + height(widgets[i].msg);
      }
      assert ms[..|ms|] == ms;
    }

    method ScrollToRow(row: int)
      modifies this`requestedRow
      ensures requestedRow == row
    {
      requestedRow := row;
    }

    /** `visibleBegin` and `clientHeight` are what the window system reports. */
    method OnMessagesReceived(messages: seq<Message>, isHistory: bool, visibleBegin: int, clientHeight: int)
      requires Valid()
      modifies this, pool, Everything()
      ensures Valid() && fresh(Everything() - old(Everything()))
      ensures Contents(widgets) == Received(old(Contents(widgets)), messages, old(loadingOlder))
      ensures !loadingOlder && !loadingNewer
      ensures messages == [] ==> requestedRow == old(requestedRow)
      ensures messages != [] ==>
                requestedRow == RequestedRow(height, old(Contents(widgets)), messages, old(loadingOlder), isHistory,
                                             visibleBegin, clientHeight)
      ensures |messages| <= old(|pool.items|) ==> Everything() == old(Everything())
      ensures old(Full()) && |messages| <= CHUNK_SIZE ==> Full() && Everything() == old(Everything())
    {
      if messages != [] {
        UpdateLayoutAndScroll(messages, isHistory, visibleBegin, clientHeight);
      }
      loadingOlder := false;
      loadingNewer := false;
    }

    method UpdateLayoutAndScroll(messages: seq<Message>, isHistory: bool, visibleBegin: int, clientHeight: int)
      requires Valid() && messages != []
      modifies this, pool, Everything()
      ensures Valid() && fresh(Everything() - old(Everything()))
      ensures Contents(widgets) == Received(old(Contents(widgets)), messages, old(loadingOlder))
      ensures requestedRow == RequestedRow(height, old(Contents(widgets)), messages, old(loadingOlder), isHistory,
                                           visibleBegin, clientHeight)
      ensures |messages| <= old(|pool.items|) ==>
                Everything() == old(Everything()) && |pool.items| + |widgets| == old(|pool.items| + |widgets|)
    {
      if loadingOlder {
        ShowOlder(messages, visibleBegin, clientHeight);
      } else {
        ShowNewer(messages, isHistory, visibleBegin, clientHeight);
      }
    }

    method ShowOlder(messages: seq<Message>, oldScrollY: int, clientHeight: int)
      requires Valid() && messages != []
      modifies this, pool, Everything()
      ensures Valid() && fresh(Everything() - old(Everything()))
      ensures Contents(widgets) == Prepended(old(Contents(widgets)), messages)
      ensures requestedRow ==
              RequestedRow(height, old(Contents(widgets)), messages, true, true, oldScrollY, clientHeight)
      ensures |messages| <= old(|pool.items|) ==>
                Everything() == old(Everything()) && |pool.items| + |widgets| == old(|pool.items| + |widgets|)
    {
      hide NoRepeats, Reverse, Total, FirstN;
      var wasEmpty := widgets == [];
      var addedHeight := AddOlder(messages);
      TrimWidgets(false);
      unitCount := CalculateTotalHeight();
      if wasEmpty {
        ScrollToRow(unitCount - clientHeight);
      } else {
        ScrollToRow(oldScrollY + addedHeight);
      }
    }

    method ShowNewer(messages: seq<Message>, isHistory: bool, oldScrollY: int, clientHeight: int)
      requires Valid() && messages != []
      modifies this, pool, Everything()
      ensures Valid() && fresh(Everything() - old(Everything()))
      ensures Contents(widgets) == Appended(old(Contents(widgets)), messages)
      ensures requestedRow ==
              RequestedRow(height, old(Contents(widgets)), messages, false, isHistory, oldScrollY, clientHeight)
      ensures |messages| <= old(|pool.items|) ==>
                Everything() == old(Everything()) && |pool.items| + |widgets| == old(|pool.items| + |widgets|)
    {
      hide NoRepeats, RemovedHeight, Total, LastN;
      var wasAtBottom := oldScrollY + clientHeight >= unitCount - 5;
      var removedHeight := SumRemoved(|messages|);
      AddNewer(messages);
      TrimWidgets(true);
      unitCount := CalculateTotalHeight();
      if !isHistory && wasAtBottom {
        ScrollToRow(unitCount);
      } else {
        ScrollToRow(Max(0, oldScrollY - removedHeight));
      }
    }

    method AddOlder(messages: seq<Message>) returns (addedHeight: nat)
      requires Stocked()
      modifies this`widgets, pool, Members(pool.items)
      ensures Stocked() && fresh(Everything() - old(Everything())) && old(Everything()) <= Everything()
      ensures Contents(widgets) == Reverse(messages) + old(Contents(widgets))
      ensures addedHeight == Total(height, Reverse(messages))
      ensures |messages| <= old(|pool.items|) ==>
                Everything() == old(Everything()) && |pool.items| + |widgets| == old(|pool.items| + |widgets|)
    {
      hide NoRepeats, Total, Reverse, Contents;
      ghost var window := Contents(widgets);
      addedHeight := 0;
      NothingAdded(height, messages[..0]);
      for i := 0 to |messages|
        invariant Stocked() && fresh(Everything() - old(Everything())) && old(Everything()) <= Everything()
        invariant Members(pool.items) <= old(Members(pool.items))
        invariant Contents(widgets) == Reverse(messages[..i]) + window
        invariant addedHeight == Total(height, Reverse(messages[..i]))
        invariant |messages| <= old(|pool.items|) ==>
                    && Everything() == old(Everything())
                    && |pool.items| == old(|pool.items|) - i && |widgets| == |old(widgets)| + i
      {
        AddMessageWidget(messages[i], true);
        ReverseNext(height, messages, i);
        assert Contents(widgets) == [messages[i]] + (Reverse(messages[..i]) + window);
        ContentsAt(widgets, 0);
        addedHeight := addedHeight + height(widgets[0].msg);
      }
      assert messages[..|messages|] == messages;
    }

    method AddNewer(messages: seq<Message>)
      requires Stocked()
      modifies this`widgets, pool, Members(pool.items)
      ensures Stocked() && fresh(Everything() - old(Everything())) && old(Everything()) <= Everything()
      ensures Contents(widgets) == old(Contents(widgets)) + messages
      ensures |messages| <= old(|pool.items|) ==>
                Everything() == old(Everything()) && |pool.items| + |widgets| == old(|pool.items| + |widgets|)
    {
      hide NoRepeats, Contents, WithFirst;
      ghost var window := Contents(widgets);
      NoneAdded(window, messages);
      for i := 0 to |messages|
        invariant Stocked() && fresh(Everything() - old(Everything())) && old(Everything()) <= Everything()
        invariant Members(pool.items) <= old(Members(pool.items))
        invariant Contents(widgets) == WithFirst(window, messages, i)
        invariant |messages| <= old(|pool.items|) ==>
                    && Everything() == old(Everything())
                    && |pool.items| == old(|pool.items|) - i && |widgets| == |old(widgets)| + i
      {
        AddMessageWidget(messages[i], false);
        OneMoreAdded(window, messages, i);
      }
      NoneAdded(window, messages);
    }

    /** The heights of the widgets the batch will push out, as far as there are any. */
    method SumRemoved(batch: nat) returns (removedHeight: nat)
      ensures removedHeight == RemovedHeight(height, Contents(widgets), batch)
    {
      removedHeight := 0;
      ghost var ms := Contents(widgets);
      if |widgets| + batch > MAX_MESSAGES {
        var numToRemove := |widgets| + batch - MAX_MESSAGES;
        var i := 0;
        while i < numToRemove
          invariant 0 <= i <= numToRemove && i <= |widgets|
          invariant removedHeight == Total(height, ms[..i])
        {
          if i == |widgets| {
            break;
          }
          assert ms[..i + 1][..i] == ms[..i];
          removedHeight := removedHeight + height(widgets[i].msg);
          i := i + 1;
        }
      }
    }

    method Clear()
      requires Stocked()
      modifies this, pool, Members(widgets)
      ensures Valid() && Everything() == old(Everything())
      ensures |pool.items| + |widgets| == old(|pool.items| + |widgets|)
      ensures widgets == [] && !loadingOlder && !loadingNewer && requestedRow == old(requestedRow)
    {
      while widgets != []
        invariant Stocked() && Everything() == old(Everything())
        invariant Members(widgets) <= old(Members(widgets))
        invariant |pool.items| + |widgets| == old(|pool.items| + |widgets|)
        invariant requestedRow == old(requestedRow)
        decreases |widgets|
      {
        DropOne(true);
      }
      unitCount, loadingOlder, loadingNewer := 0, false, false;
    }

    method LoadOlderMessages() returns (request: Option<Request>)
      modifies this`loadingOlder
      ensures loadingOlder
      ensures request == if old(loadingOlder) then None else Some(OldestRequest(Contents(widgets)))
    {
      if loadingOlder {
        return None;
      }
      loadingOlder := true;
      request := Some(Request(CHUNK_SIZE, if widgets == [] then FAR_FUTURE else widgets[0].msg.timestamp));
    }

    method LoadNewerMessages() returns (request: Option<Request>)
      modifies this`loadingNewer
      ensures loadingNewer <==> old(loadingNewer) || widgets != []
      ensures request == if old(loadingNewer) || widgets == [] then None
                         else Some(Request(-CHUNK_SIZE, Contents(widgets)[|widgets| - 1].timestamp))
    {
      if loadingNewer || widgets == [] {
        return None;
      }
      loadingNewer := true;
      request := Some(Request(-CHUNK_SIZE, widgets[|widgets| - 1].msg.timestamp));
    }

    method Start() returns (request: Option<Request>)
      requires Stocked()
      modifies this, pool, Members(widgets)
      ensures Valid() && Everything() == old(Everything())
      ensures |pool.items| + |widgets| == old(|pool.items| + |widgets|)
      ensures widgets == [] && loadingOlder && !loadingNewer && request == Some(Request(CHUNK_SIZE, FAR_FUTURE))
    {
      Clear();
      request := LoadOlderMessages();
    }

    method RemoveAt(k: nat)
      requires Stocked() && k < |widgets|
      modifies this`widgets, pool, Members(widgets)
      ensures Stocked() && Everything() == old(Everything())
      ensures |pool.items| + |widgets| == old(|pool.items| + |widgets|) && |widgets| < old(|widgets|)
      ensures Contents(widgets) == old(Contents(widgets))[..k] + old(Contents(widgets))[k + 1..]
    {
      ghost var before, stock := widgets, pool.items;
      pool.ReturnInstance(widgets[k]);
      widgets := widgets[..k] + widgets[k + 1..];
      ReturnedToPool(stock, before, k, pool.items, widgets);
    }

    method DeleteMessageById(messageId: int)
      requires Valid()
      modifies this, pool, Members(widgets)
      ensures Valid() && Everything() == old(Everything())
      ensures |pool.items| + |widgets| == old(|pool.items| + |widgets|)
      ensures Contents(widgets) == WithoutId(old(Contents(widgets)), messageId)
      ensures loadingOlder == old(loadingOlder) && loadingNewer == old(loadingNewer)
    {
      hide NoRepeats, Total, WithoutId;
      var k := 0;
      while k < |widgets| && widgets[k].msg.id != messageId
        invariant k <= |widgets|
        invariant forall i :: 0 <= i < k ==> widgets[i].msg.id != messageId
      {
        k := k + 1;
      }
      WithoutIdAt(Contents(widgets), messageId, k);
      if k < |widgets| {
        RemoveAt(k);
        unitCount := CalculateTotalHeight();
      }
    }
  }

  lemma EnoughTrimmed(ms: seq<Message>, n: nat)
    requires n == Min(|ms|, MAX_MESSAGES)
    ensures ms[|ms| - n..] == LastN(ms, MAX_MESSAGES) && ms[..n] == FirstN(ms, MAX_MESSAGES)
  {
    assert ms[0..] == ms && ms[..|ms|] == ms;
  }

  lemma ShorterBy(ms: seq<Message>, before: seq<Message>, n: nat, fromTop: bool)
    requires n < |ms| && before == if fromTop then ms[|ms| - n - 1..] else ms[..n + 1]
    ensures if fromTop then before[1..] == ms[|ms| - n..] else before[..n] == ms[..n]
  {
  }

  lemma ReverseNext(h: Message -> nat, messages: seq<Message>, i: nat)
    requires i < |messages|
    ensures Reverse(messages[..i + 1]) == [messages[i]] + Reverse(messages[..i])
    ensures Total(h, Reverse(messages[..i + 1])) == h(messages[i]) + Total(h, Reverse(messages[..i]))
  {
    hide Reverse;
    assert Reverse(messages[..i + 1]) == [messages[i]] + Reverse(messages[..i]);
    TotalAcross(h, [messages[i]], Reverse(messages[..i]));
    TotalOfOne(h, messages[i]);
  }

  lemma NothingAdded(h: Message -> nat, ms: seq<Message>)
    requires ms == []
    ensures Reverse(ms) == [] && Total(h, ms) == 0
  {
  }

  lemma TotalOfOne(h: Message -> nat, m: Message)
    ensures Total(h, [m]) == h(m)
  {
    assert [m][..0] == [];
  }

  lemma {:induction false} TotalAcross(h: Message -> nat, a: seq<Message>, b: seq<Message>)
    ensures Total(h, a + b) == Total(h, a) + Total(h, b)
    decreases |b|
  {
    if b == [] {
      assert a + b == a;
    } else {
      assert (a + b)[..|a + b| - 1] == a + b[..|b| - 1];
      TotalAcross(h, a, b[..|b| - 1]);
    }
  }

  /** A widget from the pool, or a new one, goes to an end of the deque. */
  lemma TakenFromPool(stock: seq<MessageWidget>, before: seq<MessageWidget>, w: MessageWidget,
                      items: seq<MessageWidget>, widgets: seq<MessageWidget>)
    requires NoRepeats(stock) && NoRepeats(before) && Members(stock) !! Members(before)
    requires if stock == [] then items == [] && w !in before else items == stock[1..] && w == stock[0]
    requires widgets == [w] + before || widgets == before + [w]
    ensures NoRepeats(items) && NoRepeats(widgets) && Members(items) !! Members(widgets)
    ensures Members(items) + Members(widgets) == Members(stock) + Members(before) + {w}
    ensures Members(items) <= Members(stock) && (stock != [] ==> w in Members(stock))
  {
    assert stock != [] ==> stock == [w] + items;
    assert forall x :: x in widgets <==> x == w || x in before;
    assert Members(widgets) == Members(before) + {w};
    assert stock != [] ==> Members(stock) == Members(items) + {w};
  }

  lemma ReturnedToPool(stock: seq<MessageWidget>, before: seq<MessageWidget>, k: nat,
                       items: seq<MessageWidget>, widgets: seq<MessageWidget>)
    requires NoRepeats(stock) && NoRepeats(before) && Members(stock) !! Members(before) && k < |before|
    requires items == stock + [before[k]] && widgets == before[..k] + before[k + 1..]
    ensures NoRepeats(items) && NoRepeats(widgets) && Members(items) !! Members(widgets)
    ensures Members(items) + Members(widgets) == Members(stock) + Members(before)
    ensures Members(widgets) <= Members(before)
  {
    assert before == before[..k] + [before[k]] + before[k + 1..];
    assert Members(before) == Members(widgets) + {before[k]};
    assert Members(items) == Members(stock) + {before[k]};
  }

  // Scroll anchoring.

  /** Row `row` lies `offset` pixels into message `k`. */
  predicate AtRow(h: Message -> nat, ms: seq<Message>, k: nat, offset: nat, row: int) {
    k < |ms| && offset < h(ms[k]) && Total(h, ms[..k]) + offset == row
  }

  /** At most one message is at a row. */
  lemma AtRowIsUnique(h: Message -> nat, ms: seq<Message>, j: nat, k: nat, o: nat, p: nat, row: int)
    requires AtRow(h, ms, j, o, row) && AtRow(h, ms, k, p, row)
    ensures j == k && o == p
  {
    if j < k {
      TotalGrows(h, ms, j, k);
    } else if k < j {
      TotalGrows(h, ms, k, j);
    }
  }

  lemma OnlyAtRow(h: Message -> nat, ms: seq<Message>, k: nat, offset: nat, row: int)
    requires AtRow(h, ms, k, offset, row)
    ensures forall j, o :: AtRow(h, ms, j, o, row) <==> j == k && o == offset
  {
    forall j, o | AtRow(h, ms, j, o, row) ensures j == k && o == offset {
      AtRowIsUnique(h, ms, j, k, o, offset, row);
    }
  }

  lemma TotalGrows(h: Message -> nat, ms: seq<Message>, j: nat, k: nat)
    requires j < k <= |ms|
    ensures Total(h, ms[..k]) >= Total(h, ms[..j]) + h(ms[j])
  {
    assert ms[..k] == ms[..j] + ([ms[j]] + ms[j + 1..k]);
    TotalAcross(h, ms[..j], [ms[j]] + ms[j + 1..k]);
    TotalAcross(h, [ms[j]], ms[j + 1..k]);
    TotalOfOne(h, ms[j]);
  }

  /** An older batch: the message at the old row is at the requested row, at the same offset, if it is still there. */
  lemma OlderBatchKeepsPlace(h: Message -> nat, window: seq<Message>, messages: seq<Message>, k: nat, offset: nat,
                             row: int, clientHeight: int)
    requires AtRow(h, window, k, offset, row) && messages != [] && k + |messages| < MAX_MESSAGES
    ensures var shown := Prepended(window, messages);
            var requested := RequestedRow(h, window, messages, true, true, row, clientHeight);
            && k + |messages| < |shown| && shown[k + |messages|] == window[k]
            && forall j, o :: AtRow(h, shown, j, o, requested) <==> j == k + |messages| && o == offset
  {
    hide Reverse;
    var added := Reverse(messages);
    assert Prepended(window, messages)[..k + |messages|] == added + window[..k];
    TotalAcross(h, added, window[..k]);
    OnlyAtRow(h, Prepended(window, messages), k + |messages|, offset, row + Total(h, added));
  }

  /** The first batch: the view asks for the row from which the last message is at the bottom. */
  lemma FirstBatchShowsTheEnd(h: Message -> nat, messages: seq<Message>, isHistory: bool, row: int, clientHeight: int)
    requires messages != []
    ensures var shown := Prepended([], messages);
            shown != [] && RequestedRow(h, [], messages, true, isHistory, row, clientHeight) + clientHeight ==
                           Total(h, shown[..|shown| - 1]) + h(shown[|shown| - 1])
  {
    hide Reverse;
    assert Reverse(messages) + [] == Reverse(messages);
  }

  /**
   A live message when the view shows the bottom, give or take five rows: the view asks
   for the row where the new message ends. Otherwise NewerBatchKeepsPlace says what it asks for.
   */
  lemma LiveMessageJumpsIff(h: Message -> nat, window: seq<Message>, m: Message, row: int, clientHeight: int)
    requires 0 <= clientHeight && 0 < h(m)
    ensures var shown := Appended(window, [m]);
            && shown != [] && shown[|shown| - 1] == m
            && (RequestedRow(h, window, [m], false, false, row, clientHeight) ==
                  Total(h, shown[..|shown| - 1]) + h(m) <==>
                row + clientHeight >= Total(h, window) - 5)
  {
    var shown := Appended(window, [m]);
    var n := Overflow(|window|, 1);
    RemovedHeightIsDropped(h, window, [m]);
    if row + clientHeight < Total(h, window) - 5 {
      NewerBatchRow(h, window, [m], row, false, clientHeight);
      assert window == window[..n] + window[n..] && shown == window[n..] + [m];
      TotalAcross(h, window[..n], window[n..]);
      TotalAcross(h, window[n..], [m]);
      TotalOfOne(h, m);
    }
  }

  /** What the trimming drops has the precomputed height, up to new messages that are dropped at once. */
  lemma RemovedHeightIsDropped(h: Message -> nat, window: seq<Message>, messages: seq<Message>)
    ensures var n := Overflow(|window|, |messages|);
            && Appended(window, messages) == (window + messages)[n..]
            && Total(h, (window + messages)[..n]) ==
               RemovedHeight(h, window, |messages|) + Total(h, messages[..Max(0, n - |window|)])
  {
    var n := Overflow(|window|, |messages|);
    assert (window + messages)[0..] == window + messages;
    assert (window + messages)[..n] == window[..Min(n, |window|)] + messages[..Max(0, n - |window|)];
    TotalAcross(h, window[..Min(n, |window|)], messages[..Max(0, n - |window|)]);
  }

  /** With batches of at most a window, the dropped messages are the first ones shown. */
  lemma NewerBatchRow(h: Message -> nat, window: seq<Message>, messages: seq<Message>, row: int, isHistory: bool,
                      clientHeight: int)
    requires |messages| <= MAX_MESSAGES && (isHistory || row + clientHeight < Total(h, window) - 5)
    ensures var n := Overflow(|window|, |messages|);
            && n <= |window|
            && RequestedRow(h, window, messages, false, isHistory, row, clientHeight) ==
               Max(0, row - Total(h, window[..n]))
  {
    hide Total, Appended, Prepended, Reverse;
  }

  lemma PlaceAfterDrop(h: Message -> nat, window: seq<Message>, n: nat, k: nat)
    requires n <= |window| && k < |window|
    ensures k >= n ==> Total(h, window[..k]) == Total(h, window[..n]) + Total(h, window[n..k])
    ensures k < n ==> Total(h, window[..k]) + h(window[k]) <= Total(h, window[..n])
  {
    if k >= n {
      assert window[..k] == window[..n] + window[n..k];
      TotalAcross(h, window[..n], window[n..k]);
    } else {
      TotalGrows(h, window, k, n);
    }
  }

  /**
   A newer batch: the message at the old row keeps its place, or it was dropped and
   the top is asked for, unless the view jumps to the bottom.
   */
  lemma NewerBatchKeepsPlace(h: Message -> nat, window: seq<Message>, messages: seq<Message>, k: nat, offset: nat,
                             row: int, isHistory: bool, clientHeight: int)
    requires AtRow(h, window, k, offset, row) && |messages| <= MAX_MESSAGES
    requires isHistory || row + clientHeight < Total(h, window) - 5
    ensures var n := Overflow(|window|, |messages|);
            var shown := Appended(window, messages);
            var requested := RequestedRow(h, window, messages, false, isHistory, row, clientHeight);
            if k >= n then
              && k - n < |shown| && shown[k - n] == window[k]
              && forall j, o :: AtRow(h, shown, j, o, requested) <==> j == k - n && o == offset
            else requested == 0
  {
    hide RequestedRow, Total;
    var n := Overflow(|window|, |messages|);
    RemovedHeightIsDropped(h, window, messages);
    NewerBatchRow(h, window, messages, row, isHistory, clientHeight);
    PlaceAfterDrop(h, window, n, k);
    if k >= n {
      assert Appended(window, messages)[..k - n] == window[n..k];
      OnlyAtRow(h, Appended(window, messages), k - n, offset, row - Total(h, window[..n]));
    }
  }
}
