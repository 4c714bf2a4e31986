/**
 The view of a room over a whole session, in place: the MessageView, the messages
 the server holds and the requests it has not answered yet. Each event is one step of
 MessageWindow, and the widgets made at the start serve for all of them.
 */
module RoomView {
  import opened Wrappers
  import opened MessageWindow
  import opened AwaitedPages
  import opened MessageView

  /** An event, and what the window system reports when it is handled. */
  datatype Input = Input(event: Event, visibleBegin: int, clientHeight: int)

  /** The inputs in turn, without answers to requests that were never sent. */
  function Possible(s: Session, inputs: seq<Input>): seq<Event>
    decreases |inputs|
  {
    if inputs == [] then []
    else
      var e := inputs[0].event;
      if Enabled(s, e) then [e] + Possible(Step(s, e), inputs[1..]) else Possible(s, inputs[1..])
  }

  /** Any events, orderly or not. */
  ghost predicate Steps(s: Session, events: seq<Event>, s': Session)
    decreases |events|
  {
    if events == [] then s' == s
    else Enabled(s, events[0]) && Steps(Step(s, events[0]), events[1..], s')
  }

  lemma {:induction false} StepsOneMore(s: Session, events: seq<Event>, s': Session, e: Event)
    requires Steps(s, events, s') && Enabled(s', e)
    ensures Steps(s, events + [e], Step(s', e))
    decreases |events|
  {
    hide Step, Enabled;
    if events == [] {
      assert Steps(Step(s, e), [e][1..], Step(s, e));
      assert events + [e] == [e];
    } else {
      assert (events + [e])[0] == events[0] && (events + [e])[1..] == events[1..] + [e];
      StepsOneMore(Step(s, events[0]), events[1..], s', e);
    }
  }

  lemma {:induction false} OrderlySteps(s: Session, events: seq<Event>, s': Session, s'': Session)
    requires Steps(s, events, s') && Run(s, events, s'')
    ensures s' == s''
    decreases |events|
  {
    hide Step, Enabled, Orderly;
    if events != [] {
      OrderlySteps(Step(s, events[0]), events[1..], s', s'');
    }
  }

  class RoomView {
    const view: MessageView
    var history: seq<Message>
    var requests: seq<Request>

    ghost function View(): Session
      reads this, view, view.widgets
    {
      Session(history, Contents(view.widgets), view.loadingOlder, view.loadingNewer, requests)
    }

    /** All 125 widgets are in the view or in its pool, and pages of one size are asked for. */
    ghost predicate Valid()
      reads this, view, view.pool, view.widgets
    {
      && view.Valid() && view.Full()
      && forall r <- requests :: r.limit == CHUNK_SIZE || r.limit == -CHUNK_SIZE
    }

    constructor (height: Message -> nat, history: seq<Message>)
      ensures Valid() && View() == Session(history, [], false, false, [])
      ensures fresh(view) && fresh(view.pool) && fresh(view.Everything())
    {
      view := new MessageView(height);
      this.history, requests := history, [];
    }

    method Send(request: Option<Request>)
      modifies this`requests
      ensures requests == if request.Some? then old(requests) + [request.value] else old(requests)
    {
      if request.Some? {
        requests := requests + [request.value];
      }
    }

    /** The room is opened, or the user jumps to the present. */
    method Open()
      requires Valid()
      modifies this, view, view.pool, view.Everything()
      ensures Valid() && view.Everything() == old(view.Everything())
      ensures View() == Step(old(View()), Start)
    {
      var request := view.Start();
      Send(request);
    }

    method Scroll(up: bool)
      requires Valid()
      modifies this, view
      ensures Valid() && view.Everything() == old(view.Everything())
      ensures View() == Step(old(View()), if up then ScrollUp else ScrollDown)
    {
      if view.loadingOlder || view.loadingNewer {
        return;
      }
      var request;
      if up {
        request := view.LoadOlderMessages();
      } else {
        request := view.LoadNewerMessages();
      }
      Send(request);
    }

    /** The server answers the oldest request. */
    method ReceivePage(visibleBegin: int, clientHeight: int)
      requires Valid() && requests != []
      modifies this, view, view.pool, view.Everything()
      ensures Valid() && view.Everything() == old(view.Everything())
      ensures View() == Step(old(View()), Answer)
    {
      var r := requests[0];
      PageElements(history, r.limit, r.ts);
      var page := Page(history, r.limit, r.ts);
      requests := requests[1..];
      view.OnMessagesReceived(page, true, visibleBegin, clientHeight);
    }

    method ReceiveMessage(m: Message, visibleBegin: int, clientHeight: int)
      requires Valid()
      modifies this, view, view.pool, view.Everything()
      ensures Valid() && view.Everything() == old(view.Everything())
      ensures View() == Step(old(View()), Post(m))
    {
      history := history + [m];
      view.OnMessagesReceived([m], false, visibleBegin, clientHeight);
    }

    method MessageDeleted(id: int)
      requires Valid()
      modifies this, view, view.pool, view.Everything()
      ensures Valid() && view.Everything() == old(view.Everything())
      ensures View() == Step(old(View()), Delete(id))
    {
      history := WithoutId(history, id);
      view.DeleteMessageById(id);
    }

    /** One event is one step of the session, with the widgets there are. */
    method Handle(i: Input)
      requires Valid() && Enabled(View(), i.event)
      modifies this, view, view.pool, view.Everything()
      ensures Valid() && view.Everything() == old(view.Everything())
      ensures View() == Step(old(View()), i.event)
    {
      match i.event
      case Start => Open();
      case ScrollUp => Scroll(true);
      case ScrollDown => Scroll(false);
      case Answer => ReceivePage(i.visibleBegin, i.clientHeight);
      case Post(m) => ReceiveMessage(m, i.visibleBegin, i.clientHeight);
      case Delete(id) => MessageDeleted(id);
    }

    /**
     Any sequence of events keeps every one of the widgets and makes none. Orderly events
     keep what is shown a contiguous, ascending slice of the history.
     */
    method Attend(inputs: seq<Input>) returns (done: seq<Event>)
      requires Valid()
      modifies this, view, view.pool, view.Everything()
      ensures Valid() && view.Everything() == old(view.Everything())
      ensures done == Possible(old(View()), inputs) && Steps(old(View()), done, View())
      ensures forall lo: nat, hi: nat, s | Contiguous(old(View()), lo, hi) && Run(old(View()), done, s) ::
                s == View() && exists lo': nat, hi': nat :: Contiguous(View(), lo', hi')
    {
      hide Step, Enabled, Contiguous, Run;
      ghost var s0 := View();
      done := [];
      for k := 0 to |inputs|
        invariant Valid() && view.Everything() == old(view.Everything())
        invariant Steps(s0, done, View())
        invariant done + Possible(View(), inputs[k..]) == Possible(s0, inputs)
      {
        ghost var s, before := View(), done;
        assert inputs[k..][0] == inputs[k] && inputs[k..][1..] == inputs[k + 1..];
        if !inputs[k].event.Answer? || requests != [] {
          EnabledIff(s, inputs[k].event);
          StepsOneMore(s0, done, s, inputs[k].event);
          Handle(inputs[k]);
          done := done + [inputs[k].event];
          ghost var later := Possible(View(), inputs[k + 1..]);
          assert done + later == before + ([inputs[k].event] + later);
        } else {
          EnabledIff(s, inputs[k].event);
        }
      }
      assert inputs[|inputs|..] == [];
      forall lo: nat, hi: nat, s | Contiguous(s0, lo, hi) && Run(s0, done, s)
        ensures s == View() && exists lo': nat, hi': nat :: Contiguous(View(), lo', hi')
      {
        OrderlySteps(s0, done, View(), s);
        RunKeepsWindow(s0, done, s, lo, hi);
      }
    }
  }

  lemma EnabledIff(s: Session, e: Event)
    ensures Enabled(s, e) <==> !e.Answer? || s.requests != []
  {
  }
}
