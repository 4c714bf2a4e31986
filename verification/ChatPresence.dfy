/**
 Presence: once its queue is drained, the list of every client in a room shows
 exactly the room's members, each with the number of its connections in the room,
 and no client ever takes the erase branch of RemoveUser.
 */
module ChatPresence {
  import opened Wrappers
  import opened ChatDatabase
  import opened ChatHub
  import opened UserList
  import opened ChatServer
  import opened Transactions
  import opened ChatIndexes

  /** What the list should be: every member, with its connections among `conns`. */
  ghost function Roster(members: set<UserId>, sessions: Sessions, conns: set<Conn>): Presence {
    map u <- members :: |Of(sessions, conns, u)|
  }

  /** The list of a client once it has handled its queue. */
  function Settled(clients: map<Conn, Presence>, box: Outbox, c: Conn): Presence {
    if c in clients && c in box then HandleAll(clients[c], box[c]) else map[]
  }

  predicate QueueSafe(clients: map<Conn, Presence>, box: Outbox, c: Conn) {
    c in clients && c in box ==> AllKeepEntries(clients[c], box[c])
  }

  ghost predicate Exact(w: World, c: Conn, r: RoomId) {
    && UserAt(w.hub.sessions, c) in Members(w.db, r)
    && Settled(w.clients, w.hub.outbox, c) == Roster(Members(w.db, r), w.hub.sessions, Lookup(w.hub.byRoom, r))
  }

  ghost predicate PresenceOk(w: World) {
    && (forall r: RoomId, c: Conn :: c in Lookup(w.hub.byRoom, r) ==> Exact(w, c, r))
    && (forall c: Conn :: QueueSafe(w.clients, w.hub.outbox, c))
  }

  // One more message in a queue.

  lemma SendSettles(clients: map<Conn, Presence>, box: Outbox, to: set<Conn>, m: Msg, c: Conn)
    requires c in box && c in clients
    ensures Settled(clients, ToEach(box, to, m), c) ==
            (if c in to then Handle(Settled(clients, box, c), m) else Settled(clients, box, c))
    ensures QueueSafe(clients, box, c) && (c in to ==> KeepsEntries(Settled(clients, box, c), m)) ==>
              QueueSafe(clients, ToEach(box, to, m), c)
  {
    if c in to {
      QueueOneMore(clients[c], box[c], m);
    }
  }

  /** A message without effect on presence. */
  predicate Neutral(m: Msg) {
    !m.JoinRoomOk? && !m.UserJoined? && !m.UserLeft?
  }

  /** Every client ends up with the same list, and no queue becomes unsafe. */
  ghost predicate SameLists(w: World, w': World) {
    forall c: Conn ::
      && Settled(w'.clients, w'.hub.outbox, c) == Settled(w.clients, w.hub.outbox, c)
      && (QueueSafe(w.clients, w.hub.outbox, c) ==> QueueSafe(w'.clients, w'.hub.outbox, c))
  }

  lemma NeutralSend(w: World, to: set<Conn>, m: Msg)
    requires Neutral(m)
    ensures SameLists(w, w.(hub := w.hub.(outbox := ToEach(w.hub.outbox, to, m))))
  {
    forall c: Conn
      ensures Settled(w.clients, ToEach(w.hub.outbox, to, m), c) == Settled(w.clients, w.hub.outbox, c)
      ensures QueueSafe(w.clients, w.hub.outbox, c) ==> QueueSafe(w.clients, ToEach(w.hub.outbox, to, m), c)
    {
      if c in w.hub.outbox && c in w.clients {
        SendSettles(w.clients, w.hub.outbox, to, m, c);
      }
    }
  }

  lemma {:induction false} NeutralCopies(p: Presence, queue: seq<Msg>, m: Msg, n: nat)
    requires Neutral(m)
    ensures HandleAll(p, queue + Copies(m, n)) == HandleAll(p, queue)
    ensures AllKeepEntries(p, queue) ==> AllKeepEntries(p, queue + Copies(m, n))
  {
    if n == 0 {
      assert queue + Copies(m, n) == queue;
    } else {
      NeutralCopies(p, queue, m, n - 1);
      QueueOneMore(p, queue + Copies(m, n - 1), m);
      assert queue + Copies(m, n) == queue + Copies(m, n - 1) + [m];
    }
  }

  lemma NeutralBroadcast(w: World, m: Msg)
    requires Neutral(m)
    ensures SameLists(w, w.(hub := SendToAll(w.hub, m)))
  {
    forall c: Conn
      ensures Settled(w.clients, SendToAll(w.hub, m).outbox, c) == Settled(w.clients, w.hub.outbox, c)
      ensures QueueSafe(w.clients, w.hub.outbox, c) ==> QueueSafe(w.clients, SendToAll(w.hub, m).outbox, c)
    {
      if c in w.hub.outbox && c in w.clients {
        NeutralCopies(w.clients[c], w.hub.outbox[c], m, Reach(w.hub.byUser, c));
      }
    }
  }

  lemma RosterOf(members: set<UserId>, sessions: Sessions, sessions': Sessions, conns: set<Conn>)
    requires forall c <- conns :: UserAt(sessions', c) == UserAt(sessions, c)
    ensures Roster(members, sessions', conns) == Roster(members, sessions, conns)
  {
    forall u ensures Of(sessions', conns, u) == Of(sessions, conns, u) {
    }
  }

  /** Steps that move nobody: same lists, same members, same users in the rooms that remain. */
  lemma StillExact(w: World, w': World)
    requires PresenceOk(w) && SameLists(w, w')
    requires forall r: RoomId | Lookup(w'.hub.byRoom, r) != {} ::
               Lookup(w'.hub.byRoom, r) == Lookup(w.hub.byRoom, r) && Members(w'.db, r) == Members(w.db, r)
    requires forall r: RoomId, c: Conn | c in Lookup(w'.hub.byRoom, r) ::
               UserAt(w'.hub.sessions, c) == UserAt(w.hub.sessions, c)
    ensures PresenceOk(w')
  {
    forall r: RoomId, c: Conn | c in Lookup(w'.hub.byRoom, r) ensures Exact(w', c, r) {
      assert Lookup(w'.hub.byRoom, r) != {};
      assert Exact(w, c, r);
      RosterOf(Members(w.db, r), w.hub.sessions, w'.hub.sessions, Lookup(w.hub.byRoom, r));
    }
    forall c: Conn ensures QueueSafe(w'.clients, w'.hub.outbox, c) {
      assert QueueSafe(w.clients, w.hub.outbox, c);
    }
  }

  lemma ReplySettles(clients: map<Conn, Presence>, box: Outbox, c: Conn, d: Conn, ok: bool)
    ensures Settled(clients, ToEach(box, {c}, Reply(ok)), d) == Settled(clients, box, d)
    ensures QueueSafe(clients, ToEach(box, {c}, Reply(ok)), d) == QueueSafe(clients, box, d)
  {
    if d in clients && d in box {
      QueueOneMore(clients[d], box[d], Reply(ok));
    }
  }

  lemma RespondExactIff(w: World, c: Conn, ok: bool)
    ensures PresenceOk(Respond(w, c, Reply(ok))) <==> PresenceOk(w)
  {
    hide Members, ToEach, HandleAll, AllKeepEntries, Settled, QueueSafe;
    var w' := Respond(w, c, Reply(ok));
    forall d: Conn
      ensures Settled(w.clients, w'.hub.outbox, d) == Settled(w.clients, w.hub.outbox, d)
      ensures QueueSafe(w.clients, w'.hub.outbox, d) == QueueSafe(w.clients, w.hub.outbox, d)
    {
      ReplySettles(w.clients, w.hub.outbox, c, d, ok);
    }
    assert forall d: Conn, r: RoomId :: Exact(w', d, r) == Exact(w, d, r);
  }

  // Leaving a room.

  lemma RosterMinus(members: set<UserId>, sessions: Sessions, conns: set<Conn>, c: Conn)
    requires c in conns && UserAt(sessions, c) in members
    ensures var u := UserAt(sessions, c);
            && u in Roster(members, sessions, conns) && Roster(members, sessions, conns)[u] > 0
            && Removed(Roster(members, sessions, conns), u) == Roster(members, sessions, conns - {c})
  {
    hide Of;
    assert conns - {c} + {c} == conns;
    OfStep(sessions, conns - {c}, c);
  }

  lemma NobodyOf(sessions: Sessions, conns: set<Conn>, u: UserId)
    requires forall d <- conns :: UserAt(sessions, d) != u
    ensures |Of(sessions, conns, u)| == 0
  {
    assert Of(sessions, conns, u) == {};
  }

  lemma RosterPlus(members: set<UserId>, sessions: Sessions, conns: set<Conn>, c: Conn, more: set<UserId>)
    requires c !in conns && more == members + {UserAt(sessions, c)}
    requires forall d <- conns :: UserAt(sessions, d) in members
    ensures var u := UserAt(sessions, c);
            var p := Roster(members, sessions, conns);
            (if u in members then Added(p, u) else Added(Added(p, u), u)) == Roster(more, sessions, conns + {c})
  {
    hide Of;
    OfStep(sessions, conns, c);
    if UserAt(sessions, c) !in members {
      NobodyOf(sessions, conns, UserAt(sessions, c));
    }
  }

  /** The user_left broadcast, with the connection dropped from the room's set. */
  lemma LeavingExact(w: World, w': World, c: Conn)
    requires PresenceOk(w) && RoomInvariant(w) && c in w.hub.sessions
    requires w.hub.sessions[c].room.Some? && w.hub.sessions[c].user.Some? && w'.db == w.db
    requires w.hub.sessions[c].room.value.id in w.db.rooms
    requires var r := w.hub.sessions[c].room.value.id;
             && w'.hub.byRoom == Erase(w.hub.byRoom, r, c)
             && w'.clients == w.clients
             && w'.hub.outbox == ToEach(w.hub.outbox, Lookup(w.hub.byRoom, r), UserLeft(UserAt(w.hub.sessions, c)))
    requires forall d: Conn | d != c :: UserAt(w'.hub.sessions, d) == UserAt(w.hub.sessions, d)
    ensures PresenceOk(w')
  {
    var r, u := w.hub.sessions[c].room.value.id, UserAt(w.hub.sessions, c);
    var conns := Lookup(w.hub.byRoom, r);
    EraseLookup(w.hub.byRoom, r, c);
    assert c in conns && Exact(w, c, r) by {
      assert Inside(w.hub.sessions, w.db.rooms.Keys, c, r);
    }
    RosterMinus(Members(w.db, r), w.hub.sessions, conns, c);
    forall d: Conn ensures QueueSafe(w'.clients, w'.hub.outbox, d) {
      if d in w.clients && d in w.hub.outbox {
        assert d in conns ==> Exact(w, d, r);
        assert QueueSafe(w.clients, w.hub.outbox, d);
        SendSettles(w.clients, w.hub.outbox, conns, UserLeft(u), d);
      }
    }
    forall q: RoomId, d: Conn | d in Lookup(w'.hub.byRoom, q) ensures Exact(w', d, q) {
      LeavingExactOne(w, w', c, q, d);
    }
  }

  lemma LeavingExactOne(w: World, w': World, c: Conn, q: RoomId, d: Conn)
    requires PresenceOk(w) && RoomInvariant(w) && c in w.hub.sessions
    requires w.hub.sessions[c].room.Some? && w.hub.sessions[c].user.Some? && w'.db == w.db
    requires w.hub.sessions[c].room.value.id in w.db.rooms
    requires var r := w.hub.sessions[c].room.value.id;
             && w'.hub.byRoom == Erase(w.hub.byRoom, r, c)
             && w'.clients == w.clients
             && w'.hub.outbox == ToEach(w.hub.outbox, Lookup(w.hub.byRoom, r), UserLeft(UserAt(w.hub.sessions, c)))
    requires forall d: Conn | d != c :: UserAt(w'.hub.sessions, d) == UserAt(w.hub.sessions, d)
    requires d in Lookup(w'.hub.byRoom, q)
    ensures Exact(w', d, q)
  {
    var r, u := w.hub.sessions[c].room.value.id, UserAt(w.hub.sessions, c);
    var conns := Lookup(w.hub.byRoom, r);
    EraseLookup(w.hub.byRoom, r, c);
    assert d in Lookup(w.hub.byRoom, q);
    assert Inside(w.hub.sessions, w.db.rooms.Keys, d, q);
    assert Exact(w, d, q);
    SendSettles(w.clients, w.hub.outbox, conns, UserLeft(u), d);
    assert c in conns by {
      assert Inside(w.hub.sessions, w.db.rooms.Keys, c, r);
    }
    if q == r {
      assert Exact(w, c, r);
      RosterMinus(Members(w.db, r), w.hub.sessions, conns, c);
      RosterOf(Members(w.db, r), w.hub.sessions, w'.hub.sessions, conns - {c});
    } else {
      assert d !in conns by {
        assert !Inside(w.hub.sessions, w.db.rooms.Keys, d, r);
      }
      assert c !in Lookup(w.hub.byRoom, q) by {
        assert !Inside(w.hub.sessions, w.db.rooms.Keys, c, q);
      }
      RosterOf(Members(w.db, q), w.hub.sessions, w'.hub.sessions, Lookup(w.hub.byRoom, q));
    }
  }

  lemma DepartExact(w: World, c: Conn)
    requires PresenceOk(w) && RoomInvariant(w) && c in w.hub.sessions && w.hub.sessions[c].room.Some?
    ensures PresenceOk(Depart(w, c))
  {
    hide PresenceOk, RoomIndexOk, Depart, Members, ToEach, Erase;
    DepartEffect(w, c);
    var r := w.hub.sessions[c].room.value.id;
    if r in w.db.rooms {
      LeavingExact(w, Depart(w, c), c);
    } else {
      DeletedRoomIsEmpty(w, c, r);
      UnchangedExact(w, Depart(w, c));
    }
  }

  lemma DeletedRoomIsEmpty(w: World, c: Conn, r: RoomId)
    requires RoomInvariant(w) && r !in w.db.rooms
    ensures Lookup(w.hub.byRoom, r) == {} && Erase(w.hub.byRoom, r, c) == w.hub.byRoom
    ensures forall m :: ToEach(w.hub.outbox, {}, m) == w.hub.outbox
  {
    forall d: Conn ensures d !in Lookup(w.hub.byRoom, r) {
      assert !Inside(w.hub.sessions, w.db.rooms.Keys, d, r);
    }
    NotListed(w.hub.byRoom, r);
    forall m ensures ToEach(w.hub.outbox, {}, m) == w.hub.outbox {
    }
  }

  lemma NotListed(index: Index, k: Id)
    requires NoEmptySet(index) && Lookup(index, k) == {}
    ensures k !in index
  {
  }

  /** Only sessions change, and nobody's user. */
  lemma UnchangedExact(w: World, w': World)
    requires PresenceOk(w) && w'.db == w.db && w'.clients == w.clients && w'.hub.outbox == w.hub.outbox
    requires w'.hub.byRoom == w.hub.byRoom
    requires forall r: RoomId, c: Conn | c in Lookup(w.hub.byRoom, r) ::
               UserAt(w'.hub.sessions, c) == UserAt(w.hub.sessions, c)
    ensures PresenceOk(w')
  {
    hide PresenceOk, Members;
    StillExact(w, w');
  }

  /** A connection in no room is forgotten, or changes its user. */
  lemma OutsiderExact(w: World, c: Conn, d: WsData)
    requires PresenceOk(w) && RoomInvariant(w) && (c in w.hub.sessions ==> w.hub.sessions[c].room.None?)
    ensures PresenceOk(WithSession(w, c, d))
    ensures PresenceOk(Forget(w, c))
  {
    hide PresenceOk, Members;
    forall r: RoomId ensures c !in Lookup(w.hub.byRoom, r) {
      assert !Inside(w.hub.sessions, w.db.rooms.Keys, c, r);
    }
    UnchangedExact(w, WithSession(w, c, d));
    ForgetExact(w, c);
  }

  function Forget(w: World, c: Conn): World {
    w.(hub := w.hub.(sessions := w.hub.sessions - {c}, outbox := w.hub.outbox - {c}), clients := w.clients - {c})
  }

  lemma ForgetExact(w: World, c: Conn)
    requires PresenceOk(w) && forall r: RoomId :: c !in Lookup(w.hub.byRoom, r)
    ensures PresenceOk(Forget(w, c))
  {
    var w' := Forget(w, c);
    forall r: RoomId, d: Conn | d in Lookup(w'.hub.byRoom, r) ensures Exact(w', d, r) {
      assert Exact(w, d, r);
      RosterOf(Members(w.db, r), w.hub.sessions, w'.hub.sessions, Lookup(w.hub.byRoom, r));
    }
    forall d: Conn ensures QueueSafe(w'.clients, w'.hub.outbox, d) {
      assert QueueSafe(w.clients, w.hub.outbox, d);
    }
  }

  /** Logging out and closing. */
  lemma ResetExact(w: World, c: Conn)
    requires PresenceOk(w) && RoomInvariant(w) && c in w.hub.sessions
    ensures PresenceOk(w.(hub := SetSession(UnregisterConnection(w.hub, c), c, NEW_SESSION)))
    ensures PresenceOk(HandleClose(w, c))
  {
    hide PresenceOk, RoomInvariant, Members, ToEach, Erase, UnregisterConnection;
    var w1 := w.(hub := SetSession(UnregisterConnection(w.hub, c), c, NEW_SESSION));
    UnregisteredExact(w, c);
    ResetKeeps(w, c);
    OutsiderExact(w1, c, NEW_SESSION);
    UserWhenInRoom(w, c);
    UnregisterEffect(w.hub, c);
    assert w1.hub.sessions - {c} == w.hub.sessions - {c};
    assert HandleClose(w, c) == Forget(w1, c);
  }

  lemma UnregisteredExact(w: World, c: Conn)
    requires PresenceOk(w) && RoomInvariant(w) && c in w.hub.sessions
    ensures PresenceOk(w.(hub := SetSession(UnregisterConnection(w.hub, c), c, NEW_SESSION)))
  {
    hide PresenceOk, RoomInvariant, Members, ToEach, Erase, UnregisterConnection;
    var w1 := w.(hub := SetSession(UnregisterConnection(w.hub, c), c, NEW_SESSION));
    UserWhenInRoom(w, c);
    UnregisterEffect(w.hub, c);
    if w.hub.sessions[c].room.Some? && w.hub.sessions[c].room.value.id in w.db.rooms {
      LeavingExact(w, w1, c);
    } else {
      if w.hub.sessions[c].room.Some? {
        DeletedRoomIsEmpty(w, c, w.hub.sessions[c].room.value.id);
      }
      forall r: RoomId ensures c !in Lookup(w.hub.byRoom, r) {
        OutsideMeansAbsent(w, c, r);
      }
      UnchangedExact(w, w1);
    }
  }

  lemma OutsideMeansAbsent(w: World, c: Conn, r: RoomId)
    requires RoomInvariant(w)
    requires c in w.hub.sessions && w.hub.sessions[c].room.Some? ==> w.hub.sessions[c].room.value.id !in w.db.rooms
    ensures c !in Lookup(w.hub.byRoom, r)
  {
    assert !Inside(w.hub.sessions, w.db.rooms.Keys, c, r);
  }

  // Joining a room.

  lemma AnnounceSettles(clients: map<Conn, Presence>, box: Outbox, peers: set<Conn>, u: UserId, newMember: bool,
                        d: Conn)
    requires d in box && d in clients && QueueSafe(clients, box, d)
    ensures d in Announce(box, peers, u, newMember)
    ensures var p := Settled(clients, box, d);
            Settled(clients, Announce(box, peers, u, newMember), d) ==
              (if d !in peers then p else if newMember then Added(Added(p, u), u) else Added(p, u))
    ensures QueueSafe(clients, Announce(box, peers, u, newMember), d)
  {
    hide Settled, QueueSafe;
    SendSettles(clients, box, peers, UserJoined(u), d);
    SendSettles(clients, ToEach(box, peers, UserJoined(u)), peers, UserJoined(u), d);
  }

  lemma EnteredIsRoster(members: set<UserId>, sessions: Sessions, conns: set<Conn>)
    requires forall d <- conns :: UserAt(sessions, d) in members
    ensures Entered(members, UsersAmong(sessions, conns)) == Roster(members, sessions, conns)
  {
    forall u | u in members && u !in UsersAmong(sessions, conns) ensures |Of(sessions, conns, u)| == 0 {
      NobodyOf(sessions, conns, u);
    }
  }

  /** The tables after a join: the user is a member of the room, everybody else as before. */
  ghost predicate JoinsMembers(db: Db, db': Db, u: UserId, r: RoomId) {
    && Members(db', r) == Members(db, r) + {u}
    && forall q: RoomId | q != r :: Members(db', q) == Members(db, q)
  }

  /** The state right after EnterRoom, with everything hidden that this proof does not need. */
  ghost predicate JustEntered(w: World, w': World, c: Conn, u: UserId, r: RoomId) {
    && c in w.hub.outbox && c in w.clients && c in w.hub.sessions
    && u == UserAt(w.hub.sessions, c) && w'.clients == w.clients
    && (forall q: RoomId :: Lookup(w'.hub.byRoom, q) == Lookup(w.hub.byRoom, q) + (if q == r then {c} else {}))
    && (forall q: RoomId :: c !in Lookup(w.hub.byRoom, q))
    && (forall d: Conn :: UserAt(w'.hub.sessions, d) == UserAt(w.hub.sessions, d))
    && var peers := Lookup(w.hub.byRoom, r);
       var told := Announce(w.hub.outbox, peers, u, u !in Members(w.db, r));
       w'.hub.outbox == ToEach(told, {c}, JoinRoomOk(Members(w'.db, r), UsersAmong(w'.hub.sessions, peers + {c})))
  }

  lemma EnteredExactOne(w: World, w': World, c: Conn, u: UserId, r: RoomId, q: RoomId, d: Conn)
    requires PresenceOk(w) && JustEntered(w, w', c, u, r) && JoinsMembers(w.db, w'.db, u, r)
    requires d in Lookup(w'.hub.byRoom, q) && (d != c ==> Inside(w.hub.sessions, w.db.rooms.Keys, d, q))
    requires forall p: RoomId, e: Conn :: e in Lookup(w.hub.byRoom, p) ==> Inside(w.hub.sessions, w.db.rooms.Keys, e, p)
    requires d in w.clients && d in w.hub.outbox
    ensures Exact(w', d, q)
  {
    hide Announce, UsersAmong, Entered, Settled, ToEach, Of, Roster, Members;
    var peers := Lookup(w.hub.byRoom, r);
    var isNew := u !in Members(w.db, r);
    var told := Announce(w.hub.outbox, peers, u, isNew);
    var welcome := JoinRoomOk(Members(w'.db, r), UsersAmong(w'.hub.sessions, peers + {c}));
    assert QueueSafe(w.clients, w.hub.outbox, d);
    AnnounceSettles(w.clients, w.hub.outbox, peers, u, isNew, d);
    SendSettles(w.clients, told, {c}, welcome, d);
    forall e | e in peers ensures UserAt(w.hub.sessions, e) in Members(w.db, r) {
      assert Exact(w, e, r);
    }
    if d == c {
      EnteredIsRoster(Members(w'.db, r), w'.hub.sessions, peers + {c});
    } else {
      assert Exact(w, d, q);
      if q == r {
        RosterPlus(Members(w.db, r), w.hub.sessions, peers, c, Members(w'.db, r));
        RosterOf(Members(w'.db, r), w.hub.sessions, w'.hub.sessions, peers + {c});
      } else {
        assert d !in peers;
        assert Lookup(w'.hub.byRoom, q) == Lookup(w.hub.byRoom, q);
        RosterOf(Members(w.db, q), w.hub.sessions, w'.hub.sessions, Lookup(w.hub.byRoom, q));
      }
    }
  }

  lemma EnteredSafe(w: World, w': World, c: Conn, u: UserId, r: RoomId, d: Conn)
    requires PresenceOk(w) && JustEntered(w, w', c, u, r)
    ensures QueueSafe(w'.clients, w'.hub.outbox, d)
  {
    hide Announce, UsersAmong, Entered, ToEach, Of, Roster, Members;
    var peers := Lookup(w.hub.byRoom, r);
    var isNew := u !in Members(w.db, r);
    var told := Announce(w.hub.outbox, peers, u, isNew);
    var welcome := JoinRoomOk(Members(w'.db, r), UsersAmong(w'.hub.sessions, peers + {c}));
    assert QueueSafe(w.clients, w.hub.outbox, d);
    AnnounceKeys(w.hub.outbox, peers, u, isNew);
    ToEachKeys(told, {c}, welcome);
    if d in w.clients && d in w.hub.outbox {
      AnnounceSettles(w.clients, w.hub.outbox, peers, u, isNew, d);
      SendSettles(w.clients, told, {c}, welcome, d);
    }
  }

  lemma ToEachKeys(box: Outbox, to: set<Conn>, m: Msg)
    ensures ToEach(box, to, m).Keys == box.Keys
  {
  }

  lemma EnteredExact(w: World, w': World, c: Conn, u: UserId, r: RoomId)
    requires PresenceOk(w) && RoomInvariant(w)
    requires JustEntered(w, w', c, u, r) && JoinsMembers(w.db, w'.db, u, r)
    ensures PresenceOk(w')
  {
    hide JustEntered, JoinsMembers, Exact, QueueSafe;
    forall q: RoomId, d: Conn | d in Lookup(w'.hub.byRoom, q) ensures Exact(w', d, q) {
      EnteredWho(w, w', c, u, r, q, d);
      EnteredExactOne(w, w', c, u, r, q, d);
    }
    forall d: Conn ensures QueueSafe(w'.clients, w'.hub.outbox, d) {
      EnteredSafe(w, w', c, u, r, d);
    }
  }

  /** Who is in a set after entering: the newcomer, or somebody who was there. */
  lemma EnteredWho(w: World, w': World, c: Conn, u: UserId, r: RoomId, q: RoomId, d: Conn)
    requires RoomInvariant(w) && JustEntered(w, w', c, u, r) && d in Lookup(w'.hub.byRoom, q)
    ensures d != c ==> Inside(w.hub.sessions, w.db.rooms.Keys, d, q)
    ensures d in w.clients && d in w.hub.outbox
  {
    hide Announce, UsersAmong, ToEach, Members;
    assert d != c ==> d in Lookup(w.hub.byRoom, q);
  }

  lemma EnterExact(w: World, db: Db, c: Conn, u: UserId, r: RoomId, newMember: bool)
    requires PresenceOk(w) && RoomInvariant(w) && c in w.hub.sessions && w.hub.sessions[c].room.None?
    requires w.hub.sessions[c].user.Some? && u == w.hub.sessions[c].user.value.id
    requires JoinsMembers(w.db, db, u, r) && r in db.rooms && (newMember <==> u !in Members(w.db, r))
    ensures PresenceOk(EnterRoom(w.(db := db), c, u, r, newMember))
  {
    hide PresenceOk, RoomIndexOk, Members, Announce, UsersAmong, ToEach, JoinsMembers, Insert;
    var w' := EnterRoom(w.(db := db), c, u, r, newMember);
    InsertLookup(w.hub.byRoom, r, c);
    forall q: RoomId ensures c !in Lookup(w.hub.byRoom, q) {
      OutsideMeansAbsent(w, c, q);
    }
    assert JustEntered(w, w', c, u, r);
    EnteredExact(w, w', c, u, r);
  }

  lemma MembersAfter(db: Db, u: UserId, r: RoomId)
    ensures JoinsMembers(db, SetMembership(db, u, r, Joined), u, r)
    ensures u in Members(db, r) <==> MembershipOf(db, u, r).Some?
    ensures u in Members(db, r) ==> JoinsMembers(db, db, u, r)
  {
    var db' := SetMembership(db, u, r, Joined);
    forall q: RoomId, v: UserId
      ensures v in Members(db', q) <==> v in Members(db, q) || (v == u && q == r)
      ensures v in Members(db, q) <==> (v, q) in db.membership
    {
      assert v in Members(db, q) <==> (v, q) in db.membership by {
        if (v, q) in db.membership {
          assert (v, q).1 == q;
        }
      }
      assert v in Members(db', q) <==> (v, q) in db'.membership by {
        if (v, q) in db'.membership {
          assert (v, q).1 == q;
        }
      }
    }
  }

  // Every step.

  /** A row for somebody who was not a member, with nothing sent, is missed by every client in the room. */
  lemma SilentRowExactIff(w: World, u: UserId, r: RoomId)
    requires PresenceOk(w)
    ensures PresenceOk(w.(db := SetMembership(w.db, u, r, Joined))) <==>
              u in Members(w.db, r) || Lookup(w.hub.byRoom, r) == {}
  {
    hide SetMembership, Members;
    var db := SetMembership(w.db, u, r, Joined);
    MembersAfter(w.db, u, r);
    if u in Members(w.db, r) || Lookup(w.hub.byRoom, r) == {} {
      assert u in Members(w.db, r) ==> Members(w.db, r) + {u} == Members(w.db, r);
      StillExact(w, w.(db := db));
    } else {
      var d :| d in Lookup(w.hub.byRoom, r);
      assert Exact(w, d, r);
      assert u in Roster(Members(db, r), w.hub.sessions, Lookup(w.hub.byRoom, r));
      assert !Exact(w.(db := db), d, r);
    }
  }

  /** The join fails after the membership row was attempted but before, or without, telling anybody. */
  predicate JoinMisreports(w: World, u: UserId, r: RoomId, fault: JoinFault) {
    && r in w.db.rooms && !w.db.rooms[r].isPrivate && MembershipOf(w.db, u, r).None?
    && (fault == WriteFails || (fault == ListingFails && Lookup(w.hub.byRoom, r) != {}))
  }

  lemma JoinFromOutsideExactIff(w: World, c: Conn, u: UserId, r: RoomId, fault: JoinFault)
    requires PresenceOk(w) && RoomInvariant(w) && c in w.hub.sessions && w.hub.sessions[c].room.None?
    requires w.hub.sessions[c].user.Some? && u == w.hub.sessions[c].user.value.id
    ensures PresenceOk(JoinFromOutside(w, c, u, r, fault)) <==> !JoinMisreports(w, u, r, fault)
  {
    hide PresenceOk, RoomInvariant, EnterRoom, SetMembership, Members, Respond;
    var db := SetMembership(w.db, u, r, Joined);
    var status := MembershipOf(w.db, u, r);
    RespondExactIff(w, c, false);
    MembersAfter(w.db, u, r);
    SetMembershipRooms(w.db, u, r);
    if r in w.db.rooms && fault != LookupFails && !(w.db.rooms[r].isPrivate && status != Some(Joined)) {
      if status == Some(Joined) {
        EnterExact(w, w.db, c, u, r, status.None?);
      } else if fault == ListingFails {
        SilentRowExactIff(w, u, r);
        RespondExactIff(w.(db := db), c, false);
      } else if fault == WriteFails {
        if status.None? {
          UnlistedEntry(w, c, u, r);
        } else {
          EnterExact(w, w.db, c, u, r, status.None?);
        }
      } else {
        EnterExact(w, db, c, u, r, status.None?);
      }
    }
  }

  /** Entering a room without a membership row. */
  lemma UnlistedEntry(w: World, c: Conn, u: UserId, r: RoomId)
    requires c in w.hub.sessions && u == UserAt(w.hub.sessions, c) && u !in Members(w.db, r) && r in w.db.rooms
    ensures !PresenceOk(EnterRoom(w, c, u, r, true))
  {
    hide Members, UsersAmong, Announce, ToEach, HandleAll;
    var w' := EnterRoom(w, c, u, r, true);
    InsertLookup(w.hub.byRoom, r, c);
    assert c in Lookup(w'.hub.byRoom, r) && !Exact(w', c, r);
  }

  /** The requests that make some client's list differ from the room. */
  predicate Misreports(w: World, e: Event) {
    match e
    case JoinRoom(c, r, fault) =>
      var d := w.hub.Session(c);
      d.status == Authenticated && d.user.Some? &&
        JoinMisreports(if d.room.Some? then Depart(w, c) else w, d.user.value.id, r, fault)
    case BecomeMember(c, r, stored) =>
      var d := w.hub.Session(c);
      && d.status == Authenticated && d.user.Some? && r in w.db.rooms && stored
      && MembershipOf(w.db, d.user.value.id, r).None? && !w.db.rooms[r].isPrivate
      && Lookup(w.hub.byRoom, r) != {}
    case _ => false
  }

  lemma JoinExactIff(w: World, c: Conn, r: RoomId, fault: JoinFault)
    requires PresenceOk(w) && RoomInvariant(w) && c in w.hub.sessions
    ensures PresenceOk(HandleJoinRoom(w, c, r, fault)) <==> !Misreports(w, JoinRoom(c, r, fault))
  {
    hide PresenceOk, RoomInvariant, JoinFromOutside, JoinMisreports, Depart, Respond;
    var d := w.hub.Session(c);
    RespondExactIff(w, c, false);
    if d.status == Authenticated {
      UserOf(w, c);
      var w1 := if d.room.Some? then Depart(w, c) else w;
      if d.room.Some? {
        DepartEffect(w, c);
        DepartKeeps(w, c);
        DepartExact(w, c);
      }
      JoinFromOutsideExactIff(w1, c, d.user.value.id, r, fault);
    }
  }

  lemma BecomeMemberExactIff(w: World, c: Conn, r: RoomId, stored: bool)
    requires PresenceOk(w) && c in w.hub.sessions
    ensures PresenceOk(HandleBecomeMember(w, c, r, stored)) <==> !Misreports(w, BecomeMember(c, r, stored))
  {
    hide PresenceOk, SetMembership, Members, Respond;
    var d := w.hub.sessions[c];
    RespondExactIff(w, c, false);
    RespondExactIff(w, c, true);
    if d.user.Some? {
      var u := d.user.value.id;
      MembersAfter(w.db, u, r);
      SilentRowExactIff(w, u, r);
      RespondExactIff(w.(db := SetMembership(w.db, u, r, Joined)), c, true);
    }
  }


  lemma LoginStepsExact(w: World, e: Event)
    requires PresenceOk(w) && RoomInvariant(w) && UserInvariant(w) && Enabled(w, e) && !RestartsLogin(w, e)
    requires e.InitialAuth? || e.InitialRegister? || e.Auth?
    ensures PresenceOk(Step(w, e))
  {
    hide PresenceOk, RoomInvariant, UserInvariant, Respond, RegisterConnection;
    var c, d := e.c, w.hub.sessions[e.c];
    RespondExactIff(w, c, false);
    if d.status != Authenticated {
      InRoomIsLoggedIn(w, c);
      var named := User(0, if e.Auth? then "" else e.name);
      var d1 := if e.InitialAuth? then d.(status := Authenticating, user := Some(named))
                else if e.InitialRegister? then d.(status := Registering, user := Some(named))
                else d.(status := Unauthenticated);
      OutsiderExact(w, c, d1);
      RespondExactIff(WithSession(w, c, d1), c, true);
      RespondExactIff(WithSession(w, c, d1), c, false);
      if e.Auth? && d.user.Some? && d.user.value.name in w.db.usernames {
        var id := w.db.usernames[d.user.value.name];
        var d2 := d.(user := Some(d.user.value.(id := id)), status := Authenticated);
        OutsiderExact(w, c, d2);
        var w2 := WithSession(w, c, d2);
        RegisteredExact(w2, id, c);
        RespondExactIff(w2.(hub := RegisterConnection(w2.hub, id, c)), c, true);
      }
    }
  }

  lemma RegisteredExact(w: World, u: UserId, c: Conn)
    requires PresenceOk(w)
    ensures PresenceOk(w.(hub := RegisterConnection(w.hub, u, c)))
  {
    hide PresenceOk, Members, Insert;
    UnchangedExact(w, w.(hub := RegisterConnection(w.hub, u, c)));
  }

  lemma RegisterExact(w: World, c: Conn, committed: bool)
    requires PresenceOk(w) && RoomInvariant(w) && UserInvariant(w) && c in w.hub.sessions
    ensures PresenceOk(HandleRegister(w, c, committed))
  {
    hide PresenceOk, RoomInvariant, UserInvariant, Respond, WithUser;
    var d := w.hub.sessions[c];
    RespondExactIff(w, c, false);
    if d.status == Registering && d.user.Some? {
      InRoomIsLoggedIn(w, c);
      var w1 := WithSession(w, c, d.(status := Unauthenticated));
      OutsiderExact(w, c, d.(status := Unauthenticated));
      RespondExactIff(w1, c, false);
      if 0 <= w.db.nextUser < 0x8000_0000 {
        var db := WithUser(w.db, w.db.nextUser, d.user.value.name);
        SameMembersExact(w1, db, w1.hub) by {
          WithUserMembers(w.db, w.db.nextUser, d.user.value.name);
        }
        RespondExactIff(w1.(db := db), c, true);
      }
    }
  }

  lemma WithUserMembers(db: Db, u: UserId, name: string)
    ensures forall q: RoomId :: Members(WithUser(db, u, name), q) == Members(db, q)
  {
  }

  /** Tables and sessions change, membership and users in rooms do not; rooms may vanish. */
  lemma SameMembersExact(w: World, db: Db, h: Hub)
    requires PresenceOk(w) && SameLists(w, w.(hub := h))
    requires forall q: RoomId | Lookup(h.byRoom, q) != {} ::
               Lookup(h.byRoom, q) == Lookup(w.hub.byRoom, q) && Members(db, q) == Members(w.db, q)
    requires forall c: Conn :: UserAt(h.sessions, c) == UserAt(w.hub.sessions, c)
    ensures PresenceOk(w.(db := db, hub := h))
  {
    hide PresenceOk, Members, SameLists, Settled, QueueSafe;
    assert SameLists(w, w.(db := db, hub := h)) by {
      SameListsHub(w, w.(hub := h), w.(db := db, hub := h));
    }
    StillExact(w, w.(db := db, hub := h));
  }

  lemma SameListsHub(w: World, w1: World, w2: World)
    requires SameLists(w, w1) && w2.clients == w1.clients && w2.hub.outbox == w1.hub.outbox
    ensures SameLists(w, w2)
  {
  }

  lemma ConnectExact(w: World)
    requires PresenceOk(w) && RoomInvariant(w)
    ensures PresenceOk(HandleConnect(w))
  {
    hide PresenceOk, RoomIndexOk, Members, HandleAll, AllKeepEntries;
    var w' := HandleConnect(w);
    forall c: Conn
      ensures Settled(w'.clients, w'.hub.outbox, c) == Settled(w.clients, w.hub.outbox, c)
      ensures QueueSafe(w.clients, w.hub.outbox, c) ==> QueueSafe(w'.clients, w'.hub.outbox, c)
    {
      NothingQueued(w'.clients, w'.hub.outbox, w.nextConn);
    }
    StillExact(w, w');
  }

  lemma NothingQueued(clients: map<Conn, Presence>, box: Outbox, c: Conn)
    requires c in clients && c in box && box[c] == [] && clients[c] == map[]
    ensures Settled(clients, box, c) == map[] && QueueSafe(clients, box, c)
  {
  }

  lemma DeliverExact(w: World, c: Conn)
    requires PresenceOk(w) && Enabled(w, Deliver(c))
    ensures PresenceOk(HandleDeliver(w, c))
    ensures KeepsEntries(w.clients[c], w.hub.outbox[c][0])
  {
    assert QueueSafe(w.clients, w.hub.outbox, c);
    hide PresenceOk, Members;
    StillExact(w, HandleDeliver(w, c));
  }

  lemma CreateExact(w: World, c: Conn, committed: bool)
    requires PresenceOk(w) && RoomInvariant(w) && c in w.hub.sessions
    ensures PresenceOk(HandleCreateRoom(w, c, committed))
  {
    hide PresenceOk, RoomInvariant, Respond, WithRoom, SendToAll, Members, SameLists;
    var d := w.hub.sessions[c];
    RespondExactIff(w, c, false);
    if d.status == Authenticated && d.user.Some? && -0x8000_0000 <= w.db.nextRoom < 0x8000_0000 {
      var r: RoomId, u := w.db.nextRoom, d.user.value.id;
      var db, h := WithRoom(w.db, r, u), SendToAll(w.hub, NewRoomCreated(r, u));
      NeutralBroadcast(w, NewRoomCreated(r, u));
      NewRoomIsEmpty(w, r);
      WithRoomMembers(w.db, r, u);
      BroadcastFrame(w.hub, NewRoomCreated(r, u));
      SameMembersExact(w, db, h);
      RespondExactIff(w.(db := db, hub := h), c, true);
    }
  }

  lemma BroadcastFrame(h: Hub, m: Msg)
    ensures SendToAll(h, m).sessions == h.sessions && SendToAll(h, m).byRoom == h.byRoom
  {
  }

  lemma NewRoomIsEmpty(w: World, r: RoomId)
    requires RoomInvariant(w) && r == w.db.nextRoom
    ensures Lookup(w.hub.byRoom, r) == {}
  {
    forall c: Conn ensures c !in Lookup(w.hub.byRoom, r) {
      assert !Inside(w.hub.sessions, w.db.rooms.Keys, c, r);
    }
  }

  lemma WithRoomMembers(db: Db, r: RoomId, owner: UserId)
    ensures forall q: RoomId | q != r :: Members(WithRoom(db, r, owner), q) == Members(db, q)
  {
    var db' := WithRoom(db, r, owner);
    forall q: RoomId | q != r ensures Members(db', q) == Members(db, q) {
      assert forall k <- db'.membership :: k.1 == q ==> k in db.membership;
      assert forall k <- db.membership :: k in db'.membership;
    }
  }

  lemma DeleteExact(w: World, c: Conn, r: RoomId, committed: bool)
    requires PresenceOk(w) && c in w.hub.sessions
    ensures PresenceOk(HandleDeleteRoom(w, c, r, committed))
  {
    hide PresenceOk, Respond, DropRoom, SendToAll, Members, SameLists;
    RespondExactIff(w, c, false);
    var emptied := w.hub.(byRoom := w.hub.byRoom - {r});
    var h := SendToAll(emptied, RoomDeleted(r));
    NeutralBroadcast(w.(hub := emptied), RoomDeleted(r));
    BroadcastFrame(emptied, RoomDeleted(r));
    SameListsFrom(w, emptied, h);
    DropRoomMembers(w.db, r);
    SameMembersExact(w, DropRoom(w.db, r), h);
    RespondExactIff(w.(db := DropRoom(w.db, r), hub := h), c, true);
  }

  lemma SameListsFrom(w: World, emptied: Hub, h: Hub)
    requires emptied.outbox == w.hub.outbox && SameLists(w.(hub := emptied), w.(hub := emptied).(hub := h))
    ensures SameLists(w, w.(hub := h))
  {
  }

  lemma DropRoomMembers(db: Db, r: RoomId)
    ensures forall q: RoomId | q != r :: Members(DropRoom(db, r), q) == Members(db, q)
  {
    var db' := DropRoom(db, r);
    forall q: RoomId | q != r ensures Members(db', q) == Members(db, q) {
      assert forall k <- db.membership :: k.1 == q ==> k in db'.membership;
    }
  }

  lemma RightsExact(w: World, u: UserId, r: RoomId, rights: Rights)
    requires PresenceOk(w)
    ensures PresenceOk(w.(hub := UpdateUserRoomRights(w.hub, u, r, rights)))
  {
    hide PresenceOk, ToEach, Members, SameLists;
    if u in w.hub.byUser {
      NeutralSend(w, Lookup(w.hub.byRoom, r), UserRoleChanged(u, rights));
      var h := UpdateUserRoomRights(w.hub, u, r, rights);
      SameListsHub(w, w.(hub := w.hub.(outbox := h.outbox)), w.(hub := h));
      SameMembersExact(w, w.db, h);
      assert w.(db := w.db, hub := h) == w.(hub := h);
    }
  }

  lemma AssignExact(w: World, c: Conn, target: UserId, r: RoomId, role: Rights, committed: bool)
    requires PresenceOk(w) && RoomInvariant(w) && c in w.hub.sessions
    ensures PresenceOk(HandleAssignRole(w, c, target, r, role, committed))
  {
    hide PresenceOk, RoomInvariant, Respond, UpdateUserRoomRights, AssignRoleTransaction, Members, SameLists;
    RespondExactIff(w, c, false);
    if Assignment(w, c, target, r, role).Some? {
      var done := Assignment(w, c, target, r, role).value;
      AssignedMembers(w, w.hub.Session(c).room.value.rights, target, r, role);
      var w1 := w.(db := done.db);
      RightsExact(w1, done.oldOwner, r, done.oldOwnerRole);
      var w2 := if done.oldOwner != 0 then
                  w1.(hub := UpdateUserRoomRights(w.hub, done.oldOwner, r, done.oldOwnerRole))
                else w1;
      RightsExact(w2, target, r, role);
      RespondExactIff(w2.(hub := UpdateUserRoomRights(w2.hub, target, r, role)), c, true);
    }
  }

  lemma AssignedMembers(w: World, actor: Rights, target: UserId, r: RoomId, role: Rights)
    requires PresenceOk(w) && RoomInvariant(w) && AssignRoleTransaction(w.db, actor, target, r, role).Some?
    ensures PresenceOk(w.(db := AssignRoleTransaction(w.db, actor, target, r, role).value.db))
  {
    hide PresenceOk, RoomIndexOk, AssignRoleTransaction;
    AssignedTables(w.db, actor, target, r, role);
    var db := AssignRoleTransaction(w.db, actor, target, r, role).value.db;
    assert forall q: RoomId :: Members(db, q) == Members(w.db, q);
    SameMembersExact(w, db, w.hub);
    assert w.(db := db, hub := w.hub) == w.(db := db);
  }

  lemma ChangeUsernameExact(w: World, c: Conn, name: string, committed: bool)
    requires PresenceOk(w) && c in w.hub.sessions
    ensures PresenceOk(HandleChangeUsername(w, c, name, committed))
  {
    hide PresenceOk, Respond, Renamed, SendToAll, Members, SameLists;
    RespondExactIff(w, c, false);
    if MayRename(w, c, name) {
      var d := w.hub.sessions[c];
      var u := d.user.value.id;
      var w1 := WithSession(w, c, d.(user := Some(User(u, name))));
      var db, h := Renamed(w.db, u, name), SendToAll(w1.hub, UsernameChanged(u, name));
      UnchangedExact(w, w1);
      NeutralBroadcast(w1, UsernameChanged(u, name));
      BroadcastFrame(w1.hub, UsernameChanged(u, name));
      RenamedMembers(w.db, u, name);
      SameMembersExact(w1, db, h);
      RespondExactIff(w1.(db := db, hub := h), c, true);
    }
  }

  lemma RenamedMembers(db: Db, u: UserId, name: string)
    ensures forall q: RoomId :: Members(Renamed(db, u, name), q) == Members(db, q)
  {
  }

  lemma LeaveExact(w: World, c: Conn)
    requires PresenceOk(w) && RoomInvariant(w) && c in w.hub.sessions
    ensures PresenceOk(HandleLeaveRoom(w, c)) && PresenceOk(HandleLogout(w, c))
  {
    hide PresenceOk, RoomInvariant, Respond, Depart, UnregisterConnection;
    RespondExactIff(w, c, false);
    ResetExact(w, c);
    RespondExactIff(w.(hub := SetSession(UnregisterConnection(w.hub, c), c, NEW_SESSION)), c, true);
    if w.hub.sessions[c].room.Some? {
      DepartExact(w, c);
      RespondExactIff(Depart(w, c), c, true);
    }
  }

  /** A step keeps every list exact if and only if it does not change membership without saying so. */
  lemma StepKeepsPresenceIff(w: World, e: Event)
    requires PresenceOk(w) && RoomInvariant(w) && UserInvariant(w) && Enabled(w, e) && !RestartsLogin(w, e)
    ensures PresenceOk(Step(w, e)) <==> !Misreports(w, e)
  {
    hide PresenceOk, RoomInvariant, UserInvariant, HandleConnect, HandleInitialAuth, HandleInitialRegister, HandleAuth,
      HandleRegister, HandleJoinRoom, HandleLeaveRoom, HandleCreateRoom, HandleDeleteRoom, HandleAssignRole,
      HandleBecomeMember, HandleChangeUsername, HandleLogout, HandleClose, HandleDeliver, RestartsLogin, JoinMisreports,
      Depart;
    match e
    case Connect => ConnectExact(w);
    case InitialAuth(_, _) => LoginStepsExact(w, e);
    case InitialRegister(_, _) => LoginStepsExact(w, e);
    case Auth(_, _) => LoginStepsExact(w, e);
    case Register(c, fault) => RegisterExact(w, c, fault == Works);
    case JoinRoom(c, r, fault) => JoinExactIff(w, c, r, fault);
    case LeaveRoom(c) => LeaveExact(w, c);
    case CreateRoom(c, fault) => CreateExact(w, c, fault == Works);
    case DeleteRoom(c, r, fault) => DeleteExact(w, c, r, fault == Works);
    case AssignRole(c, target, r, role, fault) => AssignExact(w, c, target, r, role, fault == Works);
    case BecomeMember(c, r, stored) => BecomeMemberExactIff(w, c, r, stored);
    case ChangeUsername(c, name, fault) => ChangeUsernameExact(w, c, name, fault == Works);
    case Logout(c) => LeaveExact(w, c);
    case Close(c) => ResetExact(w, c);
    case Deliver(c) => DeliverExact(w, c);
  }
}
