/**
 What each request does and does not do: when it succeeds, what then changes for whom,
 what everybody is told, and that a refusal changes nothing. Who is told is stated by
 what the sessions say, not by the indexes the handlers use.
 */
module ChatEffects {
  import opened Wrappers
  import opened ChatDatabase
  import opened ChatHub
  import opened ChatServer
  import opened Transactions
  import opened ChatIndexes

  /** Exactly these messages are queued for the connection on top of what was. */
  ghost predicate Hears(box: Outbox, box': Outbox, x: Conn, ms: seq<Msg>) {
    x in box && x in box' && box'[x] == box[x] + ms
  }

  /** The connection hears one answer, and nobody else anything. */
  ghost predicate Answers(box: Outbox, box': Outbox, c: Conn, m: Msg) {
    forall x <- box :: Hears(box, box', x, if x == c then [m] else [])
  }

  /** No session but that of the connection changes, appears or disappears. */
  ghost predicate OthersAlike(w: World, w': World, c: Conn) {
    forall x | x != c ::
      && (x in w'.hub.sessions <==> x in w.hub.sessions)
      && (x in w.hub.sessions ==> w'.hub.sessions[x] == w.hub.sessions[x])
  }

  ghost predicate SameIndexes(w: World, w': World) {
    && (forall u: UserId :: Lookup(w'.hub.byUser, u) == Lookup(w.hub.byUser, u))
    && (forall r: RoomId :: Lookup(w'.hub.byRoom, r) == Lookup(w.hub.byRoom, r))
  }

  /** Nothing happens but the answer to the request. */
  ghost predicate OnlyAnswers(w: World, w': World, c: Conn, m: Msg) {
    && w'.db == w.db && w'.hub.sessions == w.hub.sessions && SameIndexes(w, w')
    && w'.clients == w.clients && w'.nextConn == w.nextConn
    && Answers(w.hub.outbox, w'.hub.outbox, c, m)
  }

  /** What one session being renamed, relabelled or reseated leaves alone. */
  ghost predicate OnlySession(w: World, w': World, c: Conn, d: WsData) {
    && OthersAlike(w, w', c) && c in w'.hub.sessions && w'.hub.sessions[c] == d
    && w'.clients == w.clients && w'.nextConn == w.nextConn
  }

  lemma AnswerOnly(w: World, c: Conn, m: Msg)
    requires RoomInvariant(w)
    ensures OnlyAnswers(w, Respond(w, c, m), c, m)
    ensures Respond(w, c, m) == w.(hub := w.hub.(outbox := Respond(w, c, m).hub.outbox))
    ensures Answers(w.hub.outbox, Respond(w, c, m).hub.outbox, c, m)
  {
    hide RoomIndexOk;
  }

  lemma SessionSet(w: World, w': World, c: Conn, d: WsData)
    requires w'.hub.sessions == w.hub.sessions[c := d] && w'.clients == w.clients && w'.nextConn == w.nextConn
    ensures OnlySession(w, w', c, d)
  {
  }

  lemma SameSets(w: World, w': World)
    requires w'.hub.byUser == w.hub.byUser && w'.hub.byRoom == w.hub.byRoom
    ensures SameIndexes(w, w')
  {
  }

  // Starting, finishing and failing to log in.

  /** Naming oneself succeeds exactly with a known name, whatever the session was doing. */
  lemma InitialAuthEffect(w: World, c: Conn, name: string)
    requires RoomInvariant(w) && c in w.hub.sessions
    ensures var w', d := Step(w, InitialAuth(c, name)), w.hub.sessions[c];
            var ok := name != "" && name in w.db.usernames;
            && (!ok ==> OnlyAnswers(w, w', c, Reply(false)))
            && (ok ==> && OnlySession(w, w', c, WsData(Some(User(0, name)), d.room, Authenticating))
                       && w'.db == w.db && SameIndexes(w, w')
                       && Answers(w.hub.outbox, w'.hub.outbox, c, Reply(true)))
  {
    hide RoomInvariant, Respond, Answers, OnlyAnswers, OnlySession, SameIndexes;
    var d := w.hub.sessions[c].(status := Authenticating, user := Some(User(0, name)));
    AnswerOnly(w, c, Reply(false));
    RelabelKeeps(w, c, d);
    AnswerOnly(WithSession(w, c, d), c, Reply(true));
    if name != "" && name in w.db.usernames {
      SessionSet(w, Step(w, InitialAuth(c, name)), c, d);
      SameSets(w, Step(w, InitialAuth(c, name)));
    }
  }

  /** And asking to register, exactly with an unknown one. */
  lemma InitialRegisterEffect(w: World, c: Conn, name: string)
    requires RoomInvariant(w) && c in w.hub.sessions
    ensures var w', d := Step(w, InitialRegister(c, name)), w.hub.sessions[c];
            var ok := name != "" && name !in w.db.usernames;
            && (!ok ==> OnlyAnswers(w, w', c, Reply(false)))
            && (ok ==> && OnlySession(w, w', c, WsData(Some(User(0, name)), d.room, Registering))
                       && w'.db == w.db && SameIndexes(w, w')
                       && Answers(w.hub.outbox, w'.hub.outbox, c, Reply(true)))
  {
    hide RoomInvariant, Respond, Answers, OnlyAnswers, OnlySession, SameIndexes;
    var d := w.hub.sessions[c].(status := Registering, user := Some(User(0, name)));
    AnswerOnly(w, c, Reply(false));
    RelabelKeeps(w, c, d);
    AnswerOnly(WithSession(w, c, d), c, Reply(true));
    if name != "" && name !in w.db.usernames {
      SessionSet(w, Step(w, InitialRegister(c, name)), c, d);
      SameSets(w, Step(w, InitialRegister(c, name)));
    }
  }

  /** The session has begun to authenticate with a name that is in the tables. */
  predicate IsKnown(w: World, c: Conn) {
    var d := w.hub.Session(c);
    d.status == Authenticating && d.user.Some? && d.user.value.name in w.db.usernames
  }

  /**
   Credentials log a session in if and only if they are accepted, the session was
   authenticating and its name is known; the answer says which. Rejected ones change
   nothing, and without the row, or when it cannot be updated, the status alone is reset.
   */
  lemma AuthEffect(w: World, c: Conn, verdict: Verdict)
    requires RoomInvariant(w) && c in w.hub.sessions
    ensures var w', d := Step(w, Auth(c, verdict)), w.hub.sessions[c];
            var ok := IsKnown(w, c) && verdict == Accepted;
            && c in w'.hub.sessions && w'.db == w.db && OthersAlike(w, w', c)
            && (d.status != Authenticated ==> (w'.hub.sessions[c].status == Authenticated <==> ok))
            && Answers(w.hub.outbox, w'.hub.outbox, c, Reply(ok))
            && (forall r: RoomId :: Lookup(w'.hub.byRoom, r) == Lookup(w.hub.byRoom, r))
            && (ok ==> && w'.hub.sessions[c] ==
                            WsData(Some(User(w.db.usernames[d.user.value.name], d.user.value.name)), d.room,
                                   Authenticated)
                       && forall u: UserId :: Lookup(w'.hub.byUser, u) == Lookup(w.hub.byUser, u) +
                                              (if u == w.db.usernames[d.user.value.name] then {c} else {}))
            && (!ok ==> SameIndexes(w, w'))
            && (d.status != Authenticating || verdict == Rejected ==> w'.hub.sessions == w.hub.sessions)
            && (d.status == Authenticating && verdict != Rejected && !ok ==>
                  w'.hub.sessions[c] == d.(status := Unauthenticated))
  {
    hide RoomInvariant, Respond, Lookup, Insert, Answers, OnlyAnswers, OnlySession, SameIndexes;
    var w', d := Step(w, Auth(c, verdict)), w.hub.sessions[c];
    AnswerOnly(w, c, Reply(false));
    HasUser(w, c);
    if d.status == Authenticating && verdict != Rejected {
      var w1 := WithSession(w, c, d.(status := Unauthenticated));
      RelabelKeeps(w, c, d.(status := Unauthenticated));
      AnswerOnly(w1, c, Reply(false));
      if IsKnown(w, c) && verdict == Accepted {
        var id := w.db.usernames[d.user.value.name];
        var d2 := d.(user := Some(d.user.value.(id := id)), status := Authenticated);
        var w2 := WithSession(w, c, d2);
        LoginKeeps(w, c, id);
        AnswerOnly(w2.(hub := RegisterConnection(w2.hub, id, c)), c, Reply(true));
        InsertLookup(w.hub.byUser, id, c);
      } else {
        SameSets(w, w');
      }
    } else {
      SameSets(w, w');
    }
  }

  lemma HasUser(w: World, c: Conn)
    requires RoomInvariant(w) && c in w.hub.sessions
    ensures w.hub.sessions[c].status != Unauthenticated ==> w.hub.sessions[c].user.Some?
  {
  }

  /** Registering adds a row under a fresh id if and only if the session asked for it and the name is still free. */
  lemma RegisterEffect(w: World, c: Conn, tx: Fault)
    requires RoomInvariant(w) && c in w.hub.sessions
    ensures var w', d := Step(w, Register(c, tx)), w.hub.sessions[c];
            var ok := && d.status == Registering && tx == Works && w.db.nextUser < 0x8000_0000
                      && d.user.value.name !in w.db.usernames;
            && OnlySession(w, w', c, if d.status == Registering then d.(status := Unauthenticated) else d)
            && SameIndexes(w, w')
            && Answers(w.hub.outbox, w'.hub.outbox, c, Reply(ok))
            && (!ok ==> w'.db == w.db)
            && (ok ==> && w.db.nextUser !in w.db.users && w'.db.users == w.db.users + {w.db.nextUser}
                       && w'.db.usernames == w.db.usernames[d.user.value.name := w.db.nextUser]
                       && w'.db == w.db.(users := w'.db.users, usernames := w'.db.usernames,
                                         nextUser := w.db.nextUser + 1))
  {
    hide RoomInvariant, Respond, Answers, OnlyAnswers, OnlySession, SameIndexes;
    var w', d := Step(w, Register(c, tx)), w.hub.sessions[c];
    HasUser(w, c);
    FreshIds(w);
    AnswerOnly(w, c, Reply(false));
    if d.status == Registering {
      var d1 := d.(status := Unauthenticated);
      var w1 := WithSession(w, c, d1);
      RelabelKeeps(w, c, d1);
      AnswerOnly(w1, c, Reply(false));
      if w.db.nextUser < 0x8000_0000 {
        NewUserKeeps(w1, w.db.nextUser, d.user.value.name);
        AnswerOnly(w1.(db := WithUser(w.db, w.db.nextUser, d.user.value.name)), c, Reply(true));
      }
      SessionSet(w, w', c, d1);
    } else {
      assert w.hub.sessions[c := d] == w.hub.sessions;
      SessionSet(w, w', c, d);
    }
    SameSets(w, w');
  }

  lemma FreshIds(w: World)
    requires RoomInvariant(w)
    ensures 0 < w.db.nextUser && w.db.nextUser !in w.db.users && 0 < w.db.nextRoom && w.db.nextRoom !in w.db.rooms
  {
  }

  // Leaving.

  /** What a connection hears when `c` leaves its room: a farewell, if it is in that room, the leaver included. */
  function Farewell(w: World, c: Conn, x: Conn): seq<Msg> {
    var d := w.hub.Session(c);
    if d.room.Some? && d.user.Some? && Inside(w.hub.sessions, w.db.rooms.Keys, x, d.room.value.id)
    then [UserLeft(d.user.value.id)] else []
  }

  /** The connection is in no room set any more, and all others are where they were. */
  ghost predicate LeftItsRoom(w: World, w': World, c: Conn) {
    forall r: RoomId :: Lookup(w'.hub.byRoom, r) == Lookup(w.hub.byRoom, r) - {c}
  }

  lemma PeersOf(w: World, c: Conn)
    requires RoomInvariant(w) && c in w.hub.sessions && w.hub.sessions[c].room.Some?
    ensures forall x :: x in Lookup(w.hub.byRoom, w.hub.sessions[c].room.value.id) <==>
                          Inside(w.hub.sessions, w.db.rooms.Keys, x, w.hub.sessions[c].room.value.id)
    ensures forall r: RoomId | r != w.hub.sessions[c].room.value.id :: c !in Lookup(w.hub.byRoom, r)
  {
    forall r: RoomId | r != w.hub.sessions[c].room.value.id ensures c !in Lookup(w.hub.byRoom, r) {
      assert !Inside(w.hub.sessions, w.db.rooms.Keys, c, r);
    }
  }

  lemma RoomSet(w: World, r: RoomId)
    requires RoomInvariant(w)
    ensures forall x :: x in Lookup(w.hub.byRoom, r) <==> Inside(w.hub.sessions, w.db.rooms.Keys, x, r)
  {
  }

  lemma InNoRoom(w: World, c: Conn)
    requires RoomInvariant(w) && c in w.hub.sessions && w.hub.sessions[c].room.None?
    ensures forall r: RoomId :: c !in Lookup(w.hub.byRoom, r)
  {
    forall r: RoomId ensures c !in Lookup(w.hub.byRoom, r) {
      assert !Inside(w.hub.sessions, w.db.rooms.Keys, c, r);
    }
  }

  lemma DepartTells(w: World, c: Conn)
    requires RoomInvariant(w) && c in w.hub.sessions && w.hub.sessions[c].room.Some?
    ensures var w' := Depart(w, c);
            && w'.db == w.db && w'.hub.byUser == w.hub.byUser && LeftItsRoom(w, w', c)
            && OnlySession(w, w', c, w.hub.sessions[c].(room := None))
            && forall x <- w.hub.sessions :: Hears(w.hub.outbox, w'.hub.outbox, x, Farewell(w, c, x))
  {
    hide RoomIndexOk, Lookup, Depart;
    UserWhenInRoom(w, c);
    DepartEffect(w, c);
    PeersOf(w, c);
    EraseLookup(w.hub.byRoom, w.hub.sessions[c].room.value.id, c);
  }

  lemma HearsMore(box: Outbox, box1: Outbox, box2: Outbox, x: Conn, a: seq<Msg>, b: seq<Msg>)
    requires Hears(box, box1, x, a) && Hears(box1, box2, x, b)
    ensures Hears(box, box2, x, a + b)
  {
  }

  /** A farewell and an answer. */
  lemma FarewellThenAnswer(w: World, w1: World, c: Conn)
    requires RoomInvariant(w1) && w1.hub.sessions.Keys == w.hub.sessions.Keys
    requires forall x <- w.hub.sessions :: Hears(w.hub.outbox, w1.hub.outbox, x, Farewell(w, c, x))
    ensures forall x <- w.hub.sessions ::
              Hears(w.hub.outbox, Respond(w1, c, Reply(true)).hub.outbox, x,
                    Farewell(w, c, x) + (if x == c then [Reply(true)] else []))
  {
    hide RoomInvariant, Farewell, Respond, Hears, SameIndexes;
    AnswerOnly(w1, c, Reply(true));
    ShapeOf(w1);
    forall x | x in w.hub.sessions
      ensures Hears(w.hub.outbox, Respond(w1, c, Reply(true)).hub.outbox, x,
                    Farewell(w, c, x) + (if x == c then [Reply(true)] else []))
    {
      HearsMore(w.hub.outbox, w1.hub.outbox, Respond(w1, c, Reply(true)).hub.outbox, x, Farewell(w, c, x),
                if x == c then [Reply(true)] else []);
    }
  }

  /** Leaving succeeds exactly for a logged-in session in a room; it is then in none, and the room is told. */
  lemma LeaveRoomEffect(w: World, c: Conn)
    requires RoomInvariant(w) && c in w.hub.sessions
    ensures var w', d := Step(w, LeaveRoom(c)), w.hub.sessions[c];
            var ok := d.status == Authenticated && d.room.Some?;
            && (!ok ==> OnlyAnswers(w, w', c, Reply(false)))
            && (ok ==> && w'.db == w.db && w'.hub.byUser == w.hub.byUser && LeftItsRoom(w, w', c)
                       && OnlySession(w, w', c, d.(room := None))
                       && forall x <- w.hub.sessions ::
                            Hears(w.hub.outbox, w'.hub.outbox, x,
                                  Farewell(w, c, x) + (if x == c then [Reply(true)] else [])))
  {
    hide RoomInvariant, Depart, Farewell, Lookup, Respond, Hears, Answers, OnlyAnswers, SameIndexes;
    AnswerOnly(w, c, Reply(false));
    if w.hub.sessions[c].room.Some? {
      DepartTells(w, c);
      DepartKeeps(w, c);
      AnswerOnly(Depart(w, c), c, Reply(true));
      DepartedKeys(w, c);
      FarewellThenAnswer(w, Depart(w, c), c);
    }
  }

  lemma DepartedKeys(w: World, c: Conn)
    requires c in w.hub.sessions
    ensures Depart(w, c).hub.sessions.Keys == w.hub.sessions.Keys
  {
  }

  /** Unregistering: out of the room, which is told, and out of the set of the user. */
  lemma UnregisterTells(w: World, c: Conn)
    requires RoomInvariant(w) && c in w.hub.sessions
    ensures var h := UnregisterConnection(w.hub, c);
            && h.sessions == w.hub.sessions && LeftItsRoom(w, w.(hub := h), c)
            && (forall u: UserId :: Lookup(h.byUser, u) ==
                  if w.hub.sessions[c].user.Some? && u == w.hub.sessions[c].user.value.id
                  then Lookup(w.hub.byUser, u) - {c}
                  else Lookup(w.hub.byUser, u))
            && forall x <- w.hub.sessions :: Hears(w.hub.outbox, h.outbox, x, Farewell(w, c, x))
  {
    hide RoomIndexOk, Lookup, UnregisterConnection;
    UserWhenInRoom(w, c);
    UnregisterEffect(w.hub, c);
    var d := w.hub.sessions[c];
    if d.user.Some? {
      EraseLookup(w.hub.byUser, d.user.value.id, c);
    }
    if d.room.Some? {
      PeersOf(w, c);
      EraseLookup(w.hub.byRoom, d.room.value.id, c);
    } else {
      InNoRoom(w, c);
    }
  }

  /** Logging out succeeds exactly when logged in; the session is then as new and its user has one connection less. */
  lemma LogoutEffect(w: World, c: Conn)
    requires RoomInvariant(w) && c in w.hub.sessions
    ensures var w', d := Step(w, Logout(c)), w.hub.sessions[c];
            var ok := d.status == Authenticated;
            && (!ok ==> OnlyAnswers(w, w', c, Reply(false)))
            && (ok ==> && w'.db == w.db && LeftItsRoom(w, w', c) && OnlySession(w, w', c, NEW_SESSION)
                       && d.user.Some?
                       && (forall u: UserId :: Lookup(w'.hub.byUser, u) ==
                             if u == d.user.value.id then Lookup(w.hub.byUser, u) - {c} else Lookup(w.hub.byUser, u))
                       && forall x <- w.hub.sessions ::
                            Hears(w.hub.outbox, w'.hub.outbox, x,
                                  Farewell(w, c, x) + (if x == c then [Reply(true)] else [])))
  {
    hide RoomInvariant, UnregisterConnection, Farewell, Lookup, Respond, Hears, Answers, OnlyAnswers, SameIndexes,
      OnlySession;
    AnswerOnly(w, c, Reply(false));
    if w.hub.sessions[c].status == Authenticated {
      UserOf(w, c);
      UnregisterTells(w, c);
      ResetKeeps(w, c);
      var w1 := w.(hub := SetSession(UnregisterConnection(w.hub, c), c, NEW_SESSION));
      AnswerOnly(w1, c, Reply(true));
      FarewellThenAnswer(w, w1, c);
      SessionSet(w, Respond(w1, c, Reply(true)), c, NEW_SESSION);
    }
  }

  /** A closed connection is gone everywhere, and its room is told. */
  lemma CloseEffect(w: World, c: Conn)
    requires RoomInvariant(w) && c in w.hub.sessions
    ensures var w', d := Step(w, Close(c)), w.hub.sessions[c];
            && w'.db == w.db && OthersAlike(w, w', c) && LeftItsRoom(w, w', c) && w'.nextConn == w.nextConn
            && c !in w'.hub.sessions && c !in w'.hub.outbox && w'.clients == w.clients - {c}
            && (forall u: UserId :: Lookup(w'.hub.byUser, u) ==
                  if d.user.Some? && u == d.user.value.id then Lookup(w.hub.byUser, u) - {c}
                  else Lookup(w.hub.byUser, u))
            && forall x <- w.hub.sessions | x != c :: Hears(w.hub.outbox, w'.hub.outbox, x, Farewell(w, c, x))
  {
    hide RoomInvariant, UnregisterConnection, Farewell, Lookup;
    UnregisterTells(w, c);
  }

  // Rooms and roles.

  /** Every logged-in session hears the news, and the request its answer. */
  ghost predicate EverybodyHears(w: World, w': World, c: Conn, news: Msg, answer: Msg) {
    forall x <- w.hub.sessions ::
      Hears(w.hub.outbox, w'.hub.outbox, x, (if w.hub.sessions[x].status == Authenticated then [news] else [])
                      + (if x == c then [answer] else []))
  }

  /** A broadcast and an answer, under the same logins. */
  lemma BroadcastThenAnswer(w: World, w1: World, c: Conn, news: Msg, answer: Msg)
    requires RoomInvariant(w) && UserInvariant(w) && RoomInvariant(w1)
    requires w1.hub.outbox == SendToAll(w.hub, news).outbox && w1.hub.sessions.Keys == w.hub.sessions.Keys
    ensures EverybodyHears(w, Respond(w1, c, answer), c, news, answer)
  {
    hide RoomInvariant, UserInvariant, SendToAll, Respond, Hears, SameIndexes;
    AnswerOnly(w1, c, answer);
    ShapeOf(w1);
    forall x | x in w.hub.sessions
      ensures Hears(w.hub.outbox, Respond(w1, c, answer).hub.outbox, x,
                    (if w.hub.sessions[x].status == Authenticated then [news] else [])
                    + (if x == c then [answer] else []))
    {
      NewsReaches(w, news, x);
      HearsMore(w.hub.outbox, w1.hub.outbox, Respond(w1, c, answer).hub.outbox, x,
                if w.hub.sessions[x].status == Authenticated then [news] else [], if x == c then [answer] else []);
    }
  }

  lemma NewsReaches(w: World, news: Msg, x: Conn)
    requires RoomInvariant(w) && UserInvariant(w) && x in w.hub.sessions
    ensures Hears(w.hub.outbox, SendToAll(w.hub, news).outbox, x,
                  if w.hub.sessions[x].status == Authenticated then [news] else [])
  {
    hide RoomIndexOk, UserIndexOk;
    BroadcastReachesOnce(w, news, x);
  }

  /** A room is created if and only if somebody logged in asks and the transaction is committed. */
  lemma CreateRoomEffect(w: World, c: Conn, tx: Fault)
    requires RoomInvariant(w) && UserInvariant(w) && c in w.hub.sessions
    ensures var w', d, r := Step(w, CreateRoom(c, tx)), w.hub.sessions[c], w.db.nextRoom;
            var ok := d.status == Authenticated && tx == Works && r < 0x8000_0000;
            && (!ok ==> OnlyAnswers(w, w', c, Reply(false)))
            && (ok ==> && d.user.Some? && r !in w.db.rooms
                       && w'.db == w.db.(rooms := w.db.rooms[r := Room(Some(d.user.value.id), false)],
                                         membership := w.db.membership[(d.user.value.id, r) := Invited],
                                         nextRoom := r + 1)
                       && w'.hub.sessions == w.hub.sessions && SameIndexes(w, w')
                       && w'.clients == w.clients && w'.nextConn == w.nextConn
                       && EverybodyHears(w, w', c, NewRoomCreated(r, d.user.value.id), Reply(true)))
  {
    hide RoomInvariant, UserInvariant, Respond, SendToAll, Hears, Answers, OnlyAnswers, SameIndexes, EverybodyHears;
    var d := w.hub.sessions[c];
    AnswerOnly(w, c, Reply(false));
    FreshIds(w);
    if d.status == Authenticated && w.db.nextRoom < 0x8000_0000 {
      UserOf(w, c);
      var r: RoomId, u := w.db.nextRoom, d.user.value.id;
      var w1 := w.(db := WithRoom(w.db, r, u));
      NewRoomKeeps(w, r, u);
      BroadcastAlone(w.hub, NewRoomCreated(r, u));
      BroadcastKeeps(w1, NewRoomCreated(r, u));
      var w2 := w1.(hub := SendToAll(w.hub, NewRoomCreated(r, u)));
      BroadcastThenAnswer(w, w2, c, NewRoomCreated(r, u), Reply(true));
      AnswerOnly(w2, c, Reply(true));
      SameSets(w, Respond(w2, c, Reply(true)));
    }
  }

  lemma BroadcastAlone(h: Hub, m: Msg)
    ensures SendToAll(h, m) == h.(outbox := SendToAll(h, m).outbox)
  {
  }

  /** The tables without a room and its rows, and otherwise as they were. */
  ghost predicate WithoutRoom(db: Db, db': Db, r: RoomId) {
    && db' == db.(rooms := db'.rooms, membership := db'.membership, moderator := db'.moderator)
    && (forall q: RoomId :: q in db'.rooms <==> q in db.rooms && q != r)
    && (forall q <- db'.rooms :: db'.rooms[q] == db.rooms[q])
    && (forall k: (UserId, RoomId) :: k in db'.membership <==> k in db.membership && k.1 != r)
    && (forall k <- db'.membership :: db'.membership[k] == db.membership[k])
    && (forall k: (UserId, RoomId) :: k in db'.moderator <==> k in db.moderator && k.1 != r)
    && (forall k <- db'.moderator :: db'.moderator[k] == db.moderator[k])
  }

  lemma DroppedRoom(db: Db, r: RoomId)
    ensures WithoutRoom(db, DropRoom(db, r), r)
  {
  }

  /**
   A room is deleted if and only if a session in it with the rights asks and the transaction
   is committed; its set is then empty, while sessions keep naming it.
   */
  lemma DeleteRoomEffect(w: World, c: Conn, r: RoomId, tx: Fault)
    requires RoomInvariant(w) && UserInvariant(w) && c in w.hub.sessions
    ensures var w', d := Step(w, DeleteRoom(c, r, tx)), w.hub.sessions[c];
            var ok := && d.status == Authenticated && d.InRoom(r) && d.room.value.rights in {Owner, Admin}
                      && tx == Works && r in w.db.rooms;
            && (!ok ==> OnlyAnswers(w, w', c, Reply(false)))
            && (ok ==> && WithoutRoom(w.db, w'.db, r) && w'.hub.sessions == w.hub.sessions
                       && (forall u: UserId :: Lookup(w'.hub.byUser, u) == Lookup(w.hub.byUser, u))
                       && (forall q: RoomId ::
                             Lookup(w'.hub.byRoom, q) == if q == r then {} else Lookup(w.hub.byRoom, q))
                       && w'.clients == w.clients && w'.nextConn == w.nextConn
                       && EverybodyHears(w, w', c, RoomDeleted(r), Reply(true)))
  {
    hide Hears, RoomInvariant, UserInvariant, Respond, SendToAll, DropRoom, WithoutRoom;
    AnswerOnly(w, c, Reply(false));
    DroppedRoom(w.db, r);
    DroppedKeeps(w, r);
    var emptied := w.hub.(byRoom := w.hub.byRoom - {r});
    var w1 := w.(db := DropRoom(w.db, r), hub := emptied);
    BroadcastKeeps(w1, RoomDeleted(r));
    BroadcastAlone(emptied, RoomDeleted(r));
    SameBroadcast(w.hub, emptied, RoomDeleted(r));
    var w2 := w1.(hub := SendToAll(emptied, RoomDeleted(r)));
    BroadcastThenAnswer(w, w2, c, RoomDeleted(r), Reply(true));
    AnswerOnly(w2, c, Reply(true));
  }

  lemma SameBroadcast(h: Hub, h': Hub, m: Msg)
    requires h'.byUser == h.byUser && h'.outbox == h.outbox
    ensures SendToAll(h', m).outbox == SendToAll(h, m).outbox
  {
  }

  /**
   Becoming a member is accepted for public rooms and with an invitation; only the row
   changes, and only if it is stored.
   */
  lemma BecomeMemberEffect(w: World, c: Conn, r: RoomId, stored: bool)
    requires RoomInvariant(w) && c in w.hub.sessions
    ensures var w', d := Step(w, BecomeMember(c, r, stored)), w.hub.sessions[c];
            var ok := && d.status == Authenticated && r in w.db.rooms
                      && (w.db.rooms[r].isPrivate ==> (d.user.value.id, r) in w.db.membership);
            && (!(ok && stored) ==> OnlyAnswers(w, w', c, Reply(ok)))
            && (ok && stored ==>
                  && w'.db == w.db.(membership := w.db.membership[(d.user.value.id, r) := Joined])
                  && OnlyAnswers(w, w'.(db := w.db), c, Reply(true)))
  {
    hide Hears, RoomInvariant, Respond;
    AnswerOnly(w, c, Reply(false));
    AnswerOnly(w, c, Reply(true));
    if w.hub.sessions[c].status == Authenticated {
      UserOf(w, c);
      AnswerElsewhere(w, SetMembership(w.db, w.hub.sessions[c].user.value.id, r, Joined), c, Reply(true));
    }
  }

  lemma AnswerElsewhere(w: World, db: Db, c: Conn, m: Msg)
    ensures Respond(w.(db := db), c, m).(db := w.db) == Respond(w, c, m)
    ensures Respond(w.(db := db), c, m).db == db
  {
  }

  /**
   A user is renamed if and only if logged in, the name is free and the transaction is
   committed; the tables then know the user by that name alone.
   */
  lemma ChangeUsernameEffect(w: World, c: Conn, name: string, tx: Fault)
    requires RoomInvariant(w) && UserInvariant(w) && c in w.hub.sessions
    ensures var w', d := Step(w, ChangeUsername(c, name, tx)), w.hub.sessions[c];
            var ok := d.status == Authenticated && tx == Works && name !in w.db.usernames;
            && (!ok ==> OnlyAnswers(w, w', c, Reply(false)))
            && (ok ==> && d.user.Some?
                       && w'.db == w.db.(usernames := w'.db.usernames)
                       && name in w'.db.usernames && w'.db.usernames[name] == d.user.value.id
                       && (forall n | n != name :: n in w'.db.usernames <==>
                             n in w.db.usernames && w.db.usernames[n] != d.user.value.id)
                       && (forall n <- w'.db.usernames | n != name :: w'.db.usernames[n] == w.db.usernames[n])
                       && OnlySession(w, w', c, d.(user := Some(User(d.user.value.id, name)))) && SameIndexes(w, w')
                       && EverybodyHears(w, w', c, UsernameChanged(d.user.value.id, name), Reply(true)))
  {
    hide RoomInvariant, UserInvariant, Respond, SendToAll, Renamed, OnlyAnswers, OnlySession, SameIndexes,
      EverybodyHears;
    AnswerOnly(w, c, Reply(false));
    if w.hub.sessions[c].status == Authenticated && name !in w.db.usernames {
      UserOf(w, c);
      RenamedTable(w.db, w.hub.sessions[c].user.value.id, name);
      RenamingTells(w, c, name);
    }
  }

  lemma RenamingTells(w: World, c: Conn, name: string)
    requires RoomInvariant(w) && UserInvariant(w) && c in w.hub.sessions && MayRename(w, c, name)
    ensures var w', d := HandleChangeUsername(w, c, name, true), w.hub.sessions[c];
            && w'.db == Renamed(w.db, d.user.value.id, name)
            && OnlySession(w, w', c, d.(user := Some(User(d.user.value.id, name)))) && SameIndexes(w, w')
            && EverybodyHears(w, w', c, UsernameChanged(d.user.value.id, name), Reply(true))
  {
    hide RoomInvariant, UserInvariant, Respond, SendToAll, Renamed, Hears, Answers, OnlyAnswers, OnlySession,
      SameIndexes, EverybodyHears;
    var d := w.hub.sessions[c];
    var u := d.user.value.id;
    var d1 := d.(user := Some(User(u, name)));
    NewNameKeeps(w, c, name);
    var w1 := WithSession(w, c, d1);
    NewRowKeeps(w1, u, name);
    var w2 := w1.(db := Renamed(w.db, u, name));
    BroadcastKeeps(w2, UsernameChanged(u, name));
    BroadcastAlone(w1.hub, UsernameChanged(u, name));
    SameBroadcast(w.hub, w1.hub, UsernameChanged(u, name));
    var w3 := w2.(hub := SendToAll(w1.hub, UsernameChanged(u, name)));
    BroadcastThenAnswer(w, w3, c, UsernameChanged(u, name), Reply(true));
    AnswerOnly(w3, c, Reply(true));
    SessionSet(w, Respond(w3, c, Reply(true)), c, d1);
    SameSets(w, Respond(w3, c, Reply(true)));
  }

  lemma RenamedTable(db: Db, u: UserId, name: string)
    requires name !in db.usernames
    ensures var db' := Renamed(db, u, name);
            && db' == db.(usernames := db'.usernames)
            && name in db'.usernames && db'.usernames[name] == u
            && (forall n | n != name :: n in db'.usernames <==> n in db.usernames && db.usernames[n] != u)
            && (forall n <- db'.usernames | n != name :: db'.usernames[n] == db.usernames[n])
  {
  }
}
