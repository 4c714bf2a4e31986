/**
 The two indexes against the sessions. The room index agrees with the sessions
 in every run; the user index does when no authenticated connection starts to
 authenticate or register again, and exactly then.
 */
module ChatIndexes {
  import opened Wrappers
  import opened ChatDatabase
  import opened ChatHub
  import opened ChatServer
  import opened Transactions

  /** Connections have a session, an outbox and a client; ids are not reused. */
  ghost predicate Shape(w: World) {
    && w.hub.outbox.Keys == w.hub.sessions.Keys
    && w.clients.Keys == w.hub.sessions.Keys
    && (forall c <- w.hub.sessions :: c < w.nextConn)
  }

  /** What the status of a session says about its fields. */
  ghost predicate SessionsOk(w: World) {
    forall c <- w.hub.sessions ::
      var d := w.hub.sessions[c];
      && (d.status != Unauthenticated ==> d.user.Some?)
      && (d.status == Authenticated ==> d.user.value.id in w.db.users)
      && (d.room.Some? ==> d.user.Some? && d.room.value.id < w.db.nextRoom)
  }

  ghost predicate NoEmptySet(index: Index) {
    forall k <- index :: index[k] != {}
  }

  /** The session says the connection is in the room, and the room exists. */
  predicate Inside(sessions: Sessions, rooms: set<RoomId>, c: Conn, r: RoomId) {
    r in rooms && c in sessions && sessions[c].InRoom(r)
  }

  /**
   The set of a room holds exactly the sessions whose current room it is, so a
   connection is in at most one set.
   */
  ghost predicate RoomIndexOk(sessions: Sessions, byRoom: Index, rooms: set<RoomId>) {
    && NoEmptySet(byRoom)
    && forall r: RoomId, c: Conn :: c in Lookup(byRoom, r) <==> Inside(sessions, rooms, c, r)
  }

  predicate LoggedIn(sessions: Sessions, c: Conn, u: UserId) {
    && c in sessions
    && sessions[c].status == Authenticated
    && sessions[c].user.Some? && sessions[c].user.value.id == u
  }

  /** The user index holds exactly the authenticated connections, under their user's id. */
  ghost predicate UserIndexOk(sessions: Sessions, byUser: Index) {
    && NoEmptySet(byUser)
    && forall u: UserId, c: Conn :: c in Lookup(byUser, u) <==> LoggedIn(sessions, c, u)
  }

  /** Rooms are only current for authenticated sessions. */
  ghost predicate LoginsOk(w: World) {
    forall c <- w.hub.sessions :: w.hub.sessions[c].room.Some? ==> w.hub.sessions[c].status == Authenticated
  }

  ghost predicate RoomInvariant(w: World) {
    w.db.Valid() && Shape(w) && SessionsOk(w) && RoomIndexOk(w.hub.sessions, w.hub.byRoom, w.db.rooms.Keys)
  }

  ghost predicate UserInvariant(w: World) {
    UserIndexOk(w.hub.sessions, w.hub.byUser) && LoginsOk(w)
  }

  lemma EraseLookup(index: Index, k: Id, c: Conn)
    ensures forall k' :: Lookup(Erase(index, k, c), k') == if k' == k then Lookup(index, k) - {c} else Lookup(index, k')
    ensures NoEmptySet(index) ==> NoEmptySet(Erase(index, k, c))
  {
  }

  lemma InsertLookup(index: Index, k: Id, c: Conn)
    ensures forall k' ::
              Lookup(Insert(index, k, c), k') == if k' == k then Lookup(index, k) + {c} else Lookup(index, k')
    ensures NoEmptySet(index) ==> NoEmptySet(Insert(index, k, c))
  {
  }

  // One session changes its room.

  lemma LeaveRoomIndex(sessions: Sessions, byRoom: Index, rooms: set<RoomId>, c: Conn, d: WsData)
    requires RoomIndexOk(sessions, byRoom, rooms)
    requires c in sessions && sessions[c].room.Some? && d.room.None?
    ensures var left := Erase(byRoom, sessions[c].room.value.id, c);
            RoomIndexOk(sessions[c := d], left, rooms) && RoomIndexOk(sessions - {c}, left, rooms)
  {
    EraseLookup(byRoom, sessions[c].room.value.id, c);
  }

  lemma EnterRoomIndex(sessions: Sessions, byRoom: Index, rooms: set<RoomId>, c: Conn, r: RoomId, d: WsData)
    requires RoomIndexOk(sessions, byRoom, rooms)
    requires c in sessions && sessions[c].room.None? && d.InRoom(r) && r in rooms
    ensures RoomIndexOk(sessions[c := d], Insert(byRoom, r, c), rooms)
  {
    InsertLookup(byRoom, r, c);
  }

  /** Changing a session without changing its room. */
  lemma SameRoomIndex(sessions: Sessions, byRoom: Index, rooms: set<RoomId>, c: Conn, d: WsData)
    requires RoomIndexOk(sessions, byRoom, rooms)
    requires if c in sessions then d.room == sessions[c].room else d.room.None?
    ensures RoomIndexOk(sessions[c := d], byRoom, rooms)
  {
  }

  // One session logs in or out.

  lemma LoginIndex(sessions: Sessions, byUser: Index, c: Conn, d: WsData)
    requires UserIndexOk(sessions, byUser)
    requires c in sessions && sessions[c].status != Authenticated
    requires d.status == Authenticated && d.user.Some?
    ensures UserIndexOk(sessions[c := d], Insert(byUser, d.user.value.id, c))
  {
    InsertLookup(byUser, d.user.value.id, c);
  }

  lemma LogoutIndex(sessions: Sessions, byUser: Index, c: Conn, d: WsData)
    requires UserIndexOk(sessions, byUser)
    requires c in sessions && sessions[c].user.Some? && d.status != Authenticated
    ensures var left := Erase(byUser, sessions[c].user.value.id, c);
            UserIndexOk(sessions[c := d], left) && UserIndexOk(sessions - {c}, left)
  {
    EraseLookup(byUser, sessions[c].user.value.id, c);
  }

  /** Changing a session without changing who is logged in. */
  lemma SameLoginIndex(sessions: Sessions, byUser: Index, c: Conn, d: WsData)
    requires UserIndexOk(sessions, byUser)
    requires if c in sessions && sessions[c].status == Authenticated
             then d.status == Authenticated && d.user.Some? == sessions[c].user.Some?
                  && d.UserIdOrZero() == sessions[c].UserIdOrZero()
             else d.status != Authenticated
    ensures UserIndexOk(sessions[c := d], byUser)
  {
  }

  /** Same keys, same room ids, same logins: the indexes cannot tell the difference. */
  ghost predicate SameStanding(sessions: Sessions, sessions': Sessions) {
    && sessions'.Keys == sessions.Keys
    && forall c <- sessions ::
         && sessions'[c].user == sessions[c].user && sessions'[c].status == sessions[c].status
         && sessions'[c].room.Some? == sessions[c].room.Some?
         && (sessions[c].room.Some? ==> sessions'[c].room.value.id == sessions[c].room.value.id)
  }

  lemma SameStandingIndexes(sessions: Sessions, sessions': Sessions, byUser: Index, byRoom: Index, rooms: set<RoomId>)
    requires SameStanding(sessions, sessions')
    ensures RoomIndexOk(sessions, byRoom, rooms) ==> RoomIndexOk(sessions', byRoom, rooms)
    ensures UserIndexOk(sessions, byUser) ==> UserIndexOk(sessions', byUser)
  {
    forall r: RoomId, c: Conn ensures Inside(sessions', rooms, c, r) == Inside(sessions, rooms, c, r) {
    }
    forall u: UserId, c: Conn ensures LoggedIn(sessions', c, u) == LoggedIn(sessions, c, u) {
    }
  }

  /** Nobody can be in a room whose id has not been handed out. */
  lemma NewRoomIndex(sessions: Sessions, byRoom: Index, rooms: set<RoomId>, r: RoomId)
    requires RoomIndexOk(sessions, byRoom, rooms)
    requires r !in rooms && forall c <- sessions :: !sessions[c].InRoom(r)
    ensures RoomIndexOk(sessions, byRoom, rooms + {r})
  {
  }

  lemma DropRoomIndex(sessions: Sessions, byRoom: Index, rooms: set<RoomId>, r: RoomId)
    requires RoomIndexOk(sessions, byRoom, rooms)
    ensures RoomIndexOk(sessions, byRoom - {r}, rooms - {r})
  {
    forall q: RoomId, c: Conn
      ensures c in Lookup(byRoom - {r}, q) <==> Inside(sessions, rooms - {r}, c, q)
    {
      assert c in Lookup(byRoom, q) <==> Inside(sessions, rooms, c, q);
    }
  }

  // Building blocks of the handlers.

  /** What a step owes: the room index always, the user index when it held before. */
  ghost predicate Kept(w: World, w': World) {
    RoomInvariant(w') && (UserInvariant(w) ==> UserInvariant(w'))
  }

  lemma RespondKeeps(w: World, c: Conn, m: Msg)
    requires RoomInvariant(w)
    ensures Kept(w, Respond(w, c, m))
  {
    hide RoomIndexOk, UserIndexOk;
  }

  lemma BroadcastKeeps(w: World, m: Msg)
    requires RoomInvariant(w)
    ensures Kept(w, w.(hub := SendToAll(w.hub, m)))
  {
    hide RoomIndexOk, UserIndexOk;
  }

  /** The tables grow, or change without losing what sessions rely on. */
  lemma TablesKeep(w: World, db: Db)
    requires RoomInvariant(w)
    requires db.Valid() && w.db.users <= db.users && w.db.nextRoom <= db.nextRoom
    requires RoomIndexOk(w.hub.sessions, w.hub.byRoom, db.rooms.Keys)
    ensures Kept(w, w.(db := db))
  {
    hide RoomIndexOk, UserIndexOk;
  }

  lemma UserOf(w: World, c: Conn)
    requires RoomInvariant(w) && c in w.hub.sessions && w.hub.sessions[c].status == Authenticated
    ensures w.hub.sessions[c].user.Some? && w.hub.sessions[c].user.value.id in w.db.users
  {
  }

  lemma UserWhenInRoom(w: World, c: Conn)
    requires RoomInvariant(w) && c in w.hub.sessions
    ensures w.hub.sessions[c].room.Some? ==> w.hub.sessions[c].user.Some?
  {
  }

  lemma InRoomIsLoggedIn(w: World, c: Conn)
    requires UserInvariant(w) && c in w.hub.sessions
    ensures w.hub.sessions[c].room.Some? ==> w.hub.sessions[c].status == Authenticated
  {
  }

  /** A session changes status and user, not room and not login. */
  lemma RelabelKeeps(w: World, c: Conn, d: WsData)
    requires RoomInvariant(w) && c in w.hub.sessions
    requires d.room == w.hub.sessions[c].room && d.user.Some? && d.status != Authenticated
    ensures RoomInvariant(WithSession(w, c, d))
    ensures w.hub.sessions[c].status != Authenticated && UserInvariant(w) ==> UserInvariant(WithSession(w, c, d))
  {
    hide RoomIndexOk, UserIndexOk, Db.Valid;
    SameRoomIndex(w.hub.sessions, w.hub.byRoom, w.db.rooms.Keys, c, d);
    if w.hub.sessions[c].status != Authenticated && UserInvariant(w) {
      SameLoginIndex(w.hub.sessions, w.hub.byUser, c, d);
    }
  }

  // The handlers, one lemma each.

  lemma InitialKeeps(w: World, c: Conn, name: string)
    requires RoomInvariant(w) && c in w.hub.sessions
    ensures RoomInvariant(HandleInitialAuth(w, c, name)) && RoomInvariant(HandleInitialRegister(w, c, name))
    ensures w.hub.sessions[c].status != Authenticated ==>
              Kept(w, HandleInitialAuth(w, c, name)) && Kept(w, HandleInitialRegister(w, c, name))
  {
    hide RoomInvariant, UserInvariant;
    var d := w.hub.sessions[c].(user := Some(User(0, name)));
    RespondKeeps(w, c, Reply(false));
    RelabelKeeps(w, c, d.(status := Authenticating));
    RespondKeeps(WithSession(w, c, d.(status := Authenticating)), c, Reply(true));
    RelabelKeeps(w, c, d.(status := Registering));
    RespondKeeps(WithSession(w, c, d.(status := Registering)), c, Reply(true));
  }

  lemma AuthKeeps(w: World, c: Conn, verdict: Verdict)
    requires RoomInvariant(w) && c in w.hub.sessions
    ensures Kept(w, HandleAuth(w, c, verdict))
  {
    hide RoomInvariant, UserInvariant, RegisterConnection;
    var d := w.hub.sessions[c];
    RespondKeeps(w, c, Reply(false));
    if d.status == Authenticating && d.user.Some? {
      RelabelKeeps(w, c, d.(status := Unauthenticated));
      RespondKeeps(WithSession(w, c, d.(status := Unauthenticated)), c, Reply(false));
      if d.user.value.name in w.db.usernames {
        var id := w.db.usernames[d.user.value.name];
        LoginKeeps(w, c, id);
        var w1 := WithSession(w, c, d.(user := Some(d.user.value.(id := id)), status := Authenticated));
        RespondKeeps(w1.(hub := RegisterConnection(w1.hub, id, c)), c, Reply(true));
      }
    }
  }

  lemma LoginKeeps(w: World, c: Conn, id: UserId)
    requires RoomInvariant(w) && c in w.hub.sessions
    requires w.hub.sessions[c].status == Authenticating && w.hub.sessions[c].user.Some?
    requires id in w.db.usernames.Values
    ensures var d := w.hub.sessions[c];
            var w1 := WithSession(w, c, d.(user := Some(d.user.value.(id := id)), status := Authenticated));
            Kept(w, w1.(hub := RegisterConnection(w1.hub, id, c)))
  {
    hide RoomIndexOk, UserIndexOk, Insert;
    var d := w.hub.sessions[c];
    var d1 := d.(user := Some(d.user.value.(id := id)), status := Authenticated);
    SameRoomIndex(w.hub.sessions, w.hub.byRoom, w.db.rooms.Keys, c, d1);
    if UserInvariant(w) {
      LoginIndex(w.hub.sessions, w.hub.byUser, c, d1);
    }
  }

  lemma RegisterKeeps(w: World, c: Conn, committed: bool)
    requires RoomInvariant(w) && c in w.hub.sessions
    ensures Kept(w, HandleRegister(w, c, committed))
  {
    hide RoomInvariant, UserInvariant, WithUser;
    var d := w.hub.sessions[c];
    RespondKeeps(w, c, Reply(false));
    if d.status == Registering && d.user.Some? {
      var w1 := WithSession(w, c, d.(status := Unauthenticated));
      RelabelKeeps(w, c, d.(status := Unauthenticated));
      RespondKeeps(w1, c, Reply(false));
      if 0 <= w.db.nextUser < 0x8000_0000 {
        NewUserKeeps(w1, w.db.nextUser, d.user.value.name);
        RespondKeeps(w1.(db := WithUser(w.db, w.db.nextUser, d.user.value.name)), c, Reply(true));
      }
    }
  }

  lemma NewUserKeeps(w: World, u: UserId, name: string)
    requires RoomInvariant(w) && u == w.db.nextUser
    ensures Kept(w, w.(db := WithUser(w.db, u, name)))
  {
    hide RoomIndexOk, UserIndexOk;
    TablesKeep(w, WithUser(w.db, u, name));
  }

  lemma DepartEffect(w: World, c: Conn)
    requires c in w.hub.sessions && w.hub.sessions[c].room.Some? && w.hub.sessions[c].user.Some?
    ensures var d, h' := w.hub.sessions[c], Depart(w, c).hub;
            && Depart(w, c) == w.(hub := h')
            && h'.sessions == w.hub.sessions[c := d.(room := None)]
            && h'.byUser == w.hub.byUser
            && h'.byRoom == Erase(w.hub.byRoom, d.room.value.id, c)
            && h'.outbox == ToEach(w.hub.outbox, Lookup(w.hub.byRoom, d.room.value.id), UserLeft(d.user.value.id))
            && h'.outbox.Keys == w.hub.outbox.Keys
  {
    hide Erase;
  }

  lemma DepartKeeps(w: World, c: Conn)
    requires RoomInvariant(w) && c in w.hub.sessions && w.hub.sessions[c].room.Some?
    ensures Kept(w, Depart(w, c))
  {
    hide RoomIndexOk, UserIndexOk, Depart, ToEach, Erase;
    var d := w.hub.sessions[c].(room := None);
    DepartEffect(w, c);
    LeaveRoomIndex(w.hub.sessions, w.hub.byRoom, w.db.rooms.Keys, c, d);
    if UserInvariant(w) {
      SameLoginIndex(w.hub.sessions, w.hub.byUser, c, d);
    }
  }

  lemma AnnounceKeys(box: Outbox, peers: set<Conn>, u: UserId, newMember: bool)
    ensures Announce(box, peers, u, newMember).Keys == box.Keys
  {
  }

  /** The connection is seated in a room, whatever is sent meanwhile. */
  lemma SeatKeeps(w: World, c: Conn, r: RoomId, d: WsData, told: Outbox)
    requires RoomInvariant(w) && c in w.hub.sessions && w.hub.sessions[c].room.None?
    requires d.InRoom(r) && d == w.hub.sessions[c].(room := d.room) && d.status == Authenticated
    requires r in w.db.rooms && told.Keys == w.hub.sessions.Keys
    ensures Kept(w, w.(hub := Hub(w.hub.sessions[c := d], w.hub.byUser, Insert(w.hub.byRoom, r, c), told)))
  {
    hide RoomIndexOk, UserIndexOk, Insert;
    EnterRoomIndex(w.hub.sessions, w.hub.byRoom, w.db.rooms.Keys, c, r, d);
    if UserInvariant(w) {
      SameLoginIndex(w.hub.sessions, w.hub.byUser, c, d);
    }
  }

  lemma EnterKeeps(w: World, c: Conn, u: UserId, r: RoomId, newMember: bool)
    requires RoomInvariant(w) && c in w.hub.sessions && w.hub.sessions[c].room.None?
    requires r in w.db.rooms && w.hub.sessions[c].status == Authenticated
    ensures Kept(w, EnterRoom(w, c, u, r, newMember))
  {
    hide RoomInvariant, UserInvariant, UsersAmong, Insert, Announce;
    var d := w.hub.sessions[c].(room := Some(CurrentRoom(r, EffectiveRights(w.db, u, r))));
    var told := Announce(w.hub.outbox, Lookup(w.hub.byRoom, r), u, newMember);
    AnnounceKeys(w.hub.outbox, Lookup(w.hub.byRoom, r), u, newMember);
    ShapeOf(w);
    var h := Hub(w.hub.sessions[c := d], w.hub.byUser, Insert(w.hub.byRoom, r, c), told);
    SeatKeeps(w, c, r, d, told);
    RespondKeeps(w.(hub := h), c, JoinRoomOk(Members(w.db, r), GetUsersInRoom(h, r)));
    assert AddConnectionToRoom(SetSession(w.hub, c, d).(outbox := told), r, c) == h;
  }

  lemma ShapeOf(w: World)
    requires RoomInvariant(w)
    ensures w.hub.outbox.Keys == w.hub.sessions.Keys == w.clients.Keys
  {
  }

  lemma MembershipKeeps(w: World, u: UserId, r: RoomId)
    requires RoomInvariant(w) && r in w.db.rooms && u in w.db.users
    ensures Kept(w, w.(db := SetMembership(w.db, u, r, Joined)))
  {
    hide RoomIndexOk, UserIndexOk;
    TablesKeep(w, SetMembership(w.db, u, r, Joined));
  }

  lemma SetMembershipRooms(db: Db, u: UserId, r: RoomId)
    ensures SetMembership(db, u, r, Joined).rooms == db.rooms
  {
  }

  lemma JoinFromOutsideKeeps(w: World, c: Conn, u: UserId, r: RoomId, fault: JoinFault)
    requires RoomInvariant(w) && c in w.hub.sessions && w.hub.sessions[c].room.None?
    requires w.hub.sessions[c].status == Authenticated && u in w.db.users
    ensures Kept(w, JoinFromOutside(w, c, u, r, fault))
  {
    hide RoomInvariant, UserInvariant, EnterRoom, SetMembership;
    RespondKeeps(w, c, Reply(false));
    if r in w.db.rooms {
      var w2 := w.(db := SetMembership(w.db, u, r, Joined));
      MembershipKeeps(w, u, r);
      SetMembershipRooms(w.db, u, r);
      RespondKeeps(w2, c, Reply(false));
      EnterKeeps(w, c, u, r, MembershipOf(w.db, u, r).None?);
      EnterKeeps(w2, c, u, r, MembershipOf(w.db, u, r).None?);
    }
  }

  lemma JoinKeeps(w: World, c: Conn, r: RoomId, fault: JoinFault)
    requires RoomInvariant(w) && c in w.hub.sessions
    ensures Kept(w, HandleJoinRoom(w, c, r, fault))
  {
    hide RoomInvariant, UserInvariant, JoinFromOutside, Depart;
    var d := w.hub.Session(c);
    RespondKeeps(w, c, Reply(false));
    if d.status == Authenticated {
      UserOf(w, c);
      if d.room.Some? {
        DepartKeeps(w, c);
        DepartEffect(w, c);
      }
      JoinFromOutsideKeeps(if d.room.Some? then Depart(w, c) else w, c, d.user.value.id, r, fault);
    }
  }

  lemma LeaveKeeps(w: World, c: Conn)
    requires RoomInvariant(w) && c in w.hub.sessions
    ensures Kept(w, HandleLeaveRoom(w, c))
  {
    hide RoomInvariant, UserInvariant, Depart;
    RespondKeeps(w, c, Reply(false));
    if w.hub.sessions[c].room.Some? {
      DepartKeeps(w, c);
      RespondKeeps(Depart(w, c), c, Reply(true));
    }
  }

  lemma NewRoomKeeps(w: World, r: RoomId, u: UserId)
    requires RoomInvariant(w) && r == w.db.nextRoom && u in w.db.users
    ensures Kept(w, w.(db := WithRoom(w.db, r, u)))
  {
    hide RoomIndexOk, UserIndexOk;
    NewRoomIndex(w.hub.sessions, w.hub.byRoom, w.db.rooms.Keys, r);
    assert WithRoom(w.db, r, u).rooms.Keys == w.db.rooms.Keys + {r};
    TablesKeep(w, WithRoom(w.db, r, u));
  }

  lemma CreateKeeps(w: World, c: Conn, committed: bool)
    requires RoomInvariant(w) && c in w.hub.sessions
    ensures Kept(w, HandleCreateRoom(w, c, committed))
  {
    hide RoomInvariant, UserInvariant, WithRoom, SendToAll;
    RespondKeeps(w, c, Reply(false));
    var d := w.hub.sessions[c];
    if d.status == Authenticated && d.user.Some? && d.user.value.id in w.db.users && 0 <= w.db.nextRoom < 0x8000_0000 {
      var r: RoomId, u := w.db.nextRoom, d.user.value.id;
      NewRoomKeeps(w, r, u);
      var w1 := w.(db := WithRoom(w.db, r, u));
      BroadcastKeeps(w1, NewRoomCreated(r, u));
      RespondKeeps(w1.(hub := SendToAll(w.hub, NewRoomCreated(r, u))), c, Reply(true));
    }
  }

  lemma DroppedKeeps(w: World, r: RoomId)
    requires RoomInvariant(w)
    ensures Kept(w, w.(db := DropRoom(w.db, r), hub := w.hub.(byRoom := w.hub.byRoom - {r})))
  {
    hide RoomIndexOk, UserIndexOk;
    DropRoomIndex(w.hub.sessions, w.hub.byRoom, w.db.rooms.Keys, r);
    assert DropRoom(w.db, r).rooms.Keys == w.db.rooms.Keys - {r};
    DropRoomValid(w.db, r);
  }

  lemma DropRoomValid(db: Db, r: RoomId)
    requires db.Valid()
    ensures DropRoom(db, r).Valid()
  {
  }

  lemma DeleteKeeps(w: World, c: Conn, r: RoomId, committed: bool)
    requires RoomInvariant(w) && c in w.hub.sessions
    ensures Kept(w, HandleDeleteRoom(w, c, r, committed))
  {
    hide RoomInvariant, UserInvariant, DropRoom, SendToAll;
    RespondKeeps(w, c, Reply(false));
    var w1 := w.(db := DropRoom(w.db, r), hub := w.hub.(byRoom := w.hub.byRoom - {r}));
    DroppedKeeps(w, r);
    BroadcastKeeps(w1, RoomDeleted(r));
    RespondKeeps(w1.(hub := SendToAll(w1.hub, RoomDeleted(r))), c, Reply(true));
  }

  /** Caching rights changes neither rooms nor logins. */
  lemma RightsKeep(w: World, u: UserId, r: RoomId, rights: Rights)
    requires RoomInvariant(w)
    ensures Kept(w, w.(hub := UpdateUserRoomRights(w.hub, u, r, rights)))
  {
    hide RoomIndexOk, UserIndexOk, Db.Valid, SessionsOk, LoginsOk, UpdateUserRoomRights;
    var h := UpdateUserRoomRights(w.hub, u, r, rights);
    RightsEffect(w.hub, u, r, rights);
    SameStandingIndexes(w.hub.sessions, h.sessions, w.hub.byUser, w.hub.byRoom, w.db.rooms.Keys);
    SameStandingSessions(w, w.(hub := h));
  }

  lemma RightsEffect(h: Hub, u: UserId, r: RoomId, rights: Rights)
    ensures var h' := UpdateUserRoomRights(h, u, r, rights);
            && SameStanding(h.sessions, h'.sessions) && h'.byUser == h.byUser && h'.byRoom == h.byRoom
            && h'.outbox.Keys == h.outbox.Keys
  {
  }

  lemma SameStandingSessions(w: World, w': World)
    requires SameStanding(w.hub.sessions, w'.hub.sessions) && w'.db == w.db
    ensures SessionsOk(w) ==> SessionsOk(w')
    ensures LoginsOk(w) ==> LoginsOk(w')
  {
  }

  lemma AssignedTables(db: Db, actor: Rights, target: UserId, r: RoomId, role: Rights)
    requires db.Valid() && AssignRoleTransaction(db, actor, target, r, role).Some?
    ensures var db' := AssignRoleTransaction(db, actor, target, r, role).value.db;
            db'.Valid() && db'.rooms.Keys == db.rooms.Keys && db'.membership == db.membership &&
            db'.users == db.users && db'.nextRoom == db.nextRoom && r in db.rooms
  {
    if role == Owner {
      TransferWrites(db, actor, target, r);
      TransferOwnership(db, actor, target, r);
    } else {
      OrdinaryAssignment(db, actor, target, r, role);
    }
  }

  lemma AssignedKeeps(w: World, actor: Rights, target: UserId, r: RoomId, role: Rights)
    requires RoomInvariant(w) && AssignRoleTransaction(w.db, actor, target, r, role).Some?
    ensures Kept(w, w.(db := AssignRoleTransaction(w.db, actor, target, r, role).value.db))
  {
    hide RoomIndexOk, UserIndexOk, AssignRoleTransaction;
    AssignedTables(w.db, actor, target, r, role);
    TablesKeep(w, AssignRoleTransaction(w.db, actor, target, r, role).value.db);
  }

  lemma AssignKeeps(w: World, c: Conn, target: UserId, r: RoomId, role: Rights, committed: bool)
    requires RoomInvariant(w) && c in w.hub.sessions
    ensures Kept(w, HandleAssignRole(w, c, target, r, role, committed))
  {
    hide RoomInvariant, UserInvariant, UpdateUserRoomRights, AssignRoleTransaction;
    RespondKeeps(w, c, Reply(false));
    if Assignment(w, c, target, r, role).Some? {
      var done := Assignment(w, c, target, r, role).value;
      AssignedKeeps(w, w.hub.Session(c).room.value.rights, target, r, role);
      var w1 := w.(db := done.db);
      RightsKeep(w1, done.oldOwner, r, done.oldOwnerRole);
      var w2 := if done.oldOwner != 0 then
                  w1.(hub := UpdateUserRoomRights(w.hub, done.oldOwner, r, done.oldOwnerRole))
                else w1;
      RightsKeep(w2, target, r, role);
      RespondKeeps(w2.(hub := UpdateUserRoomRights(w2.hub, target, r, role)), c, Reply(true));
    }
  }

  lemma BecomeMemberKeeps(w: World, c: Conn, r: RoomId, stored: bool)
    requires RoomInvariant(w) && c in w.hub.sessions
    ensures Kept(w, HandleBecomeMember(w, c, r, stored))
  {
    hide RoomInvariant, UserInvariant, SetMembership;
    var d := w.hub.sessions[c];
    RespondKeeps(w, c, Reply(false));
    RespondKeeps(w, c, Reply(true));
    if d.status == Authenticated && r in w.db.rooms {
      UserOf(w, c);
      MembershipKeeps(w, d.user.value.id, r);
      RespondKeeps(w.(db := SetMembership(w.db, d.user.value.id, r, Joined)), c, Reply(true));
    }
  }

  lemma RenamedValid(db: Db, u: UserId, name: string)
    requires db.Valid() && u in db.users
    ensures Renamed(db, u, name).Valid()
  {
  }

  /** Another name for the same user. */
  lemma NewNameKeeps(w: World, c: Conn, name: string)
    requires RoomInvariant(w) && MayRename(w, c, name)
    ensures var d := w.hub.Session(c);
            Kept(w, WithSession(w, c, d.(user := Some(User(d.user.value.id, name)))))
  {
    hide RoomIndexOk, UserIndexOk, Db.Valid;
    var d := w.hub.Session(c);
    var d1 := d.(user := Some(User(d.user.value.id, name)));
    SameRoomIndex(w.hub.sessions, w.hub.byRoom, w.db.rooms.Keys, c, d1);
    if UserInvariant(w) {
      SameLoginIndex(w.hub.sessions, w.hub.byUser, c, d1);
    }
  }

  lemma NewRowKeeps(w: World, u: UserId, name: string)
    requires RoomInvariant(w) && u in w.db.users
    ensures Kept(w, w.(db := Renamed(w.db, u, name)))
  {
    hide RoomIndexOk, UserIndexOk, Db.Valid;
    RenamedValid(w.db, u, name);
    TablesKeep(w, Renamed(w.db, u, name));
  }

  lemma ChangeUsernameKeeps(w: World, c: Conn, name: string, committed: bool)
    requires RoomInvariant(w) && c in w.hub.sessions
    ensures Kept(w, HandleChangeUsername(w, c, name, committed))
  {
    hide RoomInvariant, UserInvariant, SendToAll, Renamed;
    RespondKeeps(w, c, Reply(false));
    if MayRename(w, c, name) {
      var d := w.hub.sessions[c];
      var u := d.user.value.id;
      NewNameKeeps(w, c, name);
      var w1 := WithSession(w, c, d.(user := Some(User(u, name))));
      NewRowKeeps(w1, u, name);
      var w2 := w1.(db := Renamed(w.db, u, name));
      BroadcastKeeps(w2, UsernameChanged(u, name));
      RespondKeeps(w2.(hub := SendToAll(w2.hub, UsernameChanged(u, name))), c, Reply(true));
    }
  }

  /** Unregistering, before the session is reset or dropped. */
  lemma UnregisterEffect(h: Hub, c: Conn)
    requires c in h.sessions && (h.sessions[c].room.Some? ==> h.sessions[c].user.Some?)
    ensures var d, h' := h.sessions[c], UnregisterConnection(h, c);
            && h'.sessions == h.sessions && h'.outbox.Keys == h.outbox.Keys
            && h'.byRoom == (if d.room.Some? then Erase(h.byRoom, d.room.value.id, c) else h.byRoom)
            && h'.byUser == (if d.user.Some? then Erase(h.byUser, d.user.value.id, c) else h.byUser)
            && h'.outbox == (if d.room.Some? then
                               ToEach(h.outbox, Lookup(h.byRoom, d.room.value.id), UserLeft(d.user.value.id))
                             else h.outbox)
  {
    hide Erase;
  }

  lemma UnregisterIndexes(w: World, c: Conn)
    requires RoomInvariant(w) && c in w.hub.sessions
    ensures var h := UnregisterConnection(w.hub, c);
            var rooms := w.db.rooms.Keys;
            && RoomIndexOk(w.hub.sessions[c := NEW_SESSION], h.byRoom, rooms)
            && RoomIndexOk(w.hub.sessions - {c}, h.byRoom, rooms)
            && (UserInvariant(w) ==> UserIndexOk(w.hub.sessions[c := NEW_SESSION], h.byUser))
            && (UserInvariant(w) ==> UserIndexOk(w.hub.sessions - {c}, h.byUser))
  {
    hide UnregisterConnection, Erase, ToEach;
    UnregisterEffect(w.hub, c);
    if w.hub.sessions[c].room.Some? {
      LeaveRoomIndex(w.hub.sessions, w.hub.byRoom, w.db.rooms.Keys, c, NEW_SESSION);
    } else {
      SameRoomIndex(w.hub.sessions, w.hub.byRoom, w.db.rooms.Keys, c, NEW_SESSION);
    }
    if UserInvariant(w) && w.hub.sessions[c].user.Some? {
      LogoutIndex(w.hub.sessions, w.hub.byUser, c, NEW_SESSION);
    }
  }

  lemma ResetKeeps(w: World, c: Conn)
    requires RoomInvariant(w) && c in w.hub.sessions
    ensures Kept(w, w.(hub := SetSession(UnregisterConnection(w.hub, c), c, NEW_SESSION)))
  {
    hide RoomIndexOk, UserIndexOk, UnregisterConnection, ToEach, Erase, Db.Valid;
    UnregisterIndexes(w, c);
    UnregisterEffect(w.hub, c);
  }

  lemma CloseKeeps(w: World, c: Conn)
    requires RoomInvariant(w) && c in w.hub.sessions
    ensures Kept(w, HandleClose(w, c))
  {
    hide RoomIndexOk, UserIndexOk, UnregisterConnection, ToEach, Erase, Db.Valid;
    UnregisterIndexes(w, c);
    UnregisterEffect(w.hub, c);
  }

  lemma LogoutKeeps(w: World, c: Conn)
    requires RoomInvariant(w) && c in w.hub.sessions
    ensures Kept(w, HandleLogout(w, c))
  {
    hide RoomInvariant, UserInvariant, UnregisterConnection;
    RespondKeeps(w, c, Reply(false));
    ResetKeeps(w, c);
    RespondKeeps(w.(hub := SetSession(UnregisterConnection(w.hub, c), c, NEW_SESSION)), c, Reply(true));
  }

  lemma ConnectKeeps(w: World)
    requires RoomInvariant(w)
    ensures Kept(w, HandleConnect(w))
  {
    hide RoomIndexOk, UserIndexOk;
    SameRoomIndex(w.hub.sessions, w.hub.byRoom, w.db.rooms.Keys, w.nextConn, NEW_SESSION);
    if UserInvariant(w) {
      SameLoginIndex(w.hub.sessions, w.hub.byUser, w.nextConn, NEW_SESSION);
    }
  }

  lemma DeliverKeeps(w: World, c: Conn)
    requires RoomInvariant(w) && Enabled(w, Deliver(c))
    ensures Kept(w, HandleDeliver(w, c))
  {
    hide RoomIndexOk, UserIndexOk;
  }

  /** The one kind of request that breaks the user index: starting over while logged in. */
  predicate RestartsLogin(w: World, e: Event) {
    match e
    case InitialAuth(c, name) =>
      w.hub.Session(c).status == Authenticated && name != "" && name in w.db.usernames
    case InitialRegister(c, name) =>
      w.hub.Session(c).status == Authenticated && name != "" && name !in w.db.usernames
    case _ => false
  }

  /** The room index survives every step, the user index every step that does not restart a login. */
  lemma StepKeepsIndexes(w: World, e: Event)
    requires RoomInvariant(w) && Enabled(w, e)
    ensures RoomInvariant(Step(w, e))
    ensures !RestartsLogin(w, e) && UserInvariant(w) ==> UserInvariant(Step(w, e))
  {
    hide RoomInvariant, UserInvariant, Respond, HandleConnect, HandleAuth, HandleRegister, HandleJoinRoom,
      HandleLeaveRoom, HandleCreateRoom, HandleDeleteRoom, HandleAssignRole, HandleBecomeMember,
      HandleChangeUsername, HandleLogout, HandleClose, HandleDeliver;
    match e
    case Connect => ConnectKeeps(w);
    case InitialAuth(c, name) => InitialKeeps(w, c, name); RespondKeeps(w, c, Reply(false));
    case InitialRegister(c, name) => InitialKeeps(w, c, name); RespondKeeps(w, c, Reply(false));
    case Auth(c, verdict) => AuthKeeps(w, c, verdict);
    case Register(c, fault) => RegisterKeeps(w, c, fault == Works);
    case JoinRoom(c, r, fault) => JoinKeeps(w, c, r, fault);
    case LeaveRoom(c) => LeaveKeeps(w, c);
    case CreateRoom(c, fault) => CreateKeeps(w, c, fault == Works);
    case DeleteRoom(c, r, fault) => DeleteKeeps(w, c, r, fault == Works);
    case AssignRole(c, target, r, role, fault) => AssignKeeps(w, c, target, r, role, fault == Works);
    case BecomeMember(c, r, stored) => BecomeMemberKeeps(w, c, r, stored);
    case ChangeUsername(c, name, fault) => ChangeUsernameKeeps(w, c, name, fault == Works);
    case Logout(c) => LogoutKeeps(w, c);
    case Close(c) => CloseKeeps(w, c);
    case Deliver(c) => DeliverKeeps(w, c);
  }

  /** Starting over while logged in always breaks the user index. */
  lemma RestartBreaksUserIndex(w: World, e: Event)
    requires RoomInvariant(w) && UserInvariant(w) && Enabled(w, e)
    ensures UserInvariant(Step(w, e)) <==> !RestartsLogin(w, e)
  {
    hide HandleConnect, HandleAuth, HandleRegister, HandleJoinRoom, HandleLeaveRoom, HandleCreateRoom,
      HandleDeleteRoom, HandleAssignRole, HandleBecomeMember, HandleChangeUsername, HandleLogout, HandleClose,
      HandleDeliver;
    if RestartsLogin(w, e) {
      var c, u := e.c, w.hub.sessions[e.c].user.value.id;
      assert c in Lookup(w.hub.byUser, u) by {
        assert LoggedIn(w.hub.sessions, c, u);
      }
      assert !LoggedIn(Step(w, e).hub.sessions, c, u);
    } else {
      hide RoomInvariant, UserInvariant;
      StepKeepsIndexes(w, e);
    }
  }

  /** A broadcast to everybody reaches each logged-in connection once and nobody else. */
  lemma BroadcastReachesOnce(w: World, m: Msg, c: Conn)
    requires Shape(w) && UserIndexOk(w.hub.sessions, w.hub.byUser) && c in w.hub.sessions
    requires w.hub.sessions[c].status == Authenticated ==> w.hub.sessions[c].user.Some?
    ensures SendToAll(w.hub, m).outbox[c] ==
            w.hub.outbox[c] + (if w.hub.sessions[c].status == Authenticated then [m] else [])
  {
    var index, d := w.hub.byUser, w.hub.sessions[c];
    forall k: UserId ensures k in Holders(index, c) <==> LoggedIn(w.hub.sessions, c, k) {
      assert c in Lookup(index, k) <==> LoggedIn(w.hub.sessions, c, k);
    }
    if d.status == Authenticated {
      assert Holders(index, c) == {d.user.value.id};
    } else {
      assert Holders(index, c) == {};
    }
  }
}
