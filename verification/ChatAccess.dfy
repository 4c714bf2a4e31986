/**
 Who is who: a logged-in session has the name of its user, and private rooms hold
 joined members only. The second survives every step that restarts no login, the
 first all of them but one, and exactly which is proved.
 */
module ChatAccess {
  import opened Wrappers
  import opened ChatDatabase
  import opened ChatHub
  import opened ChatServer
  import opened Transactions
  import opened ChatIndexes
  import opened ChatRights

  /** The id of a logged-in session is the one its name has in the tables. */
  predicate NameOk(db: Db, d: WsData) {
    d.status == Authenticated ==>
      && d.user.Some? && d.user.value.name in db.usernames
      && db.usernames[d.user.value.name] == d.user.value.id
  }

  /** A private room the session is in counts its user as a joined member. */
  predicate PrivateOk(db: Db, d: WsData) {
    d.room.Some? && d.room.value.id in db.rooms && db.rooms[d.room.value.id].isPrivate ==>
      d.user.Some? && MembershipOf(db, d.user.value.id, d.room.value.id) == Some(Joined)
  }

  ghost predicate NamesInvariant(w: World) {
    forall c <- w.hub.sessions :: NameOk(w.db, w.hub.sessions[c])
  }

  ghost predicate PrivateInvariant(w: World) {
    forall c <- w.hub.sessions :: PrivateOk(w.db, w.hub.sessions[c])
  }

  /** What a step owes: each of the two invariants that held before. */
  ghost predicate AccessKept(w: World, w': World) {
    (NamesInvariant(w) ==> NamesInvariant(w')) && (PrivateInvariant(w) ==> PrivateInvariant(w'))
  }

  predicate SessionKept(db: Db, d: WsData, db': Db, d': WsData) {
    (NameOk(db, d) ==> NameOk(db', d')) && (PrivateOk(db, d) ==> PrivateOk(db', d'))
  }

  /**
   Names keep their ids, joined members stay joined, old rooms stay as private
   as they were and new ones are public.
   */
  ghost predicate Extends(db: Db, db': Db) {
    && (forall n <- db.usernames :: n in db'.usernames && db'.usernames[n] == db.usernames[n])
    && (forall u, r | r in db'.rooms && MembershipOf(db, u, r) == Some(Joined) ::
          MembershipOf(db', u, r) == Some(Joined))
    && (forall r <- db'.rooms :: if r in db.rooms then db'.rooms[r].isPrivate == db.rooms[r].isPrivate
                                 else r >= db.nextRoom && !db'.rooms[r].isPrivate)
  }

  /** The session of the same connection, perhaps with other rights. */
  predicate SameLogin(d: WsData, d': WsData) {
    && d'.user == d.user && d'.status == d.status && d'.room.Some? == d.room.Some?
    && (d.room.Some? ==> d'.room.value.id == d.room.value.id)
  }

  lemma AccessExtends(db: Db, db': Db, d: WsData, d': WsData)
    requires Extends(db, db') && SameLogin(d, d')
    requires d.room.Some? ==> d.room.value.id < db.nextRoom
    ensures SessionKept(db, d, db', d')
  {
  }

  /** All sessions but one stay logged in as they were. */
  lemma OthersKeepAccess(w: World, w': World, c: Conn)
    requires RoomInvariant(w) && Extends(w.db, w'.db)
    requires forall e <- w'.hub.sessions | e != c ::
               e in w.hub.sessions && SameLogin(w.hub.sessions[e], w'.hub.sessions[e])
    requires c in w'.hub.sessions ==> SessionKept(w.db, w.hub.Session(c), w'.db, w'.hub.sessions[c])
    ensures AccessKept(w, w')
  {
    hide NameOk, PrivateOk, Extends, SameLogin;
    NewSessionOk(w.db);
    forall e | e in w'.hub.sessions ensures SessionKept(w.db, w.hub.Session(e), w'.db, w'.hub.sessions[e]) {
      if e != c {
        AccessExtends(w.db, w'.db, w.hub.sessions[e], w'.hub.sessions[e]);
      }
    }
  }

  lemma NewSessionOk(db: Db)
    ensures NameOk(db, NEW_SESSION) && PrivateOk(db, NEW_SESSION)
  {
  }

  // What the steps do to the tables.

  lemma SameTables(db: Db)
    ensures Extends(db, db)
  {
  }

  lemma TablesExtend(db: Db, u: UserId, r: RoomId, name: string)
    requires db.Valid()
    ensures Extends(db, SetMembership(db, u, r, Joined)) && Extends(db, DropRoom(db, r))
    ensures name !in db.usernames ==> Extends(db, WithUser(db, u, name))
    ensures r == db.nextRoom ==> Extends(db, WithRoom(db, r, u))
  {
  }

  lemma AssignedExtends(db: Db, actor: Rights, target: UserId, r: RoomId, role: Rights)
    requires db.Valid() && AssignRoleTransaction(db, actor, target, r, role).Some?
    ensures Extends(db, AssignRoleTransaction(db, actor, target, r, role).value.db)
  {
    hide AssignRoleTransaction;
    AssignedRooms(db, actor, target, r, role);
  }

  lemma AssignedRooms(db: Db, actor: Rights, target: UserId, r: RoomId, role: Rights)
    requires AssignRoleTransaction(db, actor, target, r, role).Some?
    ensures var db' := AssignRoleTransaction(db, actor, target, r, role).value.db;
            && db'.usernames == db.usernames && db'.membership == db.membership && db'.rooms.Keys == db.rooms.Keys
            && forall q <- db.rooms :: db'.rooms[q].isPrivate == db.rooms[q].isPrivate
  {
  }

  // The handlers, one lemma each.

  /** One session changes, and the tables at most grow. */
  lemma OneSession(w: World, w': World, c: Conn)
    requires RoomInvariant(w) && Extends(w.db, w'.db)
    requires if c in w'.hub.sessions
             then && w'.hub.sessions == w.hub.sessions[c := w'.hub.sessions[c]]
                  && SessionKept(w.db, w.hub.Session(c), w'.db, w'.hub.sessions[c])
             else w'.hub.sessions == w.hub.sessions - {c}
    ensures AccessKept(w, w')
  {
    hide AccessKept, RoomInvariant, SessionKept, Extends;
    OthersKeepAccess(w, w', c);
  }

  /** No session changes. */
  lemma NoSession(w: World, w': World)
    requires RoomInvariant(w) && Extends(w.db, w'.db) && w'.hub.sessions == w.hub.sessions
    ensures AccessKept(w, w')
  {
    hide RoomInvariant, NameOk, PrivateOk, Extends;
    forall c | c in w'.hub.sessions ensures SessionKept(w.db, w.hub.sessions[c], w'.db, w'.hub.sessions[c]) {
      RoomIdOf(w, c);
      AccessExtends(w.db, w'.db, w.hub.sessions[c], w'.hub.sessions[c]);
    }
  }

  lemma RoomIdOf(w: World, c: Conn)
    requires RoomInvariant(w) && c in w.hub.sessions
    ensures w.hub.sessions[c].room.Some? ==> w.hub.sessions[c].room.value.id < w.db.nextRoom
  {
  }

  lemma InitialSession(w: World, c: Conn, name: string)
    requires c in w.hub.sessions && w.hub.sessions[c].room.None?
    ensures SessionKept(w.db, w.hub.sessions[c], w.db, HandleInitialAuth(w, c, name).hub.sessions[c])
    ensures SessionKept(w.db, w.hub.sessions[c], w.db, HandleInitialRegister(w, c, name).hub.sessions[c])
  {
    hide ToEach;
  }

  lemma InitialKeepsAccess(w: World, c: Conn, name: string)
    requires RoomInvariant(w) && UserInvariant(w) && c in w.hub.sessions
    requires w.hub.sessions[c].status != Authenticated
    ensures AccessKept(w, HandleInitialAuth(w, c, name)) && AccessKept(w, HandleInitialRegister(w, c, name))
  {
    hide Extends, RoomInvariant, UserInvariant, HandleInitialAuth, HandleInitialRegister, SessionKept, AccessKept;
    SameTables(w.db);
    InRoomIsLoggedIn(w, c);
    InitialSession(w, c, name);
    InitialRelabels(w, c, name);
    OneSession(w, HandleInitialAuth(w, c, name), c);
    OneSession(w, HandleInitialRegister(w, c, name), c);
  }

  /** The id taken into the session is the one the name has in the tables. */
  lemma AuthSession(w: World, c: Conn, verdict: Verdict)
    requires c in w.hub.sessions
    requires w.hub.sessions[c].status != Authenticated ==> w.hub.sessions[c].room.None?
    ensures SessionKept(w.db, w.hub.sessions[c], w.db, HandleAuth(w, c, verdict).hub.sessions[c])
  {
    hide ToEach, Insert, MembershipOf;
    var d := w.hub.sessions[c];
    if d.status != Authenticating || d.user.None? || verdict == Rejected {
      assert HandleAuth(w, c, verdict).hub.sessions[c] == d;
    }
  }

  lemma AuthKeepsAccess(w: World, c: Conn, verdict: Verdict)
    requires RoomInvariant(w) && UserInvariant(w) && c in w.hub.sessions
    ensures AccessKept(w, HandleAuth(w, c, verdict))
  {
    hide Extends, RoomInvariant, UserInvariant, HandleAuth, SessionKept, AccessKept;
    SameTables(w.db);
    InRoomIsLoggedIn(w, c);
    AuthSession(w, c, verdict);
    AuthRelabels(w, c, verdict);
    OneSession(w, HandleAuth(w, c, verdict), c);
  }

  lemma RegisterEffect(w: World, c: Conn, committed: bool)
    requires w.db.Valid() && c in w.hub.sessions
    requires w.hub.sessions[c].status != Authenticated ==> w.hub.sessions[c].room.None?
    ensures var w' := HandleRegister(w, c, committed);
            && Extends(w.db, w'.db) && c in w'.hub.sessions
            && w'.hub.sessions == w.hub.sessions[c := w'.hub.sessions[c]]
            && SessionKept(w.db, w.hub.sessions[c], w'.db, w'.hub.sessions[c])
  {
    hide ToEach, Extends, WithUser, Db.Valid;
    var d := w.hub.sessions[c];
    SameTables(w.db);
    assert w.hub.sessions[c := d] == w.hub.sessions;
    if d.status == Registering && d.user.Some? && d.user.value.name !in w.db.usernames
       && 0 <= w.db.nextUser < 0x8000_0000 {
      TablesExtend(w.db, w.db.nextUser, 0, d.user.value.name);
    }
  }

  lemma RegisterKeepsAccess(w: World, c: Conn, committed: bool)
    requires RoomInvariant(w) && UserInvariant(w) && c in w.hub.sessions
    ensures AccessKept(w, HandleRegister(w, c, committed))
  {
    hide Extends, UserInvariant, HandleRegister, SessionKept, AccessKept;
    InRoomIsLoggedIn(w, c);
    RegisterEffect(w, c, committed);
    OneSession(w, HandleRegister(w, c, committed), c);
  }

  lemma OutsideSession(db: Db, d: WsData)
    ensures SessionKept(db, d, db, d.(room := None)) && SessionKept(db, d, db, NEW_SESSION)
  {
  }

  lemma DepartKeepsAccess(w: World, c: Conn)
    requires RoomInvariant(w) && c in w.hub.sessions
    requires w.hub.sessions[c].room.Some? && w.hub.sessions[c].user.Some?
    ensures AccessKept(w, Depart(w, c))
  {
    hide SessionKept, AccessKept, RoomInvariant, Extends, Depart;
    SameTables(w.db);
    OutsideSession(w.db, w.hub.sessions[c]);
    DepartEffect(w, c);
    OneSession(w, Depart(w, c), c);
  }

  /** A seat in a private room is taken by joined members only. */
  lemma SeatKeepsAccess(w: World, c: Conn, u: UserId, r: RoomId, newMember: bool)
    requires RoomInvariant(w) && c in w.hub.sessions && r in w.db.rooms
    requires w.hub.sessions[c].user.Some? && u == w.hub.sessions[c].user.value.id
    requires w.db.rooms[r].isPrivate ==> MembershipOf(w.db, u, r) == Some(Joined)
    ensures AccessKept(w, EnterRoom(w, c, u, r, newMember))
  {
    hide AccessKept, RoomInvariant, Extends, ToEach, Announce, Insert, UsersAmong, EffectiveRights;
    SameTables(w.db);
    OneSession(w, EnterRoom(w, c, u, r, newMember), c);
  }

  lemma RowKeepsAccess(w: World, u: UserId, r: RoomId)
    requires RoomInvariant(w)
    ensures var w' := w.(db := SetMembership(w.db, u, r, Joined));
            AccessKept(w, w') && MembershipOf(w'.db, u, r) == Some(Joined)
  {
    hide AccessKept, Extends;
    TablesExtend(w.db, u, r, "");
    hide RoomInvariant;
    NoSession(w, w.(db := SetMembership(w.db, u, r, Joined)));
  }

  lemma RespondAccess(w: World, c: Conn, m: Msg)
    ensures NamesInvariant(Respond(w, c, m)) <==> NamesInvariant(w)
    ensures PrivateInvariant(Respond(w, c, m)) <==> PrivateInvariant(w)
  {
    hide ToEach, NameOk, PrivateOk;
  }

  lemma JoinFromOutsideKeepsAccess(w: World, c: Conn, u: UserId, r: RoomId, fault: JoinFault)
    requires RoomInvariant(w) && c in w.hub.sessions
    requires w.hub.sessions[c].user.Some? && u == w.hub.sessions[c].user.value.id && u in w.db.users
    ensures AccessKept(w, JoinFromOutside(w, c, u, r, fault))
  {
    hide NamesInvariant, PrivateInvariant, RoomInvariant, SetMembership, EnterRoom, Respond, MembershipOf;
    RespondAccess(w, c, Reply(false));
    RowKeepsAccess(w, u, r);
    SetMembershipRooms(w.db, u, r);
    var w2 := w.(db := SetMembership(w.db, u, r, Joined));
    RespondAccess(w2, c, Reply(false));
    if r in w.db.rooms {
      MembershipKeepsRoom(w, u, r);
      var status := MembershipOf(w.db, u, r);
      if !w.db.rooms[r].isPrivate || status == Some(Joined) {
        SeatKeepsAccess(w, c, u, r, status.None?);
        SeatKeepsAccess(w2, c, u, r, status.None?);
      }
    }
  }

  lemma MembershipKeepsRoom(w: World, u: UserId, r: RoomId)
    requires RoomInvariant(w) && u in w.db.users && r in w.db.rooms
    ensures RoomInvariant(w.(db := SetMembership(w.db, u, r, Joined)))
  {
    MembershipKeeps(w, u, r);
  }

  lemma JoinKeepsAccess(w: World, c: Conn, r: RoomId, fault: JoinFault)
    requires RoomInvariant(w) && c in w.hub.sessions
    ensures AccessKept(w, HandleJoinRoom(w, c, r, fault))
  {
    hide NamesInvariant, PrivateInvariant, RoomInvariant, JoinFromOutside, Depart, Respond;
    RespondAccess(w, c, Reply(false));
    var d := w.hub.sessions[c];
    if d.status == Authenticated {
      UserOf(w, c);
      if d.room.Some? {
        DepartEffect(w, c);
        DepartKeeps(w, c);
        DepartKeepsAccess(w, c);
      }
      JoinFromOutsideKeepsAccess(if d.room.Some? then Depart(w, c) else w, c, d.user.value.id, r, fault);
    }
  }

  lemma LeavingKeepsAccess(w: World, c: Conn)
    requires RoomInvariant(w) && c in w.hub.sessions
    ensures AccessKept(w, HandleLeaveRoom(w, c))
    ensures AccessKept(w, HandleLogout(w, c)) && AccessKept(w, HandleClose(w, c))
  {
    hide SessionKept, NamesInvariant, PrivateInvariant, RoomInvariant, Extends, Depart, UnregisterConnection, Respond;
    SameTables(w.db);
    RespondAccess(w, c, Reply(false));
    OutsideSession(w.db, w.hub.sessions[c]);
    UserWhenInRoom(w, c);
    if w.hub.sessions[c].room.Some? {
      DepartKeepsAccess(w, c);
      RespondAccess(Depart(w, c), c, Reply(true));
    }
    UnregisterEffect(w.hub, c);
    var w1 := w.(hub := SetSession(UnregisterConnection(w.hub, c), c, NEW_SESSION));
    OneSession(w, w1, c);
    RespondAccess(w1, c, Reply(true));
    OneSession(w, HandleClose(w, c), c);
  }

  lemma CreateKeepsAccess(w: World, c: Conn, committed: bool)
    requires RoomInvariant(w) && c in w.hub.sessions
    ensures AccessKept(w, HandleCreateRoom(w, c, committed))
  {
    hide AccessKept, Extends, WithRoom, ToEach, ToAll;
    var d := w.hub.sessions[c];
    SameTables(w.db);
    if d.user.Some? && 0 <= w.db.nextRoom < 0x8000_0000 {
      TablesExtend(w.db, d.user.value.id, w.db.nextRoom, "");
    }
    NoSession(w, HandleCreateRoom(w, c, committed));
  }

  lemma DeleteKeepsAccess(w: World, c: Conn, r: RoomId, committed: bool)
    requires RoomInvariant(w) && c in w.hub.sessions
    ensures AccessKept(w, HandleDeleteRoom(w, c, r, committed))
  {
    hide AccessKept, Extends, DropRoom, ToEach, ToAll;
    SameTables(w.db);
    TablesExtend(w.db, 0, r, "");
    NoSession(w, HandleDeleteRoom(w, c, r, committed));
  }

  lemma BecomeMemberKeepsAccess(w: World, c: Conn, r: RoomId, stored: bool)
    requires RoomInvariant(w) && c in w.hub.sessions
    ensures AccessKept(w, HandleBecomeMember(w, c, r, stored))
  {
    hide AccessKept, Extends, SetMembership, ToEach;
    var d := w.hub.sessions[c];
    SameTables(w.db);
    if d.user.Some? {
      TablesExtend(w.db, d.user.value.id, r, "");
    }
    NoSession(w, HandleBecomeMember(w, c, r, stored));
  }

  lemma DeliverKeepsAccess(w: World, c: Conn)
    requires RoomInvariant(w) && Enabled(w, Deliver(c))
    ensures AccessKept(w, HandleDeliver(w, c))
  {
    hide AccessKept, RoomInvariant, Extends;
    SameTables(w.db);
    NoSession(w, HandleDeliver(w, c));
  }

  lemma AssignKeepsAccess(w: World, c: Conn, target: UserId, r: RoomId, role: Rights, committed: bool)
    requires RoomInvariant(w) && c in w.hub.sessions
    ensures AccessKept(w, HandleAssignRole(w, c, target, r, role, committed))
  {
    hide NamesInvariant, PrivateInvariant, Respond, AssignRoleTransaction, Reassigned;
    RespondAccess(w, c, Reply(false));
    if Assignment(w, c, target, r, role).Some? && committed {
      var done := Assignment(w, c, target, r, role).value;
      AssignEffect(w, c, target, r, role);
      AssignedExtends(w.db, w.hub.sessions[c].room.value.rights, target, r, role);
      RelabelledRights(w, HandleAssignRole(w, c, target, r, role, true), done, target, r, role);
    }
  }

  lemma RelabelledRights(w: World, w': World, done: Assigned, target: UserId, r: RoomId, role: Rights)
    requires RoomInvariant(w) && Extends(w.db, w'.db)
    requires w'.hub.sessions == Reassigned(w.hub, done, target, r, role)
    ensures AccessKept(w, w')
  {
    hide NameOk, PrivateOk, RoomInvariant, Extends;
    ReassignedLogins(w.hub, done, target, r, role);
    hide Reassigned;
    forall e | e in w'.hub.sessions ensures SessionKept(w.db, w.hub.sessions[e], w'.db, w'.hub.sessions[e]) {
      RoomIdOf(w, e);
      AccessExtends(w.db, w'.db, w.hub.sessions[e], w'.hub.sessions[e]);
    }
  }

  lemma ReassignedLogins(h: Hub, done: Assigned, target: UserId, r: RoomId, role: Rights)
    ensures var sessions' := Reassigned(h, done, target, r, role);
            && sessions'.Keys == h.sessions.Keys
            && forall e <- h.sessions :: SameLogin(h.sessions[e], sessions'[e])
  {
  }

  lemma ConnectKeepsAccess(w: World)
    requires RoomInvariant(w)
    ensures AccessKept(w, HandleConnect(w))
  {
    hide AccessKept, Extends;
    SameTables(w.db);
    OneSession(w, HandleConnect(w), w.nextConn);
  }

  // Renaming.

  /** A user logged in more than once gets another name: the other sessions keep the old one. */
  ghost predicate LeavesOldName(w: World, e: Event) {
    && e.ChangeUsername? && e.tx == Works && MayRename(w, e.c, e.name)
    && exists x <- w.hub.sessions :: x != e.c && LoggedIn(w.hub.sessions, x, w.hub.Session(e.c).user.value.id)
  }

  /** Every name but those of the renamed user is as before. */
  lemma RenamedNames(db: Db, u: UserId, name: string, d: WsData)
    requires name !in db.usernames && NameOk(db, d)
    ensures d.status == Authenticated ==> (NameOk(Renamed(db, u, name), d) <==> d.user.value.id != u)
    ensures d.status != Authenticated ==> NameOk(Renamed(db, u, name), d)
  {
  }

  lemma RenamedEffect(w: World, c: Conn, name: string)
    requires c in w.hub.sessions && MayRename(w, c, name)
    ensures var w', d := HandleChangeUsername(w, c, name, true), w.hub.sessions[c];
            && w'.db == Renamed(w.db, d.user.value.id, name)
            && w'.hub.sessions == w.hub.sessions[c := d.(user := Some(User(d.user.value.id, name)))]
            && NameOk(w'.db, w'.hub.sessions[c])
  {
    hide ToEach, ToAll;
  }

  lemma RenamingKeepsNamesIff(w: World, c: Conn, name: string)
    requires NamesInvariant(w) && c in w.hub.sessions && MayRename(w, c, name)
    ensures NamesInvariant(HandleChangeUsername(w, c, name, true)) <==>
              !LeavesOldName(w, ChangeUsername(c, name, Works))
  {
    hide NameOk, Renamed, HandleChangeUsername;
    var w', u := HandleChangeUsername(w, c, name, true), w.hub.sessions[c].user.value.id;
    RenamedEffect(w, c, name);
    forall x | x in w.hub.sessions && x != c
      ensures NameOk(w'.db, w'.hub.sessions[x]) <==> !LoggedIn(w.hub.sessions, x, u)
    {
      NamedSession(w, x);
      RenamedNames(w.db, u, name, w.hub.sessions[x]);
    }
  }

  lemma NamedSession(w: World, c: Conn)
    requires NamesInvariant(w) && c in w.hub.sessions
    ensures NameOk(w.db, w.hub.sessions[c])
    ensures w.hub.sessions[c].status == Authenticated ==> w.hub.sessions[c].user.Some?
  {
  }

  lemma RenamedSession(w: World, c: Conn, name: string, x: Conn)
    requires MayRename(w, c, name) && c in w.hub.sessions && x in w.hub.sessions && PrivateOk(w.db, w.hub.sessions[x])
    ensures var w' := HandleChangeUsername(w, c, name, true);
            x in w'.hub.sessions && PrivateOk(w'.db, w'.hub.sessions[x])
  {
    hide HandleChangeUsername;
    RenamedEffect(w, c, name);
  }

  /** Private rooms do not care about names. */
  lemma RenamingKeepsPrivate(w: World, c: Conn, name: string)
    requires PrivateInvariant(w) && c in w.hub.sessions && MayRename(w, c, name)
    ensures PrivateInvariant(HandleChangeUsername(w, c, name, true))
  {
    hide PrivateOk, HandleChangeUsername, Renamed;
    RenamedEffect(w, c, name);
    forall x | x in HandleChangeUsername(w, c, name, true).hub.sessions
      ensures PrivateOk(HandleChangeUsername(w, c, name, true).db,
                        HandleChangeUsername(w, c, name, true).hub.sessions[x])
    {
      RenamedSession(w, c, name, x);
    }
  }

  lemma ChangeUsernameKeepsIff(w: World, e: Event)
    requires e.ChangeUsername? && Enabled(w, e)
    ensures PrivateInvariant(w) ==> PrivateInvariant(Step(w, e))
    ensures NamesInvariant(w) ==> (NamesInvariant(Step(w, e)) <==> !LeavesOldName(w, e))
  {
    hide NamesInvariant, PrivateInvariant, Renamed;
    RespondAccess(w, e.c, Reply(false));
    if MayRename(w, e.c, e.name) && e.tx == Works {
      if NamesInvariant(w) {
        RenamingKeepsNamesIff(w, e.c, e.name);
      }
      if PrivateInvariant(w) {
        RenamingKeepsPrivate(w, e.c, e.name);
      }
    }
  }

  // Every step.

  /**
   Private rooms survive every step that restarts no login. So do the names, if and
   only if the step does not rename a user who is logged in on another connection too.
   */
  lemma StepKeepsAccessIff(w: World, e: Event)
    requires RoomInvariant(w) && UserInvariant(w) && Enabled(w, e) && !RestartsLogin(w, e)
    ensures PrivateInvariant(w) ==> PrivateInvariant(Step(w, e))
    ensures NamesInvariant(w) ==> (NamesInvariant(Step(w, e)) <==> !LeavesOldName(w, e))
  {
    hide NamesInvariant, PrivateInvariant, RoomInvariant, UserInvariant, Step, RestartsLogin;
    if e.ChangeUsername? {
      ChangeUsernameKeepsIff(w, e);
    } else {
      OtherStepsKeepAccess(w, e);
    }
  }

  lemma OtherStepsKeepAccess(w: World, e: Event)
    requires RoomInvariant(w) && UserInvariant(w) && Enabled(w, e) && !RestartsLogin(w, e) && !e.ChangeUsername?
    ensures AccessKept(w, Step(w, e))
  {
    hide AccessKept, RoomInvariant, UserInvariant, HandleConnect, HandleInitialAuth, HandleInitialRegister,
      HandleAuth, HandleRegister, HandleJoinRoom, HandleLeaveRoom, HandleCreateRoom, HandleDeleteRoom, HandleAssignRole,
      HandleBecomeMember, HandleLogout, HandleClose, HandleDeliver, RestartsLogin;
    match e
    case Connect => ConnectKeepsAccess(w);
    case InitialAuth(c, name) => InitialStepKeepsAccess(w, e);
    case InitialRegister(c, name) => InitialStepKeepsAccess(w, e);
    case Auth(c, verdict) => AuthKeepsAccess(w, c, verdict);
    case Register(c, fault) => RegisterKeepsAccess(w, c, fault == Works);
    case JoinRoom(c, r, fault) => JoinKeepsAccess(w, c, r, fault);
    case LeaveRoom(c) => LeavingKeepsAccess(w, c);
    case AssignRole(c, target, r, role, fault) => AssignKeepsAccess(w, c, target, r, role, fault == Works);
    case Logout(c) => LeavingKeepsAccess(w, c);
    case Close(c) => LeavingKeepsAccess(w, c);
    case CreateRoom(c, fault) => CreateKeepsAccess(w, c, fault == Works);
    case DeleteRoom(c, r, fault) => DeleteKeepsAccess(w, c, r, fault == Works);
    case BecomeMember(c, r, stored) => BecomeMemberKeepsAccess(w, c, r, stored);
    case Deliver(c) => DeliverKeepsAccess(w, c);
  }

  lemma InitialStepKeepsAccess(w: World, e: Event)
    requires RoomInvariant(w) && UserInvariant(w) && Enabled(w, e) && !RestartsLogin(w, e)
    requires e.InitialAuth? || e.InitialRegister?
    ensures AccessKept(w, Step(w, e))
  {
    hide AccessKept, RoomInvariant, UserInvariant;
    if w.hub.sessions[e.c].status != Authenticated {
      InitialKeepsAccess(w, e.c, e.name);
    } else {
      LoggedInStays(w, e);
      NothingChanged(w, e);
    }
  }

  lemma NothingChanged(w: World, e: Event)
    requires RoomInvariant(w) && (e.InitialAuth? || e.InitialRegister?) && Enabled(w, e)
    requires Step(w, e).hub.sessions == w.hub.sessions
    ensures AccessKept(w, Step(w, e))
  {
    hide AccessKept, RoomInvariant, ToEach;
    SameTables(w.db);
    NoSession(w, Step(w, e));
  }

  // Entering and creating rooms.

  lemma EntersIff(w: World, c: Conn, u: UserId, r: RoomId, fault: JoinFault)
    requires c in w.hub.sessions && w.hub.sessions[c].room.None?
    ensures JoinFromOutside(w, c, u, r, fault).hub.sessions[c].InRoom(r) <==>
              && r in w.db.rooms && fault !in {LookupFails, ListingFails}
              && (w.db.rooms[r].isPrivate ==> MembershipOf(w.db, u, r) == Some(Joined))
    ensures var d := JoinFromOutside(w, c, u, r, fault).hub.sessions[c]; d.room.Some? ==> d.InRoom(r)
  {
    hide ToEach, Announce, Insert, UsersAmong, EffectiveRights, Members;
  }

  /**
   A join ends in the room exactly when the room exists, is public or counts the user
   as a joined member, and no lookup fails; otherwise it ends outside every room.
   */
  lemma JoinEntersIff(w: World, c: Conn, r: RoomId, fault: JoinFault)
    requires RoomInvariant(w) && c in w.hub.sessions && w.hub.sessions[c].status == Authenticated
    ensures w.hub.sessions[c].user.Some?
    ensures HandleJoinRoom(w, c, r, fault).hub.sessions[c].InRoom(r) <==>
              && r in w.db.rooms && fault !in {LookupFails, ListingFails}
              && (w.db.rooms[r].isPrivate ==> MembershipOf(w.db, w.hub.sessions[c].user.value.id, r) == Some(Joined))
    ensures var d := HandleJoinRoom(w, c, r, fault).hub.sessions[c]; d.room.Some? ==> d.InRoom(r)
  {
    hide RoomInvariant, JoinFromOutside, Depart;
    UserOf(w, c);
    var u := w.hub.sessions[c].user.value.id;
    if w.hub.sessions[c].room.Some? {
      DepartEffect(w, c);
      EntersIff(Depart(w, c), c, u, r, fault);
    } else {
      EntersIff(w, c, u, r, fault);
    }
  }

  /** A new room has a fresh id and is public; its creator is OWNER, and nobody else but an ADMIN has rights in it. */
  lemma CreatedRoomRights(w: World, c: Conn, u: UserId)
    requires w.db.Valid() && c in w.hub.sessions && HandleCreateRoom(w, c, true).db != w.db
    ensures var db := HandleCreateRoom(w, c, true).db;
            && w.hub.sessions[c].user.Some? && w.db.nextRoom !in w.db.rooms
            && db.rooms.Keys == w.db.rooms.Keys + {w.db.nextRoom} && !db.rooms[w.db.nextRoom].isPrivate
            && Members(db, w.db.nextRoom) == {w.hub.sessions[c].user.value.id}
            && EffectiveRights(db, u, w.db.nextRoom) ==
               if u in w.db.admins then Admin
               else if u == w.hub.sessions[c].user.value.id then Owner
               else Regular
  {
    hide ToEach, ToAll;
    var db := HandleCreateRoom(w, c, true).db;
    var r: RoomId := w.db.nextRoom;
    assert (w.hub.sessions[c].user.value.id, r) in db.membership;
  }
}
