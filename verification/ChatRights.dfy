/**
 The rights cached in a session against the rights in the tables. They agree
 after every step but one: a non-OWNER role assigned to the current owner.
 */
module ChatRights {
  import opened Wrappers
  import opened ChatDatabase
  import opened ChatHub
  import opened ChatServer
  import opened Transactions
  import opened ChatIndexes

  /** The cached rights of one session are the effective rights of its user. */
  ghost predicate CachedOk(db: Db, sessions: Sessions, c: Conn)
    requires c in sessions
  {
    var d := sessions[c];
    d.room.Some? && d.user.Some? && d.room.value.id in db.rooms ==>
      d.room.value.rights == EffectiveRights(db, d.user.value.id, d.room.value.id)
  }

  ghost predicate RightsOk(db: Db, sessions: Sessions) {
    forall c <- sessions :: CachedOk(db, sessions, c)
  }

  /** Nobody's rights differ in a room both tables have. */
  ghost predicate SameRights(db: Db, db': Db) {
    forall u, q | q in db.rooms && q in db'.rooms :: EffectiveRights(db', u, q) == EffectiveRights(db, u, q)
  }

  lemma SameColumns(db: Db, db': Db)
    requires db'.admins == db.admins && forall q | q in db.rooms && q in db'.rooms ::
               && db'.rooms[q].owner == db.rooms[q].owner
               && forall u: UserId :: FindStoredUserRole(db', u, q) == FindStoredUserRole(db, u, q)
    ensures SameRights(db, db')
  {
  }

  lemma OtherTables(db: Db, u: UserId, r: RoomId, name: string)
    requires db.Valid()
    ensures SameRights(db, SetMembership(db, u, r, Joined))
    ensures SameRights(db, DropRoom(db, r))
    ensures SameRights(db, WithUser(db, u, name))
    ensures r == db.nextRoom ==> SameRights(db, WithRoom(db, r, u))
  {
    SameColumns(db, SetMembership(db, u, r, Joined));
    SameColumns(db, DropRoom(db, r));
    SameColumns(db, WithUser(db, u, name));
    if r == db.nextRoom {
      SameColumns(db, WithRoom(db, r, u));
    }
  }

  /** Tables change without changing rights; rooms nobody is in may come and go. */
  lemma TablesKeepRights(db: Db, db': Db, sessions: Sessions)
    requires RightsOk(db, sessions) && SameRights(db, db')
    requires forall c <- sessions :: sessions[c].room.Some? && sessions[c].room.value.id in db'.rooms ==>
               sessions[c].room.value.id in db.rooms
    ensures RightsOk(db', sessions)
  {
    forall c | c in sessions ensures CachedOk(db', sessions, c) {
      assert CachedOk(db, sessions, c);
    }
  }

  /** Sessions that left their room, were dropped, or only changed their login. */
  lemma SessionKeepsRights(db: Db, sessions: Sessions, c: Conn, d: WsData)
    requires RightsOk(db, sessions)
    requires d.room.Some? && d.room.value.id in db.rooms ==>
               d.user.Some? && d.room.value.rights == EffectiveRights(db, d.user.value.id, d.room.value.id)
    ensures RightsOk(db, sessions[c := d]) && RightsOk(db, sessions - {c})
  {
    var changed, dropped := sessions[c := d], sessions - {c};
    forall e | e in changed ensures CachedOk(db, changed, e) {
      assert e != c ==> CachedOk(db, sessions, e);
    }
    forall e | e in dropped ensures CachedOk(db, dropped, e) {
      assert CachedOk(db, sessions, e);
    }
  }

  // Role assignment.

  /** The sessions after both cache updates of a committed assignment. */
  function Reassigned(h: Hub, done: Assigned, target: UserId, r: RoomId, role: Rights): Sessions {
    var s1 := if done.oldOwner != 0 then Recached(h.sessions, Lookup(h.byUser, done.oldOwner), r, done.oldOwnerRole)
              else h.sessions;
    Recached(s1, Lookup(h.byUser, target), r, role)
  }

  lemma AssignEffect(w: World, c: Conn, target: UserId, r: RoomId, role: Rights)
    requires Assignment(w, c, target, r, role).Some?
    ensures var done := Assignment(w, c, target, r, role).value;
            var w' := HandleAssignRole(w, c, target, r, role, true);
            w'.db == done.db && w'.hub.sessions == Reassigned(w.hub, done, target, r, role)
  {
    hide AssignRoleTransaction;
    var done := Assignment(w, c, target, r, role).value;
    RecachedNobody(w.hub.sessions, r, done.oldOwnerRole);
    RecachedNobody(w.hub.sessions, r, role);
    RecachedNobody(UpdateUserRoomRights(w.hub, done.oldOwner, r, done.oldOwnerRole).sessions, r, role);
  }

  lemma RecachedNobody(sessions: Sessions, r: RoomId, rights: Rights)
    ensures Recached(sessions, {}, r, rights) == sessions
  {
  }

  /** The assignment that the cache gets wrong: a lesser role for the owner, who is connected to the room. */
  ghost predicate DemotesOwner(w: World, c: Conn, target: UserId, r: RoomId, role: Rights) {
    && Assignment(w, c, target, r, role).Some?
    && role != Owner && r in w.db.rooms
    && exists e <- w.hub.sessions :: OwnerIsHere(w, target, r, e)
  }

  /** The connection is one of the room's owner, in that room. */
  predicate OwnerIsHere(w: World, target: UserId, r: RoomId, e: Conn)
    requires r in w.db.rooms && e in w.hub.sessions
  {
    w.db.rooms[r].owner == Some(target) && LoggedIn(w.hub.sessions, e, target) && w.hub.sessions[e].InRoom(r)
  }

  /** What the two cache updates do to one session of user `u`. */
  lemma ReassignedSession(h: Hub, done: Assigned, target: UserId, r: RoomId, role: Rights, e: Conn, u: UserId)
    requires e in h.sessions && forall v: UserId :: e in Lookup(h.byUser, v) <==> v == u
    requires u != 0
    ensures var after := Reassigned(h, done, target, r, role);
            && e in after
            && after[e] == (if u == target then WithRights(h.sessions[e], r, role)
                            else if u == done.oldOwner then WithRights(h.sessions[e], r, done.oldOwnerRole)
                            else h.sessions[e])
  {
    assert e in Lookup(h.byUser, target) <==> target == u;
    assert e in Lookup(h.byUser, done.oldOwner) <==> done.oldOwner == u;
  }

  /** A session in a room is indexed under its user and nobody else. */
  lemma IndexedOnce(w: World, e: Conn)
    requires RoomInvariant(w) && UserInvariant(w) && e in w.hub.sessions && w.hub.sessions[e].room.Some?
    ensures var d := w.hub.sessions[e];
            && d.user.Some? && d.user.value.id in w.db.users && d.user.value.id != 0
            && (forall v: UserId :: e in Lookup(w.hub.byUser, v) <==> v == d.user.value.id)
            && (forall v: UserId :: LoggedIn(w.hub.sessions, e, v) <==> v == d.user.value.id)
  {
    hide RoomIndexOk;
    forall v: UserId ensures e in Lookup(w.hub.byUser, v) <==> v == w.hub.sessions[e].user.value.id {
      assert e in Lookup(w.hub.byUser, v) <==> LoggedIn(w.hub.sessions, e, v);
    }
  }

  /** One session across a committed assignment. */
  lemma AssignOneSession(w: World, actor: Rights, target: UserId, r: RoomId, role: Rights, e: Conn)
    requires RoomInvariant(w) && UserInvariant(w) && RightsOk(w.db, w.hub.sessions) && e in w.hub.sessions
    requires AssignRoleTransaction(w.db, actor, target, r, role).Some? && r in w.db.rooms
    ensures var done := AssignRoleTransaction(w.db, actor, target, r, role).value;
            var after := Reassigned(w.hub, done, target, r, role);
            && e in after
            && (CachedOk(done.db, after, e) <==> !(role != Owner && OwnerIsHere(w, target, r, e)))
  {
    hide AssignRoleTransaction, RoomInvariant, UserInvariant, EffectiveRights, Reassigned;
    var done := AssignRoleTransaction(w.db, actor, target, r, role).value;
    var d := w.hub.sessions[e];
    ReassignedKeys(w.hub, done, target, r, role);
    assert CachedOk(w.db, w.hub.sessions, e);
    if d.room.Some? {
      IndexedOnce(w, e);
      ReassignedSession(w.hub, done, target, r, role, e, d.user.value.id);
      DbOf(w);
      AssignedTables(w.db, actor, target, r, role);
      AssignRights(w.db, actor, target, r, role, d.user.value.id, d.room.value.id);
    } else {
      ReassignedOutside(w.hub, done, target, r, role, e);
    }
  }

  lemma DbOf(w: World)
    requires RoomInvariant(w)
    ensures w.db.Valid()
  {
  }

  lemma ReassignedOutside(h: Hub, done: Assigned, target: UserId, r: RoomId, role: Rights, e: Conn)
    requires e in h.sessions && h.sessions[e].room.None?
    ensures var after := Reassigned(h, done, target, r, role);
            e in after && after[e] == h.sessions[e]
  {
  }

  /** What a committed assignment does to the rights of one user in one room. */
  lemma AssignRights(db: Db, actor: Rights, target: UserId, r: RoomId, role: Rights, u: UserId, q: RoomId)
    requires db.Valid() && AssignRoleTransaction(db, actor, target, r, role).Some?
    requires r in db.rooms && u in db.users
    ensures var done := AssignRoleTransaction(db, actor, target, r, role).value;
            q in db.rooms ==> (q in done.db.rooms &&
              if q == r && u == target then
                 (EffectiveRights(done.db, u, q) == role <==> role == Owner || db.rooms[r].owner != Some(target))
               else if q == r && u == done.oldOwner then EffectiveRights(done.db, u, q) == done.oldOwnerRole
               else EffectiveRights(done.db, u, q) == EffectiveRights(db, u, q))
  {
    hide AssignRoleTransaction, EffectiveRights;
    AssignedTables(db, actor, target, r, role);
    if role == Owner {
      TransferOwnership(db, actor, target, r);
    } else {
      OrdinaryAssignment(db, actor, target, r, role);
    }
  }

  /** Role assignment keeps the cache right if and only if it does not demote a connected owner. */
  lemma AssignKeepsRightsIff(w: World, c: Conn, target: UserId, r: RoomId, role: Rights)
    requires RoomInvariant(w) && UserInvariant(w) && RightsOk(w.db, w.hub.sessions) && c in w.hub.sessions
    requires Assignment(w, c, target, r, role).Some?
    ensures var w' := HandleAssignRole(w, c, target, r, role, true);
            RightsOk(w'.db, w'.hub.sessions) <==> !DemotesOwner(w, c, target, r, role)
  {
    hide AssignRoleTransaction, HandleAssignRole, RoomInvariant, UserInvariant, CachedOk, Reassigned;
    var actor := w.hub.Session(c).room.value.rights;
    var done := Assignment(w, c, target, r, role).value;
    var after := Reassigned(w.hub, done, target, r, role);
    AssignEffect(w, c, target, r, role);
    DbOf(w);
    AssignedTables(w.db, actor, target, r, role);
    forall e | e in w.hub.sessions
      ensures e in after && (CachedOk(done.db, after, e) <==> !(role != Owner && OwnerIsHere(w, target, r, e)))
    {
      AssignOneSession(w, actor, target, r, role, e);
    }
    assert after.Keys == w.hub.sessions.Keys by {
      ReassignedKeys(w.hub, done, target, r, role);
    }
  }

  lemma ReassignedKeys(h: Hub, done: Assigned, target: UserId, r: RoomId, role: Rights)
    ensures Reassigned(h, done, target, r, role).Keys == h.sessions.Keys
  {
  }

  // Every step.

  /** One session changes, and stays in its room or outside. */
  ghost predicate Relabels(w: World, w': World, c: Conn) {
    && w'.db == w.db && c in w.hub.sessions && c in w'.hub.sessions
    && w'.hub.sessions == w.hub.sessions[c := w'.hub.sessions[c]]
    && w'.hub.sessions[c].room == w.hub.sessions[c].room
  }

  lemma InitialRelabels(w: World, c: Conn, name: string)
    requires c in w.hub.sessions
    ensures Relabels(w, HandleInitialAuth(w, c, name), c) && Relabels(w, HandleInitialRegister(w, c, name), c)
  {
    hide ToEach;
    assert w.hub.sessions[c := w.hub.sessions[c]] == w.hub.sessions;
  }

  lemma AuthRelabels(w: World, c: Conn, verdict: Verdict)
    requires c in w.hub.sessions
    ensures Relabels(w, HandleAuth(w, c, verdict), c)
  {
    hide ToEach, Insert;
    assert w.hub.sessions[c := w.hub.sessions[c]] == w.hub.sessions;
  }

  lemma LoggedInStays(w: World, e: Event)
    requires Enabled(w, e) && (e.InitialAuth? || e.InitialRegister? || e.Auth?)
    requires w.hub.sessions[e.c].status == Authenticated && !RestartsLogin(w, e)
    ensures Step(w, e).hub.sessions == w.hub.sessions
  {
    hide ToEach;
  }

  /** Steps that change one session that is outside every room before and after. */
  lemma LoginStepsKeepRights(w: World, e: Event)
    requires RoomInvariant(w) && UserInvariant(w) && RightsOk(w.db, w.hub.sessions) && Enabled(w, e)
    requires e.InitialAuth? || e.InitialRegister? || e.Auth?
    requires !RestartsLogin(w, e)
    ensures RightsOk(Step(w, e).db, Step(w, e).hub.sessions)
  {
    hide RoomInvariant, UserInvariant, RightsOk, HandleInitialAuth, HandleInitialRegister, HandleAuth, RestartsLogin;
    if e.Auth? {
      AuthRelabels(w, e.c, e.verdict);
    } else {
      InitialRelabels(w, e.c, e.name);
    }
    InRoomIsLoggedIn(w, e.c);
    if w.hub.sessions[e.c].room.None? {
      SessionKeepsRights(w.db, w.hub.sessions, e.c, Step(w, e).hub.sessions[e.c]);
    } else {
      LoggedInStays(w, e);
    }
  }

  lemma ConnectKeepsRights(w: World)
    requires RightsOk(w.db, w.hub.sessions)
    ensures RightsOk(w.db, HandleConnect(w).hub.sessions)
  {
    SessionKeepsRights(w.db, w.hub.sessions, w.nextConn, NEW_SESSION);
  }

  lemma RegisterKeepsRights(w: World, c: Conn, committed: bool)
    requires RoomInvariant(w) && UserInvariant(w) && RightsOk(w.db, w.hub.sessions) && c in w.hub.sessions
    ensures var w' := HandleRegister(w, c, committed); RightsOk(w'.db, w'.hub.sessions)
  {
    hide RoomInvariant, UserInvariant, RightsOk, ToEach, WithUser;
    var d := w.hub.sessions[c];
    InRoomIsLoggedIn(w, c);
    if d.status == Registering && d.user.Some? {
      var sessions := w.hub.sessions[c := d.(status := Unauthenticated)];
      SessionKeepsRights(w.db, w.hub.sessions, c, d.(status := Unauthenticated));
      if 0 <= w.db.nextUser < 0x8000_0000 {
        DbOf(w);
        OtherTables(w.db, w.db.nextUser, 0, d.user.value.name);
        WithUserRooms(w.db, w.db.nextUser, d.user.value.name);
        TablesKeepRights(w.db, WithUser(w.db, w.db.nextUser, d.user.value.name), sessions);
      }
    }
  }

  lemma WithUserRooms(db: Db, u: UserId, name: string)
    ensures WithUser(db, u, name).rooms == db.rooms
  {
  }

  lemma RenamedRights(db: Db, u: UserId, name: string)
    ensures SameRights(db, Renamed(db, u, name)) && Renamed(db, u, name).rooms == db.rooms
  {
    SameColumns(db, Renamed(db, u, name));
  }

  lemma ChangeUsernameKeepsRights(w: World, c: Conn, name: string, committed: bool)
    requires RightsOk(w.db, w.hub.sessions) && c in w.hub.sessions
    ensures var w' := HandleChangeUsername(w, c, name, committed); RightsOk(w'.db, w'.hub.sessions)
  {
    hide RightsOk, SameRights, ToEach, ToAll, Renamed;
    if MayRename(w, c, name) {
      var d := w.hub.sessions[c];
      var u := d.user.value.id;
      var d1 := d.(user := Some(User(u, name)));
      CachedSession(w, c);
      SessionKeepsRights(w.db, w.hub.sessions, c, d1);
      RenamedRights(w.db, u, name);
      TablesKeepRights(w.db, Renamed(w.db, u, name), w.hub.sessions[c := d1]);
    }
  }

  lemma CachedSession(w: World, c: Conn)
    requires RightsOk(w.db, w.hub.sessions) && c in w.hub.sessions
    ensures CachedOk(w.db, w.hub.sessions, c)
  {
  }

  /** Leaving, logging out and closing end outside every room. */
  lemma LeavingKeepsRights(w: World, c: Conn)
    requires RoomInvariant(w) && RightsOk(w.db, w.hub.sessions) && c in w.hub.sessions
    ensures RightsOk(w.db, HandleLeaveRoom(w, c).hub.sessions)
    ensures RightsOk(w.db, HandleLogout(w, c).hub.sessions)
    ensures RightsOk(w.db, HandleClose(w, c).hub.sessions)
    ensures HandleLeaveRoom(w, c).db == HandleLogout(w, c).db == HandleClose(w, c).db == w.db
    ensures w.hub.sessions[c].room.Some? ==> RightsOk(w.db, Depart(w, c).hub.sessions)
  {
    hide RoomIndexOk, RightsOk, EffectiveRights, ToEach, Depart, UnregisterConnection;
    var d := w.hub.sessions[c];
    SessionKeepsRights(w.db, w.hub.sessions, c, d.(room := None));
    SessionKeepsRights(w.db, w.hub.sessions, c, NEW_SESSION);
    UnregisterEffect(w.hub, c);
    if d.room.Some? {
      DepartEffect(w, c);
    }
  }

  lemma EnterCachesRights(w: World, c: Conn, u: UserId, r: RoomId, newMember: bool)
    requires RightsOk(w.db, w.hub.sessions) && c in w.hub.sessions && r in w.db.rooms
    requires w.hub.sessions[c].user.Some? && w.hub.sessions[c].user.value.id == u
    ensures RightsOk(w.db, EnterRoom(w, c, u, r, newMember).hub.sessions)
  {
    hide RightsOk, EffectiveRights, ToEach, Announce, UsersAmong, Insert;
    var d := w.hub.sessions[c].(room := Some(CurrentRoom(r, EffectiveRights(w.db, u, r))));
    SessionKeepsRights(w.db, w.hub.sessions, c, d);
  }

  /** Entering, with and without the membership write. */
  lemma SeatedRights(w: World, c: Conn, u: UserId, r: RoomId, newMember: bool)
    requires w.db.Valid() && RightsOk(w.db, w.hub.sessions) && c in w.hub.sessions && r in w.db.rooms
    requires w.hub.sessions[c].user.Some? && w.hub.sessions[c].user.value.id == u
    ensures var w2 := w.(db := SetMembership(w.db, u, r, Joined));
            && w2.db.rooms == w.db.rooms
            && RightsOk(w2.db, w.hub.sessions)
            && RightsOk(w.db, EnterRoom(w, c, u, r, newMember).hub.sessions)
            && RightsOk(w2.db, EnterRoom(w2, c, u, r, newMember).hub.sessions)
            && EnterRoom(w, c, u, r, newMember).db == w.db
            && EnterRoom(w2, c, u, r, newMember).db == w2.db
  {
    hide RightsOk, EffectiveRights, EnterRoom, SetMembership;
    var w2 := w.(db := SetMembership(w.db, u, r, Joined));
    OtherTables(w.db, u, r, "");
    SetMembershipRooms(w.db, u, r);
    TablesKeepRights(w.db, w2.db, w.hub.sessions);
    EnterCachesRights(w, c, u, r, newMember);
    EnterCachesRights(w2, c, u, r, newMember);
    EnterTables(w, c, u, r, newMember);
    EnterTables(w2, c, u, r, newMember);
  }

  lemma JoinFromOutsideKeepsRights(w: World, c: Conn, u: UserId, r: RoomId, fault: JoinFault)
    requires w.db.Valid() && RightsOk(w.db, w.hub.sessions) && c in w.hub.sessions
    requires w.hub.sessions[c].user.Some? && w.hub.sessions[c].user.value.id == u
    ensures var w' := JoinFromOutside(w, c, u, r, fault); RightsOk(w'.db, w'.hub.sessions)
  {
    hide RightsOk, ToEach, EnterRoom, SetMembership;
    if r in w.db.rooms {
      SeatedRights(w, c, u, r, MembershipOf(w.db, u, r).None?);
    }
  }

  lemma JoinKeepsRights(w: World, c: Conn, r: RoomId, fault: JoinFault)
    requires RoomInvariant(w) && RightsOk(w.db, w.hub.sessions) && c in w.hub.sessions
    ensures var w' := HandleJoinRoom(w, c, r, fault); RightsOk(w'.db, w'.hub.sessions)
  {
    hide RoomInvariant, RightsOk, ToEach, JoinFromOutside, Depart;
    var d := w.hub.Session(c);
    DbOf(w);
    if d.status == Authenticated && d.user.Some? {
      if d.room.Some? {
        LeavingKeepsRights(w, c);
        DepartEffect(w, c);
      }
      JoinFromOutsideKeepsRights(if d.room.Some? then Depart(w, c) else w, c, d.user.value.id, r, fault);
    }
  }

  lemma EnterTables(w: World, c: Conn, u: UserId, r: RoomId, newMember: bool)
    requires r in w.db.rooms
    ensures EnterRoom(w, c, u, r, newMember).db == w.db
  {
  }

  /** Tables change under the sessions. */
  lemma NewTablesKeepRights(w: World, u: UserId, r: RoomId)
    requires RoomInvariant(w) && RightsOk(w.db, w.hub.sessions)
    ensures RightsOk(SetMembership(w.db, u, r, Joined), w.hub.sessions)
    ensures RightsOk(DropRoom(w.db, r), w.hub.sessions)
    ensures r == w.db.nextRoom ==> RightsOk(WithRoom(w.db, r, u), w.hub.sessions)
  {
    hide RoomIndexOk, RightsOk, EffectiveRights, SetMembership, WithRoom, DropRoom;
    OtherTables(w.db, u, r, "");
    RoomsAfter(w.db, u, r);
    TablesKeepRights(w.db, SetMembership(w.db, u, r, Joined), w.hub.sessions);
    TablesKeepRights(w.db, DropRoom(w.db, r), w.hub.sessions);
    if r == w.db.nextRoom {
      TablesKeepRights(w.db, WithRoom(w.db, r, u), w.hub.sessions);
    }
  }

  lemma TableStepsKeepRights(w: World, e: Event)
    requires RoomInvariant(w) && RightsOk(w.db, w.hub.sessions) && Enabled(w, e)
    requires e.CreateRoom? || e.DeleteRoom? || e.BecomeMember? || e.Deliver?
    ensures RightsOk(Step(w, e).db, Step(w, e).hub.sessions)
  {
    hide RoomInvariant, RightsOk, ToEach, ToAll, SetMembership, WithRoom, DropRoom;
    var u := w.hub.Session(e.c).UserIdOrZero();
    if e.CreateRoom? {
      if -0x8000_0000 <= w.db.nextRoom < 0x8000_0000 {
        NewTablesKeepRights(w, u, w.db.nextRoom);
      }
    } else if !e.Deliver? {
      NewTablesKeepRights(w, u, e.room);
    }
  }

  lemma RoomsAfter(db: Db, u: UserId, r: RoomId)
    ensures SetMembership(db, u, r, Joined).rooms == db.rooms
    ensures DropRoom(db, r).rooms.Keys <= db.rooms.Keys
    ensures WithRoom(db, r, u).rooms.Keys == db.rooms.Keys + {r}
  {
  }

  /** The one kind of request after which the cache is wrong. */
  ghost predicate DemotesOwnerStep(w: World, e: Event) {
    e.AssignRole? && e.tx == Works && DemotesOwner(w, e.c, e.target, e.room, e.role)
  }

  /** A step keeps the cached rights right if and only if it does not demote a connected owner. */
  lemma StepKeepsRightsIff(w: World, e: Event)
    requires RoomInvariant(w) && UserInvariant(w) && RightsOk(w.db, w.hub.sessions)
    requires Enabled(w, e) && !RestartsLogin(w, e)
    ensures RightsOk(Step(w, e).db, Step(w, e).hub.sessions) <==> !DemotesOwnerStep(w, e)
  {
    hide RoomInvariant, UserInvariant, RightsOk, DemotesOwner, Assignment, HandleInitialAuth,
      HandleInitialRegister, HandleAuth, HandleRegister, HandleJoinRoom, HandleCreateRoom, HandleDeleteRoom,
      HandleBecomeMember, HandleChangeUsername, HandleDeliver, Depart,
      UpdateUserRoomRights, UnregisterConnection, RestartsLogin;
    match e
    case JoinRoom(c, r, fault) => JoinKeepsRights(w, c, r, fault);
    case LeaveRoom(c) => LeavingKeepsRights(w, c);
    case Logout(c) => LeavingKeepsRights(w, c);
    case Close(c) => LeavingKeepsRights(w, c);
    case AssignRole(c, target, r, role, fault) =>
      if Assignment(w, c, target, r, role).Some? && fault == Works {
        AssignKeepsRightsIff(w, c, target, r, role);
      } else {
        NotDemoting(w, c, target, r, role);
      }
    case Connect => ConnectKeepsRights(w);
    case Register(c, fault) => RegisterKeepsRights(w, c, fault == Works);
    case ChangeUsername(c, name, fault) => ChangeUsernameKeepsRights(w, c, name, fault == Works);
    case CreateRoom(_, _) => TableStepsKeepRights(w, e);
    case DeleteRoom(_, _, _) => TableStepsKeepRights(w, e);
    case BecomeMember(_, _, _) => TableStepsKeepRights(w, e);
    case Deliver(_) => TableStepsKeepRights(w, e);
    case _ => LoginStepsKeepRights(w, e);
  }

  lemma NotDemoting(w: World, c: Conn, target: UserId, r: RoomId, role: Rights)
    ensures DemotesOwner(w, c, target, r, role) ==> Assignment(w, c, target, r, role).Some?
  {
  }
}
