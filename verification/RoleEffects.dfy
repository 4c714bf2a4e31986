/**
 What assigning a role does: when it succeeds, whose cached rights change and to
 what, and who is told.
 */
module RoleEffects {
  import opened Wrappers
  import opened ChatDatabase
  import opened ChatHub
  import opened ChatServer
  import opened Transactions
  import opened ChatIndexes
  import opened ChatEffects

  ghost predicate IsOnline(w: World, u: UserId) {
    exists y <- w.hub.sessions :: LoggedIn(w.hub.sessions, y, u)
  }

  lemma OnlineIsIndexed(w: World, u: UserId)
    requires UserInvariant(w)
    ensures IsOnline(w, u) <==> u in w.hub.byUser
    ensures forall y :: y in Lookup(w.hub.byUser, u) <==> LoggedIn(w.hub.sessions, y, u)
  {
    if u in w.hub.byUser {
      var y :| y in w.hub.byUser[u];
      assert y in Lookup(w.hub.byUser, u);
    }
    if y :| y in w.hub.sessions && LoggedIn(w.hub.sessions, y, u) {
      assert y in Lookup(w.hub.byUser, u);
    }
  }

  /** One cache update: that user's sessions in the room, and the room is told if the user is online. */
  ghost predicate RoleTold(w: World, w': World, u: UserId, r: RoomId, rights: Rights) {
    && (forall x :: x in w'.hub.sessions <==> x in w.hub.sessions)
    && (forall x <- w.hub.sessions ::
          && w'.hub.sessions[x] == (if LoggedIn(w.hub.sessions, x, u) then WithRights(w.hub.sessions[x], r, rights)
                                    else w.hub.sessions[x])
          && Hears(w.hub.outbox, w'.hub.outbox, x,
                   if IsOnline(w, u) && Inside(w.hub.sessions, w.db.rooms.Keys, x, r) then [UserRoleChanged(u, rights)]
                   else []))
    && w'.hub.byUser == w.hub.byUser && w'.hub.byRoom == w.hub.byRoom
    && w'.db == w.db && w'.clients == w.clients && w'.nextConn == w.nextConn
  }

  lemma RightsTold(w: World, u: UserId, r: RoomId, rights: Rights)
    requires RoomInvariant(w) && UserInvariant(w)
    ensures RoleTold(w, w.(hub := UpdateUserRoomRights(w.hub, u, r, rights)), u, r, rights)
  {
    hide RoomInvariant, UserInvariant, IsOnline, WithRights;
    OnlineIsIndexed(w, u);
    RoomSet(w, r);
    ShapeOf(w);
  }

  /** New rights change nobody's login or room. */
  lemma StandingAfter(w: World, w': World, u: UserId, r: RoomId, rights: Rights)
    requires RoleTold(w, w', u, r, rights)
    ensures forall v: UserId :: IsOnline(w', v) <==> IsOnline(w, v)
    ensures forall x, v: UserId :: LoggedIn(w'.hub.sessions, x, v) <==> LoggedIn(w.hub.sessions, x, v)
    ensures forall x, q: RoomId :: Inside(w'.hub.sessions, w.db.rooms.Keys, x, q) <==>
                                   Inside(w.hub.sessions, w.db.rooms.Keys, x, q)
  {
    hide Hears;
    forall v: UserId ensures IsOnline(w', v) <==> IsOnline(w, v) {
      if y :| y in w.hub.sessions && LoggedIn(w.hub.sessions, y, v) {
        assert LoggedIn(w'.hub.sessions, y, v);
      }
      if y :| y in w'.hub.sessions && LoggedIn(w'.hub.sessions, y, v) {
        assert LoggedIn(w.hub.sessions, y, v);
      }
    }
  }

  /** The owner who steps down in a transfer. */
  function SteppingDown(db: Db, r: RoomId, role: Rights): Option<UserId> {
    if role == Owner && r in db.rooms then db.rooms[r].owner else None
  }

  /** What one session's rights become: the new role for the target, the remaining rights for the previous owner. */
  ghost function NewSession(w: World, db': Db, target: UserId, r: RoomId, role: Rights, x: Conn): WsData
    requires x in w.hub.sessions && r in db'.rooms
  {
    var d, previous := w.hub.sessions[x], SteppingDown(w.db, r, role);
    if LoggedIn(w.hub.sessions, x, target) then WithRights(d, r, role)
    else if previous.Some? && LoggedIn(w.hub.sessions, x, previous.value) then
      WithRights(d, r, EffectiveRights(db', previous.value, r))
    else d
  }

  /**
   What those in the room are told: the previous owner's rights, then the target's, each
   if that user is online.
   */
  ghost function RoleNews(w: World, db': Db, target: UserId, r: RoomId, role: Rights, x: Conn): seq<Msg>
    requires r in db'.rooms
  {
    var previous := SteppingDown(w.db, r, role);
    if !Inside(w.hub.sessions, w.db.rooms.Keys, x, r) then []
    else
      (if previous.Some? && IsOnline(w, previous.value)
       then [UserRoleChanged(previous.value, EffectiveRights(db', previous.value, r))] else [])
      + (if IsOnline(w, target) then [UserRoleChanged(target, role)] else [])
  }

  /**
   A role is assigned if and only if a session in the room asks, the tables allow it for the
   rights it has cached, and the transaction is committed. The tables, the cached rights
   of the two users, and what the room is told then agree.
   */
  lemma AssignRoleEffect(w: World, c: Conn, target: UserId, r: RoomId, role: Rights, tx: Fault)
    requires RoomInvariant(w) && UserInvariant(w) && c in w.hub.sessions
    ensures var w', d := Step(w, AssignRole(c, target, r, role, tx)), w.hub.sessions[c];
            var ok := && d.status == Authenticated && d.InRoom(r) && tx == Works
                      && Assignable(w.db, d.room.value.rights, target, r, role);
            && (!ok ==> OnlyAnswers(w, w', c, Reply(false)))
            && (ok ==>
                  && AssignRoleTransaction(w.db, d.room.value.rights, target, r, role).Some?
                  && w'.db == AssignRoleTransaction(w.db, d.room.value.rights, target, r, role).value.db
                  && r in w'.db.rooms && SameIndexes(w, w')
                  && w'.clients == w.clients && w'.nextConn == w.nextConn
                  && (forall x :: x in w'.hub.sessions <==> x in w.hub.sessions)
                  && forall x <- w.hub.sessions ::
                       && w'.hub.sessions[x] == NewSession(w, w'.db, target, r, role, x)
                       && Hears(w.hub.outbox, w'.hub.outbox, x, RoleNews(w, w'.db, target, r, role, x)
                                                                + (if x == c then [Reply(true)] else [])))
  {
    hide RoomInvariant, UserInvariant, Respond, AssignRoleTransaction, Assignable, UpdateUserRoomRights, Hears,
      NewSession, RoleNews;
    var d := w.hub.sessions[c];
    AnswerOnly(w, c, Reply(false));
    ValidTables(w);
    if d.status == Authenticated && d.InRoom(r) {
      AssignSucceedsIff(w.db, d.room.value.rights, target, r, role);
      if Assignable(w.db, d.room.value.rights, target, r, role) && tx == Works {
        AssignedTells(w, c, target, r, role);
      }
    }
  }

  lemma ValidTables(w: World)
    requires RoomInvariant(w)
    ensures w.db.Valid()
  {
  }

  lemma AssignedOwner(db: Db, actor: Rights, target: UserId, r: RoomId, role: Rights)
    requires db.Valid() && AssignRoleTransaction(db, actor, target, r, role).Some?
    ensures var done := AssignRoleTransaction(db, actor, target, r, role).value;
            && r in db.rooms && r in done.db.rooms && done.db.rooms.Keys == db.rooms.Keys
            && match SteppingDown(db, r, role)
               case None => done.oldOwner == 0
               case Some(v) => done.oldOwner == v != 0 && done.oldOwnerRole == EffectiveRights(done.db, v, r)
  {
    hide AssignRoleTransaction, SameRightsExcept;
    AssignedTables(db, actor, target, r, role);
    if role == Owner {
      TransferOwnership(db, actor, target, r);
    } else {
      OrdinaryAssignment(db, actor, target, r, role);
    }
  }

  lemma AssignedTells(w: World, c: Conn, target: UserId, r: RoomId, role: Rights)
    requires RoomInvariant(w) && UserInvariant(w) && c in w.hub.sessions && Assignment(w, c, target, r, role).Some?
    ensures var w', db' := HandleAssignRole(w, c, target, r, role, true), Assignment(w, c, target, r, role).value.db;
            && w'.db == db' && r in db'.rooms && SameIndexes(w, w')
            && w'.clients == w.clients && w'.nextConn == w.nextConn
            && (forall x :: x in w'.hub.sessions <==> x in w.hub.sessions)
            && forall x <- w.hub.sessions ::
                 && w'.hub.sessions[x] == NewSession(w, db', target, r, role, x)
                 && Hears(w.hub.outbox, w'.hub.outbox, x, RoleNews(w, db', target, r, role, x)
                                                          + (if x == c then [Reply(true)] else []))
  {
    hide RoomInvariant, UserInvariant, Respond, AssignRoleTransaction, UpdateUserRoomRights, RoleTold, Hears,
      NewSession, RoleNews;
    var done := Assignment(w, c, target, r, role).value;
    var actor := w.hub.sessions[c].room.value.rights;
    ValidTables(w);
    ShapeOf(w);
    AssignedOwner(w.db, actor, target, r, role);
    AssignedKeeps(w, actor, target, r, role);
    var w1 := w.(db := done.db);
    var w2 := if done.oldOwner != 0 then w1.(hub := UpdateUserRoomRights(w.hub, done.oldOwner, r, done.oldOwnerRole))
              else w1;
    RightsKeep(w1, done.oldOwner, r, done.oldOwnerRole);
    RightsTold(w1, done.oldOwner, r, done.oldOwnerRole);
    RightsTold(w2, target, r, role);
    RightsKeep(w2, target, r, role);
    var w3 := w2.(hub := UpdateUserRoomRights(w2.hub, target, r, role));
    AnswerOnly(w3, c, Reply(true));
    BothTold(w, done, w2, w3, target, r, role);
    ThenAnswer(w, done.db, w3, c, target, r, role);
  }

  /** The two cache updates together. */
  lemma BothTold(w: World, done: Assigned, w2: World, w3: World, target: UserId, r: RoomId, role: Rights)
    requires r in w.db.rooms && r in done.db.rooms && done.db.rooms.Keys == w.db.rooms.Keys
    requires match SteppingDown(w.db, r, role)
             case None => done.oldOwner == 0
             case Some(v) => done.oldOwner == v != 0 && done.oldOwnerRole == EffectiveRights(done.db, v, r)
    requires w.hub.outbox.Keys == w.hub.sessions.Keys
    requires if done.oldOwner != 0 then RoleTold(w.(db := done.db), w2, done.oldOwner, r, done.oldOwnerRole)
             else w2 == w.(db := done.db)
    requires RoleTold(w2, w3, target, r, role)
    ensures w3.db == done.db && w3.hub.byUser == w.hub.byUser && w3.hub.byRoom == w.hub.byRoom
    ensures w3.clients == w.clients && w3.nextConn == w.nextConn
    ensures forall x :: x in w3.hub.sessions <==> x in w.hub.sessions
    ensures forall x <- w.hub.sessions ::
              && w3.hub.sessions[x] == NewSession(w, done.db, target, r, role, x)
              && Hears(w.hub.outbox, w3.hub.outbox, x, RoleNews(w, done.db, target, r, role, x))
  {
    hide EffectiveRights, NewSession, RoleNews, Hears;
    forall x | x in w.hub.sessions
      ensures w3.hub.sessions[x] == NewSession(w, done.db, target, r, role, x)
      ensures Hears(w.hub.outbox, w3.hub.outbox, x, RoleNews(w, done.db, target, r, role, x))
    {
      BothToldOne(w, done, w2, w3, target, r, role, x);
    }
  }

  /** One cache update as one session sees it. */
  lemma ToldOne(w: World, w': World, u: UserId, r: RoomId, rights: Rights, x: Conn)
    requires RoleTold(w, w', u, r, rights) && x in w.hub.sessions
    ensures x in w'.hub.sessions
    ensures w'.hub.sessions[x] == if LoggedIn(w.hub.sessions, x, u) then WithRights(w.hub.sessions[x], r, rights)
                                  else w.hub.sessions[x]
    ensures Hears(w.hub.outbox, w'.hub.outbox, x,
                  if IsOnline(w, u) && Inside(w.hub.sessions, w.db.rooms.Keys, x, r) then [UserRoleChanged(u, rights)]
                  else [])
  {
  }

  /** Users who are online or in the room are so by the sessions, whatever the tables. */
  lemma OtherTablesOnline(w: World, db: Db, u: UserId)
    ensures IsOnline(w.(db := db), u) <==> IsOnline(w, u)
  {
  }

  lemma BothToldOne(w: World, done: Assigned, w2: World, w3: World, target: UserId, r: RoomId, role: Rights, x: Conn)
    requires r in w.db.rooms && r in done.db.rooms && done.db.rooms.Keys == w.db.rooms.Keys
    requires match SteppingDown(w.db, r, role)
             case None => done.oldOwner == 0
             case Some(v) => done.oldOwner == v != 0 && done.oldOwnerRole == EffectiveRights(done.db, v, r)
    requires x in w.hub.sessions && x in w.hub.outbox
    requires if done.oldOwner != 0 then RoleTold(w.(db := done.db), w2, done.oldOwner, r, done.oldOwnerRole)
             else w2 == w.(db := done.db)
    requires RoleTold(w2, w3, target, r, role)
    ensures x in w3.hub.sessions && w3.hub.sessions[x] == NewSession(w, done.db, target, r, role, x)
    ensures Hears(w.hub.outbox, w3.hub.outbox, x, RoleNews(w, done.db, target, r, role, x))
  {
    hide EffectiveRights, RoleTold, IsOnline, Hears;
    var w1 := w.(db := done.db);
    OtherTablesOnline(w, done.db, target);
    var first: seq<Msg> := [];
    if done.oldOwner != 0 {
      StandingAfter(w1, w2, done.oldOwner, r, done.oldOwnerRole);
      OtherTablesOnline(w, done.db, done.oldOwner);
      ToldOne(w1, w2, done.oldOwner, r, done.oldOwnerRole, x);
      SameTablesTold(w1, w2, done.oldOwner, r, done.oldOwnerRole);
      if IsOnline(w, done.oldOwner) && Inside(w.hub.sessions, w.db.rooms.Keys, x, r) {
        first := [UserRoleChanged(done.oldOwner, done.oldOwnerRole)];
      }
    } else {
      HearsNothing(w.hub.outbox, x);
    }
    ToldOne(w2, w3, target, r, role, x);
    HearsMore(w.hub.outbox, w2.hub.outbox, w3.hub.outbox, x, first,
              if IsOnline(w, target) && Inside(w.hub.sessions, w.db.rooms.Keys, x, r)
              then [UserRoleChanged(target, role)] else []);
  }

  lemma SameTablesTold(w: World, w': World, u: UserId, r: RoomId, rights: Rights)
    requires RoleTold(w, w', u, r, rights)
    ensures w'.db == w.db
  {
  }

  lemma HearsNothing(box: Outbox, x: Conn)
    requires x in box
    ensures Hears(box, box, x, [])
  {
  }

  lemma ThenAnswer(w: World, db': Db, w3: World, c: Conn, target: UserId, r: RoomId, role: Rights)
    requires r in db'.rooms && RoomInvariant(w3)
    requires forall x :: x in w3.hub.sessions <==> x in w.hub.sessions
    requires forall x <- w.hub.sessions ::
               Hears(w.hub.outbox, w3.hub.outbox, x, RoleNews(w, db', target, r, role, x))
    ensures forall x <- w.hub.sessions ::
              Hears(w.hub.outbox, Respond(w3, c, Reply(true)).hub.outbox, x,
                    RoleNews(w, db', target, r, role, x) + (if x == c then [Reply(true)] else []))
  {
    hide RoomInvariant, RoleNews, Respond, Hears;
    AnswerOnly(w3, c, Reply(true));
    ShapeOf(w3);
    forall x | x in w.hub.sessions
      ensures Hears(w.hub.outbox, Respond(w3, c, Reply(true)).hub.outbox, x,
                    RoleNews(w, db', target, r, role, x) + (if x == c then [Reply(true)] else []))
    {
      HearsMore(w.hub.outbox, w3.hub.outbox, Respond(w3, c, Reply(true)).hub.outbox, x,
                RoleNews(w, db', target, r, role, x), if x == c then [Reply(true)] else []);
    }
  }
}
