/** What joining a room does: the departure, the row, the seat, and who is told what. */
module JoinEffects {
  import opened Wrappers
  import opened ChatDatabase
  import opened ChatHub
  import opened ChatServer
  import opened ChatIndexes
  import opened ChatEffects

  /** What somebody in the room hears when a user enters: once, and twice if the user was no member before. */
  function Welcome(w: World, u: UserId, r: RoomId, x: Conn): seq<Msg> {
    if !Inside(w.hub.sessions, w.db.rooms.Keys, x, r) then []
    else if MembershipOf(w.db, u, r).None? then [UserJoined(u), UserJoined(u)]
    else [UserJoined(u)]
  }

  /** A room may be entered: it exists, it is public or counts the user as joined, and no lookup fails. */
  predicate MayEnter(w: World, u: UserId, r: RoomId, fault: JoinFault) {
    && r in w.db.rooms && fault != LookupFails
    && (w.db.rooms[r].isPrivate ==> MembershipOf(w.db, u, r) == Some(Joined))
  }

  /** What a join does once the connection is outside: the row, the session, the room set, and who hears what. */
  ghost predicate Joins(w: World, w': World, c: Conn, u: UserId, r: RoomId, fault: JoinFault) {
    var may := MayEnter(w, u, r, fault);
    var enters := may && fault != ListingFails;
    && w'.db == (if may && fault != WriteFails then w.db.(membership := w.db.membership[(u, r) := Joined]) else w.db)
    && w'.hub.byUser == w.hub.byUser && c in w.hub.sessions
    && (enters ==> r in w'.db.rooms)
    && OnlySession(w, w', c,
                   if enters then w.hub.sessions[c].(room := Some(CurrentRoom(r, EffectiveRights(w'.db, u, r))))
                   else w.hub.sessions[c])
    && (forall q: RoomId :: Lookup(w'.hub.byRoom, q) ==
                            Lookup(w.hub.byRoom, q) + (if enters && q == r then {c} else {}))
    && (forall x <- w.hub.sessions | x != c ::
          Hears(w.hub.outbox, w'.hub.outbox, x, if enters then Welcome(w, u, r, x) else []))
    && Hears(w.hub.outbox, w'.hub.outbox, c,
             [if enters then JoinRoomOk(Members(w'.db, r), GetUsersInRoom(w'.hub, r)) else Reply(false)])
  }

  /** The messages of a seat taken in a room: one or two announcements to the peers, the answer to the newcomer. */
  lemma SeatHears(box: Outbox, peers: set<Conn>, c: Conn, u: UserId, newMember: bool, answer: Msg)
    requires c !in peers
    ensures var box' := ToEach(Announce(box, peers, u, newMember), {c}, answer);
            && (forall x <- box | x != c ::
                  Hears(box, box', x, if x !in peers then []
                                      else if newMember then [UserJoined(u), UserJoined(u)]
                                      else [UserJoined(u)]))
            && (c in box ==> Hears(box, box', c, [answer]))
  {
  }

  lemma EnterTells(w: World, c: Conn, u: UserId, r: RoomId, newMember: bool)
    requires RoomInvariant(w) && c in w.hub.sessions && w.hub.sessions[c].room.None? && r in w.db.rooms
    ensures var w' := EnterRoom(w, c, u, r, newMember);
            && w'.db == w.db && w'.hub.byUser == w.hub.byUser
            && OnlySession(w, w', c, w.hub.sessions[c].(room := Some(CurrentRoom(r, EffectiveRights(w.db, u, r)))))
            && (forall q: RoomId :: Lookup(w'.hub.byRoom, q) == Lookup(w.hub.byRoom, q) + (if q == r then {c} else {}))
            && (forall x <- w.hub.sessions | x != c ::
                  Hears(w.hub.outbox, w'.hub.outbox, x,
                        if !Inside(w.hub.sessions, w.db.rooms.Keys, x, r) then []
                        else if newMember then [UserJoined(u), UserJoined(u)]
                        else [UserJoined(u)]))
            && Hears(w.hub.outbox, w'.hub.outbox, c, [JoinRoomOk(Members(w.db, r), GetUsersInRoom(w'.hub, r))])
  {
    hide Members, UsersAmong, Insert, EffectiveRights, RoomInvariant, Lookup, Hears, Announce, ToEach;
    InNoRoom(w, c);
    InsertLookup(w.hub.byRoom, r, c);
    ShapeOf(w);
    RoomSet(w, r);
    var w' := EnterRoom(w, c, u, r, newMember);
    SeatHears(w.hub.outbox, Lookup(w.hub.byRoom, r), c, u, newMember,
              JoinRoomOk(Members(w.db, r), GetUsersInRoom(w'.hub, r)));
  }

  /** The tables after the attempt to write the membership row. */
  function AfterRow(w: World, u: UserId, r: RoomId, fault: JoinFault): Db {
    if MayEnter(w, u, r, fault) && fault != WriteFails then SetMembership(w.db, u, r, Joined) else w.db
  }

  lemma RowKeeps(w: World, u: UserId, r: RoomId, fault: JoinFault)
    requires RoomInvariant(w) && u in w.db.users
    ensures RoomInvariant(w.(db := AfterRow(w, u, r, fault)))
  {
    hide RoomInvariant, SetMembership;
    if r in w.db.rooms {
      MembershipKeeps(w, u, r);
    }
  }

  lemma RefusedJoin(w: World, c: Conn, u: UserId, r: RoomId, fault: JoinFault)
    requires RoomInvariant(w) && c in w.hub.sessions && u in w.db.users
    requires !MayEnter(w, u, r, fault) || fault == ListingFails
    ensures Joins(w, Respond(w.(db := AfterRow(w, u, r, fault)), c, Reply(false)), c, u, r, fault)
  {
    hide RoomInvariant, Respond, Hears, Lookup, MayEnter, Members, UsersAmong, EffectiveRights;
    RowKeeps(w, u, r, fault);
    ShapeOf(w);
    AnswerOnly(w.(db := AfterRow(w, u, r, fault)), c, Reply(false));
  }

  lemma AdmittedJoin(w: World, c: Conn, u: UserId, r: RoomId, fault: JoinFault)
    requires RoomInvariant(w) && c in w.hub.sessions && w.hub.sessions[c].room.None? && u in w.db.users
    requires MayEnter(w, u, r, fault) && fault != ListingFails
    ensures r in AfterRow(w, u, r, fault).rooms
    ensures Joins(w, EnterRoom(w.(db := AfterRow(w, u, r, fault)), c, u, r, MembershipOf(w.db, u, r).None?), c, u, r,
                  fault)
  {
    hide RoomInvariant, EnterRoom, Hears, Lookup, MembershipOf, Members, UsersAmong, EffectiveRights;
    RowKeeps(w, u, r, fault);
    EnterTells(w.(db := AfterRow(w, u, r, fault)), c, u, r, MembershipOf(w.db, u, r).None?);
  }

  lemma JoinFromOutsideEffect(w: World, c: Conn, u: UserId, r: RoomId, fault: JoinFault)
    requires RoomInvariant(w) && c in w.hub.sessions && w.hub.sessions[c].room.None? && u in w.db.users
    ensures Joins(w, JoinFromOutside(w, c, u, r, fault), c, u, r, fault)
  {
    hide RoomInvariant, EnterRoom, Respond, Joins, SetMembership;
    AlreadyJoined(w.db, u, r);
    if MayEnter(w, u, r, fault) && fault != ListingFails {
      AdmittedJoin(w, c, u, r, fault);
    } else {
      RefusedJoin(w, c, u, r, fault);
    }
  }

  lemma AlreadyJoined(db: Db, u: UserId, r: RoomId)
    ensures MembershipOf(db, u, r) == Some(Joined) ==> SetMembership(db, u, r, Joined) == db
    ensures SetMembership(db, u, r, Joined).rooms == db.rooms
  {
    if MembershipOf(db, u, r) == Some(Joined) {
      assert db.membership[(u, r) := Joined] == db.membership;
    }
  }

  /**
   A join by somebody logged in first leaves the room the session is in, as LeaveRoom does, and
   then enters or is refused; anybody else is refused at once.
   */
  lemma JoinRoomEffect(w: World, c: Conn, r: RoomId, fault: JoinFault)
    requires RoomInvariant(w) && c in w.hub.sessions
    ensures var w', d := Step(w, JoinRoom(c, r, fault)), w.hub.sessions[c];
            && (d.status != Authenticated ==> OnlyAnswers(w, w', c, Reply(false)))
            && (d.status == Authenticated ==>
                  && d.user.Some?
                  && exists w1 :: && Joins(w1, w', c, d.user.value.id, r, fault)
                                  && w1.db == w.db && w1.hub.byUser == w.hub.byUser && LeftItsRoom(w, w1, c)
                                  && OnlySession(w, w1, c, d.(room := None))
                                  && forall x <- w.hub.sessions ::
                                       Hears(w.hub.outbox, w1.hub.outbox, x, Farewell(w, c, x)))
  {
    hide RoomInvariant, Joins, Respond, Hears, Depart, JoinFromOutside, Lookup;
    var d := w.hub.sessions[c];
    AnswerOnly(w, c, Reply(false));
    if d.status == Authenticated {
      UserOf(w, c);
      var w1 := if d.room.Some? then Depart(w, c) else w;
      if d.room.Some? {
        DepartTells(w, c);
        DepartKeeps(w, c);
      } else {
        InNoRoom(w, c);
        StaysOutside(w, c);
      }
      JoinFromOutsideEffect(w1, c, d.user.value.id, r, fault);
    }
  }

  lemma StaysOutside(w: World, c: Conn)
    requires RoomInvariant(w) && c in w.hub.sessions && w.hub.sessions[c].room.None?
    ensures LeftItsRoom(w, w, c) && OnlySession(w, w, c, w.hub.sessions[c].(room := None))
    ensures forall x <- w.hub.sessions :: Hears(w.hub.outbox, w.hub.outbox, x, Farewell(w, c, x))
  {
    hide RoomIndexOk;
    InNoRoom(w, c);
  }
}
