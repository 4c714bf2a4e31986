/**
 The invariants over whole runs: any number of events, from a freshly started
 server, under exactly the run conditions each invariant needs.
 */
module ChatRuns {
  import opened Wrappers
  import opened ChatDatabase
  import opened ChatHub
  import opened UserList
  import opened ChatServer
  import opened ChatIndexes
  import opened ChatRights
  import opened ChatPresence
  import opened ChatAccess

  /** Which requests a run may contain. */
  datatype Discipline =
    | AnyRequest
    | NoRestart     // nobody starts to authenticate or register while logged in
    | NoDemotion    // and nobody gives a lesser role to a room's connected owner
    | Announced     // or: nobody becomes a member without the room being told
    | OneName       // or: nobody logged in on several connections changes names

  ghost predicate Allowed(k: Discipline, w: World, e: Event) {
    && Enabled(w, e)
    && (k != AnyRequest ==> !RestartsLogin(w, e))
    && (k == NoDemotion ==> !DemotesOwnerStep(w, e))
    && (k == Announced ==> !Misreports(w, e))
    && (k == OneName ==> !LeavesOldName(w, e))
  }

  ghost predicate Run(k: Discipline, w: World, events: seq<Event>, w': World)
    decreases |events|
  {
    if events == [] then w' == w
    else Allowed(k, w, events[0]) && Run(k, Step(w, events[0]), events[1..], w')
  }

  lemma {:induction false} RunAppend(k: Discipline, w: World, a: seq<Event>, w1: World, b: seq<Event>, w2: World)
    requires Run(k, w, a, w1) && Run(k, w1, b, w2)
    ensures Run(k, w, a + b, w2)
    decreases |a|
  {
    hide Step, Enabled, RestartsLogin, DemotesOwnerStep, Misreports, LeavesOldName;
    if a == [] {
      assert a + b == b;
    } else {
      assert (a + b)[0] == a[0] && (a + b)[1..] == a[1..] + b;
      RunAppend(k, Step(w, a[0]), a[1..], w1, b, w2);
    }
  }

  lemma RunOne(k: Discipline, w: World, e: Event)
    requires Allowed(k, w, e)
    ensures Run(k, w, [e], Step(w, e))
  {
    hide Step, Enabled, RestartsLogin, DemotesOwnerStep, Misreports, LeavesOldName;
    assert Run(k, Step(w, e), [e][1..], Step(w, e));
  }

  ghost predicate Invariant(k: Discipline, w: World) {
    && RoomInvariant(w)
    && (k != AnyRequest ==> UserInvariant(w) && PrivateInvariant(w))
    && (k == NoDemotion ==> RightsOk(w.db, w.hub.sessions))
    && (k == Announced ==> PresenceOk(w))
    && (k == OneName ==> NamesInvariant(w))
  }

  lemma StepKeepsInvariant(k: Discipline, w: World, e: Event)
    requires Invariant(k, w) && Allowed(k, w, e)
    ensures Invariant(k, Step(w, e))
  {
    hide RoomInvariant, UserInvariant, RightsOk, PresenceOk, PrivateInvariant, NamesInvariant, Step, RestartsLogin,
      Misreports, DemotesOwnerStep, LeavesOldName, Enabled;
    StepKeepsIndexes(w, e);
    if k != AnyRequest {
      StepKeepsAccessIff(w, e);
    }
    if k == NoDemotion {
      StepKeepsRightsIff(w, e);
    } else if k == Announced {
      StepKeepsPresenceIff(w, e);
    }
  }

  lemma InitialInvariant(k: Discipline, w: World)
    requires Initial(w)
    ensures Invariant(k, w)
  {
  }

  lemma {:induction false} RunKeepsInvariant(k: Discipline, w: World, events: seq<Event>, w': World)
    requires Invariant(k, w) && Run(k, w, events, w')
    ensures Invariant(k, w')
    decreases |events|
  {
    hide Invariant, Step, RestartsLogin, DemotesOwnerStep, Misreports, LeavesOldName;
    if events != [] {
      StepKeepsInvariant(k, w, events[0]);
      RunKeepsInvariant(k, Step(w, events[0]), events[1..], w');
    }
  }

  /** In every run whatsoever, the set of a room is the sessions in it, and no connection is in two. */
  lemma RoomsAgreeWithSessions(w0: World, events: seq<Event>, w: World, c: Conn, r: RoomId, q: RoomId)
    requires Initial(w0) && Run(AnyRequest, w0, events, w)
    ensures c in Lookup(w.hub.byRoom, r) <==>
              r in w.db.rooms && c in w.hub.sessions && w.hub.sessions[c].InRoom(r)
    ensures c in Lookup(w.hub.byRoom, r) && c in Lookup(w.hub.byRoom, q) ==> r == q
    ensures r in w.hub.byRoom ==> w.hub.byRoom[r] != {}
  {
    InitialInvariant(AnyRequest, w0);
    RunKeepsInvariant(AnyRequest, w0, events, w);
    assert c in Lookup(w.hub.byRoom, r) <==> Inside(w.hub.sessions, w.db.rooms.Keys, c, r);
    assert c in Lookup(w.hub.byRoom, q) <==> Inside(w.hub.sessions, w.db.rooms.Keys, c, q);
  }

  /** Without restarts, the user index is the logged-in sessions and a broadcast reaches each of them once. */
  lemma UsersAgreeWithSessions(w0: World, events: seq<Event>, w: World, c: Conn, u: UserId, m: Msg)
    requires Initial(w0) && Run(NoRestart, w0, events, w)
    ensures c in Lookup(w.hub.byUser, u) <==> LoggedIn(w.hub.sessions, c, u)
    ensures c in w.hub.sessions ==>
              (&& c in w.hub.outbox && c in SendToAll(w.hub, m).outbox
               && SendToAll(w.hub, m).outbox[c] ==
                  w.hub.outbox[c] + (if w.hub.sessions[c].status == Authenticated then [m] else []))
  {
    InitialInvariant(NoRestart, w0);
    RunKeepsInvariant(NoRestart, w0, events, w);
    if c in w.hub.sessions {
      BroadcastReachesOnce(w, m, c);
    }
  }

  /** What a session believes it may do in an existing room is what the tables say. */
  lemma RightsAgreeWithTables(w0: World, events: seq<Event>, w: World, c: Conn)
    requires Initial(w0) && Run(NoDemotion, w0, events, w)
    requires c in w.hub.sessions && w.hub.sessions[c].room.Some? && w.hub.sessions[c].room.value.id in w.db.rooms
    ensures w.hub.sessions[c].user.Some?
    ensures w.hub.sessions[c].room.value.rights ==
            EffectiveRights(w.db, w.hub.sessions[c].user.value.id, w.hub.sessions[c].room.value.id)
  {
    InitialInvariant(NoDemotion, w0);
    RunKeepsInvariant(NoDemotion, w0, events, w);
    assert CachedOk(w.db, w.hub.sessions, c);
  }

  /**
   Once it has handled what is queued for it, a client in a room lists exactly the
   members, each with the number of its connections in the room.
   */
  lemma PresenceIsExact(w0: World, events: seq<Event>, w: World, c: Conn, r: RoomId)
    requires Initial(w0) && Run(Announced, w0, events, w)
    requires c in w.hub.sessions && w.hub.sessions[c].InRoom(r) && r in w.db.rooms
    ensures c in w.hub.outbox && c in w.clients
    ensures var list := HandleAll(w.clients[c], w.hub.outbox[c]);
            && list.Keys == Members(w.db, r)
            && forall u <- list ::
                 list[u] == |set d <- w.hub.sessions | w.hub.sessions[d].InRoom(r) && UserAt(w.hub.sessions, d) == u|
  {
    InitialInvariant(Announced, w0);
    RunKeepsInvariant(Announced, w0, events, w);
    var conns := Lookup(w.hub.byRoom, r);
    assert c in conns by {
      assert Inside(w.hub.sessions, w.db.rooms.Keys, c, r);
    }
    assert Exact(w, c, r);
    forall d: Conn ensures d in conns <==> d in w.hub.sessions && w.hub.sessions[d].InRoom(r) {
      assert d in conns <==> Inside(w.hub.sessions, w.db.rooms.Keys, d, r);
    }
    forall u: UserId
      ensures Of(w.hub.sessions, conns, u) ==
              (set d <- w.hub.sessions | w.hub.sessions[d].InRoom(r) && UserAt(w.hub.sessions, d) == u)
    {
    }
  }

  /** Nothing queued for a client ever makes it erase an entry when somebody leaves. */
  lemma NothingIsErased(w0: World, events: seq<Event>, w: World, c: Conn)
    requires Initial(w0) && Run(Announced, w0, events, w)
    requires c in w.clients && c in w.hub.outbox
    ensures AllKeepEntries(w.clients[c], w.hub.outbox[c])
  {
    InitialInvariant(Announced, w0);
    RunKeepsInvariant(Announced, w0, events, w);
    assert QueueSafe(w.clients, w.hub.outbox, c);
  }

  /** While nobody logged in on several connections changes names, a logged-in session has the id of its name. */
  lemma LoginsHaveTheirNames(w0: World, events: seq<Event>, w: World, c: Conn)
    requires Initial(w0) && Run(OneName, w0, events, w)
    requires c in w.hub.sessions && w.hub.sessions[c].status == Authenticated
    ensures var user := w.hub.sessions[c].user;
            user.Some? && user.value.name in w.db.usernames && w.db.usernames[user.value.name] == user.value.id
  {
    InitialInvariant(OneName, w0);
    RunKeepsInvariant(OneName, w0, events, w);
    assert NameOk(w.db, w.hub.sessions[c]);
  }

  /**
   In every run without login restarts, whatever names change, a logged-in session is one
   of an existing user, and a private room holds joined members only.
   */
  lemma PrivateRoomsHoldMembers(w0: World, events: seq<Event>, w: World, c: Conn)
    requires Initial(w0) && Run(NoRestart, w0, events, w) && c in w.hub.sessions
    ensures var d := w.hub.sessions[c];
            && (d.status == Authenticated ==> d.user.Some? && d.user.value.id in w.db.users)
            && (d.room.Some? && d.room.value.id in w.db.rooms && w.db.rooms[d.room.value.id].isPrivate ==>
                  d.user.Some? && MembershipOf(w.db, d.user.value.id, d.room.value.id) == Some(Joined))
  {
    InitialInvariant(NoRestart, w0);
    RunKeepsInvariant(NoRestart, w0, events, w);
    assert PrivateOk(w.db, w.hub.sessions[c]);
  }

  // Authority.

  /**
   In every run that demotes no connected owner, whoever deletes a room is its OWNER or
   an ADMIN by the tables, and whoever changes a role has more rights than the target.
   */
  lemma AuthorityIsReal(w0: World, events: seq<Event>, w: World, e: Event)
    requires Initial(w0) && Run(NoDemotion, w0, events, w) && Enabled(w, e)
    requires (e.DeleteRoom? || e.AssignRole?) && Step(w, e).db != w.db
    ensures var d := w.hub.sessions[e.c];
            && d.status == Authenticated && d.user.Some? && e.room in w.db.rooms
            && var mine := EffectiveRights(w.db, d.user.value.id, e.room);
            && (e.DeleteRoom? ==> mine.Rank() >= Owner.Rank())
            && (e.AssignRole? ==>
                  && EffectiveRights(w.db, e.target, e.room).Rank() < mine.Rank()
                  && (e.role.Rank() < mine.Rank() || (e.role == Owner && mine == Owner)))
  {
    hide Run, Db.Valid, RoomIndexOk, UserIndexOk, RightsOk, CachedOk;
    InitialInvariant(NoDemotion, w0);
    RunKeepsInvariant(NoDemotion, w0, events, w);
    CachedInRoom(w, e.c);
  }

  lemma CachedInRoom(w: World, c: Conn)
    requires RightsOk(w.db, w.hub.sessions) && SessionsOk(w) && c in w.hub.sessions
    ensures var d := w.hub.sessions[c];
            d.room.Some? && d.room.value.id in w.db.rooms ==>
              d.user.Some? && d.room.value.rights == EffectiveRights(w.db, d.user.value.id, d.room.value.id)
  {
    assert CachedOk(w.db, w.hub.sessions, c);
  }
}
