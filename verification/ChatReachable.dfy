/**
 What clients can bring about: a known user logs in, a registered one is known,
 and a busy server is reached in which each excluded request breaks its invariant.
 */
module ChatReachable {
  import opened Wrappers
  import opened ChatDatabase
  import opened ChatHub
  import opened ChatServer
  import opened Transactions
  import opened ChatIndexes
  import opened ChatRights
  import opened ChatPresence
  import opened ChatAccess
  import opened ChatRuns

  // Runs every discipline allows.

  ghost predicate AlwaysAllowed(w: World, e: Event) {
    forall k :: Allowed(k, w, e)
  }

  ghost predicate AlwaysRun(w: World, events: seq<Event>, w': World) {
    forall k :: Run(k, w, events, w')
  }

  lemma AlwaysAppend(w: World, a: seq<Event>, w1: World, b: seq<Event>, w2: World)
    requires AlwaysRun(w, a, w1) && AlwaysRun(w1, b, w2)
    ensures AlwaysRun(w, a + b, w2)
  {
    hide Run;
    forall k ensures Run(k, w, a + b, w2) {
      RunAppend(k, w, a, w1, b, w2);
    }
  }

  lemma AlwaysOne(w: World, e: Event)
    requires AlwaysAllowed(w, e)
    ensures Enabled(w, e) && AlwaysRun(w, [e], Step(w, e))
  {
    hide Run, Step;
    assert Allowed(AnyRequest, w, e);
    forall k ensures Run(k, w, [e], Step(w, e)) {
      RunOne(k, w, e);
    }
  }

  lemma AlwaysKeeps(w: World, events: seq<Event>, w': World)
    requires RoomInvariant(w) && AlwaysRun(w, events, w')
    ensures RoomInvariant(w')
  {
    hide Run, RoomInvariant;
    RunKeepsInvariant(AnyRequest, w, events, w');
  }

  // Connecting, registering and logging in.

  lemma Connects(w: World)
    requires RoomInvariant(w)
    ensures AlwaysAllowed(w, Connect)
    ensures var w' := Step(w, Connect);
            && w'.db == w.db && w'.nextConn == w.nextConn + 1 && w.nextConn !in w.hub.sessions
            && w'.hub.sessions == w.hub.sessions[w.nextConn := NEW_SESSION]
  {
  }

  lemma Names(w: World, c: Conn, name: string)
    requires c in w.hub.sessions && w.hub.sessions[c].status != Authenticated && name != ""
    ensures name in w.db.usernames ==>
              && AlwaysAllowed(w, InitialAuth(c, name))
              && var w', d := Step(w, InitialAuth(c, name)), w.hub.sessions[c];
                 && w'.db == w.db && w'.nextConn == w.nextConn
                 && w'.hub.sessions == w.hub.sessions[c := d.(status := Authenticating, user := Some(User(0, name)))]
    ensures name !in w.db.usernames ==>
              && AlwaysAllowed(w, InitialRegister(c, name))
              && var w', d := Step(w, InitialRegister(c, name)), w.hub.sessions[c];
                 && w'.db == w.db && w'.nextConn == w.nextConn
                 && w'.hub.sessions == w.hub.sessions[c := d.(status := Registering, user := Some(User(0, name)))]
  {
  }

  lemma Accepts(w: World, c: Conn, name: string)
    requires c in w.hub.sessions && name in w.db.usernames
    requires var d := w.hub.sessions[c]; d.status == Authenticating && d.user.Some? && d.user.value.name == name
    ensures AlwaysAllowed(w, Auth(c, Accepted))
    ensures var w', d := Step(w, Auth(c, Accepted)), w.hub.sessions[c];
            && w'.db == w.db && w'.nextConn == w.nextConn
            && w'.hub.sessions ==
                 w.hub.sessions[c := d.(status := Authenticated, user := Some(User(w.db.usernames[name], name)))]
  {
  }

  lemma Registers(w: World, c: Conn, name: string)
    requires c in w.hub.sessions && name !in w.db.usernames && 0 < w.db.nextUser < 0x8000_0000
    requires var d := w.hub.sessions[c]; d.status == Registering && d.user.Some? && d.user.value.name == name
    ensures AlwaysAllowed(w, Register(c, Works))
    ensures var w', d := Step(w, Register(c, Works)), w.hub.sessions[c];
            && w'.db == WithUser(w.db, w.db.nextUser, name) && w'.nextConn == w.nextConn
            && w'.hub.sessions == w.hub.sessions[c := d.(status := Unauthenticated)]
  {
  }

  function LoginRequests(c: Conn, name: string): seq<Event> {
    [InitialAuth(c, name)] + [Auth(c, Accepted)]
  }

  /** A connection that is not logged in gets the identity of the name it proves, and keeps its room. */
  lemma LogsIn(w: World, c: Conn, name: string) returns (w': World)
    requires c in w.hub.sessions && w.hub.sessions[c].status != Authenticated
    requires name != "" && name in w.db.usernames
    ensures AlwaysRun(w, LoginRequests(c, name), w')
    ensures w'.db == w.db && w'.nextConn == w.nextConn
    ensures w'.hub.sessions ==
            w.hub.sessions[c := WsData(Some(User(w.db.usernames[name], name)), w.hub.sessions[c].room, Authenticated)]
  {
    hide Step, Run, Allowed;
    Names(w, c, name);
    AlwaysOne(w, InitialAuth(c, name));
    var w1 := Step(w, InitialAuth(c, name));
    Accepts(w1, c, name);
    AlwaysOne(w1, Auth(c, Accepted));
    w' := Step(w1, Auth(c, Accepted));
    AlwaysAppend(w, [InitialAuth(c, name)], w1, [Auth(c, Accepted)], w');
  }

  function RegistrationRequests(c: Conn, name: string): seq<Event> {
    [InitialRegister(c, name)] + [Register(c, Works)]
  }

  /** Whoever registers a new name can log in with it at once, as a user nobody has been before. */
  lemma RegisteredCanLogIn(w: World, c: Conn, name: string) returns (w': World)
    requires RoomInvariant(w) && c in w.hub.sessions && w.hub.sessions[c].status != Authenticated
    requires name != "" && name !in w.db.usernames && w.db.nextUser < 0x8000_0000
    ensures AlwaysRun(w, RegistrationRequests(c, name) + LoginRequests(c, name), w')
    ensures name in w'.db.usernames && w'.db.usernames[name] !in w.db.users
    ensures LoggedIn(w'.hub.sessions, c, w'.db.usernames[name])
  {
    hide Step, Run, Allowed;
    assert 0 < w.db.nextUser && w.db.nextUser !in w.db.users;
    Names(w, c, name);
    AlwaysOne(w, InitialRegister(c, name));
    var w1 := Step(w, InitialRegister(c, name));
    Registers(w1, c, name);
    AlwaysOne(w1, Register(c, Works));
    var w2 := Step(w1, Register(c, Works));
    AlwaysAppend(w, [InitialRegister(c, name)], w1, [Register(c, Works)], w2);
    w' := LogsIn(w2, c, name);
    AlwaysAppend(w, RegistrationRequests(c, name), w2, LoginRequests(c, name), w');
  }

  /**
   After a committed change of names the user can be logged in as under the new name and
   under no other, and not under that one either if it is empty: the change does not
   refuse an empty name, the login does.
   */
  lemma RenamedCanLogInIff(w: World, c: Conn, name: string, f: Conn, n: string)
    requires c in w.hub.sessions && MayRename(w, c, name)
    requires f in w.hub.sessions && w.hub.sessions[f].status == Unauthenticated
    ensures var w1 := Step(w, ChangeUsername(c, name, Works));
            && Enabled(w1, InitialAuth(f, n))
            && var w2 := Step(w1, InitialAuth(f, n));
               && Enabled(w2, Auth(f, Accepted))
               && (LoggedIn(Step(w2, Auth(f, Accepted)).hub.sessions, f, w.hub.sessions[c].user.value.id) <==>
                     n == name && name != "")
  {
    hide Step, Run;
    var u, w1 := w.hub.sessions[c].user.value.id, Step(w, ChangeUsername(c, name, Works));
    Renames(w, c, name);
    if n != "" && n in w1.db.usernames {
      Names(w1, f, n);
      var w2 := Step(w1, InitialAuth(f, n));
      Accepts(w2, f, n);
    } else {
      IsRefused(w1, f, n);
    }
  }

  lemma Renames(w: World, c: Conn, name: string)
    requires c in w.hub.sessions && MayRename(w, c, name)
    ensures Enabled(w, ChangeUsername(c, name, Works))
    ensures var w', d := Step(w, ChangeUsername(c, name, Works)), w.hub.sessions[c];
            && w'.hub.sessions == w.hub.sessions[c := d.(user := Some(User(d.user.value.id, name)))]
            && name in w'.db.usernames
            && forall n <- w'.db.usernames :: w'.db.usernames[n] == d.user.value.id <==> n == name
  {
    hide ToEach, ToAll;
  }

  lemma IsRefused(w: World, c: Conn, name: string)
    requires c in w.hub.sessions && w.hub.sessions[c].status == Unauthenticated
    requires name == "" || name !in w.db.usernames
    ensures Enabled(w, InitialAuth(c, name))
    ensures var w' := Step(w, InitialAuth(c, name));
            && Enabled(w', Auth(c, Accepted))
            && Step(w', Auth(c, Accepted)).hub.sessions == w.hub.sessions
  {
    hide ToEach;
  }

  // Entering rooms.

  /** A joined member outside all rooms gets in, with the rights the tables give it; no table changes. */
  lemma MemberEnters(w: World, c: Conn, r: RoomId) returns (w': World)
    requires c in w.hub.sessions && w.hub.sessions[c].status == Authenticated
    requires w.hub.sessions[c].user.Some? && w.hub.sessions[c].room.None?
    requires r in w.db.rooms && MembershipOf(w.db, w.hub.sessions[c].user.value.id, r) == Some(Joined)
    ensures AlwaysRun(w, [JoinRoom(c, r, NoFault)], w')
    ensures w'.db == w.db && w'.nextConn == w.nextConn
    ensures var d := w.hub.sessions[c];
            w'.hub.sessions ==
            w.hub.sessions[c := d.(room := Some(CurrentRoom(r, EffectiveRights(w.db, d.user.value.id, r))))]
  {
    var e := JoinRoom(c, r, NoFault);
    assert !RestartsLogin(w, e) && !Misreports(w, e) && !DemotesOwnerStep(w, e) && !LeavesOldName(w, e);
    AlwaysOne(w, e);
    w' := Step(w, e);
  }

  /** Somebody invited to a private room cannot enter it until having become a member. */
  lemma InvitedMemberEnters(w: World, c: Conn, r: RoomId) returns (w1: World, w': World)
    requires c in w.hub.sessions && w.hub.sessions[c].status == Authenticated
    requires w.hub.sessions[c].user.Some? && w.hub.sessions[c].room.None?
    requires r in w.db.rooms && w.db.rooms[r].isPrivate
    requires MembershipOf(w.db, w.hub.sessions[c].user.value.id, r) == Some(Invited)
    ensures AlwaysRun(w, [JoinRoom(c, r, NoFault)], w1) && w1.hub.sessions == w.hub.sessions && w1.db == w.db
    ensures AlwaysRun(w, [BecomeMember(c, r, true)] + [JoinRoom(c, r, NoFault)], w')
    ensures c in w'.hub.sessions && w'.hub.sessions[c].InRoom(r)
  {
    hide Step, Run, Allowed;
    w1 := InvitedStaysOut(w, c, r);
    var w2 := InvitedBecomesMember(w, c, r);
    w' := MemberEnters(w2, c, r);
    AlwaysAppend(w, [BecomeMember(c, r, true)], w2, [JoinRoom(c, r, NoFault)], w');
  }

  lemma InvitedStaysOut(w: World, c: Conn, r: RoomId) returns (w': World)
    requires c in w.hub.sessions && w.hub.sessions[c].status == Authenticated
    requires w.hub.sessions[c].user.Some? && w.hub.sessions[c].room.None?
    requires r in w.db.rooms && w.db.rooms[r].isPrivate
    requires MembershipOf(w.db, w.hub.sessions[c].user.value.id, r) == Some(Invited)
    ensures AlwaysRun(w, [JoinRoom(c, r, NoFault)], w') && w'.hub.sessions == w.hub.sessions && w'.db == w.db
  {
    var e := JoinRoom(c, r, NoFault);
    assert !RestartsLogin(w, e) && !Misreports(w, e) && !DemotesOwnerStep(w, e) && !LeavesOldName(w, e);
    AlwaysOne(w, e);
    w' := Step(w, e);
  }

  lemma InvitedBecomesMember(w: World, c: Conn, r: RoomId) returns (w': World)
    requires c in w.hub.sessions && w.hub.sessions[c].status == Authenticated && w.hub.sessions[c].user.Some?
    requires r in w.db.rooms && MembershipOf(w.db, w.hub.sessions[c].user.value.id, r) == Some(Invited)
    ensures AlwaysRun(w, [BecomeMember(c, r, true)], w') && w'.hub.sessions == w.hub.sessions
    ensures w'.db == SetMembership(w.db, w.hub.sessions[c].user.value.id, r, Joined)
  {
    var e := BecomeMember(c, r, true);
    assert !RestartsLogin(w, e) && !Misreports(w, e) && !DemotesOwnerStep(w, e) && !LeavesOldName(w, e);
    AlwaysOne(w, e);
    w' := Step(w, e);
  }

  // The run conditions are needed: a state of one server, and how it is reached.

  /** Room 7 belongs to bob; ann is an ADMIN and cid is no member. */
  const TABLES := Db({1, 2, 3}, map["ann" := 1, "bob" := 2, "cid" := 3], {1},
                     map[7 := Room(Some(2), false)],
                     map[(1, 7) := Joined, (2, 7) := Joined], map[], 4, 8)

  const STARTED := World(TABLES, Hub(map[], map[], map[], map[]), map[], 0)

  lemma StartedIsInitial()
    ensures Initial(STARTED) && RoomInvariant(STARTED)
  {
  }

  lemma ConnectsAndLogsIn(w: World, name: string) returns (events: seq<Event>, w': World)
    requires RoomInvariant(w) && name != "" && name in w.db.usernames
    ensures AlwaysRun(w, events, w') && RoomInvariant(w')
    ensures w'.db == w.db && w'.nextConn == w.nextConn + 1
    ensures w'.hub.sessions ==
            w.hub.sessions[w.nextConn := WsData(Some(User(w.db.usernames[name], name)), None, Authenticated)]
  {
    hide Step, Run, Allowed, RoomInvariant;
    Connects(w);
    AlwaysOne(w, Connect);
    var w1 := Step(w, Connect);
    w' := LogsIn(w1, w.nextConn, name);
    events := [Connect] + LoginRequests(w.nextConn, name);
    AlwaysAppend(w, [Connect], w1, LoginRequests(w.nextConn, name), w');
    AlwaysKeeps(w, events, w');
  }

  /** Four logged-in connections, two of them of one user, all outside. */
  lemma FourLogIn() returns (events: seq<Event>, w: World)
    ensures AlwaysRun(STARTED, events, w) && RoomInvariant(w) && w.db == TABLES
    ensures w.hub.sessions == map[
      0 := WsData(Some(User(1, "ann")), None, Authenticated),
      1 := WsData(Some(User(2, "bob")), None, Authenticated),
      2 := WsData(Some(User(3, "cid")), None, Authenticated),
      3 := WsData(Some(User(3, "cid")), None, Authenticated)]
  {
    hide Step, Run, Allowed, RoomInvariant, AlwaysRun;
    StartedIsInitial();
    var e0, w0 := ConnectsAndLogsIn(STARTED, "ann");
    var e1, w1 := ConnectsAndLogsIn(w0, "bob");
    var e2, w2 := ConnectsAndLogsIn(w1, "cid");
    AlwaysAppend(STARTED, e0, w0, e1, w1);
    var e3, w3 := ConnectsAndLogsIn(w2, "cid");
    AlwaysAppend(STARTED, e0 + e1, w1, e2, w2);
    AlwaysAppend(STARTED, e0 + e1 + e2, w2, e3, w3);
    events, w := e0 + e1 + e2 + e3, w3;
  }

  /** An ADMIN and the owner share room 7; a third user is logged in twice, outside. */
  ghost predicate Busy(w: World) {
    && w.db == TABLES
    && w.hub.sessions == map[
         0 := WsData(Some(User(1, "ann")), Some(CurrentRoom(7, Admin)), Authenticated),
         1 := WsData(Some(User(2, "bob")), Some(CurrentRoom(7, Owner)), Authenticated),
         2 := WsData(Some(User(3, "cid")), None, Authenticated),
         3 := WsData(Some(User(3, "cid")), None, Authenticated)]
  }

  lemma BusyIsReached() returns (events: seq<Event>, w: World)
    ensures AlwaysRun(STARTED, events, w) && RoomInvariant(w) && Busy(w)
  {
    hide Step, Run, Allowed, RoomInvariant, AlwaysRun;
    StartedIsInitial();
    var e0, w0 := FourLogIn();
    var w1 := MemberEnters(w0, 0, 7);
    var w2 := MemberEnters(w1, 1, 7);
    AlwaysAppend(STARTED, e0, w0, [JoinRoom(0, 7, NoFault)], w1);
    AlwaysAppend(STARTED, e0 + [JoinRoom(0, 7, NoFault)], w1, [JoinRoom(1, 7, NoFault)], w2);
    events, w := e0 + [JoinRoom(0, 7, NoFault)] + [JoinRoom(1, 7, NoFault)], w2;
    AlwaysKeeps(STARTED, events, w);
  }

  lemma BusyRestart(w: World)
    requires Busy(w)
    ensures Enabled(w, InitialAuth(0, "bob")) && RestartsLogin(w, InitialAuth(0, "bob"))
  {
  }

  lemma BusyDemotion(w: World)
    requires Busy(w)
    ensures var e := AssignRole(0, 2, 7, Moderator, Works);
            Enabled(w, e) && !RestartsLogin(w, e) && DemotesOwnerStep(w, e)
  {
    assert OwnerIsHere(w, 2, 7, 1);
  }

  lemma BusyMembership(w: World)
    requires Busy(w) && RoomInvariant(w)
    ensures var e := BecomeMember(2, 7, true); Enabled(w, e) && !RestartsLogin(w, e) && Misreports(w, e)
  {
    assert 0 in Lookup(w.hub.byRoom, 7) by {
      assert Inside(w.hub.sessions, w.db.rooms.Keys, 0, 7);
    }
  }

  lemma BusyRename(w: World)
    requires Busy(w)
    ensures var e := ChangeUsername(2, "dan", Works); Enabled(w, e) && !RestartsLogin(w, e) && LeavesOldName(w, e)
  {
    assert LoggedIn(w.hub.sessions, 3, 3);
  }

  /**
   Each run condition is needed: a started server runs, within all of them, to a
   state in which four requests each break the invariant their condition protects.
   */
  lemma ConditionsAreNeeded() returns (w0: World, events: seq<Event>, w: World)
    ensures Initial(w0) && forall k :: Run(k, w0, events, w) && Invariant(k, w)
    ensures var e := InitialAuth(0, "bob"); Enabled(w, e) && !Invariant(NoRestart, Step(w, e))
    ensures var e := AssignRole(0, 2, 7, Moderator, Works);
            Allowed(NoRestart, w, e) && !Invariant(NoDemotion, Step(w, e))
    ensures var e := BecomeMember(2, 7, true); Allowed(NoRestart, w, e) && !Invariant(Announced, Step(w, e))
    ensures var e := ChangeUsername(2, "dan", Works); Allowed(NoRestart, w, e) && !Invariant(OneName, Step(w, e))
  {
    hide Run, RoomInvariant, UserInvariant, RightsOk, PresenceOk, PrivateInvariant, NamesInvariant, Step, RestartsLogin,
      Misreports, DemotesOwnerStep, LeavesOldName, Enabled, Busy;
    StartedIsInitial();
    w0 := STARTED;
    events, w := BusyIsReached();
    forall k ensures Run(k, w0, events, w) && Invariant(k, w) {
      InitialInvariant(k, w0);
      RunKeepsInvariant(k, w0, events, w);
    }
    assert Invariant(NoRestart, w) && Invariant(NoDemotion, w) && Invariant(Announced, w) && Invariant(OneName, w);
    BusyRestart(w);
    BusyDemotion(w);
    BusyMembership(w);
    BusyRename(w);
    RestartBreaksUserIndex(w, InitialAuth(0, "bob"));
    StepKeepsRightsIff(w, AssignRole(0, 2, 7, Moderator, Works));
    StepKeepsPresenceIff(w, BecomeMember(2, 7, true));
    StepKeepsAccessIff(w, ChangeUsername(2, "dan", Works));
  }
}
