/**
 The request handlers as the program runs them: checks, table writes, session
 updates and manager calls in their order, each proved to be one step of ChatServer.
 */
module ChatHandlers {
  import opened Wrappers
  import opened ChatDatabase
  import opened ChatHub
  import opened UserList
  import opened ChatServer
  import opened ChatIndexes
  import opened ChatRuns
  import opened Transactions

  // What the lambdas of the transactions do to the tables.

  function InsertUser(db: Db, name: string): BodyResult<Db, UserId> {
    if name in db.usernames then Refused("Username already exists.")
    else if !(0 <= db.nextUser < 0x8000_0000) then Refused("Database error during user insertion.")
    else Finished(WithUser(db, db.nextUser, name), db.nextUser)
  }

  function InsertRoom(db: Db, u: UserId): BodyResult<Db, RoomId> {
    if u !in db.users || !(0 <= db.nextRoom < 0x8000_0000) then Refused("Database error during room creation.")
    else Finished(WithRoom(db, db.nextRoom, u), db.nextRoom)
  }

  function RemoveRoom(db: Db, r: RoomId): BodyResult<Db, RoomId> {
    if r !in db.rooms then Refused("Room could not be deleted as it was not found.")
    else Finished(DropRoom(db, r), r)
  }

  function RenameUser(db: Db, u: UserId, name: string): BodyResult<Db, UserId> {
    if name in db.usernames then Refused("This username is already taken.")
    else if u !in db.users then Refused("Current user not found in database.")
    else Finished(Renamed(db, u, name), u)
  }

  /** The requests that find their connection, each in the state the earlier ones left. */
  ghost function Served(w: World, requests: seq<Event>): seq<Event>
    decreases |requests|
  {
    if requests == [] then []
    else if Enabled(w, requests[0]) then [requests[0]] + Served(Step(w, requests[0]), requests[1..])
    else Served(w, requests[1..])
  }

  lemma ServedStep(w: World, requests: seq<Event>)
    ensures requests == [] ==> Served(w, requests) == []
    ensures requests != [] && Enabled(w, requests[0]) ==>
              Served(w, requests) == [requests[0]] + Served(Step(w, requests[0]), requests[1..])
    ensures requests != [] && !Enabled(w, requests[0]) ==> Served(w, requests) == Served(w, requests[1..])
  {
    hide Step, Enabled;
  }

  lemma RunNothing(k: Discipline, w: World)
    ensures Run(k, w, [], w)
  {
  }

  lemma RunOneMore(w0: World, events: seq<Event>, w: World, e: Event)
    requires Run(AnyRequest, w0, events, w) && Enabled(w, e)
    ensures Run(AnyRequest, w0, events + [e], Step(w, e))
  {
    hide Run, Step, Enabled;
    RunOne(AnyRequest, w, e);
    RunAppend(AnyRequest, w0, events, w, [e], Step(w, e));
  }

  /** Requests have one outcome, whatever else is known about the run. */
  lemma {:induction false} SameEnd(k: Discipline, w0: World, events: seq<Event>, w: World, w': World)
    requires Run(k, w0, events, w) && Run(AnyRequest, w0, events, w')
    ensures w == w'
    decreases |events|
  {
    hide Step, Enabled;
    if events != [] {
      SameEnd(k, Step(w0, events[0]), events[1..], w, w');
    }
  }

  class MessageHandlers {
    const tables: Database<Db>
    const manager: ChatRoomManager
    var clients: map<Conn, Presence>
    var nextConn: Conn

    ghost function View(): World
      reads this, tables, manager
    {
      World(tables.store, manager.View(), clients, nextConn)
    }

    /** Tables, sessions and the room index belong together. */
    ghost predicate Valid()
      reads this, tables, manager
    {
      RoomInvariant(View())
    }

    constructor (db: Db)
      requires db.Valid()
      ensures Initial(View()) && View().db == db && fresh(tables) && fresh(manager)
      ensures Valid() && forall k :: Invariant(k, View())
    {
      clients, nextConn := map[], 0;
      tables := new Database(db);
      manager := new ChatRoomManager();
      new;
      forall k ensures Invariant(k, View()) {
        InitialInvariant(k, View());
      }
    }

    /** The connection is open, or has something queued for it. */
    predicate Accepts(e: Event)
      reads this, tables, manager
      ensures Accepts(e) <==> Enabled(View(), e)
    {
      match e
      case Connect => true
      case Deliver(c) => c in clients && c in manager.sent && manager.sent[c] != []
      case _ => e.c in manager.contexts
    }

    method Context(c: Conn) returns (d: WsData)
      ensures d == View().hub.Session(c)
    {
      d := if c in manager.contexts then manager.contexts[c] else NEW_SESSION;
    }

    method Send(c: Conn, m: Msg)
      modifies manager
      ensures View() == Respond(old(View()), c, m)
    {
      manager.SendEnvelope(c, m);
    }

    method NewConnection()
      requires Valid()
      modifies this, tables, manager
      ensures View() == HandleConnect(old(View()))
      ensures Valid()
    {
      hide RoomInvariant;
      StepKeepsIndexes(View(), Connect);
      manager.contexts := manager.contexts[nextConn := NEW_SESSION];
      manager.sent := manager.sent[nextConn := []];
      clients := clients[nextConn := map[]];
      nextConn := nextConn + 1;
    }

    method AuthInitial(c: Conn, name: string)
      requires Valid() && Accepts(InitialAuth(c, name))
      modifies this, tables, manager
      ensures View() == HandleInitialAuth(old(View()), c, name)
      ensures Valid()
    {
      hide RoomInvariant;
      StepKeepsIndexes(View(), InitialAuth(c, name));
      var d := Context(c);
      if name == "" || name !in tables.store.usernames {
        Send(c, Reply(false));
        return;
      }
      d := d.(status := Authenticating);
      d := d.(user := Some(User(0, name)));
      manager.SetContext(c, d);
      Send(c, Reply(true));
    }

    method RegisterInitial(c: Conn, name: string)
      requires Valid() && Accepts(InitialRegister(c, name))
      modifies this, tables, manager
      ensures View() == HandleInitialRegister(old(View()), c, name)
      ensures Valid()
    {
      hide RoomInvariant;
      StepKeepsIndexes(View(), InitialRegister(c, name));
      var d := Context(c);
      if name == "" || name in tables.store.usernames {
        Send(c, Reply(false));
        return;
      }
      d := d.(status := Registering);
      d := d.(user := Some(User(0, name)));
      manager.SetContext(c, d);
      Send(c, Reply(true));
    }

    method Authenticate(c: Conn, verdict: Verdict)
      requires Valid() && Accepts(Auth(c, verdict))
      modifies this, tables, manager
      ensures View() == HandleAuth(old(View()), c, verdict)
      ensures Valid()
    {
      hide RoomInvariant;
      StepKeepsIndexes(View(), Auth(c, verdict));
      var d := Context(c);
      if d.status != Authenticating || d.user.None? || verdict == Rejected {
        Send(c, Reply(false));
        return;
      }
      if d.user.value.name !in tables.store.usernames || verdict == UpdateFailed {
        manager.SetContext(c, d.(status := Unauthenticated));
        Send(c, Reply(false));
        return;
      }
      var id := tables.store.usernames[d.user.value.name];
      d := d.(user := Some(d.user.value.(id := id)));
      d := d.(status := Authenticated);
      manager.SetContext(c, d);
      manager.RegisterConn(id, c);
      Send(c, Reply(true));
    }

    method RegisterUser(c: Conn, fault: Fault)
      requires Valid() && Accepts(Register(c, fault))
      modifies this, tables, manager
      ensures View() == HandleRegister(old(View()), c, fault == Works)
      ensures Valid()
    {
      hide RoomInvariant;
      StepKeepsIndexes(View(), Register(c, fault));
      var d := Context(c);
      if d.status != Registering || d.user.None? {
        Send(c, Reply(false));
        return;
      }
      var error, id := tables.WithTransaction(db => InsertUser(db, d.user.value.name), fault);
      manager.SetContext(c, d.(status := Unauthenticated));
      Send(c, Reply(error.None?));
    }

    method LeaveCurrentRoom(c: Conn)
      modifies this, tables, manager
      ensures View() == Depart(old(View()), c)
    {
      var d := Context(c);
      manager.RemoveConnFromRoom(c);
      manager.SetContext(c, d.(room := None));
    }

    method Join(c: Conn, r: RoomId, fault: JoinFault)
      requires Valid() && Accepts(JoinRoom(c, r, fault))
      modifies this, tables, manager
      ensures View() == HandleJoinRoom(old(View()), c, r, fault)
      ensures Valid()
    {
      hide RoomInvariant, JoinFromOutside, Depart;
      StepKeepsIndexes(View(), JoinRoom(c, r, fault));
      var d := Context(c);
      if d.status != Authenticated || d.user.None? {
        Send(c, Reply(false));
        return;
      }
      if d.room.Some? {
        LeaveCurrentRoom(c);
      }
      JoinRoomById(c, d.user.value.id, r, fault);
    }

    method JoinRoomById(c: Conn, u: UserId, r: RoomId, fault: JoinFault)
      modifies this, tables, manager
      ensures View() == JoinFromOutside(old(View()), c, u, r, fault)
    {
      hide EnterRoom, Respond;
      if fault == LookupFails || r !in tables.store.rooms {
        Send(c, Reply(false));
        return;
      }
      var room, status := tables.store.rooms[r], MembershipOf(tables.store, u, r);
      if room.isPrivate && status != Some(Joined) {
        Send(c, Reply(false));
        return;
      }
      if !room.isPrivate && status != Some(Joined) && fault != WriteFails {
        tables.store := SetMembership(tables.store, u, r, Joined);
      }
      if fault == ListingFails {
        Send(c, Reply(false));
        return;
      }
      TakeSeat(c, u, r, status.None?);
    }

    method TakeSeat(c: Conn, u: UserId, r: RoomId, newMember: bool)
      requires r in tables.store.rooms
      modifies this, tables, manager
      ensures View() == EnterRoom(old(View()), c, u, r, newMember)
    {
      hide Lookup, Insert, UsersAmong, Tally, ToEach;
      var all := Members(tables.store, r);
      var d := Context(c);
      var rights := GetUserRights(tables.store, u, r).GetOr(Regular);
      manager.SetContext(c, d.(room := Some(CurrentRoom(r, rights))));
      manager.SendToRoomUnsafe(r, UserJoined(u));
      if newMember {
        manager.SendToRoomUnsafe(r, UserJoined(u));
      }
      manager.AddConnToRoom(r, c);
      var active := manager.UsersInRoom(r);
      Send(c, JoinRoomOk(all, Tally(active)));
    }

    method Leave(c: Conn)
      requires Valid() && Accepts(LeaveRoom(c))
      modifies this, tables, manager
      ensures View() == HandleLeaveRoom(old(View()), c)
      ensures Valid()
    {
      hide RoomInvariant;
      StepKeepsIndexes(View(), LeaveRoom(c));
      var d := Context(c);
      if d.status != Authenticated || d.room.None? {
        Send(c, Reply(false));
        return;
      }
      LeaveCurrentRoom(c);
      Send(c, Reply(true));
    }

    method CreateRoom(c: Conn, fault: Fault)
      requires Valid() && Accepts(Event.CreateRoom(c, fault))
      modifies this, tables, manager
      ensures View() == HandleCreateRoom(old(View()), c, fault == Works)
      ensures Valid()
    {
      hide RoomInvariant, ToAll;
      StepKeepsIndexes(View(), Event.CreateRoom(c, fault));
      var d := Context(c);
      if d.status != Authenticated || d.user.None? {
        Send(c, Reply(false));
        return;
      }
      var u := d.user.value.id;
      var error, r := tables.WithTransaction(db => InsertRoom(db, u), fault);
      if error.Some? {
        Send(c, Reply(false));
        return;
      }
      manager.SendToAllUnsafe(NewRoomCreated(r.value, u));
      Send(c, Reply(true));
    }

    method DeleteRoom(c: Conn, r: RoomId, fault: Fault)
      requires Valid() && Accepts(Event.DeleteRoom(c, r, fault))
      modifies this, tables, manager
      ensures View() == HandleDeleteRoom(old(View()), c, r, fault == Works)
      ensures Valid()
    {
      hide RoomInvariant, ToAll, DropRoom;
      StepKeepsIndexes(View(), Event.DeleteRoom(c, r, fault));
      var d := Context(c);
      if d.status != Authenticated || d.room.None? || d.room.value.id != r
         || d.room.value.rights.Rank() < Owner.Rank() {
        Send(c, Reply(false));
        return;
      }
      var error, deleted := tables.WithTransaction(db => RemoveRoom(db, r), fault);
      if error.Some? {
        Send(c, Reply(false));
        return;
      }
      manager.RoomWasDeleted(r);
      Send(c, Reply(true));
    }

    method AssignRole(c: Conn, target: UserId, r: RoomId, newRole: Rights, fault: Fault)
      requires Valid() && Accepts(Event.AssignRole(c, target, r, newRole, fault))
      modifies this, tables, manager
      ensures View() == HandleAssignRole(old(View()), c, target, r, newRole, fault == Works)
      ensures Valid()
    {
      hide RoomInvariant, AssignRoleTransaction, UpdateUserRoomRights;
      StepKeepsIndexes(View(), Event.AssignRole(c, target, r, newRole, fault));
      var d := Context(c);
      if d.status != Authenticated || d.room.None? || d.room.value.id != r {
        Send(c, Reply(false));
        return;
      }
      var error, done := tables.WithTransaction(AssignBody(d.room.value.rights, target, r, newRole), fault);
      if error.Some? {
        Send(c, Reply(false));
        return;
      }
      if done.value.oldOwner != 0 {
        manager.UpdateRoomRights(done.value.oldOwner, r, done.value.oldOwnerRole);
      }
      manager.UpdateRoomRights(target, r, newRole);
      Send(c, Reply(true));
    }

    method BecomeMember(c: Conn, r: RoomId, stored: bool)
      requires Valid() && Accepts(Event.BecomeMember(c, r, stored))
      modifies this, tables, manager
      ensures View() == HandleBecomeMember(old(View()), c, r, stored)
      ensures Valid()
    {
      hide RoomInvariant;
      StepKeepsIndexes(View(), Event.BecomeMember(c, r, stored));
      var d := Context(c);
      if d.status != Authenticated || d.user.None? || r !in tables.store.rooms {
        Send(c, Reply(false));
        return;
      }
      if tables.store.rooms[r].isPrivate && MembershipOf(tables.store, d.user.value.id, r).None? {
        Send(c, Reply(false));
        return;
      }
      if stored {
        tables.store := SetMembership(tables.store, d.user.value.id, r, Joined);
      }
      Send(c, Reply(true));
    }

    method ChangeUsername(c: Conn, name: string, fault: Fault)
      requires Valid() && Accepts(Event.ChangeUsername(c, name, fault))
      modifies this, tables, manager
      ensures View() == HandleChangeUsername(old(View()), c, name, fault == Works)
      ensures Valid()
    {
      hide RoomInvariant, ToAll, Renamed;
      StepKeepsIndexes(View(), Event.ChangeUsername(c, name, fault));
      var d := Context(c);
      if d.status != Authenticated || d.user.None? {
        Send(c, Reply(false));
        return;
      }
      var u := d.user.value.id;
      var error, renamed := tables.WithTransaction(db => RenameUser(db, u, name), fault);
      if error.Some? {
        Send(c, Reply(false));
        return;
      }
      manager.SetContext(c, d.(user := Some(d.user.value.(name := name))));
      manager.SendToAllUnsafe(UsernameChanged(u, name));
      Send(c, Reply(true));
    }

    method Logout(c: Conn)
      requires Valid() && Accepts(Event.Logout(c))
      modifies this, tables, manager
      ensures View() == HandleLogout(old(View()), c)
      ensures Valid()
    {
      hide RoomInvariant;
      StepKeepsIndexes(View(), Event.Logout(c));
      var d := Context(c);
      if d.status != Authenticated {
        Send(c, Reply(false));
        return;
      }
      manager.UnregisterConn(c);
      d := d.(room := None);
      d := d.(user := None);
      d := d.(status := Unauthenticated);
      manager.SetContext(c, d);
      Send(c, Reply(true));
    }

    /** The client of a connection reads the oldest envelope sent to it. */
    method Receive(c: Conn)
      requires Valid() && Accepts(Deliver(c))
      modifies this, tables, manager
      ensures View() == HandleDeliver(old(View()), c)
      ensures Valid()
    {
      hide RoomInvariant;
      StepKeepsIndexes(View(), Deliver(c));
      clients := clients[c := UserList.Handle(clients[c], manager.sent[c][0])];
      manager.sent := manager.sent[c := manager.sent[c][1..]];
    }

    method ConnectionClosed(c: Conn)
      requires Valid() && Accepts(Close(c))
      modifies this, tables, manager
      ensures View() == HandleClose(old(View()), c)
      ensures Valid()
    {
      hide RoomInvariant;
      StepKeepsIndexes(View(), Close(c));
      manager.UnregisterConn(c);
      manager.contexts := manager.contexts - {c};
      manager.sent := manager.sent - {c};
      clients := clients - {c};
    }

    /** One request, or one delivery, is one step of the protocol. */
    method Handle(e: Event)
      requires Valid() && Accepts(e)
      modifies this, tables, manager
      ensures Enabled(old(View()), e) && View() == Step(old(View()), e)
      ensures Valid()
    {
      hide RoomInvariant, HandleConnect, HandleInitialAuth, HandleInitialRegister, HandleAuth, HandleRegister,
        HandleJoinRoom, HandleLeaveRoom, HandleCreateRoom, HandleDeleteRoom, HandleAssignRole, HandleBecomeMember,
        HandleChangeUsername, HandleLogout, HandleClose, HandleDeliver;
      match e
      case Connect => NewConnection();
      case InitialAuth(c, name) => AuthInitial(c, name);
      case InitialRegister(c, name) => RegisterInitial(c, name);
      case Auth(c, verdict) => Authenticate(c, verdict);
      case Register(c, fault) => RegisterUser(c, fault);
      case JoinRoom(c, r, fault) => Join(c, r, fault);
      case LeaveRoom(c) => Leave(c);
      case CreateRoom(c, fault) => CreateRoom(c, fault);
      case DeleteRoom(c, r, fault) => DeleteRoom(c, r, fault);
      case AssignRole(c, target, r, role, fault) => AssignRole(c, target, r, role, fault);
      case BecomeMember(c, r, stored) => BecomeMember(c, r, stored);
      case ChangeUsername(c, name, fault) => ChangeUsername(c, name, fault);
      case Logout(c) => Logout(c);
      case Close(c) => ConnectionClosed(c);
      case Deliver(c) => Receive(c);
    }

    /**
     Any list of requests, those of unknown connections dropped, is a run of the
     protocol; a run within a discipline keeps everything that discipline keeps.
     */
    method Serve(requests: seq<Event>) returns (served: seq<Event>)
      requires Valid()
      modifies this, tables, manager
      ensures Valid()
      ensures served == Served(old(View()), requests)
      ensures Run(AnyRequest, old(View()), served, View())
      ensures forall k, w | Run(k, old(View()), served, w) ::
                w == View() && (Invariant(k, old(View())) ==> Invariant(k, View()))
    {
      hide RoomInvariant, Step, Invariant, Enabled, Run, Served;
      served := [];
      ghost var w0 := View();
      RunNothing(AnyRequest, w0);
      for i := 0 to |requests|
        invariant Valid()
        invariant Run(AnyRequest, w0, served, View())
        invariant served + Served(View(), requests[i..]) == Served(w0, requests)
      {
        ghost var w := View();
        ServedStep(w, requests[i..]);
        assert requests[i..][1..] == requests[i + 1..];
        if Accepts(requests[i]) {
          ghost var before := served;
          Handle(requests[i]);
          served := served + [requests[i]];
          RunOneMore(w0, before, w, requests[i]);
          ghost var later := Served(View(), requests[i + 1..]);
          assert served + later == before + ([requests[i]] + later);
        }
      }
      ServedStep(View(), requests[|requests|..]);
      forall k, w | Run(k, w0, served, w)
        ensures w == View() && (Invariant(k, w0) ==> Invariant(k, View()))
      {
        SameEnd(k, w0, served, w, View());
        if Invariant(k, w0) {
          RunKeepsInvariant(k, w0, served, w);
        }
      }
    }
  }
}
