/**
 The chat server as a step system: tables, sessions and indexes, one FIFO outbox
 and one user list per connection. Every handler is one step. Parameters stand
 for what the model cannot see: the verdict on a password, and database faults.
 */
module ChatServer {
  import opened Wrappers
  import opened ChatDatabase
  import opened ChatHub
  import opened UserList
  import opened Transactions

  datatype World = World(db: Db, hub: Hub, clients: map<Conn, Presence>, nextConn: Conn)

  /** What handleAuth decides about the credentials of an existing user. */
  datatype Verdict = Accepted | Rejected | UpdateFailed

  /** Where a database exception or a failed write hits handleJoinRoom. */
  datatype JoinFault = NoFault | LookupFails | WriteFails | ListingFails

  datatype Event =
    | Connect
    | InitialAuth(c: Conn, name: string)
    | InitialRegister(c: Conn, name: string)
    | Auth(c: Conn, verdict: Verdict)
    | Register(c: Conn, tx: Fault)
    | JoinRoom(c: Conn, room: RoomId, fault: JoinFault)
    | LeaveRoom(c: Conn)
    | CreateRoom(c: Conn, tx: Fault)
    | DeleteRoom(c: Conn, room: RoomId, tx: Fault)
    | AssignRole(c: Conn, target: UserId, room: RoomId, role: Rights, tx: Fault)
    | BecomeMember(c: Conn, room: RoomId, stored: bool)
    | ChangeUsername(c: Conn, name: string, tx: Fault)
    | Logout(c: Conn)
    | Close(c: Conn)
    | Deliver(c: Conn)

  /** The response WsRequestProcessor sends back after every request. */
  function Respond(w: World, c: Conn, m: Msg): World {
    w.(hub := w.hub.(outbox := ToEach(w.hub.outbox, {c}, m)))
  }

  function WithSession(w: World, c: Conn, d: WsData): World {
    w.(hub := SetSession(w.hub, c, d))
  }

  function HandleConnect(w: World): World {
    var c := w.nextConn;
    w.(nextConn := c + 1,
       hub := w.hub.(sessions := w.hub.sessions[c := NEW_SESSION], outbox := w.hub.outbox[c := []]),
       clients := w.clients[c := map[]])
  }

  function HandleInitialAuth(w: World, c: Conn, name: string): World {
    if name == "" || name !in w.db.usernames then Respond(w, c, Reply(false))
    else
      var d := w.hub.Session(c).(status := Authenticating, user := Some(User(0, name)));
      Respond(WithSession(w, c, d), c, Reply(true))
  }

  function HandleInitialRegister(w: World, c: Conn, name: string): World {
    if name == "" || name in w.db.usernames then Respond(w, c, Reply(false))
    else
      var d := w.hub.Session(c).(status := Registering, user := Some(User(0, name)));
      Respond(WithSession(w, c, d), c, Reply(true))
  }

  function HandleAuth(w: World, c: Conn, verdict: Verdict): World {
    var d := w.hub.Session(c);
    if d.status != Authenticating || d.user.None? then Respond(w, c, Reply(false))
    else if verdict == Rejected then Respond(w, c, Reply(false))
    else if d.user.value.name !in w.db.usernames || verdict == UpdateFailed then
      Respond(WithSession(w, c, d.(status := Unauthenticated)), c, Reply(false))
    else
      var id := w.db.usernames[d.user.value.name];
      var d1 := d.(user := Some(d.user.value.(id := id)), status := Authenticated);
      var w1 := WithSession(w, c, d1);
      Respond(w1.(hub := RegisterConnection(w1.hub, id, c)), c, Reply(true))
  }

  function WithUser(db: Db, u: UserId, name: string): Db {
    db.(users := db.users + {u}, usernames := db.usernames[name := u], nextUser := u + 1)
  }

  function HandleRegister(w: World, c: Conn, committed: bool): World {
    var d := w.hub.Session(c);
    if d.status != Registering || d.user.None? then Respond(w, c, Reply(false))
    else
      var w1 := WithSession(w, c, d.(status := Unauthenticated));
      var name := d.user.value.name;
      if !committed || name in w.db.usernames || w.db.nextUser >= 0x8000_0000 || w.db.nextUser < 0 then
        Respond(w1, c, Reply(false))
      else
        Respond(w1.(db := WithUser(w.db, w.db.nextUser, name)), c, Reply(true))
  }

  /** Leaving the current room, with the session updated. */
  function Depart(w: World, c: Conn): World {
    var d := w.hub.Session(c);
    w.(hub := SetSession(RemoveConnectionFromRoom(w.hub, c), c, d.(room := None)))
  }

  function MembershipOf(db: Db, u: UserId, r: RoomId): Option<Membership> {
    if (u, r) in db.membership then Some(db.membership[(u, r)]) else None
  }

  function SetMembership(db: Db, u: UserId, r: RoomId, m: Membership): Db {
    db.(membership := db.membership[(u, r) := m])
  }

  function HandleJoinRoom(w: World, c: Conn, r: RoomId, fault: JoinFault): World {
    var d := w.hub.Session(c);
    if d.status != Authenticated || d.user.None? then Respond(w, c, Reply(false))
    else JoinFromOutside(if d.room.Some? then Depart(w, c) else w, c, d.user.value.id, r, fault)
  }

  /** handleJoinRoom once the connection has left its previous room. */
  function JoinFromOutside(w: World, c: Conn, u: UserId, r: RoomId, fault: JoinFault): World {
    if fault == LookupFails || r !in w.db.rooms then Respond(w, c, Reply(false))
    else
      var status := MembershipOf(w.db, u, r);
      if w.db.rooms[r].isPrivate && status != Some(Joined) then Respond(w, c, Reply(false))
      else
        var db := if status == Some(Joined) || fault == WriteFails then w.db else SetMembership(w.db, u, r, Joined);
        if fault == ListingFails then Respond(w.(db := db), c, Reply(false))
        else EnterRoom(w.(db := db), c, u, r, status.None?)
  }

  /** user_joined to everybody in the room, twice when the user was not a member before. */
  function Announce(box: Outbox, peers: set<Conn>, u: UserId, newMember: bool): Outbox {
    var once := ToEach(box, peers, UserJoined(u));
    if newMember then ToEach(once, peers, UserJoined(u)) else once
  }

  /** The rest of a successful join: cache the rights, tell the room, add the connection, answer. */
  function EnterRoom(w: World, c: Conn, u: UserId, r: RoomId, newMember: bool): World
    requires r in w.db.rooms
  {
    var d := w.hub.Session(c).(room := Some(CurrentRoom(r, EffectiveRights(w.db, u, r))));
    var told := Announce(w.hub.outbox, Lookup(w.hub.byRoom, r), u, newMember);
    var h := AddConnectionToRoom(SetSession(w.hub, c, d).(outbox := told), r, c);
    Respond(w.(hub := h), c, JoinRoomOk(Members(w.db, r), GetUsersInRoom(h, r)))
  }

  function HandleLeaveRoom(w: World, c: Conn): World {
    var d := w.hub.Session(c);
    if d.status != Authenticated || d.room.None? then Respond(w, c, Reply(false))
    else Respond(Depart(w, c), c, Reply(true))
  }

  /** The new room with its owner; the membership row gets the column default INVITED. */
  function WithRoom(db: Db, r: RoomId, owner: UserId): Db {
    db.(rooms := db.rooms[r := Room(Some(owner), false)],
        membership := db.membership[(owner, r) := Invited],
        nextRoom := r + 1)
  }

  ghost function HandleCreateRoom(w: World, c: Conn, committed: bool): World {
    var d := w.hub.Session(c);
    if d.status != Authenticated || d.user.None? then Respond(w, c, Reply(false))
    else if !committed || d.user.value.id !in w.db.users || w.db.nextRoom >= 0x8000_0000 || w.db.nextRoom < 0 then
      Respond(w, c, Reply(false))
    else
      var r: RoomId, u := w.db.nextRoom, d.user.value.id;
      Respond(w.(db := WithRoom(w.db, r, u), hub := SendToAll(w.hub, NewRoomCreated(r, u))), c, Reply(true))
  }

  /** Deleting a room cascades to its membership and role rows. */
  function DropRoom(db: Db, r: RoomId): Db {
    db.(rooms := db.rooms - {r},
        membership := map k <- db.membership | k.1 != r :: db.membership[k],
        moderator := map k <- db.moderator | k.1 != r :: db.moderator[k])
  }

  ghost function HandleDeleteRoom(w: World, c: Conn, r: RoomId, committed: bool): World {
    var d := w.hub.Session(c);
    if d.status != Authenticated || !d.InRoom(r) || d.room.value.rights.Rank() < Owner.Rank() then
      Respond(w, c, Reply(false))
    else if !committed || r !in w.db.rooms then Respond(w, c, Reply(false))
    else
      Respond(w.(db := DropRoom(w.db, r), hub := OnRoomDeleted(w.hub, r)), c, Reply(true))
  }

  /** The transaction that handleAssignRole would commit for this session. */
  function Assignment(w: World, c: Conn, target: UserId, r: RoomId, role: Rights): Option<Assigned> {
    var d := w.hub.Session(c);
    if d.status != Authenticated || !d.InRoom(r) then None
    else AssignRoleTransaction(w.db, d.room.value.rights, target, r, role)
  }

  function HandleAssignRole(w: World, c: Conn, target: UserId, r: RoomId, role: Rights, committed: bool): World {
    match Assignment(w, c, target, r, role)
    case None => Respond(w, c, Reply(false))
    case Some(done) =>
      if !committed then Respond(w, c, Reply(false))
      else
        var h1 :=
          if done.oldOwner != 0 then UpdateUserRoomRights(w.hub, done.oldOwner, r, done.oldOwnerRole) else w.hub;
        var h2 := UpdateUserRoomRights(h1, target, r, role);
        Respond(w.(db := done.db, hub := h2), c, Reply(true))
  }

  /** A failed write is reported as success: the handler ignores its result. */
  function HandleBecomeMember(w: World, c: Conn, r: RoomId, stored: bool): World {
    var d := w.hub.Session(c);
    if d.status != Authenticated || d.user.None? || r !in w.db.rooms then Respond(w, c, Reply(false))
    else if w.db.rooms[r].isPrivate && MembershipOf(w.db, d.user.value.id, r).None? then Respond(w, c, Reply(false))
    else if !stored then Respond(w, c, Reply(true))
    else Respond(w.(db := SetMembership(w.db, d.user.value.id, r, Joined)), c, Reply(true))
  }

  /** The row of a user gets another name. */
  function Renamed(db: Db, u: UserId, name: string): Db {
    db.(usernames := (map n <- db.usernames | db.usernames[n] != u :: db.usernames[n])[name := u])
  }

  /** What handleChangeUsername asks before it renames; an empty name is not refused. */
  predicate MayRename(w: World, c: Conn, name: string) {
    var d := w.hub.Session(c);
    && d.status == Authenticated && d.user.Some?
    && name !in w.db.usernames && d.user.value.id in w.db.users
  }

  /** The row and the session of the request are renamed, and everybody is told; other sessions stay. */
  ghost function HandleChangeUsername(w: World, c: Conn, name: string, committed: bool): World {
    if !MayRename(w, c, name) || !committed then Respond(w, c, Reply(false))
    else
      var d := w.hub.Session(c);
      var u := d.user.value.id;
      var w1 := WithSession(w, c, d.(user := Some(User(u, name))));
      Respond(w1.(db := Renamed(w.db, u, name), hub := SendToAll(w1.hub, UsernameChanged(u, name))), c, Reply(true))
  }

  function HandleLogout(w: World, c: Conn): World {
    if w.hub.Session(c).status != Authenticated then Respond(w, c, Reply(false))
    else
      Respond(w.(hub := SetSession(UnregisterConnection(w.hub, c), c, NEW_SESSION)), c, Reply(true))
  }

  function HandleClose(w: World, c: Conn): World {
    var h := UnregisterConnection(w.hub, c);
    w.(hub := h.(sessions := h.sessions - {c}, outbox := h.outbox - {c}), clients := w.clients - {c})
  }

  /** The client takes the oldest message from its connection. */
  function HandleDeliver(w: World, c: Conn): World
    requires c in w.clients && c in w.hub.outbox && w.hub.outbox[c] != []
  {
    w.(clients := w.clients[c := Handle(w.clients[c], w.hub.outbox[c][0])],
       hub := w.hub.(outbox := w.hub.outbox[c := w.hub.outbox[c][1..]]))
  }

  predicate Enabled(w: World, e: Event) {
    match e
    case Connect => true
    case Deliver(c) => c in w.clients && c in w.hub.outbox && w.hub.outbox[c] != []
    case _ => e.c in w.hub.sessions
  }

  ghost function Step(w: World, e: Event): World
    requires Enabled(w, e)
  {
    match e
    case Connect => HandleConnect(w)
    case InitialAuth(c, name) => HandleInitialAuth(w, c, name)
    case InitialRegister(c, name) => HandleInitialRegister(w, c, name)
    case Auth(c, verdict) => HandleAuth(w, c, verdict)
    case Register(c, fault) => HandleRegister(w, c, fault == Works)
    case JoinRoom(c, r, fault) => HandleJoinRoom(w, c, r, fault)
    case LeaveRoom(c) => HandleLeaveRoom(w, c)
    case CreateRoom(c, fault) => HandleCreateRoom(w, c, fault == Works)
    case DeleteRoom(c, r, fault) => HandleDeleteRoom(w, c, r, fault == Works)
    case AssignRole(c, target, r, role, fault) => HandleAssignRole(w, c, target, r, role, fault == Works)
    case BecomeMember(c, r, stored) => HandleBecomeMember(w, c, r, stored)
    case ChangeUsername(c, name, fault) => HandleChangeUsername(w, c, name, fault == Works)
    case Logout(c) => HandleLogout(w, c)
    case Close(c) => HandleClose(w, c)
    case Deliver(c) => HandleDeliver(w, c)
  }

  /** A server that has just started, over any valid tables. */
  ghost predicate Initial(w: World) {
    w.db.Valid() && w.hub == Hub(map[], map[], map[], map[]) && w.clients == map[]
  }
}
