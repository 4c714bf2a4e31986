/**
 The in-memory state of the server: what every connection knows about itself,
 and the two indexes of ChatRoomManager. The functions say what each manager
 operation does to the whole state; class ChatRoomManager performs them in place.
 */
module ChatHub {
  import opened Wrappers
  import opened ChatDatabase

  type Conn = nat

  datatype Status = Unauthenticated | Registering | Authenticating | Authenticated

  datatype User = User(id: UserId, name: string)

  datatype CurrentRoom = CurrentRoom(id: RoomId, rights: Rights)

  datatype WsData = WsData(user: Option<User>, room: Option<CurrentRoom>, status: Status)
  {
    predicate InRoom(r: RoomId) { room.Some? && room.value.id == r }

    /** The id put into a UserInfo: protobuf's default 0 when there is no user. */
    function UserIdOrZero(): UserId { if user.Some? then user.value.id else 0 }
  }

  const NEW_SESSION := WsData(None, None, Unauthenticated)

  /** The envelopes that matter for presence; every other response is Reply. */
  datatype Msg =
    | UserJoined(user: UserId)
    | UserLeft(user: UserId)
    | UserRoleChanged(user: UserId, role: Rights)
    | RoomDeleted(room: RoomId)
    | NewRoomCreated(room: RoomId, owner: UserId)
    | UsernameChanged(user: UserId, name: string)
    | JoinRoomOk(allUsers: set<UserId>, activeUsers: map<UserId, nat>)
    | Reply(ok: bool)

  type Sessions = map<Conn, WsData>
  type Index = map<Id, set<Conn>>

  datatype Hub = Hub(
    sessions: Sessions,
    byUser: Index,
    byRoom: Index,
    outbox: Outbox)
  {
    function Session(c: Conn): WsData { if c in sessions then sessions[c] else NEW_SESSION }
  }

  function Lookup(index: Index, k: Id): set<Conn> {
    if k in index then index[k] else {}
  }

  function Insert(index: Index, k: Id, c: Conn): Index {
    index[k := Lookup(index, k) + {c}]
  }

  /** Erase, dropping the entry when its set becomes empty. */
  function Erase(index: Index, k: Id, c: Conn): Index {
    if k !in index then index
    else if index[k] - {c} == {} then index - {k}
    else index[k := index[k] - {c}]
  }

  function SetSession(h: Hub, c: Conn, d: WsData): Hub {
    h.(sessions := h.sessions[c := d])
  }

  type Outbox = map<Conn, seq<Msg>>

  function ToEach(box: Outbox, to: set<Conn>, m: Msg): Outbox {
    map c <- box :: if c in to then box[c] + [m] else box[c]
  }

  function SendToRoom(h: Hub, r: RoomId, m: Msg): Hub {
    h.(outbox := ToEach(h.outbox, Lookup(h.byRoom, r), m))
  }

  /** The entries of an index that hold the connection. */
  ghost function Holders(index: Index, c: Conn): set<Id> {
    set k <- index | c in index[k]
  }

  ghost function Reach(index: Index, c: Conn): nat {
    |Holders(index, c)|
  }

  function Copies(m: Msg, n: nat): (s: seq<Msg>)
    ensures |s| == n && forall i :: 0 <= i < n ==> s[i] == m
  {
    seq(n, _ => m)
  }

  /** One copy for every index entry that holds the connection. */
  ghost function ToAll(box: Outbox, index: Index, m: Msg): Outbox {
    map c <- box :: box[c] + Copies(m, Reach(index, c))
  }

  ghost function SendToAll(h: Hub, m: Msg): Hub {
    h.(outbox := ToAll(h.outbox, h.byUser, m))
  }

  function RegisterConnection(h: Hub, u: UserId, c: Conn): Hub {
    h.(byUser := Insert(h.byUser, u, c))
  }

  function AddConnectionToRoom(h: Hub, r: RoomId, c: Conn): Hub {
    h.(byRoom := Insert(h.byRoom, r, c))
  }

  function RemoveConnectionFromRoom(h: Hub, c: Conn): Hub {
    var d := h.Session(c);
    if d.user.Some? && d.room.Some? then
      var told := SendToRoom(h, d.room.value.id, UserLeft(d.user.value.id));
      told.(byRoom := Erase(h.byRoom, d.room.value.id, c))
    else h
  }

  function UnregisterConnection(h: Hub, c: Conn): Hub {
    var d := h.Session(c);
    var left := if d.room.Some? then RemoveConnectionFromRoom(h, c) else h;
    if d.user.Some? then left.(byUser := Erase(left.byUser, d.user.value.id, c)) else left
  }

  ghost function OnRoomDeleted(h: Hub, r: RoomId): Hub {
    SendToAll(h.(byRoom := h.byRoom - {r}), RoomDeleted(r))
  }

  function WithRights(d: WsData, r: RoomId, rights: Rights): WsData {
    if d.InRoom(r) then d.(room := Some(d.room.value.(rights := rights))) else d
  }

  function Recached(sessions: Sessions, conns: set<Conn>, r: RoomId, rights: Rights): Sessions {
    map c <- sessions :: if c in conns then WithRights(sessions[c], r, rights) else sessions[c]
  }

  /** Nothing is cached and nothing is sent for a user without connections. */
  function UpdateUserRoomRights(h: Hub, u: UserId, r: RoomId, rights: Rights): Hub {
    if u !in h.byUser then h
    else
      var cached := h.(sessions := Recached(h.sessions, h.byUser[u], r, rights));
      SendToRoom(cached, r, UserRoleChanged(u, rights))
  }

  function UserAt(sessions: Sessions, c: Conn): UserId {
    (if c in sessions then sessions[c] else NEW_SESSION).UserIdOrZero()
  }

  /** The connections of a set whose session belongs to a user. */
  function Of(sessions: Sessions, conns: set<Conn>, u: UserId): set<Conn> {
    set c <- conns | UserAt(sessions, c) == u
  }

  /** How many connections of a set each user has, users without any left out. */
  function UsersAmong(sessions: Sessions, conns: set<Conn>): map<UserId, nat> {
    map u <- (set c <- conns :: UserAt(sessions, c)) :: |Of(sessions, conns, u)|
  }

  function GetUsersInRoom(h: Hub, r: RoomId): map<UserId, nat> {
    UsersAmong(h.sessions, Lookup(h.byRoom, r))
  }

  /** A list of user ids, its order forgotten. */
  function Tally(users: seq<UserId>): map<UserId, nat> {
    map u <- users :: multiset(users)[u]
  }

  /** ChatRoomManager, updating its indexes, the outgoing queues and the peers' cached rights in place. */
  class ChatRoomManager {
    var userConns: Index
    var roomConns: Index
    var contexts: Sessions
    var sent: Outbox

    ghost function View(): Hub
      reads this
    {
      Hub(contexts, userConns, roomConns, sent)
    }

    constructor ()
      ensures View() == Hub(map[], map[], map[], map[])
    {
      userConns, roomConns, contexts, sent := map[], map[], map[], map[];
    }

    method RegisterConn(u: UserId, c: Conn)
      modifies this
      ensures View() == RegisterConnection(old(View()), u, c)
    {
      userConns := userConns[u := Lookup(userConns, u) + {c}];
    }

    method AddConnToRoom(r: RoomId, c: Conn)
      modifies this
      ensures View() == AddConnectionToRoom(old(View()), r, c)
    {
      roomConns := roomConns[r := Lookup(roomConns, r) + {c}];
    }

    method SetContext(c: Conn, d: WsData)
      modifies this
      ensures View() == SetSession(old(View()), c, d)
    {
      contexts := contexts[c := d];
    }

    method SendEnvelope(c: Conn, m: Msg)
      modifies this`sent
      ensures sent == ToEach(old(sent), {c}, m)
    {
      if c in sent {
        sent := sent[c := sent[c] + [m]];
      }
    }

    /** The loop over one set of connections. */
    method SendToEach(conns: set<Conn>, m: Msg)
      modifies this`sent
      ensures sent == ToEach(old(sent), conns, m)
    {
      var todo := conns;
      while todo != {}
        invariant todo <= conns
        invariant sent == ToEach(old(sent), conns - todo, m)
        decreases |todo|
      {
        var c :| c in todo;
        SendEnvelope(c, m);
        todo := todo - {c};
      }
    }

    method SendToRoomUnsafe(r: RoomId, m: Msg)
      modifies this`sent
      ensures View() == SendToRoom(old(View()), r, m)
    {
      if r in roomConns {
        SendToEach(roomConns[r], m);
      }
    }

    /** The inner loop of the broadcast: one entry of the user index. */
    method SendToUser(ghost before: Outbox, ghost users: set<UserId>, u: UserId, m: Msg)
      requires u in users && users <= userConns.Keys
      requires sent == ToAll(before, userConns - users, m)
      modifies this`sent
      ensures sent == ToAll(before, userConns - (users - {u}), m)
    {
      SendToEach(userConns[u], m);
      ToAllStep(before, userConns, users, u, m);
    }

    method SendToAllUnsafe(m: Msg)
      modifies this`sent
      ensures sent == ToAll(old(sent), userConns, m)
    {
      var users := userConns.Keys;
      ghost var before := sent;
      ToAllNone(before, userConns, m);
      while users != {}
        invariant users <= userConns.Keys
        invariant sent == ToAll(before, userConns - users, m)
        decreases users
      {
        var u :| u in users;
        SendToUser(before, users, u, m);
        users := users - {u};
      }
      assert userConns - {} == userConns;
    }

    method RemoveConnFromRoom(c: Conn)
      modifies this
      ensures View() == RemoveConnectionFromRoom(old(View()), c)
    {
      var d := if c in contexts then contexts[c] else NEW_SESSION;
      if d.user.Some? && d.room.Some? {
        var r := d.room.value.id;
        SendToRoomUnsafe(r, UserLeft(d.user.value.id));
        if r in roomConns {
          roomConns := roomConns[r := roomConns[r] - {c}];
          if roomConns[r] == {} {
            roomConns := roomConns - {r};
          }
        }
        assert roomConns == Erase(old(roomConns), r, c);
      }
    }

    method UnregisterConn(c: Conn)
      modifies this
      ensures View() == UnregisterConnection(old(View()), c)
    {
      var d := if c in contexts then contexts[c] else NEW_SESSION;
      if d.room.Some? {
        RemoveConnFromRoom(c);
      }
      if d.user.Some? {
        var u := d.user.value.id;
        ghost var before := userConns;
        if u in userConns {
          userConns := userConns[u := userConns[u] - {c}];
          if userConns[u] == {} {
            userConns := userConns - {u};
          }
        }
        assert userConns == Erase(before, u, c);
      }
    }

    method RoomWasDeleted(r: RoomId)
      modifies this
      ensures View() == OnRoomDeleted(old(View()), r)
    {
      if r in roomConns {
        roomConns := roomConns - {r};
      }
      assert roomConns == old(roomConns) - {r};
      SendToAllUnsafe(RoomDeleted(r));
    }

    method UpdateRoomRights(u: UserId, r: RoomId, rights: Rights)
      modifies this
      ensures View() == UpdateUserRoomRights(old(View()), u, r, rights)
    {
      if u !in userConns {
        return;
      }
      var todo := userConns[u];
      while todo != {}
        invariant userConns == old(userConns) && roomConns == old(roomConns) && sent == old(sent)
        invariant todo <= userConns[u]
        invariant contexts == Recached(old(contexts), userConns[u] - todo, r, rights)
        decreases |todo|
      {
        var c :| c in todo;
        if c in contexts && contexts[c].InRoom(r) {
          contexts := contexts[c := contexts[c].(room := Some(contexts[c].room.value.(rights := rights)))];
        }
        todo := todo - {c};
      }
      assert userConns[u] - {} == userConns[u];
      SendToRoomUnsafe(r, UserRoleChanged(u, rights));
    }

    method UsersInRoom(r: RoomId) returns (users: seq<UserId>)
      ensures Tally(users) == GetUsersInRoom(View(), r)
    {
      users := [];
      var conns := Lookup(roomConns, r);
      var todo := conns;
      while todo != {}
        invariant todo <= conns
        invariant forall u :: multiset(users)[u] == |Of(contexts, conns - todo, u)|
        decreases |todo|
      {
        var c :| c in todo;
        var id := UserAt(contexts, c);
        users := users + [id];
        assert conns - (todo - {c}) == (conns - todo) + {c};
        OfStep(contexts, conns - todo, c);
        todo := todo - {c};
      }
      TallyIsUsersAmong(contexts, conns, users);
    }
  }

  lemma OfStep(sessions: Sessions, conns: set<Conn>, c: Conn)
    requires c !in conns
    ensures forall u :: |Of(sessions, conns + {c}, u)| ==
              |Of(sessions, conns, u)| + (if u == UserAt(sessions, c) then 1 else 0)
  {
    forall u ensures |Of(sessions, conns + {c}, u)| ==
                     |Of(sessions, conns, u)| + (if u == UserAt(sessions, c) then 1 else 0)
    {
      assert Of(sessions, conns + {c}, u) == Of(sessions, conns, u) + (if u == UserAt(sessions, c) then {c} else {});
    }
  }

  lemma TallyIsUsersAmong(sessions: Sessions, conns: set<Conn>, users: seq<UserId>)
    requires forall u :: multiset(users)[u] == |Of(sessions, conns - {}, u)|
    ensures Tally(users) == UsersAmong(sessions, conns)
  {
    assert conns - {} == conns;
    forall u ensures u in Tally(users) <==> u in UsersAmong(sessions, conns) {
      assert u in users <==> multiset(users)[u] > 0;
      if c :| c in Of(sessions, conns, u) {
        assert u in UsersAmong(sessions, conns);
      } else {
        assert Of(sessions, conns, u) == {};
      }
      if u in UsersAmong(sessions, conns) {
        var c :| c in conns && UserAt(sessions, c) == u;
        assert c in Of(sessions, conns, u);
      }
    }
  }

  lemma ToAllNone(box: Outbox, index: Index, m: Msg)
    ensures ToAll(box, index - index.Keys, m) == box
  {
    var empty := index - index.Keys;
    forall c | c in box ensures box[c] + Copies(m, Reach(empty, c)) == box[c] {
      assert Holders(empty, c) == {};
    }
  }

  lemma ReachStep(before: Index, u: Id, conns: set<Conn>, c: Conn)
    requires u !in before
    ensures Reach(before[u := conns], c) == Reach(before, c) + (if c in conns then 1 else 0)
  {
    var after := before[u := conns];
    assert Holders(after, c) == Holders(before, c) + (if c in conns then {u} else {});
  }

  /** Serving one more user's connections. */
  lemma ToAllStep(box: Outbox, index: Index, users: set<UserId>, u: UserId, m: Msg)
    requires u in users && users <= index.Keys
    ensures ToAll(box, index - (users - {u}), m) == ToEach(ToAll(box, index - users, m), index[u], m)
  {
    var before, after := index - users, index - (users - {u});
    assert after == before[u := index[u]];
    forall c | c in box
      ensures box[c] + Copies(m, Reach(after, c)) ==
              box[c] + Copies(m, Reach(before, c)) + (if c in index[u] then [m] else [])
    {
      ReachStep(before, u, index[u], c);
    }
  }
}
