/**
 The client's list of the users of a room. `Presence` forgets everything but
 who is listed and with which count; class UserListPanel is the list itself.
 */
module UserList {
  import opened ChatDatabase
  import opened ChatHub

  type Presence = map<UserId, nat>

  /** AddUser: one more connection, or a new offline entry. */
  function Added(p: Presence, u: UserId): Presence {
    if u in p then p[u := p[u] + 1] else p[u := 0]
  }

  /** RemoveUser: one connection less; an offline entry is erased. */
  function Removed(p: Presence, u: UserId): Presence {
    if u !in p then p
    else if p[u] > 0 then p[u := p[u] - 1]
    else p - {u}
  }

  /** A join response: list everybody, then add the active connections one by one. */
  function Entered(all: set<UserId>, active: map<UserId, nat>): Presence {
    map u <- all + active.Keys ::
      var n := if u in active then active[u] else 0;
      if u in all then n else if n == 0 then 0 else n - 1
  }

  /** Everything but presence messages leaves the counts alone. */
  function Handle(p: Presence, m: Msg): Presence {
    match m
    case JoinRoomOk(all, active) => Entered(all, active)
    case UserJoined(u) => Added(p, u)
    case UserLeft(u) => Removed(p, u)
    case _ => p
  }

  /** The list once every queued message has been handled. */
  function HandleAll(p: Presence, queue: seq<Msg>): Presence
    decreases |queue|
  {
    if queue == [] then p else HandleAll(Handle(p, queue[0]), queue[1..])
  }

  /** Handling the message does not take the erase branch of RemoveUser. */
  predicate KeepsEntries(p: Presence, m: Msg) {
    m.UserLeft? && m.user in p ==> p[m.user] > 0
  }

  predicate AllKeepEntries(p: Presence, queue: seq<Msg>)
    decreases |queue|
  {
    queue == [] || (KeepsEntries(p, queue[0]) && AllKeepEntries(Handle(p, queue[0]), queue[1..]))
  }

  lemma {:induction false} QueueOneMore(p: Presence, queue: seq<Msg>, m: Msg)
    ensures HandleAll(p, queue + [m]) == Handle(HandleAll(p, queue), m)
    ensures AllKeepEntries(p, queue + [m]) <==>
              AllKeepEntries(p, queue) && KeepsEntries(HandleAll(p, queue), m)
    decreases |queue|
  {
    if queue == [] {
      assert queue + [m] == [m] && [m][1..] == [];
    } else {
      QueueOneMore(Handle(p, queue[0]), queue[1..], m);
      assert (queue + [m])[1..] == queue[1..] + [m];
      assert (queue + [m])[0] == queue[0];
    }
  }

  datatype ListedUser = ListedUser(id: UserId, name: string, role: Rights, count: nat)

  type Entries = map<UserId, ListedUser>

  /** The list holds exactly these entries, one per user. */
  ghost predicate Shows(list: seq<ListedUser>, entries: Entries) {
    && (forall i, j :: 0 <= i < j < |list| ==> list[i].id != list[j].id)
    && (forall x <- list :: x.id in entries && entries[x.id] == x)
    && entries.Keys == Ids(list)
  }

  function Ids(list: seq<ListedUser>): set<UserId> {
    set x <- list :: x.id
  }

  function Counts(e: Entries): Presence {
    map u <- e :: e[u].count
  }

  /** A listed user keeps its name and role and gains a connection. */
  function WithUserAdded(e: Entries, user: ListedUser): Entries {
    if user.id in e then e[user.id := e[user.id].(count := e[user.id].count + 1)] else e[user.id := user]
  }

  function WithUserRemoved(e: Entries, id: UserId): Entries {
    if id !in e then e
    else if e[id].count > 0 then e[id := e[id].(count := e[id].count - 1)]
    else e - {id}
  }

  function WithRole(e: Entries, id: UserId, role: Rights): Entries {
    if id in e then e[id := e[id].(role := role)] else e
  }

  function WithAllAdded(e: Entries, users: seq<ListedUser>): Entries {
    if users == [] then e
    else WithUserAdded(WithAllAdded(e, users[..|users| - 1]), users[|users| - 1])
  }

  function EntriesOf(list: seq<ListedUser>): Entries
    requires forall i, j :: 0 <= i < j < |list| ==> list[i].id != list[j].id
  {
    map x <- list :: x.id := x
  }

  class UserListPanel {
    var users: seq<ListedUser>
    ghost var entries: Entries

    ghost predicate Valid()
      reads this
    {
      Shows(users, entries)
    }

    constructor ()
      ensures Valid() && entries == map[]
    {
      users, entries := [], map[];
    }

    /** std::sort; the order is display only, and callers learn nothing about it. */
    method SortUsers(list: seq<ListedUser>, ghost e: Entries) returns (sorted: seq<ListedUser>)
      requires Shows(list, e)
      ensures Shows(sorted, e)
    {
      sorted := list;
    }

    method SetUserList(list: seq<ListedUser>, ghost e: Entries)
      requires Shows(list, e)
      modifies this
      ensures Valid() && entries == e
    {
      users := SortUsers(list, e);
      entries := e;
    }

    method FindUser(id: UserId) returns (i: nat)
      requires Valid()
      ensures i <= |users| && (i < |users| <==> id in entries)
      ensures i < |users| ==> users[i].id == id && entries[id] == users[i]
    {
      i := 0;
      while i < |users| && users[i].id != id
        invariant i <= |users|
        invariant forall k :: 0 <= k < i ==> users[k].id != id
      {
        i := i + 1;
      }
      ListedIndex(users, entries, id);
    }

    method AddUser(user: ListedUser)
      requires Valid()
      modifies this
      ensures Valid() && entries == WithUserAdded(old(entries), user)
    {
      hide Shows;
      var i := FindUser(user.id);
      if i < |users| {
        var x := users[i].(count := users[i].count + 1);
        ReplaceEntry(users, entries, i, x);
        SetUserList(users[i := x], entries[x.id := x]);
      } else {
        InsertEntry(users, entries, user);
        SetUserList(users + [user], entries[user.id := user]);
      }
    }

    /** `erased` says that the branch erasing the entry was taken. */
    method RemoveUser(id: UserId) returns (erased: bool)
      requires Valid()
      modifies this
      ensures Valid() && entries == WithUserRemoved(old(entries), id)
      ensures erased <==> !KeepsEntries(old(Counts(entries)), UserLeft(id))
    {
      hide Shows;
      var i := FindUser(id);
      erased := false;
      if i < |users| {
        if users[i].count > 0 {
          var x := users[i].(count := users[i].count - 1);
          ReplaceEntry(users, entries, i, x);
          SetUserList(users[i := x], entries[x.id := x]);
        } else {
          erased := true;
          EraseEntry(users, entries, i);
          SetUserList(users[..i] + users[i + 1..], entries - {id});
        }
      }
    }

    /** std::for_each over the whole list; ids are distinct, so at most one entry changes. */
    method UpdateUserRole(id: UserId, role: Rights)
      requires Valid()
      modifies this
      ensures Valid() && entries == WithRole(old(entries), id, role)
      ensures Counts(entries) == old(Counts(entries)) && (id in old(entries) ==> entries[id].role == role)
    {
      hide Shows;
      var i := 0;
      var found := false;
      while i < |users|
        invariant i <= |users| && Valid()
        invariant entries == if found then WithRole(old(entries), id, role) else old(entries)
        invariant !found ==> forall k :: 0 <= k < i ==> users[k].id != id
      {
        if users[i].id == id {
          found := true;
          var x := users[i].(role := role);
          ListedEntry(users, entries, i);
          ReplaceEntry(users, entries, i, x);
          entries := entries[id := x];
          users := users[i := x];
        }
        i := i + 1;
      }
      ListedIndex(users, entries, id);
      RoleCounts(old(entries), id, role);
      SetUserList(users, entries);
    }

    /** The client's reaction to a successful join response. */
    method Enter(all: seq<ListedUser>, active: seq<ListedUser>)
      requires forall i, j :: 0 <= i < j < |all| ==> all[i].id != all[j].id
      modifies this
      ensures Valid() && entries == WithAllAdded(EntriesOf(all), active)
    {
      SetUserList(all, EntriesOf(all));
      var i := 0;
      while i < |active|
        invariant i <= |active|
        invariant Valid() && entries == WithAllAdded(EntriesOf(all), active[..i])
      {
        AddUser(active[i]);
        assert active[..i + 1][..i] == active[..i];
        i := i + 1;
      }
      assert active[..i] == active;
    }
  }

  lemma ListedEntry(list: seq<ListedUser>, e: Entries, i: nat)
    requires Shows(list, e) && i < |list|
    ensures list[i].id in e && e[list[i].id] == list[i]
  {
    assert list[i] in list;
  }

  lemma ListedIndex(list: seq<ListedUser>, e: Entries, id: UserId)
    requires Shows(list, e)
    ensures id in e <==> exists i :: 0 <= i < |list| && list[i].id == id
  {
    if id in e {
      var x :| x in list && x.id == id;
      var i :| 0 <= i < |list| && list[i] == x;
    }
    if i :| 0 <= i < |list| && list[i].id == id {
      assert list[i] in list;
    }
  }

  // The counts of the list are the presence the protocol is about.

  lemma AddedCounts(e: Entries, user: ListedUser)
    requires user.count == 0
    ensures Counts(WithUserAdded(e, user)) == Added(Counts(e), user.id)
    ensures user.id !in e ==> WithUserAdded(e, user)[user.id] == user
    ensures var e' := WithUserAdded(e, user); forall u <- e :: u in e' && e'[u] == e[u].(count := e'[u].count)
  {
  }

  lemma RemovedCounts(e: Entries, id: UserId)
    ensures Counts(WithUserRemoved(e, id)) == Removed(Counts(e), id)
    ensures var e' := WithUserRemoved(e, id); forall u <- e' :: u in e && e'[u] == e[u].(count := e'[u].count)
  {
  }

  /** A listed user shows the new role and is otherwise as before, like everybody else. */
  lemma RoleCounts(e: Entries, id: UserId, role: Rights)
    ensures Counts(WithRole(e, id, role)) == Counts(e)
    ensures WithRole(e, id, role).Keys == e.Keys
    ensures forall u <- e :: WithRole(e, id, role)[u] == e[u].(role := if u == id then role else e[u].role)
  {
  }

  lemma ListedCounts(all: seq<ListedUser>)
    requires forall i, j :: 0 <= i < j < |all| ==> all[i].id != all[j].id
    requires forall x <- all :: x.count == 0
    ensures Counts(EntriesOf(all)) == Entered(Ids(all), map[])
    ensures forall x <- all :: x.id in EntriesOf(all) && EntriesOf(all)[x.id].role == x.role
  {
  }

  /** A join response leaves exactly the counts the protocol expects, and the listed roles as sent. */
  lemma {:induction false} EnteredCounts(all: seq<ListedUser>, active: seq<ListedUser>)
    requires forall i, j :: 0 <= i < j < |all| ==> all[i].id != all[j].id
    requires forall x <- all :: x.count == 0
    requires forall x <- active :: x.count == 0
    ensures var e := WithAllAdded(EntriesOf(all), active);
            && Counts(e) == Entered(Ids(all), Tally(IdsOf(active)))
            && forall x <- all :: x.id in e && e[x.id].role == x.role
    decreases |active|
  {
    hide Counts, EntriesOf, Entered, Ids, WithUserAdded, Added, Tally;
    if active == [] {
      ListedCounts(all);
      NobodyTallied();
    } else {
      var before, last := active[..|active| - 1], active[|active| - 1];
      EnteredCounts(all, before);
      AddedCounts(WithAllAdded(EntriesOf(all), before), last);
      TallyOneMore(IdsOf(before), last.id);
      TallyPositive(IdsOf(before));
      assert IdsOf(active) == IdsOf(before) + [last.id];
      EnteredOneMore(Ids(all), Tally(IdsOf(before)), last.id);
    }
  }

  lemma NobodyTallied()
    ensures Tally([]) == map[]
  {
  }

  lemma TallyPositive(users: seq<UserId>)
    ensures forall u <- Tally(users) :: Tally(users)[u] > 0
  {
  }

  function IdsOf(list: seq<ListedUser>): (ids: seq<UserId>)
    ensures |ids| == |list|
  {
    seq(|list|, i requires 0 <= i < |list| => list[i].id)
  }

  lemma ReplaceEntry(list: seq<ListedUser>, e: Entries, i: nat, x: ListedUser)
    requires Shows(list, e) && i < |list| && x.id == list[i].id
    ensures Shows(list[i := x], e[x.id := x])
  {
    var list' := list[i := x];
    forall u ensures u in Ids(list') <==> u in Ids(list) {
      if k :| 0 <= k < |list| && list[k].id == u {
        assert list'[k] in list' && list[k] in list;
      }
      if k :| 0 <= k < |list'| && list'[k].id == u {
        assert list'[k] in list' && list[k] in list;
      }
    }
  }

  lemma InsertEntry(list: seq<ListedUser>, e: Entries, x: ListedUser)
    requires Shows(list, e) && x.id !in e
    ensures Shows(list + [x], e[x.id := x])
  {
    assert forall y <- list :: y.id in Ids(list);
    assert Ids(list + [x]) == Ids(list) + {x.id};
  }

  lemma EraseEntry(list: seq<ListedUser>, e: Entries, i: nat)
    requires Shows(list, e) && i < |list|
    ensures Shows(list[..i] + list[i + 1..], e - {list[i].id})
  {
    var list' := list[..i] + list[i + 1..];
    assert forall k :: 0 <= k < |list'| ==> list'[k] == list[if k < i then k else k + 1];
    ErasedMembers(list, i);
    ErasedIds(list, i);
  }

  lemma ErasedMembers(list: seq<ListedUser>, i: nat)
    requires i < |list| && forall j, k :: 0 <= j < k < |list| ==> list[j].id != list[k].id
    ensures forall x :: x in list[..i] + list[i + 1..] <==> x in list && x != list[i]
    ensures forall x <- list :: x != list[i] ==> x.id != list[i].id
  {
    assert list == list[..i] + [list[i]] + list[i + 1..];
  }

  lemma ErasedIds(list: seq<ListedUser>, i: nat)
    requires i < |list| && forall j, k :: 0 <= j < k < |list| ==> list[j].id != list[k].id
    ensures Ids(list[..i] + list[i + 1..]) == Ids(list) - {list[i].id}
  {
    ErasedMembers(list, i);
  }

  lemma TallyOneMore(users: seq<UserId>, u: UserId)
    ensures Tally(users + [u]) == Tally(users)[u := (if u in Tally(users) then Tally(users)[u] else 0) + 1]
  {
    assert u in users <==> u in multiset(users);
    forall v ensures v in Tally(users + [u]) <==> v == u || v in Tally(users) {
      assert v in Tally(users + [u]) <==> v in users + [u];
    }
  }

  lemma EnteredOneMore(all: set<UserId>, active: map<UserId, nat>, u: UserId)
    requires forall v <- active :: active[v] > 0
    ensures Added(Entered(all, active), u) ==
            Entered(all, active[u := (if u in active then active[u] else 0) + 1])
  {
  }
}
