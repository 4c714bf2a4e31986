/**
 The data migration 1751446692-room_membership.sql, statement by statement: roles
 move from user_room_roles into room_membership and user_room_data.
 */
module RoleMigration {
  import opened Wrappers
  import opened ChatDatabase

  datatype RoleType = RegularRole | ModeratorRole

  /** The tables before the migration. */
  datatype OldDb = OldDb(
    users: set<UserId>,
    usernames: map<string, UserId>,
    admins: set<UserId>,
    owners: map<RoomId, Option<UserId>>,
    roles: map<(UserId, RoomId), RoleType>,
    nextUser: int,
    nextRoom: int)
  {
    /** The old keys: user_room_roles refers to users and rooms, owner_id to users. */
    ghost predicate Valid() {
      && usernames.Values <= users
      && admins <= users
      && (forall u <- users :: 0 < u < nextUser)
      && 0 < nextUser
      && (forall r <- owners :: 0 < r < nextRoom)
      && 0 < nextRoom
      && (forall r <- owners :: owners[r].Some? ==> owners[r].value in users)
      && (forall k <- roles :: k.0 in users && k.1 in owners)
    }

    predicate IsModerator(u: UserId, r: RoomId) {
      (u, r) in roles && roles[(u, r)] == ModeratorRole
    }

    predicate IsOwner(u: UserId, r: RoomId) {
      r in owners && owners[r] == Some(u)
    }

    /** Rights under the old tables: ADMIN over OWNER over the stored role. */
    function Rights(u: UserId, r: RoomId): Rights
      requires r in owners
    {
      if u in admins then Admin
      else if IsOwner(u, r) then Owner
      else if IsModerator(u, r) then Moderator
      else Regular
    }
  }

  /** A database in the middle of the migration; a table that does not exist is None. */
  class Migration {
    var base: OldDb
    var isPrivate: Option<map<RoomId, bool>>
    var membership: Option<map<(UserId, RoomId), Membership>>
    var moderator: Option<map<(UserId, RoomId), bool>>
    var rolesDropped: bool
    var linked: bool

    constructor (tables: OldDb)
      ensures base == tables && isPrivate.None? && membership.None? && moderator.None? && !rolesDropped && !linked
    {
      base, isPrivate, membership, moderator, rolesDropped, linked := tables, None, None, None, false, false;
    }

    /** The database as ChatDatabase knows it, once every table exists. */
    ghost function Current(): Db
      reads this
      requires isPrivate.Some? && membership.Some? && moderator.Some?
      requires isPrivate.value.Keys == base.owners.Keys
    {
      Db(base.users, base.usernames, base.admins,
         map r <- base.owners :: Room(base.owners[r], isPrivate.value[r]),
         membership.value, moderator.value, base.nextUser, base.nextRoom)
    }

    /** False when the last constraint cannot be added: the whole transaction is then rolled back. */
    method RunStatements() returns (ok: bool)
      requires base.Valid()
      requires isPrivate.None? && membership.None? && moderator.None? && !rolesDropped && !linked
      modifies this
      ensures ok && linked && rolesDropped && base == old(base)
      ensures isPrivate.Some? && isPrivate.value.Keys == base.owners.Keys
      ensures membership.Some? && moderator.Some?
      ensures Current() == Migrated(old(base))
    {
      AddPrivateFlag();
      CreateTables();
      FillMembership();
      FillRoomData();
      rolesDropped := true;
      assert Migrated(base) == Current();
      MigratedIsValid(base);
      ok := AddForeignKey();
    }

    method AddPrivateFlag()
      modifies this`isPrivate
      ensures isPrivate == Some(NoneArePrivate(base))
    {
      isPrivate := Some(NoneArePrivate(base));
    }

    method CreateTables()
      requires membership.None? && moderator.None?
      modifies this`membership, this`moderator
      ensures membership == Some(map[]) && moderator == Some(map[])
    {
      membership, moderator := Some(map[]), Some(map[]);
    }

    /** INSERT ... SELECT owners UNION SELECT moderators ... ON CONFLICT DO NOTHING. */
    method FillMembership()
      requires membership == Some(map[])
      modifies this`membership
      ensures membership == Some(MembershipRows(base))
    {
      var rows := MembershipRows(base);
      membership := Some(rows + membership.value);
      assert rows + map[] == rows;
    }

    /** Only moderators who are neither global admins nor owners of the room get a row. */
    method FillRoomData()
      requires moderator == Some(map[])
      modifies this`moderator
      ensures moderator == Some(ModeratorRows(base))
    {
      var rows := ModeratorRows(base);
      moderator := Some(rows + moderator.value);
      assert rows + map[] == rows;
    }

    method AddForeignKey() returns (ok: bool)
      requires membership.Some? && moderator.Some?
      modifies this`linked
      ensures ok <==> moderator.value.Keys <= membership.value.Keys
      ensures linked <==> ok || old(linked)
    {
      ok := moderator.value.Keys <= membership.value.Keys;
      linked := linked || ok;
    }
  }

  function OwnerPairs(base: OldDb): set<(UserId, RoomId)> {
    set r <- base.owners | base.owners[r].Some? :: (base.owners[r].value, r)
  }

  function ModeratorPairs(base: OldDb): set<(UserId, RoomId)> {
    set k <- base.roles | base.roles[k] == ModeratorRole
  }

  function Selected(base: OldDb): set<(UserId, RoomId)> {
    OwnerPairs(base) + ModeratorPairs(base)
  }

  function PlainModerators(base: OldDb): set<(UserId, RoomId)> {
    set k <- ModeratorPairs(base) | k.0 !in base.admins && !base.IsOwner(k.0, k.1)
  }

  function NoneArePrivate(base: OldDb): map<RoomId, bool> {
    map r <- base.owners :: false
  }

  function MembershipRows(base: OldDb): map<(UserId, RoomId), Membership> {
    map k <- Selected(base) :: Joined
  }

  function ModeratorRows(base: OldDb): map<(UserId, RoomId), bool> {
    map k <- PlainModerators(base) :: true
  }

  function Migrated(base: OldDb): Db {
    Db(base.users, base.usernames, base.admins,
       map r <- base.owners :: Room(base.owners[r], false),
       MembershipRows(base), ModeratorRows(base),
       base.nextUser, base.nextRoom)
  }

  /** Every key of the new schema holds, the final foreign key included, so the server can start on it. */
  lemma MigratedIsValid(base: OldDb)
    requires base.Valid()
    ensures Migrated(base).Valid()
    ensures Migrated(base).moderator.Keys <= Migrated(base).membership.Keys
  {
  }

  /** The rooms are the same, with the same owners, and none of them becomes private. */
  lemma RoomsStayPublic(base: OldDb, r: RoomId)
    ensures r in Migrated(base).rooms <==> r in base.owners
    ensures r in base.owners ==> Migrated(base).rooms[r] == Room(base.owners[r], false)
  {
  }

  /** Nobody's rights change in any room. */
  lemma MigrationPreservesRights(base: OldDb, u: UserId, r: RoomId)
    requires base.Valid() && r in base.owners
    ensures r in Migrated(base).rooms
    ensures EffectiveRights(Migrated(base), u, r) == base.Rights(u, r)
  {
    assert (u, r) in PlainModerators(base) <==>
           base.IsModerator(u, r) && u !in base.admins && !base.IsOwner(u, r);
  }

  /** Exactly the owners and moderators of a room are members of it, and all of them are JOINED. */
  lemma MembersAreOwnersAndModerators(base: OldDb, u: UserId, r: RoomId)
    ensures (u, r) in Migrated(base).membership <==> base.IsOwner(u, r) || base.IsModerator(u, r)
    ensures (u, r) in Migrated(base).membership ==> Migrated(base).membership[(u, r)] == Joined
  {
    assert (u, r) in Selected(base) <==> (u, r) in OwnerPairs(base) || (u, r) in ModeratorPairs(base);
    assert (u, r) in OwnerPairs(base) <==> base.IsOwner(u, r);
  }

  /** What the rights become when the admins or the owners are changed later, under the old tables and the new. */
  function LaterOld(base: OldDb, admins: set<UserId>, owners: map<RoomId, Option<UserId>>): OldDb {
    base.(admins := admins, owners := owners)
  }

  function LaterNew(base: OldDb, admins: set<UserId>, owners: map<RoomId, Option<UserId>>): Db {
    Migrated(base).(admins := admins, rooms := map r <- owners :: Room(owners[r], false))
  }

  /**
   The equality does not outlive every later change: a moderator who was an admin
   or the owner has no row of its own, and is REGULAR once it is neither.
   */
  lemma LaterRightsAgreeIff(base: OldDb, admins: set<UserId>, owners: map<RoomId, Option<UserId>>, u: UserId, r: RoomId)
    requires base.Valid() && owners.Keys == base.owners.Keys && r in owners
    ensures EffectiveRights(LaterNew(base, admins, owners), u, r) == LaterOld(base, admins, owners).Rights(u, r) <==>
            !(&& base.IsModerator(u, r) && (u in base.admins || base.IsOwner(u, r))
              && u !in admins && owners[r] != Some(u))
  {
    assert (u, r) in PlainModerators(base) <==>
           base.IsModerator(u, r) && u !in base.admins && !base.IsOwner(u, r);
  }
}
