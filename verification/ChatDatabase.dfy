/**
 The tables the chat server reads and writes, as maps keyed by their declared
 primary keys, and the two role operations that run inside one transaction.
 */
module ChatDatabase {
  import opened Wrappers

  /** int32_t, the type of every SERIAL key. */
  type Id = i: int | -0x8000_0000 <= i < 0x8000_0000
  type UserId = Id
  type RoomId = Id

  /** chat::UserRights, in the order the enumeration is compared. */
  datatype Rights = Regular | Moderator | Owner | Admin
  {
    function Rank(): nat {
      match this
      case Regular => 0
      case Moderator => 1
      case Owner => 2
      case Admin => 3
    }
  }

  datatype Membership = Invited | Joined

  datatype Room = Room(owner: Option<UserId>, isPrivate: bool)

  /**
   `usernames` is the unique index of the users table, `membership` is
   room_membership and `moderator` is the is_moderator column of
   user_room_data. `nextUser` and `nextRoom` are the SERIAL sequences.
   */
  datatype Db = Db(
    users: set<UserId>,
    usernames: map<string, UserId>,
    admins: set<UserId>,
    rooms: map<RoomId, Room>,
    membership: map<(UserId, RoomId), Membership>,
    moderator: map<(UserId, RoomId), bool>,
    nextUser: int,
    nextRoom: int)
  {
    /** The foreign keys, and the fact that sequences hand out new positive ids. */
    ghost predicate Valid() {
      && usernames.Values <= users
      && admins <= users
      && (forall u <- users :: 0 < u < nextUser)
      && 0 < nextUser
      && (forall r <- rooms :: 0 < r < nextRoom)
      && 0 < nextRoom
      && (forall r <- rooms :: rooms[r].owner.Some? ==> rooms[r].owner.value in users)
      && (forall k <- membership :: k.0 in users && k.1 in rooms)
      && moderator.Keys <= membership.Keys
    }
  }

  /** Ids of the users with a membership row of the room. */
  function Members(db: Db, r: RoomId): set<UserId> {
    set k <- db.membership | k.1 == r :: k.0
  }

  function FindStoredUserRole(db: Db, u: UserId, r: RoomId): Option<Rights> {
    if (u, r) in db.moderator && db.moderator[(u, r)] then Some(Moderator) else None
  }

  function GetUserRights(db: Db, u: UserId, r: RoomId): Option<Rights>
    requires r in db.rooms
  {
    if u in db.admins then Some(Admin)
    else if db.rooms[r].owner == Some(u) then Some(Owner)
    else FindStoredUserRole(db, u, r)
  }

  /** What a user may do in a room: a missing entry means REGULAR. */
  function EffectiveRights(db: Db, u: UserId, r: RoomId): Rights
    requires r in db.rooms
  {
    GetUserRights(db, u, r).GetOr(Regular)
  }

  /** The user_room_data upsert; inserting without a membership row breaks a foreign key. */
  function UpdateUserRoleInDb(db: Db, u: UserId, r: RoomId, role: Rights): Option<Db> {
    if role != Regular && role != Moderator then None
    else if (u, r) !in db.moderator && (u, r) !in db.membership then None
    else Some(db.(moderator := db.moderator[(u, r) := role == Moderator]))
  }

  datatype Assigned = Assigned(db: Db, oldOwner: UserId, oldOwnerRole: Rights)

  /**
   The body of the handleAssignRole transaction, for an actor whose cached
   rights are `actor`. None stands for every refusal and every exception, after
   which nothing is committed. `oldOwner` is 0 when there is none to update.
   */
  function AssignRoleTransaction(db: Db, actor: Rights, target: UserId, r: RoomId, newRole: Rights): Option<Assigned> {
    if r !in db.rooms then None
    else
      var targetRights := GetUserRights(db, target, r).GetOr(Regular);
      if newRole.Rank() >= actor.Rank() && !(actor.Rank() >= Owner.Rank() && newRole == Owner) then None
      else if targetRights.Rank() >= actor.Rank() then None
      else if newRole == Owner then
        if target !in db.users then None
        else
          var oldOwner := db.rooms[r].owner.GetOr(0);
          var db1 := db.(rooms := db.rooms[r := db.rooms[r].(owner := Some(target))]);
          if oldOwner == 0 then Some(Assigned(db1, 0, Regular))
          else
            match GetUserRights(db1, oldOwner, r)
            case Some(role) =>
              if role.Rank() >= Moderator.Rank() then Some(Assigned(db1, oldOwner, role))
              else DemoteOldOwner(db1, oldOwner, r)
            case None => DemoteOldOwner(db1, oldOwner, r)
      else
        match UpdateUserRoleInDb(db, target, r, newRole)
        case Some(db1) => Some(Assigned(db1, 0, Regular))
        case None => None
  }

  function DemoteOldOwner(db: Db, oldOwner: UserId, r: RoomId): Option<Assigned> {
    match UpdateUserRoleInDb(db, oldOwner, r, Moderator)
    case Some(db1) => Some(Assigned(db1, oldOwner, Moderator))
    case None => None
  }

  /** No user other than those in `except` changes rights in any room. */
  ghost predicate SameRightsExcept(db: Db, db': Db, except: set<UserId>, r: RoomId) {
    && db'.rooms.Keys == db.rooms.Keys
    && forall u, q | q in db.rooms && (q != r || u !in except) ::
         EffectiveRights(db', u, q) == EffectiveRights(db, u, q)
  }

  /** A write that leaves the columns of everybody else alone leaves their rights alone. */
  lemma FrameOfRoleWrite(db: Db, db': Db, except: set<UserId>, r: RoomId)
    requires r in db.rooms && db'.rooms.Keys == db.rooms.Keys && db'.admins == db.admins
    requires forall q <- db.rooms | q != r :: db'.rooms[q] == db.rooms[q]
    requires forall u: UserId | u !in except :: db'.rooms[r].owner == Some(u) <==> db.rooms[r].owner == Some(u)
    requires forall u: UserId, q: RoomId | q != r || u !in except ::
               FindStoredUserRole(db', u, q) == FindStoredUserRole(db, u, q)
    ensures SameRightsExcept(db, db', except, r)
  {
  }

  /** The users a transfer is about. */
  function TransferParties(db: Db, target: UserId, r: RoomId): set<UserId>
    requires r in db.rooms
  {
    {target} + (if db.rooms[r].owner.Some? then {db.rooms[r].owner.value} else {})
  }

  /** A transfer writes the owner column, and at most the old owner's moderator flag. */
  lemma TransferWrites(db: Db, actor: Rights, target: UserId, r: RoomId)
    requires db.Valid()
    requires AssignRoleTransaction(db, actor, target, r, Owner).Some?
    ensures var done := AssignRoleTransaction(db, actor, target, r, Owner).value;
            var previous := db.rooms[r].owner;
            var owned := db.rooms[r := db.rooms[r].(owner := Some(target))];
            && target in db.users && target !in db.admins
            && done.oldOwner == previous.GetOr(0)
            && (|| done.db == db.(rooms := owned)
                || (&& previous.Some? && previous.value != target && previous.value !in db.admins
                    && (previous.value, r) in db.membership
                    && done.db == db.(rooms := owned, moderator := db.moderator[(previous.value, r) := true])))
            && (previous.Some? ==> done.oldOwnerRole == EffectiveRights(done.db, previous.value, r))
            && (previous.Some? && previous.value != target ==> done.oldOwnerRole in {Moderator, Admin})
  {
  }

  /**
   Transfer of ownership: the target becomes OWNER, a different previous owner
   keeps at least MODERATOR, and nobody else changes rights anywhere.
   */
  lemma TransferOwnership(db: Db, actor: Rights, target: UserId, r: RoomId)
    requires db.Valid()
    requires AssignRoleTransaction(db, actor, target, r, Owner).Some?
    ensures var done := AssignRoleTransaction(db, actor, target, r, Owner).value;
            var previous := db.rooms[r].owner;
            && done.db.Valid()
            && EffectiveRights(done.db, target, r) == Owner
            && done.db.rooms[r].owner == Some(target)
            && SameRightsExcept(db, done.db, TransferParties(db, target, r), r)
            && done.oldOwner == previous.GetOr(0)
            && (previous.Some? ==> EffectiveRights(done.db, previous.value, r) == done.oldOwnerRole)
            && (previous.Some? && previous.value != target ==>
                  done.oldOwnerRole.Rank() >= Moderator.Rank() && done.oldOwnerRole != Owner)
  {
    var done := AssignRoleTransaction(db, actor, target, r, Owner).value;
    TransferWrites(db, actor, target, r);
    FrameOfRoleWrite(db, done.db, TransferParties(db, target, r), r);
  }

  /**
   Ordinary assignment: only the target can change, and it ends up with exactly
   the requested role if and only if it does not own the room.
   */
  lemma OrdinaryAssignment(db: Db, actor: Rights, target: UserId, r: RoomId, newRole: Rights)
    requires db.Valid() && newRole != Owner
    requires AssignRoleTransaction(db, actor, target, r, newRole).Some?
    ensures var done := AssignRoleTransaction(db, actor, target, r, newRole).value;
            && done.db.Valid()
            && done.oldOwner == 0
            && newRole.Rank() <= Moderator.Rank()
            && SameRightsExcept(db, done.db, {target}, r)
            && (EffectiveRights(done.db, target, r) == newRole <==> db.rooms[r].owner != Some(target))
            && (db.rooms[r].owner == Some(target) ==> actor == Admin && EffectiveRights(done.db, target, r) == Owner)
  {
    var done := AssignRoleTransaction(db, actor, target, r, newRole).value;
    FrameOfRoleWrite(db, done.db, {target}, r);
  }

  // When an assignment succeeds.

  /** The role given ranks below the actor's own; only ownership may be given at the same rank. */
  predicate MayGive(actor: Rights, role: Rights) {
    role.Rank() < actor.Rank() || (role == Owner && actor in {Owner, Admin})
  }

  /** The previous owner of a room who would be left without rights can get a moderator row. */
  predicate CanStepDown(db: Db, target: UserId, r: RoomId)
    requires r in db.rooms
  {
    match db.rooms[r].owner
    case None => true
    case Some(previous) =>
      previous == target || previous in db.admins || (previous, r) in db.membership
  }

  /** There is a row for the new role to be written to. */
  predicate HasPlace(db: Db, target: UserId, r: RoomId, role: Rights)
    requires r in db.rooms
  {
    match role
    case Owner => target in db.users && CanStepDown(db, target, r)
    case Admin => false
    case _ => (target, r) in db.membership
  }

  predicate Assignable(db: Db, actor: Rights, target: UserId, r: RoomId, role: Rights) {
    && r in db.rooms
    && EffectiveRights(db, target, r).Rank() < actor.Rank()
    && MayGive(actor, role) && HasPlace(db, target, r, role)
  }

  /**
   An assignment succeeds if and only if the room exists, the target ranks below the
   actor, the actor may give the role, and there is a row to write it to.
   */
  lemma AssignSucceedsIff(db: Db, actor: Rights, target: UserId, r: RoomId, newRole: Rights)
    requires db.Valid()
    ensures AssignRoleTransaction(db, actor, target, r, newRole).Some? <==> Assignable(db, actor, target, r, newRole)
  {
    if r in db.rooms && newRole == Owner && db.rooms[r].owner.Some? {
      StepsDownIff(db, target, r);
    }
  }

  /** The previous owner's part of a transfer. */
  lemma StepsDownIff(db: Db, target: UserId, r: RoomId)
    requires db.Valid() && r in db.rooms && db.rooms[r].owner.Some?
    ensures var previous := db.rooms[r].owner.value;
            var db1 := db.(rooms := db.rooms[r := db.rooms[r].(owner := Some(target))]);
            && previous != 0
            && (CanStepDown(db, target, r) <==>
                  || EffectiveRights(db1, previous, r).Rank() >= Moderator.Rank()
                  || DemoteOldOwner(db1, previous, r).Some?)
  {
  }
}
