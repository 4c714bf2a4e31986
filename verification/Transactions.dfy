/**
 WithTransaction: a body works on a draft of the database, and the draft
 becomes the database only when the body succeeds and the commit is confirmed.
 */
module Transactions {
  import opened Wrappers
  import opened ChatDatabase

  /**
   How the lambda ends: an empty optional, an error string, or an exception.
   `result` is what it leaves in the variables it captures.
   */
  datatype BodyResult<S, R> = Finished(draft: S, result: R) | Refused(error: string) | Threw(what: string)

  /** What can go wrong with the connection to the database. */
  datatype Fault = Works | NoClient | BeginThrows | StatementThrows | CommitFails | CommitThrows

  ghost predicate Committed<S, R>(result: BodyResult<S, R>, fault: Fault) {
    fault == Works && result.Finished?
  }

  class Database<S> {
    var store: S

    constructor (s: S)
      ensures store == s
    {
      store := s;
    }

    method Begin() returns (tx: Transaction<S>)
      ensures fresh(tx) && tx.home == this && tx.draft == store && tx.open
    {
      tx := new Transaction<S>(this);
    }

    /** Success is exactly a finished body with a confirmed commit; every error leaves the database as it was. */
    method WithTransaction<R>(body: S -> BodyResult<S, R>, fault: Fault)
      returns (error: Option<string>, captured: Option<R>)
      modifies this
      ensures error.None? <==> Committed(body(old(store)), fault)
      ensures error.None? ==> store == body(old(store)).draft && captured == Some(body(old(store)).result)
      ensures error.Some? ==> store == old(store) && captured.None?
      ensures fault in {Works, CommitFails, CommitThrows} && body(old(store)).Refused? ==>
                error == Some(body(old(store)).error)
    {
      if fault == NoClient {
        return Some("Internal: DB client unavailable"), None;
      }
      if fault == BeginThrows {
        return Some("DB exception: "), None;
      }
      var tx := Begin();
      if fault == StatementThrows {
        tx.Rollback();
        return Some("DB exception: "), None;
      }
      match body(tx.draft) {
        case Refused(e) =>
          tx.Rollback();
          return Some(e), None;
        case Threw(what) =>
          tx.Rollback();
          return Some("Unexpected error: " + what), None;
        case Finished(draft, result) =>
          tx.draft := draft;
          captured := Some(result);
      }
      if fault == CommitThrows {
        return Some("DB exception: "), None;
      }
      var ok := tx.Commit(fault == Works);
      if !ok {
        return Some("Transaction commit failed"), None;
      }
      error := None;
    }
  }

  class Transaction<S> {
    const home: Database<S>
    var draft: S
    var open: bool

    constructor (db: Database<S>)
      ensures home == db && draft == db.store && open
    {
      home, draft, open := db, db.store, true;
    }

    method Rollback()
      modifies this
      ensures !open
    {
      open := false;
    }

    /** Dropping the last reference commits; the callback tells whether it worked. */
    method Commit(ok: bool) returns (done: bool)
      requires open
      modifies this, home
      ensures !open && done == ok
      ensures home.store == if ok then old(draft) else old(home.store)
    {
      open, done := false, ok;
      if ok {
        home.store := draft;
      }
    }
  }

  /** The lambda of handleAssignRole: None is a refusal or an exception inside it. */
  function AssignBody(actor: Rights, target: UserId, r: RoomId, newRole: Rights): Db -> BodyResult<Db, Assigned> {
    (db: Db) =>
      match AssignRoleTransaction(db, actor, target, r, newRole)
      case Some(done) => Finished(done.db, done)
      case None => Refused("")
  }

  /** The same lambda statement by statement, writing to the draft of its transaction. */
  method RunAssignment(tx: Transaction<Db>, actor: Rights, target: UserId, r: RoomId, newRole: Rights)
    returns (result: BodyResult<Db, Assigned>)
    modifies tx`draft
    ensures result == AssignBody(actor, target, r, newRole)(old(tx.draft))
    ensures result.Finished? ==> tx.draft == result.draft
  {
    if r !in tx.draft.rooms {
      return Refused("");
    }
    var oldOwner: UserId, oldOwnerRole := 0, Regular;
    var targetRights := GetUserRights(tx.draft, target, r).GetOr(Regular);
    if newRole.Rank() >= actor.Rank() && !(actor.Rank() >= Owner.Rank() && newRole == Owner) {
      return Refused("");
    }
    if targetRights.Rank() >= actor.Rank() {
      return Refused("");
    }
    if newRole == Owner {
      oldOwner := tx.draft.rooms[r].owner.GetOr(0);
      if target !in tx.draft.users {
        return Refused("");
      }
      tx.draft := tx.draft.(rooms := tx.draft.rooms[r := tx.draft.rooms[r].(owner := Some(target))]);
      if oldOwner != 0 {
        var stored := GetUserRights(tx.draft, oldOwner, r);
        if stored.None? || stored.value.Rank() < Moderator.Rank() {
          oldOwnerRole := Moderator;
          var updated := UpdateUserRoleInDb(tx.draft, oldOwner, r, Moderator);
          if updated.None? {
            return Refused("");
          }
          tx.draft := updated.value;
        } else {
          oldOwnerRole := stored.value;
        }
      }
    } else {
      var updated := UpdateUserRoleInDb(tx.draft, target, r, newRole);
      if updated.None? {
        return Refused("");
      }
      tx.draft := updated.value;
    }
    result := Finished(tx.draft, Assigned(tx.draft, oldOwner, oldOwnerRole));
  }

  /**
   A role assignment is all or nothing: an error changes no table at all, and
   success changes rights for the target and, in a transfer, the previous owner only.
   */
  method AssignAtomically(db: Database<Db>, actor: Rights, target: UserId, r: RoomId, newRole: Rights, fault: Fault)
    returns (error: Option<string>)
    requires db.store.Valid()
    modifies db
    ensures db.store.Valid()
    ensures error.Some? ==> db.store == old(db.store)
    ensures error.None? ==>
              && r in old(db.store).rooms && r in db.store.rooms
              && SameRightsExcept(old(db.store), db.store,
                                  if newRole == Owner then TransferParties(old(db.store), target, r) else {target}, r)
              && (newRole == Owner ==> EffectiveRights(db.store, target, r) == Owner)
              && (newRole != Owner && old(db.store).rooms[r].owner != Some(target) ==>
                    EffectiveRights(db.store, target, r) == newRole)
  {
    hide AssignRoleTransaction, SameRightsExcept, Db.Valid, EffectiveRights, TransferParties;
    ghost var before := db.store;
    ghost var captured;
    error, captured := db.WithTransaction(AssignBody(actor, target, r, newRole), fault);
    if error.None? {
      RoomExists(before, actor, target, r, newRole);
      if newRole == Owner {
        TransferOwnership(before, actor, target, r);
      } else {
        OrdinaryAssignment(before, actor, target, r, newRole);
      }
      SameRooms(before, db.store, if newRole == Owner then TransferParties(before, target, r) else {target}, r);
    }
  }

  lemma RoomExists(db: Db, actor: Rights, target: UserId, r: RoomId, newRole: Rights)
    requires AssignRoleTransaction(db, actor, target, r, newRole).Some?
    ensures r in db.rooms
  {
  }

  lemma SameRooms(db: Db, db': Db, except: set<UserId>, r: RoomId)
    requires SameRightsExcept(db, db', except, r)
    ensures db'.rooms.Keys == db.rooms.Keys
  {
  }
}
