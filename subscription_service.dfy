/** The user-subscription table service: a user's subscriptions, one by id,
    creation guarded against a second active subscription to the same plan,
    and update and delete by id. Ownership is checked by the callers. */
module SubscriptionService {
  import opened Wrappers
  import opened Seqs
  import opened Store

  /** The insert payload: an optional explicit id, the owner, the plan,
      an optional start date (the column defaults to the current time)
      and the end date, both as ISO strings. */
  datatype CreateUserSubscription = CreateUserSubscription(
    id: Option<Id>, userId: Id, subscriptionId: Id, startDate: Option<string>, endDate: string)

  /** The partial update payload; absent fields are left as stored. */
  datatype UpdateUserSubscription = UpdateUserSubscription(
    userId: Option<Id>, subscriptionId: Option<Id>, startDate: Option<string>, endDate: Option<string>)

  /** `getByUserId`: exactly the user's subscriptions, in table order. */
  function GetByUserId(db: Database, user: Id): (r: seq<UserSubscription>)
    reads db
    ensures forall s :: s in r <==> s in db.subscriptions && s.userId == user
  {
    Filter(db.subscriptions, (s: UserSubscription) => s.userId == user)
  }

  /** `getById`: the subscription with the id, or `None`. */
  function GetById(db: Database, id: Id): (r: Option<UserSubscription>)
    reads db
    ensures r.Some? <==> HasKey(db.subscriptions, SubscriptionKey, id)
    ensures r.Some? ==> r.value in db.subscriptions && r.value.id == id
  {
    FindKey(db.subscriptions, SubscriptionKey, id)
  }

  /** Some stored subscription of the user to the plan ends after `now`. */
  predicate HasActive(rows: seq<UserSubscription>, user: Id, plan: Id, now: Timestamp)
    ensures HasActive(rows, user, plan, now) <==>
              exists s :: s in Filter(rows, (s: UserSubscription) => s.userId == user && s.subscriptionId == plan)
                          && s.endDate > now
  {
    exists i :: 0 <= i < |rows| && rows[i].userId == user && rows[i].subscriptionId == plan && rows[i].endDate > now
  }

  /** The row `create` inserts when the counter stands at `next`. */
  function NewSubscription(data: CreateUserSubscription, next: Id, now: Timestamp, parse: string -> Timestamp)
    : (r: UserSubscription)
    ensures r.id == NewKey(data.id, next)
    ensures r.userId == data.userId && r.subscriptionId == data.subscriptionId
    ensures r.startDate == (if data.startDate.Some? then parse(data.startDate.value) else now)
    ensures r.endDate == parse(data.endDate)
  {
    UserSubscription(NewKey(data.id, next), data.userId, data.subscriptionId,
                     if data.startDate.Some? then parse(data.startDate.value) else now, parse(data.endDate))
  }

  /** `create`: refuses with `Conflict`, and stores nothing, exactly when
      the user already holds a subscription to the plan that ends after
      `now`; an explicit id already in use is refused as well; otherwise
      the row is appended and can be read back. */
  method Create(db: Database, data: CreateUserSubscription, now: Timestamp, parse: string -> Timestamp)
    returns (r: Result<UserSubscription, DbError>)
    requires db.Valid()
    modifies db`subscriptions, db`nextId
    ensures db.Valid()
    ensures r == Err(Conflict) <==> HasActive(old(db.subscriptions), data.userId, data.subscriptionId, now)
    ensures r == Err(DuplicateKey) <==> && !HasActive(old(db.subscriptions), data.userId, data.subscriptionId, now)
                                        && data.id.Some? && HasKey(old(db.subscriptions), SubscriptionKey, data.id.value)
    ensures r.Err? ==> unchanged(db)
    ensures r.Ok? ==> && r.value == NewSubscription(data, old(db.nextId), now, parse)
                      && db.subscriptions == old(db.subscriptions) + [r.value]
                      && db.nextId == Bump(old(db.nextId), r.value.id)
    ensures r.Ok? ==> GetById(db, r.value.id) == Some(r.value) && r.value in GetByUserId(db, data.userId)
    ensures r.Ok? && r.value.endDate > now ==> HasActive(db.subscriptions, data.userId, data.subscriptionId, now)
  {
    if HasActive(db.subscriptions, data.userId, data.subscriptionId, now) {
      return Err(Conflict);
    }
    var s := NewSubscription(data, db.nextId, now, parse);
    if HasKey(db.subscriptions, SubscriptionKey, s.id) {
      return Err(DuplicateKey);
    }
    var next := Bump(db.nextId, s.id);
    var rows := db.subscriptions + [s];
    assert KeyedBelow(rows, SubscriptionKey, next) by {
      KeyedRaise(db.subscriptions, SubscriptionKey, db.nextId, next);
      KeyedAppend(db.subscriptions, s, SubscriptionKey, next, next);
    }
    db.WriteSubscriptions(rows, next);
    assert db.subscriptions[|db.subscriptions| - 1] == s;
    FindKeyStored(db.subscriptions, SubscriptionKey, s);
    r := Ok(s);
  }

  /** A second `create` of an active subscription to the same plan, at the
      same moment, is refused. */
  lemma ActiveBlocksSecond(rows: seq<UserSubscription>, s: UserSubscription, now: Timestamp)
    requires s.endDate > now
    ensures HasActive(rows + [s], s.userId, s.subscriptionId, now)
  {
    assert (rows + [s])[|rows|] == s;
  }

  /** A subscription that has ended by `now` does not block a new one. */
  lemma EndedDoesNotBlock(rows: seq<UserSubscription>, s: UserSubscription, now: Timestamp)
    requires !HasActive(rows, s.userId, s.subscriptionId, now) && s.endDate <= now
    ensures !HasActive(rows + [s], s.userId, s.subscriptionId, now)
  {
    forall i | 0 <= i < |rows| + 1
      ensures !((rows + [s])[i].userId == s.userId && (rows + [s])[i].subscriptionId == s.subscriptionId
                && (rows + [s])[i].endDate > now)
    {
      if i < |rows| {
        assert (rows + [s])[i] == rows[i];
      }
    }
  }

  /** The row after `update`: each supplied field replaces the stored one. */
  function Merge(s: UserSubscription, u: UpdateUserSubscription, parse: string -> Timestamp): (r: UserSubscription)
    ensures r.id == s.id
    ensures r.userId == u.userId.GetOr(s.userId) && r.subscriptionId == u.subscriptionId.GetOr(s.subscriptionId)
    ensures r.startDate == (if u.startDate.Some? then parse(u.startDate.value) else s.startDate)
    ensures r.endDate == (if u.endDate.Some? then parse(u.endDate.value) else s.endDate)
  {
    UserSubscription(s.id, u.userId.GetOr(s.userId), u.subscriptionId.GetOr(s.subscriptionId),
                     if u.startDate.Some? then parse(u.startDate.value) else s.startDate,
                     if u.endDate.Some? then parse(u.endDate.value) else s.endDate)
  }

  /** An update that supplies nothing leaves the row as it was. */
  lemma MergeNothing(s: UserSubscription, parse: string -> Timestamp)
    ensures Merge(s, UpdateUserSubscription(None, None, None, None), parse) == s
  {
  }

  /** `update`: `None` and no change when no row has the id; otherwise the
      row is merged with the payload in place and returned. */
  method Update(db: Database, id: Id, u: UpdateUserSubscription, parse: string -> Timestamp)
    returns (r: Option<UserSubscription>)
    requires db.Valid()
    modifies db`subscriptions, db`nextId
    ensures db.Valid()
    ensures r.None? <==> !HasKey(old(db.subscriptions), SubscriptionKey, id)
    ensures r.None? ==> unchanged(db)
    ensures r.Some? ==> && r.value == Merge(old(GetById(db, id)).value, u, parse)
                        && db.subscriptions == ReplaceKey(old(db.subscriptions), SubscriptionKey, r.value)
                        && db.nextId == old(db.nextId)
    ensures r.Some? ==> GetById(db, id) == r
  {
    var found := GetById(db, id);
    if found.None? {
      return None;
    }
    var s := Merge(found.value, u, parse);
    var rows := ReplaceKey(db.subscriptions, SubscriptionKey, s);
    ReplaceKeyKeyed(db.subscriptions, SubscriptionKey, s, db.nextId);
    var j :| 0 <= j < |db.subscriptions| && db.subscriptions[j] == found.value;
    db.WriteSubscriptions(rows, db.nextId);
    assert db.subscriptions[j] == s;
    FindKeyStored(db.subscriptions, SubscriptionKey, s);
    r := Some(s);
  }

  /** `delete`: true exactly when a row had the id; afterwards none has it
      and the other rows remain. */
  method Delete(db: Database, id: Id) returns (deleted: bool)
    requires db.Valid()
    modifies db`subscriptions, db`nextId
    ensures db.Valid()
    ensures deleted <==> HasKey(old(db.subscriptions), SubscriptionKey, id)
    ensures !deleted ==> unchanged(db)
    ensures deleted ==> && db.subscriptions == DropKey(old(db.subscriptions), SubscriptionKey, id)
                        && db.nextId == old(db.nextId)
    ensures GetById(db, id).None?
  {
    if !HasKey(db.subscriptions, SubscriptionKey, id) {
      return false;
    }
    var rows := DropKey(db.subscriptions, SubscriptionKey, id);
    DropKeyKeyed(db.subscriptions, SubscriptionKey, id, db.nextId);
    db.WriteSubscriptions(rows, db.nextId);
    deleted := true;
  }
}
