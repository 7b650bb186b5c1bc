/** The user-data table service: one profile row per user, read, created,
    updated and deleted by the owner's id. */
module UserDataService {
  import opened Wrappers
  import opened Seqs
  import opened Store
  import opened UserDataSchema

  /** `getByUserId`: the user's profile, or `None`. */
  function GetByUserId(db: Database, user: Id): (r: Option<UserData>)
    reads db
    ensures r.Some? <==> HasKey(db.userData, UserDataKey, user)
    ensures r.Some? ==> r.value in db.userData && r.value.userId == user
  {
    FindKey(db.userData, UserDataKey, user)
  }

  /** A stored profile within the bounds the input schemas enforce. */
  predicate ProfileOk(d: UserData) {
    NameOk(d.name) && AgeOk(d.age) && MeasureOk(d.weight) && MeasureOk(d.height)
  }

  /** An update payload whose supplied fields are within those bounds. */
  predicate UpdateOk(u: UpdateUserData) {
    && (u.name.Some? ==> NameOk(u.name.value))
    && (u.age.Some? ==> AgeOk(u.age.value))
    && (u.weight.Some? ==> MeasureOk(u.weight.value))
    && (u.height.Some? ==> MeasureOk(u.height.value))
  }

  /** `create`: refuses with `Conflict`, and stores nothing, when the user
      already has a profile; otherwise appends the profile, so a user never
      holds two. */
  method Create(db: Database, data: CreateUserData) returns (r: Result<UserData, DbError>)
    requires db.Valid()
    modifies db`userData
    ensures db.Valid()
    ensures r.Err? <==> HasKey(old(db.userData), UserDataKey, data.userId)
    ensures r.Err? ==> r.error == Conflict && unchanged(db)
    ensures r.Ok? ==> && r.value == UserData(data.userId, data.name, data.age, data.weight, data.height,
                                             data.fitnessGoalId, data.trainingLevel)
                      && db.userData == old(db.userData) + [r.value]
    ensures r.Ok? ==> GetByUserId(db, data.userId) == Some(r.value)
    ensures r.Ok? && NameOk(data.name) && AgeOk(data.age) && MeasureOk(data.weight) && MeasureOk(data.height)
            ==> ProfileOk(r.value)
  {
    if HasKey(db.userData, UserDataKey, data.userId) {
      return Err(Conflict);
    }
    var d := UserData(data.userId, data.name, data.age, data.weight, data.height,
                      data.fitnessGoalId, data.trainingLevel);
    var rows := db.userData + [d];
    assert UniqueKeys(rows, UserDataKey) by {
      var bound := UniqueKeysBelow(db.userData, UserDataKey);
      var bound' := if d.userId >= bound then d.userId + 1 else bound;
      KeyedRaise(db.userData, UserDataKey, bound, bound');
      KeyedAppend(db.userData, d, UserDataKey, bound', bound');
    }
    db.WriteUserData(rows);
    assert db.userData[|db.userData| - 1] == d;
    FindKeyStored(db.userData, UserDataKey, d);
    r := Ok(d);
  }

  /** The profile after `update`: each supplied field replaces the stored
      one; the owner never changes. */
  function Merge(d: UserData, u: UpdateUserData): (r: UserData)
    ensures r.userId == d.userId
    ensures r.name == u.name.GetOr(d.name) && r.age == u.age.GetOr(d.age)
    ensures r.weight == u.weight.GetOr(d.weight) && r.height == u.height.GetOr(d.height)
    ensures r.fitnessGoalId == u.fitnessGoalId.GetOr(d.fitnessGoalId)
    ensures r.trainingLevel == u.trainingLevel.GetOr(d.trainingLevel)
  {
    UserData(d.userId, u.name.GetOr(d.name), u.age.GetOr(d.age), u.weight.GetOr(d.weight),
             u.height.GetOr(d.height), u.fitnessGoalId.GetOr(d.fitnessGoalId),
             u.trainingLevel.GetOr(d.trainingLevel))
  }

  /** A validated update keeps a profile within bounds. */
  lemma MergeKeepsBounds(d: UserData, u: UpdateUserData)
    requires ProfileOk(d) && UpdateOk(u)
    ensures ProfileOk(Merge(d, u))
  {
  }

  /** Whatever the update schema accepts is within bounds. */
  lemma ParsedUpdateOk(raw: RawUserData)
    requires ParseUpdateUserData(raw).Some?
    ensures UpdateOk(ParseUpdateUserData(raw).value)
  {
  }

  /** `update`: `None` and no change when the user has no profile;
      otherwise the profile is merged with the payload in place. */
  method Update(db: Database, user: Id, u: UpdateUserData) returns (r: Option<UserData>)
    requires db.Valid()
    modifies db`userData
    ensures db.Valid()
    ensures r.None? <==> !HasKey(old(db.userData), UserDataKey, user)
    ensures r.None? ==> unchanged(db)
    ensures r.Some? ==> && r.value == Merge(old(GetByUserId(db, user)).value, u)
                        && db.userData == ReplaceKey(old(db.userData), UserDataKey, r.value)
    ensures r.Some? ==> GetByUserId(db, user) == r
  {
    var found := GetByUserId(db, user);
    if found.None? {
      return None;
    }
    var d := Merge(found.value, u);
    var rows := ReplaceKey(db.userData, UserDataKey, d);
    assert UniqueKeys(rows, UserDataKey) by {
      var bound := UniqueKeysBelow(db.userData, UserDataKey);
      ReplaceKeyKeyed(db.userData, UserDataKey, d, bound);
    }
    var j :| 0 <= j < |db.userData| && db.userData[j] == found.value;
    db.WriteUserData(rows);
    assert db.userData[j] == d;
    FindKeyStored(db.userData, UserDataKey, d);
    r := Some(d);
  }

  /** `delete`: true exactly when the user had a profile; afterwards none
      remains and the other users' profiles are kept. */
  method Delete(db: Database, user: Id) returns (deleted: bool)
    requires db.Valid()
    modifies db`userData
    ensures db.Valid()
    ensures deleted <==> HasKey(old(db.userData), UserDataKey, user)
    ensures !deleted ==> unchanged(db)
    ensures deleted ==> db.userData == DropKey(old(db.userData), UserDataKey, user)
    ensures GetByUserId(db, user).None?
  {
    if !HasKey(db.userData, UserDataKey, user) {
      return false;
    }
    var rows := DropKey(db.userData, UserDataKey, user);
    assert UniqueKeys(rows, UserDataKey) by {
      var bound := UniqueKeysBelow(db.userData, UserDataKey);
      DropKeyKeyed(db.userData, UserDataKey, user, bound);
    }
    db.WriteUserData(rows);
    deleted := true;
  }
}
