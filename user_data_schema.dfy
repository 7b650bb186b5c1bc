/** Input shapes of the user-data endpoints and their bounds. */
module UserDataSchema {
  import opened Wrappers
  import opened Store

  /** The validated profile with the owner the caller supplies. */
  datatype CreateUserData = CreateUserData(
    userId: Id, name: string, age: int, weight: int, height: int,
    fitnessGoalId: Id, trainingLevel: int)

  datatype UpdateUserData = UpdateUserData(
    name: Option<string>, age: Option<int>, weight: Option<int>, height: Option<int>,
    fitnessGoalId: Option<Id>, trainingLevel: Option<int>)

  /** A profile as it arrives in JSON; a `userId` in it is dropped. */
  datatype RawUserData = RawUserData(
    userId: Maybe<Id>, name: Maybe<string>, age: Maybe<int>, weight: Maybe<int>,
    height: Maybe<int>, fitnessGoalId: Maybe<Id>, trainingLevel: Maybe<int>)

  predicate NameOk(name: string) { |name| >= 1 }
  predicate AgeOk(age: int) { 1 <= age <= 120 }
  predicate MeasureOk(m: int) { m >= 1 }

  /** The create schema: every field required and within bounds; the owner
      comes from the caller, never from the body. */
  function ParseCreateUserData(raw: RawUserData, userId: Id): (r: Option<CreateUserData>)
    ensures r.Some? <==> && raw.name.Defined? && raw.age.Defined? && raw.weight.Defined?
                         && raw.height.Defined? && raw.fitnessGoalId.Defined? && raw.trainingLevel.Defined?
                         && NameOk(raw.name.value) && AgeOk(raw.age.value)
                         && MeasureOk(raw.weight.value) && MeasureOk(raw.height.value)
    ensures r.Some? ==> && r.value.userId == userId && r.value.name == raw.name.value
                        && r.value.age == raw.age.value && r.value.weight == raw.weight.value
                        && r.value.height == raw.height.value
                        && r.value.fitnessGoalId == raw.fitnessGoalId.value
                        && r.value.trainingLevel == raw.trainingLevel.value
  {
    if && raw.name.Defined? && raw.age.Defined? && raw.weight.Defined? && raw.height.Defined?
       && raw.fitnessGoalId.Defined? && raw.trainingLevel.Defined?
       && NameOk(raw.name.value) && AgeOk(raw.age.value)
       && MeasureOk(raw.weight.value) && MeasureOk(raw.height.value)
    then Some(CreateUserData(userId, raw.name.value, raw.age.value, raw.weight.value,
                             raw.height.value, raw.fitnessGoalId.value, raw.trainingLevel.value))
    else None
  }

  /** The update schema: each field optional, with the create bounds when sent. */
  function ParseUpdateUserData(raw: RawUserData): (r: Option<UpdateUserData>)
    ensures r.Some? <==> && !raw.name.Null? && !raw.age.Null? && !raw.weight.Null?
                         && !raw.height.Null? && !raw.fitnessGoalId.Null? && !raw.trainingLevel.Null?
                         && (raw.name.Defined? ==> NameOk(raw.name.value))
                         && (raw.age.Defined? ==> AgeOk(raw.age.value))
                         && (raw.weight.Defined? ==> MeasureOk(raw.weight.value))
                         && (raw.height.Defined? ==> MeasureOk(raw.height.value))
    ensures r.Some? ==> && r.value.name == raw.name.ToOption() && r.value.age == raw.age.ToOption()
                        && r.value.weight == raw.weight.ToOption() && r.value.height == raw.height.ToOption()
                        && r.value.fitnessGoalId == raw.fitnessGoalId.ToOption()
                        && r.value.trainingLevel == raw.trainingLevel.ToOption()
  {
    if && !raw.name.Null? && !raw.age.Null? && !raw.weight.Null? && !raw.height.Null?
       && !raw.fitnessGoalId.Null? && !raw.trainingLevel.Null?
       && (raw.name.Defined? ==> NameOk(raw.name.value))
       && (raw.age.Defined? ==> AgeOk(raw.age.value))
       && (raw.weight.Defined? ==> MeasureOk(raw.weight.value))
       && (raw.height.Defined? ==> MeasureOk(raw.height.value))
    then Some(UpdateUserData(raw.name.ToOption(), raw.age.ToOption(), raw.weight.ToOption(),
                             raw.height.ToOption(), raw.fitnessGoalId.ToOption(), raw.trainingLevel.ToOption()))
    else None
  }
}
