/** Input and output shapes of the completed-program endpoints. The
    completed-exercise shapes this schema file repeats are the ones of
    `CompletedExerciseSchema`. */
module CompletedProgramSchema {
  import opened Wrappers
  import opened Zod
  import opened Store
  import opened CompletedExerciseSchema

  datatype CreateCompletedProgram = CreateCompletedProgram(
    userId: Id, programId: Id, startDate: Option<string>, endDate: Maybe<string>)

  datatype UpdateCompletedProgram = UpdateCompletedProgram(
    userId: Option<Id>, programId: Option<Id>, startDate: Option<string>, endDate: Maybe<string>)

  datatype RawCompletedProgram = RawCompletedProgram(
    id: Maybe<Id>, userId: Maybe<Id>, programId: Maybe<Id>, startDate: Maybe<string>,
    endDate: Maybe<string>)

  /** A completed program with its completed exercises and their optional details. */
  datatype CompletedProgramWithExercises = CompletedProgramWithExercises(
    program: CompletedProgram, completedExercises: seq<CompletedExerciseDetails>)

  /** The two date keys: `startDate` optional, `endDate` optional or null,
      each an ISO date-time when sent. */
  predicate DatesOk(raw: RawCompletedProgram) {
    && !raw.startDate.Null?
    && (raw.startDate.Defined? ==> IsIsoDateTime(raw.startDate.value))
    && (raw.endDate.Defined? ==> IsIsoDateTime(raw.endDate.value))
  }

  /** The create schema: owner and program required. */
  function ParseCreateCompletedProgram(raw: RawCompletedProgram): (r: Option<CreateCompletedProgram>)
    ensures r.Some? <==> raw.userId.Defined? && raw.programId.Defined? && DatesOk(raw)
    ensures r.Some? ==> && r.value.userId == raw.userId.value && r.value.programId == raw.programId.value
                        && r.value.startDate == raw.startDate.ToOption() && r.value.endDate == raw.endDate
  {
    if IsRequired(raw.userId) && IsRequired(raw.programId) && DatesOk(raw) then
      Some(CreateCompletedProgram(raw.userId.value, raw.programId.value, Optional(raw.startDate), raw.endDate))
    else None
  }

  /** The update schema: every key optional, only `endDate` nullable. */
  function ParseUpdateCompletedProgram(raw: RawCompletedProgram): (r: Option<UpdateCompletedProgram>)
    ensures r.Some? <==> !raw.userId.Null? && !raw.programId.Null? && DatesOk(raw)
    ensures r.Some? ==> && r.value.userId == raw.userId.ToOption() && r.value.programId == raw.programId.ToOption()
                        && r.value.startDate == raw.startDate.ToOption() && r.value.endDate == raw.endDate
  {
    if IsOptional(raw.userId) && IsOptional(raw.programId) && DatesOk(raw) then
      Some(UpdateCompletedProgram(Optional(raw.userId), Optional(raw.programId), Optional(raw.startDate), raw.endDate))
    else None
  }
}
