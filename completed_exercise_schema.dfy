/** Input and output shapes of the completed-exercise endpoints. */
module CompletedExerciseSchema {
  import opened Wrappers
  import opened Zod
  import opened Store

  datatype CreateCompletedExercise = CreateCompletedExercise(
    id: Option<Id>, completedProgramId: Id, programExerciseId: Option<Id>,
    exerciseId: Option<Id>, sets: int, reps: Option<int>, duration: Option<int>,
    weight: Option<int>, restDuration: Option<int>)

  /** Only the two reference ids may be sent as `null`. */
  datatype UpdateCompletedExercise = UpdateCompletedExercise(
    programExerciseId: Maybe<Id>, exerciseId: Maybe<Id>, sets: Option<int>,
    reps: Option<int>, duration: Option<int>, weight: Option<int>, restDuration: Option<int>)

  datatype RawCompletedExercise = RawCompletedExercise(
    id: Maybe<Id>, completedProgramId: Maybe<Id>, programExerciseId: Maybe<Id>,
    exerciseId: Maybe<Id>, sets: Maybe<int>, reps: Maybe<int>, duration: Maybe<int>,
    weight: Maybe<int>, restDuration: Maybe<int>)

  /** A completed exercise with the catalogue exercise and the prescription
      it refers to, each `None` where the reference is null or dangling. */
  datatype CompletedExerciseDetails = CompletedExerciseDetails(
    row: CompletedExercise, exercise: Option<Exercise>, programExercise: Option<Prescription>)

  /** The measured values a client may leave out. */
  predicate MeasuresOk(raw: RawCompletedExercise) {
    !raw.reps.Null? && !raw.duration.Null? && !raw.weight.Null? && !raw.restDuration.Null?
  }

  /** The create schema: the completed program is required, both reference
      ids are optional or null with no rule that one be given, `sets`
      defaults to 1; `id` is dropped. */
  function ParseCreateCompletedExercise(raw: RawCompletedExercise): (r: Option<CreateCompletedExercise>)
    ensures r.Some? <==> raw.completedProgramId.Defined? && !raw.sets.Null? && MeasuresOk(raw)
    ensures r.Some? ==> && r.value.id.None?
                        && r.value.completedProgramId == raw.completedProgramId.value
                        && r.value.programExerciseId == raw.programExerciseId.ToOption()
                        && r.value.exerciseId == raw.exerciseId.ToOption()
                        && r.value.sets == raw.sets.Coalesce(1)
                        && r.value.reps == raw.reps.ToOption() && r.value.duration == raw.duration.ToOption()
                        && r.value.weight == raw.weight.ToOption()
                        && r.value.restDuration == raw.restDuration.ToOption()
  {
    if IsRequired(raw.completedProgramId) && IsOptional(raw.sets) && MeasuresOk(raw) then
      Some(CreateCompletedExercise(
        None, raw.completedProgramId.value, raw.programExerciseId.ToOption(),
        raw.exerciseId.ToOption(), raw.sets.Coalesce(1), Optional(raw.reps),
        Optional(raw.duration), Optional(raw.weight), Optional(raw.restDuration)))
    else None
  }

  /** The update schema: every key optional; only the reference ids nullable. */
  function ParseUpdateCompletedExercise(raw: RawCompletedExercise): (r: Option<UpdateCompletedExercise>)
    ensures r.Some? <==> !raw.sets.Null? && MeasuresOk(raw)
    ensures r.Some? ==> && r.value.programExerciseId == raw.programExerciseId
                        && r.value.exerciseId == raw.exerciseId
                        && r.value.sets == raw.sets.ToOption() && r.value.reps == raw.reps.ToOption()
                        && r.value.duration == raw.duration.ToOption()
                        && r.value.weight == raw.weight.ToOption()
                        && r.value.restDuration == raw.restDuration.ToOption()
  {
    if IsOptional(raw.sets) && MeasuresOk(raw) then
      Some(UpdateCompletedExercise(
        raw.programExerciseId, raw.exerciseId, Optional(raw.sets), Optional(raw.reps),
        Optional(raw.duration), Optional(raw.weight), Optional(raw.restDuration)))
    else None
  }

  /** Neither reference is required: a completed exercise naming neither a
      prescription nor a catalogue exercise is accepted. */
  lemma NoReferenceRequired(completedProgramId: Id)
    ensures var raw := RawCompletedExercise(Undefined, Defined(completedProgramId), Null, Undefined,
                                            Undefined, Undefined, Undefined, Undefined, Undefined);
            ParseCreateCompletedExercise(raw).Some?
            && ParseCreateCompletedExercise(raw).value.programExerciseId.None?
            && ParseCreateCompletedExercise(raw).value.exerciseId.None?
            && ParseCreateCompletedExercise(raw).value.sets == 1
  {
  }
}
