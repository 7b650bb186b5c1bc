/** Input shapes of the exercise-program endpoints: the JSON a client sends,
    the validated values the service receives, and the zod rules between
    them (required keys, `min(1)` strings, defaults, keys that are dropped). */
module ProgramSchema {
  import opened Wrappers
  import opened Zod
  import opened Store

  /** A prescribed exercise in a create or update payload. The service reads
      an `id` from it, which no schema lets through. */
  datatype RowInput = RowInput(
    id: Option<Id>, exerciseId: Id, order: Option<int>, sets: int,
    reps: Option<int>, duration: Option<int>, restDuration: int)

  datatype CreateProgram = CreateProgram(
    id: Option<Id>, isUserAdded: Option<bool>, name: string, description: string,
    difficultyLevelId: Id, subscriptionId: Option<Id>, userId: Option<Id>,
    fitnessGoalIds: Option<seq<Id>>, exerciseIds: Option<seq<RowInput>>)

  /** Scalar fields fall back with `??`, so absent and `null` mean the same;
      `userId` and the two lists tell `null` apart from absent. */
  datatype UpdateProgram = UpdateProgram(
    isUserAdded: Option<bool>, name: Option<string>, description: Option<string>,
    difficultyLevelId: Option<Id>, subscriptionId: Option<Id>, userId: Maybe<Id>,
    fitnessGoalIds: Maybe<seq<Id>>, exerciseIds: Maybe<seq<RowInput>>)

  /** Query-string filters: comma-separated id lists. `userId` is accepted
      but never read. */
  datatype ProgramFilter = ProgramFilter(
    difficultyLevelId: Option<string>, subscriptionId: Option<string>,
    fitnessGoalId: Option<string>, userId: Option<string>)

  /** A prescription as it arrives in JSON. */
  datatype RawRow = RawRow(
    id: Maybe<Id>, exerciseId: Maybe<Id>, order: Maybe<int>, sets: Maybe<int>,
    reps: Maybe<int>, duration: Maybe<int>, restDuration: Maybe<int>)

  /** A program body as it arrives in JSON, for create and for update. */
  datatype RawProgram = RawProgram(
    id: Maybe<Id>, isUserAdded: Maybe<bool>, name: Maybe<string>, description: Maybe<string>,
    difficultyLevelId: Maybe<Id>, subscriptionId: Maybe<Id>, userId: Maybe<Id>,
    fitnessGoalIds: Maybe<seq<Id>>, exerciseIds: Maybe<seq<RawRow>>)

  /** A non-empty string: `z.string().min(1)`. */
  predicate NonEmpty(m: Maybe<string>) {
    m.Defined? && |m.value| >= 1
  }

  /** A prescription of the create schema: exercise, sets and rest are
      required; order, reps and duration are optional; `id` is dropped. */
  function ParseCreateRow(raw: RawRow): (r: Option<RowInput>)
    ensures r.Some? <==> raw.exerciseId.Defined? && raw.sets.Defined? && raw.restDuration.Defined?
                         && !raw.order.Null? && !raw.reps.Null? && !raw.duration.Null?
    ensures r.Some? ==> r.value.id.None? && r.value.exerciseId == raw.exerciseId.value
                        && r.value.sets == raw.sets.value && r.value.restDuration == raw.restDuration.value
                        && r.value.order == raw.order.ToOption() && r.value.reps == raw.reps.ToOption()
                        && r.value.duration == raw.duration.ToOption()
  {
    if IsRequired(raw.exerciseId) && IsRequired(raw.sets) && IsRequired(raw.restDuration)
       && IsOptional(raw.order) && IsOptional(raw.reps) && IsOptional(raw.duration)
    then Some(RowInput(None, raw.exerciseId.value, Optional(raw.order), raw.sets.value,
                       Optional(raw.reps), Optional(raw.duration), raw.restDuration.value))
    else None
  }

  /** A prescription of the update schema: as on create, but `order` is required. */
  function ParseUpdateRow(raw: RawRow): (r: Option<RowInput>)
    ensures r.Some? <==> ParseCreateRow(raw).Some? && raw.order.Defined?
    ensures r.Some? ==> r == ParseCreateRow(raw) && r.value.order.Some?
  {
    if raw.order.Defined? then ParseCreateRow(raw) else None
  }

  /** The create schema: non-empty name and description, a difficulty
      level; owner and subscription may be absent or null; both lists
      default to empty; `id` and `isUserAdded` are dropped. */
  function ParseCreate(raw: RawProgram): (r: Option<CreateProgram>)
    ensures r.Some? <==> && NonEmpty(raw.name) && NonEmpty(raw.description)
                         && raw.difficultyLevelId.Defined?
                         && !raw.fitnessGoalIds.Null? && !raw.exerciseIds.Null?
                         && (raw.exerciseIds.Defined? ==>
                               ParseAll(raw.exerciseIds.value, ParseCreateRow).Some?)
    ensures r.Some? ==> && r.value.id.None? && r.value.isUserAdded.None?
                        && r.value.name == raw.name.value && r.value.description == raw.description.value
                        && r.value.difficultyLevelId == raw.difficultyLevelId.value
                        && r.value.userId == raw.userId.ToOption()
                        && r.value.subscriptionId == raw.subscriptionId.ToOption()
                        && r.value.fitnessGoalIds == Some(raw.fitnessGoalIds.Coalesce([]))
                        && r.value.exerciseIds.Some?
                        && |r.value.exerciseIds.value| == (if raw.exerciseIds.Defined? then |raw.exerciseIds.value| else 0)
    ensures r.Some? && raw.exerciseIds.Defined? ==>
              forall i :: 0 <= i < |raw.exerciseIds.value| ==>
                ParseCreateRow(raw.exerciseIds.value[i]) == Some(r.value.exerciseIds.value[i])
  {
    if !(NonEmpty(raw.name) && NonEmpty(raw.description) && IsRequired(raw.difficultyLevelId)
         && IsOptional(raw.fitnessGoalIds) && IsOptional(raw.exerciseIds))
    then None
    else
      var rows := if raw.exerciseIds.Defined? then ParseAll(raw.exerciseIds.value, ParseCreateRow) else Some([]);
      if rows.None? then None
      else Some(CreateProgram(
        None, None, raw.name.value, raw.description.value, raw.difficultyLevelId.value,
        raw.subscriptionId.ToOption(), raw.userId.ToOption(),
        Some(raw.fitnessGoalIds.Coalesce([])), rows))
  }

  /** The update schema: every key optional, strings non-empty when
      present, only `userId` nullable; `isUserAdded` is dropped. */
  function ParseUpdate(raw: RawProgram): (r: Option<UpdateProgram>)
    ensures r.Some? <==> && (raw.name.Defined? ==> |raw.name.value| >= 1) && !raw.name.Null?
                         && (raw.description.Defined? ==> |raw.description.value| >= 1)
                         && !raw.description.Null?
                         && !raw.difficultyLevelId.Null? && !raw.subscriptionId.Null?
                         && !raw.fitnessGoalIds.Null? && !raw.exerciseIds.Null?
                         && (raw.exerciseIds.Defined? ==>
                               ParseAll(raw.exerciseIds.value, ParseUpdateRow).Some?)
    ensures r.Some? ==> && r.value.isUserAdded.None? && r.value.userId == raw.userId
                        && r.value.name == raw.name.ToOption()
                        && r.value.description == raw.description.ToOption()
                        && r.value.difficultyLevelId == raw.difficultyLevelId.ToOption()
                        && r.value.subscriptionId == raw.subscriptionId.ToOption()
                        && r.value.fitnessGoalIds == raw.fitnessGoalIds
                        && r.value.exerciseIds.Defined? == raw.exerciseIds.Defined?
    ensures r.Some? && raw.exerciseIds.Defined? ==>
              && |r.value.exerciseIds.value| == |raw.exerciseIds.value|
              && forall i :: 0 <= i < |raw.exerciseIds.value| ==>
                   ParseUpdateRow(raw.exerciseIds.value[i]) == Some(r.value.exerciseIds.value[i])
  {
    if !(IsOptional(raw.name) && IsOptional(raw.description) && IsOptional(raw.difficultyLevelId)
         && IsOptional(raw.subscriptionId) && IsOptional(raw.fitnessGoalIds) && IsOptional(raw.exerciseIds))
    then None
    else if (raw.name.Defined? && |raw.name.value| < 1) || (raw.description.Defined? && |raw.description.value| < 1)
    then None
    else
      var rows := if raw.exerciseIds.Defined? then ParseAll(raw.exerciseIds.value, ParseUpdateRow) else Some([]);
      if rows.None? then None
      else Some(UpdateProgram(
        None, Optional(raw.name), Optional(raw.description), Optional(raw.difficultyLevelId),
        Optional(raw.subscriptionId), raw.userId, raw.fitnessGoalIds,
        if raw.exerciseIds.Defined? then Defined(rows.value) else Undefined))
  }

  /** Through the update schema, no prescription carries an id: every row
      of a validated update payload has `id == None`. */
  lemma UpdateRowsHaveNoId(raw: RawProgram)
    requires ParseUpdate(raw).Some? && ParseUpdate(raw).value.exerciseIds.Defined?
    ensures forall i :: 0 <= i < |ParseUpdate(raw).value.exerciseIds.value| ==>
              ParseUpdate(raw).value.exerciseIds.value[i].id.None?
  {
    var rows := ParseAll(raw.exerciseIds.value, ParseUpdateRow);
    assert ParseUpdate(raw).value.exerciseIds.value == rows.value;
    forall i | 0 <= i < |rows.value| ensures rows.value[i].id.None? {
      assert ParseUpdateRow(raw.exerciseIds.value[i]) == Some(rows.value[i]);
    }
  }

  /** Nothing in the create schema asks for reps or duration: a row with
      neither is accepted. */
  lemma RowWithoutRepsOrDuration(exerciseId: Id, sets: int, rest: int)
    ensures ParseCreateRow(RawRow(Undefined, Defined(exerciseId), Undefined, Defined(sets),
                                  Undefined, Undefined, Defined(rest))).Some?
  {
  }
}
