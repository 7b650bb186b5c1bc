# Fitness backend service layer in Dafny

This project models the service layer of a fitness-tracking backend. The
services are the functions that read and write the relational tables behind
the HTTP endpoints. The model covers:

- exercise programs, with their fitness-goal links and prescribed exercises;
- planned programs and their scheduled dates;
- completed programs and completed exercises;
- user subscriptions, user profiles and payments;
- the exercise catalogue's filtered listing;
- the input schemas of those endpoints.

The database is one object, `Store.Database`, that holds one sequence of rows
per table and a single id counter. Read operations are functions that read
it. Writes are methods that modify named fields of it. Each write keeps the
invariant `Database.Valid()`:

- primary keys are unique and below the counter;
- every goal link and prescription names a stored program;
- every planned date names a stored planned program;
- every completed exercise names a completed-program id already handed out;
- a user has at most one profile row.

Multi-statement operations that the source runs in a transaction are one
method call here.

The clock and date parsing are parameters. `now: Timestamp` stands for
`new Date()`, and `parse: string -> Timestamp` stands for `new Date(str)`.
Errors the services throw are `Err(NotFound)`, `Err(Conflict)` or
`Err(DuplicateKey)` results.

Files:

- `wrappers.dfy`: `Option`, `Result` and `Maybe`. `Maybe` distinguishes a
  missing JSON key from `null`.
- `zod.dfy`: the shared zod shapes, including the ISO date-time format.
- `id_list.dfy`: comma-separated id filters, using JavaScript's `split`,
  `trim` and `parseInt` as section 19.2.5 of ECMA-262 defines them.
- `seqs.dfy` and `sorting.dfy`: `where`, `limit 1`, row-wise update, delete
  by key and `order by`, over sequences.
- `store.dfy`: the rows, the database class and its invariant.
- The `*_schema.dfy` files: the zod input schemas.
- The `*_service.dfy` files: one module per service.
- `reconcile.dfy`: how a program update reconciles its prescriptions.

Behaviour is modelled as the code is written, including these points a
reader may not expect:

- any user who can see a system program (one whose owner is null) may update
  or delete it;
- a planned program's update does not check that the new `programId` is
  visible;
- `createDate` checks only that the planned program exists, not who owns it,
  although the comment at src/plannedExerciseProgram/service.ts:337 says it
  also checks access to the parent program (the query at 338-349 does not);
- a completed-program update may hand the row to another user: the comment
  at src/userCompletedProgram/router.ts:110 overrides the owner only on
  create, and the update route (router.ts:150-159) passes `userId` through;
- the program update schema gives its exercise rows no `id`, so every
  exercise row of an update is inserted fresh;
- an unparseable fitness-goal filter matches nothing, while an unparseable
  difficulty or subscription filter is ignored;
- a subscription conflict is a plain `Error` in the source; here it is
  `Conflict`.

## Model

| member | source | states |
|---|---|---|
| Store.Visible | src/exerciseProgram/service.ts:62-66 | a system program (no owner) is visible to every caller, an owned one to its owner, and never to anyone else |
| Sorting.SortBy | src/userCompletedProgram/service.ts:18-22 | the result is ordered by the key and is a permutation of the input |
| ProgramService.GetAll | src/exerciseProgram/service.ts:19-134 | a program is listed iff it is stored, visible to the caller (own or system), passes every applicable difficulty and subscription id list, and has a required goal when a goal filter is given; each comes with its details |
| ProgramService.Assemble | src/exerciseProgram/service.ts:73-133 | each program is enriched with its details and dropped exactly when the fitness-goal post-filter rejects it |
| ProgramService.RequiredGoals | src/exerciseProgram/service.ts:105-108 | the goal post-filter applies exactly when a non-empty goal filter is given, and then holds the parsed pieces including failed ones |
| ProgramService.DifficultyFilterByIds | src/exerciseProgram/service.ts:25-34 | a difficulty filter written as a list of ids returns only programs at one of those levels, and with no subscription or goal filter it returns every visible program at one of them, with its details |
| ProgramService.UnparseableDifficultyDropped | src/exerciseProgram/service.ts:25-34 | a difficulty filter with an unparseable entry gives the same result as no difficulty filter, whatever the subscription filter is |
| ProgramService.UnparseableSubscriptionDropped | src/exerciseProgram/service.ts:36-45 | a subscription filter with an unparseable entry gives the same result as no subscription filter, whatever the difficulty filter is |
| ProgramService.Selected | src/exerciseProgram/service.ts:24-69 | a selected program is visible to the caller; with neither list filter it is selected exactly when visible; under an accepted subscription list it has a subscription in that list |
| ProgramService.HasRequiredGoal | src/exerciseProgram/service.ts:104-119 | with no goal filter every program passes; a program without goals passes only when there is no goal filter |
| ProgramService.NewProgram | src/exerciseProgram/service.ts:195-210 | the inserted row carries the payload's fields under the given id; `isUserAdded` is true only when the payload says true |
| ProgramService.WriteProgram | src/exerciseProgram/service.ts:275-291 | the merged row replaces the stored one under its id; links, prescriptions and the counter are unchanged and the store stays valid |
| ProgramService.UnparseableGoalFilterMatchesNothing | src/exerciseProgram/service.ts:47-55 | a goal filter whose entries all fail to parse excludes every program |
| ProgramService.ExercisesOf | src/exerciseProgram/service.ts:157-168 | the inner join of the program's prescriptions with the catalogue, sorted by `order`; exactly the matching pairs |
| ProgramService.JoinExercises | src/exerciseProgram/service.ts:163-166 | a pair is in the join iff its prescription and exercise are stored and the exercise id matches |
| ProgramService.GoalsOf | src/exerciseProgram/service.ts:171-180 | a goal id is listed iff the program links to it and the goal exists |
| ProgramService.Details | src/exerciseProgram/service.ts:182-189 | the program itself with its exercises in prescription order |
| ProgramService.FindVisible | src/exerciseProgram/service.ts:139-150 | finds the program with the id exactly when one is stored that the caller owns or that has no owner |
| ProgramService.GetById | src/exerciseProgram/service.ts:137-190 | `Some` iff a visible program has the id; the result is that stored program with its details |
| ProgramService.StoredProgramFound | src/exerciseProgram/service.ts:139-154 | a stored program is returned by getById to exactly the users it is visible to |
| ProgramService.LinksFor | src/exerciseProgram/service.ts:218-225 | one goal link per goal id, all pointing at the new program |
| ProgramService.PlaceRows | src/exerciseProgram/service.ts:227-243 | the payload's prescriptions are appended in order, each under its explicit id or a fresh key, with `order` defaulting to 1; an explicit id already in the table is refused; keys stay unique |
| ProgramService.Create | src/exerciseProgram/service.ts:193-247 | inserts the program (explicit id, `isUserAdded` default false), one link per goal and the prescriptions, as one step; refuses a taken explicit id and changes nothing then; a payload without ids always succeeds |
| ProgramService.Merge | src/exerciseProgram/service.ts:275-289 | `isUserAdded`, `name`, `description`, `difficultyLevelId` and `subscriptionId` each take the sent value and otherwise fall back to the stored one with `??`; the owner changes only for an owned program and only when `userId` is sent, where `null` clears it; a system program stays a system program |
| ProgramService.MergeNothing | src/exerciseProgram/service.ts:277-289 | an update with no keys leaves the program unchanged |
| ProgramService.MergeIdempotent | src/exerciseProgram/service.ts:277-289 | applying the same update twice equals applying it once |
| ProgramService.ReplaceProgram | src/exerciseProgram/service.ts:275-291 | `update ... where id`: the row with the id becomes the merged row and every other row is unchanged |
| ProgramService.Relink | src/exerciseProgram/service.ts:294-310 | after relinking, the program's links are exactly the sent goals and other programs' links are kept |
| ProgramService.WriteGoals | src/exerciseProgram/service.ts:294-310 | replacing the links leaves the program's goals equal to the sent goals that exist |
| ProgramService.WritePrescriptions | src/exerciseProgram/service.ts:313-391 | the prescriptions table becomes the reconciliation of the stored rows with the payload |
| ProgramService.WriteGoalsIfSent | src/exerciseProgram/service.ts:294-310 | the links are replaced iff `fitnessGoalIds` is sent, `null` meaning none; the other tables are untouched |
| ProgramService.WritePrescriptionsIfSent | src/exerciseProgram/service.ts:313-391 | the prescriptions are reconciled iff `exerciseIds` is sent, `null` meaning an empty payload; programs and links are untouched |
| ProgramService.Rewrite | src/exerciseProgram/service.ts:275-391 | the three writes of one update in order: the merged row, the links when sent, the reconciled prescriptions when sent |
| ProgramService.Update | src/exerciseProgram/service.ts:250-395 | `None` and no change iff the program is not visible; otherwise the row is merged; links are replaced only when `fitnessGoalIds` is sent (`null` clears them); prescriptions are reconciled only when `exerciseIds` is sent |
| ProgramService.DropProgram | src/exerciseProgram/service.ts:428-430 | exactly the programs with another id remain |
| ProgramService.DropLinks | src/exerciseProgram/service.ts:418-420 | exactly the links of other programs remain |
| ProgramService.DropPrescriptions | src/exerciseProgram/service.ts:423-425 | exactly the prescriptions of other programs remain |
| ProgramService.Delete | src/exerciseProgram/service.ts:398-433 | true iff the program is visible; then its links, its prescriptions and the row are gone; otherwise nothing changes |
| Reconcile.ExistingIds | src/exerciseProgram/service.ts:315-322 | exactly the ids of the program's stored prescriptions |
| Reconcile.Partition | src/exerciseProgram/service.ts:324-335 | a payload row goes to updates iff its id names one of the program's rows, and to inserts otherwise; matched ids are exactly the named stored ids |
| Reconcile.PartitionLast | src/exerciseProgram/service.ts:328-335 | for a matched id, the last payload row carrying it is also the last update carrying it |
| Reconcile.PartitionRows | src/exerciseProgram/service.ts:324-335 | the payload loop computes exactly `Partition` |
| Reconcile.Overwrite | src/exerciseProgram/service.ts:337-349 | an updated row keeps its id and program, takes exercise, sets and rest; takes order, reps and duration only when sent |
| Reconcile.ApplyUpdates | src/exerciseProgram/service.ts:337-349 | rows no update names are unchanged; a row named once takes that update; a row named more than once takes exercise, sets and rest from the last payload row with its id; keys and owners are unchanged |
| Reconcile.Fresh | src/exerciseProgram/service.ts:351-363 | an inserted row belongs to the program, with order defaulting to 1 and the payload's other columns |
| Reconcile.NewRows | src/exerciseProgram/service.ts:351-363 | the inserted rows in payload order with consecutive fresh keys |
| Reconcile.Referenced | src/exerciseProgram/service.ts:370-379 | exactly the prescription ids some completed exercise refers to |
| Reconcile.Doomed | src/exerciseProgram/service.ts:365-383 | a row is deleted iff it is the program's, no payload row named it, and no completed exercise refers to it |
| Reconcile.KeptRows | src/exerciseProgram/service.ts:337-389 | every stored row that is not deleted survives, possibly rewritten, under its own key |
| Reconcile.ReconcileKeyed | src/exerciseProgram/service.ts:313-391 | keys stay unique and below the advanced counter |
| Reconcile.OtherProgramsUntouched | src/exerciseProgram/service.ts:313-391 | rows of other programs are exactly preserved |
| Reconcile.UnnamedRows | src/exerciseProgram/service.ts:365-389 | a row of the program that the payload does not name is kept iff a completed exercise refers to it |
| Reconcile.NamedRows | src/exerciseProgram/service.ts:328-349 | a row the payload names stays, and when named once it holds the overwritten values |
| Reconcile.InsertedRows | src/exerciseProgram/service.ts:351-363 | every insert appears under a key not used before; the counter advances by the number of inserts |
| Reconcile.NoIdsNoUpdates | src/exerciseProgram/service.ts:328-335 | a payload without ids produces no updates and no matched ids |
| Reconcile.PayloadWithoutIds | src/exerciseProgram/service.ts:313-391 | with an id-less payload, which is all the update schema allows, the program's rows afterwards are the referenced old ones and the freshly inserted ones |
| Reconcile.ReconcileRows | src/exerciseProgram/service.ts:313-391 | the payload split, then a loop over the updates whose invariant ties the table to `ApplyUpdates` of the updates so far, then the insert and the filtered delete; the outcome is exactly `Reconcile` |
| Reconcile.PlanOf | src/exerciseProgram/service.ts:320-335 | the payload split against this program's stored rows: every payload row is an update or an insert, and every matched id is a stored row of this program (`Partition` states which row goes where) |
| Reconcile.Apply | src/exerciseProgram/service.ts:337-389 | the counter advances by the number of inserts; at most the stored rows plus the inserts remain |
| Reconcile.Reconcile | src/exerciseProgram/service.ts:313-391 | the counter advances by at most the payload's length; at most the stored rows plus the payload rows remain |
| Reconcile.ReconcileFits | src/exerciseProgram/service.ts:313-391 | reconciliation keeps keys unique and below the counter, and touches only the program's rows |
| ProgramSchema.ParseCreateRow | src/exerciseProgram/schema.ts:53-60 | a create row is accepted iff exercise, sets and rest are numbers and order, reps and duration are absent or numbers; the row carries no id |
| ProgramSchema.ParseUpdateRow | src/exerciseProgram/schema.ts:73-80 | an update row is a create row whose order is required |
| ProgramSchema.ParseCreate | src/exerciseProgram/schema.ts:46-61 | accepted iff name and description are non-empty, the difficulty is given and the lists are absent or valid; goal and exercise lists default to empty; every field is carried over, each prescription row being that row's own parse |
| ProgramSchema.ParseUpdate | src/exerciseProgram/schema.ts:66-81 | accepted iff each sent field is valid; `userId` may be null; whether lists were sent is kept; difficulty, subscription and the other fields are carried over, each prescription row being that row's own parse |
| ProgramSchema.UpdateRowsHaveNoId | src/exerciseProgram/schema.ts:73-80 | no exercise row of an accepted update carries an id |
| ProgramSchema.RowWithoutRepsOrDuration | src/exerciseProgram/schema.ts:53-60 | a row with neither reps nor duration is accepted |
| IdList.Split | src/exercise/service.ts:14 | the pieces between commas: at least one, none containing the separator |
| IdList.JoinSplit | src/exercise/service.ts:14 | joining the pieces of a split gives back the string |
| IdList.SplitJoin | src/exercise/service.ts:14 | splitting a join of comma-free pieces gives back the pieces |
| IdList.TrimStart | src/exercise/service.ts:14 | removes exactly the leading JavaScript white space |
| IdList.TrimEnd | src/exercise/service.ts:14 | removes exactly the trailing JavaScript white space |
| IdList.Trim | src/exerciseProgram/service.ts:26-28 | the result is a slice of the input with only white space cut from either end, and it neither starts nor ends with white space |
| IdList.ParseIntDecimal | src/exercise/service.ts:14 | `parseInt` reads back every decimal numeral, negative ones included |
| IdList.ParseIntNegative | src/exercise/service.ts:14 | `parseInt` of a minus sign followed by a numeral is the negated number |
| IdList.ParseIntStopsAtNonDigit | src/exercise/service.ts:14 | `parseInt` stops at the first non-digit, so "12abc" is 12 |
| IdList.ParseIntUnsigned | src/exercise/service.ts:14 | a string starting with a digit parses as an unsigned number |
| IdList.ParseInt | src/exerciseProgram/service.ts:26-28 | a number is read only when the text holds a decimal or hexadecimal digit (otherwise NaN); a leading minus never gives a positive value |
| IdList.ParseIdList | src/exercise/service.ts:14 | one parse result per comma-separated, trimmed piece |
| IdList.AcceptedIds | src/exercise/service.ts:13-17 | a filter restricts only when it is a non-empty string whose every piece parses; then it restricts to exactly those values |
| IdList.IdsQueryAccepted | src/exercise/service.ts:13-17 | a filter written as comma-joined decimal ids restricts to exactly those ids |
| IdList.AllParsedAccepted | src/exercise/service.ts:13-17 | a non-empty filter whose every piece parses restricts to exactly the parsed values |
| ExerciseService.GetAll | src/exercise/service.ts:8-40 | an exercise is returned iff it is stored and its category, muscle group and difficulty each lie in the corresponding accepted list |
| ExerciseService.Matches | src/exercise/service.ts:11-35 | with no filters every exercise matches; a matching exercise has each filtered column in that filter's accepted list |
| ExerciseService.NoFiltersAll | src/exercise/service.ts:11-13 | with no filters or only empty filter strings, the whole table is returned in table order |
| ExerciseService.UnparseableCategoryIgnored | src/exercise/service.ts:15-17 | a category filter with an unparseable piece gives the same result as no category filter |
| ExerciseService.CategoryFilterByIds | src/exercise/service.ts:13-17 | a category filter of decimal ids keeps exactly the exercises in those categories |
| ExerciseService.GetById | src/exercise/service.ts:43-50 | `Some` iff an exercise has the id, and then that stored exercise |
| PlannedService.FindPlanned | src/plannedExerciseProgram/service.ts:59-122 | finds the planned program with the id exactly when its program is visible to the caller |
| PlannedService.PlannedVisible | src/plannedExerciseProgram/service.ts:60-108 | a planned program is reachable only when its exercise program is stored, and it is reachable whenever a stored exercise program with its program id is visible to the caller |
| PlannedService.PlannedExists | src/plannedExerciseProgram/service.ts:336-349 | the `createDate` check needs only a stored planned program with an existing exercise program; every planned program a caller can reach passes it |
| PlannedService.DatesOf | src/plannedExerciseProgram/service.ts:43-46 | exactly the dates of the planned program |
| PlannedService.WithDates | src/plannedExerciseProgram/service.ts:41-53 | each planned program paired with exactly its dates |
| PlannedService.GetAll | src/plannedExerciseProgram/service.ts:17-56 | a planned program is listed iff its program is visible to the caller; each carries its dates |
| PlannedService.GetById | src/plannedExerciseProgram/service.ts:59-122 | `Some` iff `FindPlanned` finds it; the dates are those of the id |
| PlannedService.NewDates | src/plannedExerciseProgram/service.ts:155-161 | one date row per string, in order, with consecutive fresh keys and parsed dates |
| PlannedService.DateStrings | src/plannedExerciseProgram/service.ts:154-162 | a sent list of dates is inserted as sent; absent or null inserts no date |
| PlannedService.DatesAfterInsert | src/plannedExerciseProgram/service.ts:155-168 | after inserting dates for a planned program, its dates are the old ones followed by the new |
| PlannedService.FindAppended | src/plannedExerciseProgram/service.ts:144-152 | a newly appended visible planned program is found under its key |
| PlannedService.AppendPlannedFits | src/plannedExerciseProgram/service.ts:142-168 | after appending a planned program and its dates, keys stay unique below the counter, every date keeps its parent, and the new planned program is found with exactly the new dates |
| PlannedService.InsertPlanned | src/plannedExerciseProgram/service.ts:142-174 | appends the planned row and its dates; getById then returns both |
| PlannedService.Create | src/plannedExerciseProgram/service.ts:125-175 | `NotFound` and no change unless the program is visible; `DuplicateKey` for a taken explicit id; otherwise the row and its dates are stored and read back |
| PlannedService.ReplacePlanned | src/plannedExerciseProgram/service.ts:234-240 | the row with the id is replaced and every other row is unchanged |
| PlannedService.WritePlannedRow | src/plannedExerciseProgram/service.ts:234-240 | the planned row under the id takes the new value; dates and counter are unchanged and the store stays valid |
| PlannedService.DropDates | src/plannedExerciseProgram/service.ts:245-247 | exactly the dates of other planned programs remain |
| PlannedService.ReplaceDatesFits | src/plannedExerciseProgram/service.ts:243-258 | after replacing a planned program's dates, keys stay unique below the counter, every date keeps its parent, and that planned program has exactly the new dates |
| PlannedService.ReplaceDates | src/plannedExerciseProgram/service.ts:243-258 | the planned program's dates become exactly the new ones; other dates are kept |
| PlannedService.Update | src/plannedExerciseProgram/service.ts:178-271 | `None` and no change iff not reachable; `programId` falls back with `??` and is not checked; dates are replaced iff `dates` is sent (`null` clears them); the returned dates are the stored ones |
| PlannedService.DropPlanned | src/plannedExerciseProgram/service.ts:328-330 | exactly the planned programs with another id remain |
| PlannedService.DropPlannedFits | src/plannedExerciseProgram/service.ts:327-330 | deleting a planned program with its dates keeps keys unique and every date's parent stored, and leaves it no dates |
| PlannedService.Delete | src/plannedExerciseProgram/service.ts:274-333 | true iff reachable; then the planned program and its dates are gone; otherwise nothing changes |
| PlannedService.InsertDate | src/plannedExerciseProgram/service.ts:352-361 | appends one date; the parent's dates grow by exactly that date |
| PlannedService.CreateDate | src/plannedExerciseProgram/service.ts:336-364 | `NotFound` iff the planned program is not stored with an existing program, with no check of the caller; `DuplicateKey` for a taken explicit id; otherwise the date is appended |
| PlannedService.FindDate | src/plannedExerciseProgram/service.ts:369-386 | finds the date with the id exactly when its planned program is reachable by the caller |
| PlannedService.UpdatedDate | src/plannedExerciseProgram/service.ts:396 | a non-empty date string replaces the stored date; nothing else changes |
| PlannedService.ReplaceDate | src/plannedExerciseProgram/service.ts:393-399 | the date with the id is replaced and every other date is unchanged |
| PlannedService.ReplaceDateFits | src/plannedExerciseProgram/service.ts:393-399 | replacing a date keeps date keys unique and parents stored |
| PlannedService.UpdateDate | src/plannedExerciseProgram/service.ts:367-402 | `None` and no change iff the date is not reachable; otherwise it is updated in place |
| PlannedService.DropDate | src/plannedExerciseProgram/service.ts:405-436 | exactly the dates with another id remain |
| PlannedService.DropDateFits | src/plannedExerciseProgram/service.ts:405-436 | removing a date keeps keys unique and parents stored, and no date keeps the id |
| PlannedService.DeleteDate | src/plannedExerciseProgram/service.ts:405-436 | true iff the date is reachable; then no date has the id; otherwise nothing changes |
| PlannedSchema.ParseCreatePlanned | src/plannedExerciseProgram/schema.ts:34-37 | accepted iff `programId` is given and dates are absent, null or ISO date-times; missing dates default to `[]` |
| PlannedSchema.ParseUpdatePlanned | src/plannedExerciseProgram/schema.ts:42-45 | accepted iff dates are absent, null or ISO date-times; `programId` may be absent or null |
| PlannedSchema.ParseCreateDate | src/plannedExerciseProgram/schema.ts:50-53 | accepted iff the parent id is given and the date is an ISO date-time |
| PlannedSchema.ParseUpdateDate | src/plannedExerciseProgram/schema.ts:58-60 | accepted iff the date is absent or an ISO date-time |
| PlannedSchema.IsoDateTimeNonEmpty | src/plannedExerciseProgram/schema.ts:52 | a valid date-time is never the empty string |
| CompletedExerciseService.Referenced | src/userCompletedExercise/service.ts:40-50 | the left join: the referenced row when the id is non-null and names a stored row, `None` otherwise |
| CompletedExerciseService.OwnsProgram | src/userCompletedExercise/service.ts:128-141 | the caller owns the completed program exactly when a stored row has that id and that owner; such a program exists |
| CompletedExerciseService.Details | src/userCompletedExercise/service.ts:55-59 | the row with its exercise and prescription, each present iff the reference is set and resolves |
| CompletedExerciseService.ExercisesOf | src/userCompletedExercise/service.ts:51-53 | exactly the completed exercises of the completed program |
| CompletedExerciseService.DetailsOf | src/userCompletedExercise/service.ts:33-59 | exactly the program's completed exercises, each with its details |
| CompletedExerciseService.GetAllByProgram | src/userCompletedExercise/service.ts:16-60 | `None` unless the completed program is the caller's; otherwise exactly its exercises with details |
| CompletedExerciseService.FindOwned | src/userCompletedExercise/service.ts:65-87 | finds the completed exercise exactly when its completed program belongs to the caller |
| CompletedExerciseService.GetById | src/userCompletedExercise/service.ts:63-120 | `Some` iff the exercise is the caller's; then that row with its details |
| CompletedExerciseService.FindOwnedUnique | src/userCompletedExercise/service.ts:65-87 | with unique keys, the caller's stored row is what getById finds |
| CompletedExerciseService.NewCompletedExercise | src/userCompletedExercise/service.ts:146-158 | the inserted row carries the key and every payload column |
| CompletedExerciseService.InsertCompletedExercise | src/userCompletedExercise/service.ts:144-189 | appends the row; getById then returns it with its details |
| CompletedExerciseService.Create | src/userCompletedExercise/service.ts:123-191 | `NotFound` and no change unless the completed program is the caller's; `DuplicateKey` for a taken explicit id; otherwise the row is appended and read back |
| CompletedExerciseService.Merge | src/userCompletedExercise/service.ts:229-260 | reference ids change only to a sent non-null value; sets falls back; the measures take a sent value; id and parent never change |
| CompletedExerciseService.Keep | src/userCompletedExercise/service.ts:230-237 | a sent reference replaces the stored one; an absent or null one leaves it; the result is empty only when nothing was sent and nothing was stored |
| CompletedExerciseService.ReferencesNeverCleared | src/userCompletedExercise/service.ts:232-239 | a set reference stays set whatever the update sends |
| CompletedExerciseService.MergeIdempotent | src/userCompletedExercise/service.ts:229-260 | applying the same update twice equals applying it once |
| CompletedExerciseService.ReplaceCompletedExercise | src/userCompletedExercise/service.ts:229-262 | rewrites the row in place; getById then returns it with its details |
| CompletedExerciseService.Update | src/userCompletedExercise/service.ts:194-294 | `None` and no change iff not the caller's; otherwise the merged row replaces the stored one and is read back |
| CompletedExerciseService.Delete | src/userCompletedExercise/service.ts:297-329 | true iff the caller's; then no row has the id and getById is `None`; otherwise nothing changes |
| CompletedExerciseSchema.ParseCreateCompletedExercise | src/userCompletedExercise/schema.ts:23-32 | accepted iff the parent is given and the measures are absent or numbers; references may be null; sets defaults to 1; reps, duration, weight and rest duration are carried over |
| CompletedExerciseSchema.ParseUpdateCompletedExercise | src/userCompletedExercise/schema.ts:37-45 | accepted iff sets and the measures are absent or numbers; references keep absent, null and value apart; sets, reps, duration, weight and rest duration are carried over |
| CompletedExerciseSchema.NoReferenceRequired | src/userCompletedExercise/schema.ts:23-32 | a completed exercise with neither reference is accepted |
| CompletedProgramService.WithExercises | src/userCompletedProgram/service.ts:27-54 | the program with exactly its completed exercises and their details |
| CompletedProgramService.Newest | src/userCompletedProgram/service.ts:18-22 | the caller's completed programs, a permutation sorted by descending start date |
| CompletedProgramService.NewestOrder | src/userCompletedProgram/service.ts:18-22 | exactly the caller's programs, each start date at least the next one's |
| CompletedProgramService.GetAll | src/userCompletedProgram/service.ts:16-59 | exactly the caller's completed programs with their exercises, most recent start first |
| CompletedProgramService.FindOwnedProgram | src/userCompletedProgram/service.ts:171-179 | finds the completed program exactly when the caller owns it |
| CompletedProgramService.GetById | src/userCompletedProgram/service.ts:62-107 | `Some` iff the caller owns it; then the stored row with its exercises |
| CompletedProgramService.StartOf | src/userCompletedProgram/service.ts:119-121 | a given non-empty start date is parsed; a missing or empty one takes the current time |
| CompletedProgramService.ReplaceCompletedProgram | src/userCompletedProgram/service.ts:186-202 | the row under the id becomes the merged one, the counter is unchanged and the store stays valid |
| CompletedProgramService.EndOf | src/userCompletedProgram/service.ts:122-124 | an end date is set iff a non-empty string is given |
| CompletedProgramService.Create | src/userCompletedProgram/service.ts:110-160 | appends the row under a fresh key; it has no exercises yet; getById for the owner returns it |
| CompletedProgramService.NoExercisesYet | src/userCompletedProgram/service.ts:129-149 | a freshly issued id has no completed exercises |
| CompletedProgramService.Merge | src/userCompletedProgram/service.ts:188-200 | owner and program fall back with `??`; a non-empty start replaces; the end date is kept when absent, cleared by null, and parsed when a string |
| CompletedProgramService.MergeNothing | src/userCompletedProgram/service.ts:188-200 | an empty update leaves the row unchanged |
| CompletedProgramService.Update | src/userCompletedProgram/service.ts:163-236 | `None` and no change iff not the caller's; otherwise the merged row replaces the stored one; handing it to another user removes it from the caller's view |
| CompletedProgramService.NotOwnedAfterHandOver | src/userCompletedProgram/service.ts:171-179 | a row stored under another owner is not the caller's |
| CompletedProgramService.Delete | src/userCompletedProgram/service.ts:239-261 | true iff the caller's; then the row is gone for every user, with no cascade to its exercises |
| CompletedProgramSchema.ParseCreateCompletedProgram | src/userCompletedProgram/schema.ts:32-37 | accepted iff owner and program are given and the dates are absent or ISO, with the end date also nullable |
| CompletedProgramSchema.ParseUpdateCompletedProgram | src/userCompletedProgram/schema.ts:42-47 | accepted iff owner and program are absent or numbers and the dates are valid; the end date keeps absent and null apart |
| SubscriptionService.GetByUserId | src/user-subscription/service.ts:7-14 | exactly the user's subscriptions |
| SubscriptionService.GetById | src/user-subscription/service.ts:16-27 | `Some` iff a row has the id, and then that row |
| SubscriptionService.NewSubscription | src/user-subscription/service.ts:49-52 | the inserted row: the explicit or a fresh key, owner and plan, start date defaulting to now, parsed end date |
| SubscriptionService.HasActive | src/user-subscription/service.ts:30-47 | an active subscription exists exactly when the rows of that user and plan contain one ending after now |
| SubscriptionService.Create | src/user-subscription/service.ts:29-55 | `Conflict` and no change iff the user holds a subscription to the plan ending after now; `DuplicateKey` for a taken explicit id; otherwise the row is appended and read back |
| SubscriptionService.ActiveBlocksSecond | src/user-subscription/service.ts:41-47 | once an active subscription is stored, a second create of the same plan at that moment conflicts |
| SubscriptionService.EndedDoesNotBlock | src/user-subscription/service.ts:41-47 | a subscription ended by now does not block a new one |
| SubscriptionService.Merge | src/user-subscription/service.ts:57-62 | each sent field replaces the stored one; the id is kept |
| SubscriptionService.MergeNothing | src/user-subscription/service.ts:57-62 | an empty update leaves the row unchanged |
| SubscriptionService.Update | src/user-subscription/service.ts:57-69 | `None` and no change iff no row has the id; otherwise the merged row replaces it and is read back |
| SubscriptionService.Delete | src/user-subscription/service.ts:71-78 | true iff a row had the id; afterwards none has it; otherwise nothing changes |
| PaymentService.GetByUserId | src/user-payment/service.ts:7-14 | exactly the user's payments |
| PaymentService.GetById | src/user-payment/service.ts:16-27 | `Some` iff a row has the id, and then that row |
| PaymentService.Create | src/user-payment/service.ts:29-40 | stores user and amount under the supplied non-null id or a fresh key; a taken explicit id is refused with no change; the row is read back |
| PaymentService.Merge | src/user-payment/service.ts:42-47 | each sent field replaces the stored one; the id is kept |
| PaymentService.MergeIdempotent | src/user-payment/service.ts:42-47 | applying the same update twice equals applying it once |
| PaymentService.Update | src/user-payment/service.ts:42-54 | `None` and no change iff no row has the id; otherwise the merged row replaces it and is read back |
| PaymentService.Delete | src/user-payment/service.ts:56-63 | true iff a row had the id; afterwards none has it; otherwise nothing changes |
| UserDataService.GetByUserId | src/user-data/service.ts:7-18 | `Some` iff the user has a profile, and then that row |
| UserDataService.Create | src/user-data/service.ts:20-32 | `Conflict` and no change iff the user already has a profile; otherwise it is appended, so a user never has two; a profile within the schema bounds is stored within bounds |
| UserDataService.Merge | src/user-data/service.ts:34-40 | each sent field replaces the stored one; the owner never changes |
| UserDataService.MergeKeepsBounds | src/user-data/schema.ts:10-22 | a validated update keeps a profile within the schema bounds |
| UserDataService.ParsedUpdateOk | src/user-data/schema.ts:22 | whatever the update schema accepts is within the bounds |
| UserDataService.Update | src/user-data/service.ts:34-46 | `None` and no change iff the user has no profile; otherwise the merged profile replaces it and is read back |
| UserDataService.Delete | src/user-data/service.ts:48-55 | true iff the user had a profile; afterwards none remains; other users' profiles are kept |
| UserDataSchema.ParseCreateUserData | src/user-data/schema.ts:9-20 | accepted iff every field is given, the name is non-empty, age is in 1..120, and weight and height are at least 1; the owner comes from the caller, and every field, `fitnessGoalId` and `trainingLevel` included, is carried over |
| UserDataSchema.ParseUpdateUserData | src/user-data/schema.ts:22 | accepted iff each sent field meets the same bounds; every field, `fitnessGoalId` and `trainingLevel` included, is carried over as sent or absent |

## Left out

- Routers, authentication, JWT handling and HTTP validation are not modelled. The routers override `userId` with the caller's id and check ownership of subscriptions and payments before calling the services; here the services are called directly.
- The reference-data services (difficulty levels, muscle groups, fitness goals, categories, subscription plans) are not modelled. The fitness-goal table is only a set of ids used by the inner join.
- Storage constraints and cascades of the database schema are not part of this model (src/db/schema.ts is not among the files modelled). Unique primary keys and the references in `Valid()` are assumptions. An explicit id that is already taken gives `DuplicateKey`. Deleting a planned program deletes its dates, which stands for the cascade the source relies on. Deleting a completed program leaves its exercises in place, unreachable.
- Column defaults are assumptions: `order` defaults to 1, `isUserAdded` to false, subscription and completed-program start dates to the current time, and nullable columns to null.
- The id counter: a generated key is the counter's value, and an explicit key moves the counter past itself. A database sequence would not move, so a later generated key could collide; the model does not show that collision.
- `ProgramService.Delete`: the program delete removes prescriptions even when completed exercises still refer to them. This is what the source does when no foreign key restrains it.
- JavaScript numbers are unbounded integers. Fractional numbers, `NaN` in stored columns and the 32-bit range of integer columns are not modelled.
- `zod` date-time validation is modelled by its shape (digits, separators, `Z`). Calendar validity, such as the month range, is not checked. `new Date(str)` is the `parse` parameter and the clock is the `now` parameter.
- The order of SQL results without `order by` is unspecified. Lists are modelled in table order, and contracts speak of membership. Results with `order by` (prescription order, newest completed program first) are modelled by a stable insertion sort.
- `SubscriptionService.Update`, `PaymentService.Update`: the partial update schemas would also accept a new `id`, which rewrites the primary key; the payloads here carry no `id`, so a key rewrite is not modelled.
- `CompletedExerciseService.GetById`, `CompletedExerciseService.Create`, `CompletedExerciseService.Update`: the branches taken when the detail query returns no row cannot happen once the row exists, so they are not modelled.
- `ProgramService.GetAll` and `PlannedService.GetAll`: the `userId` query filter is parsed by the schema but never used by the service, so it is not modelled.
- `SubscriptionService.Merge`, `PaymentService.Merge`, `UserDataService.Merge`, `PaymentService.MergeIdempotent`, `SubscriptionService.MergeNothing`, `CompletedProgramService.MergeNothing`, `ProgramService.MergeNothing`, `CompletedExerciseService.MergeIdempotent`, `UserDataService.MergeKeepsBounds`, `UserDataService.ParsedUpdateOk`: these field-level facts follow from the definitions, and Dafny proves them without further proof text.
- `Reconcile.ApplyUpdates`: when the payload names one stored id twice, both updates run in payload order and the id counts as matched. For exercise, sets and rest the later row wins; order, reps and duration keep the earlier row's value when the later row leaves them out. The contract states the exercise, sets and rest fields for such a row, and states the whole row only for an id named once.
- Column writes of `undefined`: the model assumes that the database layer leaves a column unchanged when an update sets it to `undefined`. `CompletedExerciseService.Keep`, `Reconcile.Overwrite` and every `Merge` rely on this. An update in which every value is `undefined` becomes an empty `set`, which some versions of the query builder reject; the model treats it as a write that changes nothing.
- Concurrency: each service call is one atomic step; interleavings of concurrent requests are not modelled.
