/** The tables the services read and write, held in memory: one sequence of
    rows per table and one id counter that hands out primary keys. */
module Store {
  import opened Wrappers
  import opened Seqs

  type Id = int
  /** A point in time; `new Date(...)` values are opaque numbers here. */
  type Timestamp = int

  /** Why a service call throws. */
  datatype DbError =
    | NotFound       // the row a call depends on is missing or not the caller's
    | Conflict       // a uniqueness rule of the service is violated
    | DuplicateKey   // an explicit primary key is already taken

  /** An exercise program; `userId == None` marks a system program. */
  datatype Program = Program(
    id: Id, userId: Option<Id>, isUserAdded: bool, name: string,
    description: string, difficultyLevelId: Id, subscriptionId: Option<Id>)

  /** A row of the program-to-fitness-goal link table. */
  datatype GoalLink = GoalLink(programId: Id, fitnessGoalId: Id)

  /** A row of the program-to-exercise table: one prescribed exercise. */
  datatype Prescription = Prescription(
    id: Id, programId: Id, exerciseId: Id, order: int, sets: int,
    reps: Option<int>, duration: Option<int>, restDuration: int)

  /** An exercise of the catalogue, with the columns the filters read. */
  datatype Exercise = Exercise(
    id: Id, name: string, categoryId: Id, muscleGroupId: Id, difficultyLevelId: Id)

  datatype PlannedProgram = PlannedProgram(id: Id, programId: Id)

  datatype PlannedDate = PlannedDate(id: Id, plannedProgramId: Id, date: Timestamp)

  datatype CompletedProgram = CompletedProgram(
    id: Id, userId: Id, programId: Id, startDate: Timestamp, endDate: Option<Timestamp>)

  datatype CompletedExercise = CompletedExercise(
    id: Id, completedProgramId: Id, programExerciseId: Option<Id>, exerciseId: Option<Id>,
    sets: int, reps: Option<int>, duration: Option<int>, weight: Option<int>,
    restDuration: Option<int>)

  datatype UserSubscription = UserSubscription(
    id: Id, userId: Id, subscriptionId: Id, startDate: Timestamp, endDate: Timestamp)

  /** A user's profile; the table is keyed by `userId` here. */
  datatype UserData = UserData(
    userId: Id, name: string, age: int, weight: int, height: int,
    fitnessGoalId: Id, trainingLevel: int)

  datatype Payment = Payment(id: Id, userId: Id, amount: int)

  function ProgramKey(p: Program): Id { p.id }
  function PrescriptionKey(p: Prescription): Id { p.id }
  function ExerciseKey(e: Exercise): Id { e.id }
  function PlannedKey(p: PlannedProgram): Id { p.id }
  function DateKey(d: PlannedDate): Id { d.id }
  function CompletedProgramKey(c: CompletedProgram): Id { c.id }
  function CompletedExerciseKey(c: CompletedExercise): Id { c.id }
  function SubscriptionKey(s: UserSubscription): Id { s.id }
  function UserDataKey(u: UserData): Id { u.userId }
  function PaymentKey(p: Payment): Id { p.id }

  /** The access rule for exercise programs: the caller's own and system ones. */
  predicate Visible(p: Program, user: Id)
    ensures p.userId.None? ==> Visible(p, user)
    ensures p.userId == Some(user) ==> Visible(p, user)
    ensures p.userId.Some? && p.userId.value != user ==> !Visible(p, user)
  {
    p.userId.None? || p.userId == Some(user)
  }

  /** The id an insert gives its row: the explicit one when supplied, else
      the counter's next value. */
  function NewKey(explicit: Option<Id>, next: Id): Id {
    if explicit.Some? then explicit.value else next
  }

  /** The counter after an insert with key `k`: past both its old value and `k`. */
  function Bump(next: Id, k: Id): (r: Id)
    ensures r > k && r >= next
  {
    if k >= next then k + 1 else next
  }

  /** Every goal link and every prescription names a stored program. */
  ghost predicate Owned(programs: seq<Program>, links: seq<GoalLink>, rows: seq<Prescription>) {
    && (forall i :: 0 <= i < |links| ==> HasKey(programs, ProgramKey, links[i].programId))
    && (forall i :: 0 <= i < |rows| ==> HasKey(programs, ProgramKey, rows[i].programId))
  }

  /** Appending a program with its own links and rows keeps every
      reference resolved. */
  lemma OwnedAppend(programs: seq<Program>, links: seq<GoalLink>, rows: seq<Prescription>,
                    p: Program, links': seq<GoalLink>, rows': seq<Prescription>)
    requires Owned(programs, links, rows)
    requires forall l :: l in links' ==> l.programId == p.id
    requires |rows'| >= |rows| && rows'[..|rows|] == rows
    requires forall j :: |rows| <= j < |rows'| ==> rows'[j].programId == p.id
    ensures Owned(programs + [p], links + links', rows')
  {
    var ps := programs + [p];
    assert HasKey(ps, ProgramKey, p.id) by {
      assert ps[|programs|] == p;
    }
    forall i | 0 <= i < |links + links'| ensures HasKey(ps, ProgramKey, (links + links')[i].programId) {
      if i < |links| {
        HasKeyGrow(programs, [p], ProgramKey, links[i].programId);
      } else {
        assert (links + links')[i] in links';
      }
    }
    forall i | 0 <= i < |rows'| ensures HasKey(ps, ProgramKey, rows'[i].programId) {
      if i < |rows| {
        assert rows'[i] == rows[i];
        HasKeyGrow(programs, [p], ProgramKey, rows[i].programId);
      }
    }
  }

  /** Replacing or dropping program `id`, its links and its rows keeps
      every reference resolved, provided the other programs stay and any
      row left naming `id` has its program. */
  lemma OwnedRestrict(programs: seq<Program>, links: seq<GoalLink>, rows: seq<Prescription>,
                      programs': seq<Program>, links': seq<GoalLink>, rows': seq<Prescription>, id: Id)
    requires Owned(programs, links, rows)
    requires forall k :: HasKey(programs, ProgramKey, k) && k != id ==> HasKey(programs', ProgramKey, k)
    requires forall l :: l in links' ==> || (l in links && l.programId != id)
                                         || (l.programId == id && HasKey(programs', ProgramKey, id))
    requires forall x :: x in rows' ==> || (x in rows && x.programId != id)
                                        || (x.programId == id && HasKey(programs', ProgramKey, id))
    ensures Owned(programs', links', rows')
  {
    forall i | 0 <= i < |links'| ensures HasKey(programs', ProgramKey, links'[i].programId) {
      assert links'[i] in links';
      if links'[i].programId != id {
        var j :| 0 <= j < |links| && links[j] == links'[i];
      }
    }
    forall i | 0 <= i < |rows'| ensures HasKey(programs', ProgramKey, rows'[i].programId) {
      assert rows'[i] in rows';
      if rows'[i].programId != id {
        var j :| 0 <= j < |rows| && rows[j] == rows'[i];
      }
    }
  }

  class Database {
    var programs: seq<Program>
    var goalLinks: seq<GoalLink>
    var prescriptions: seq<Prescription>
    var exercises: seq<Exercise>
    var fitnessGoals: set<Id>
    var planned: seq<PlannedProgram>
    var plannedDates: seq<PlannedDate>
    var completedPrograms: seq<CompletedProgram>
    var completedExercises: seq<CompletedExercise>
    var subscriptions: seq<UserSubscription>
    var userData: seq<UserData>
    var payments: seq<Payment>
    /** Above every id stored so far: the next generated primary key. */
    var nextId: Id

    /** Primary keys are unique and below the counter in every table with
        ids; each goal link and each prescription belongs to a stored
        program; each planned date belongs to a stored planned program;
        each completed exercise's parent id has been handed out; a user has
        at most one user-data row. */
    ghost predicate Valid()
      reads this
    {
      && KeyedBelow(programs, ProgramKey, nextId)
      && KeyedBelow(prescriptions, PrescriptionKey, nextId)
      && KeyedBelow(exercises, ExerciseKey, nextId)
      && KeyedBelow(planned, PlannedKey, nextId)
      && KeyedBelow(plannedDates, DateKey, nextId)
      && KeyedBelow(completedPrograms, CompletedProgramKey, nextId)
      && KeyedBelow(completedExercises, CompletedExerciseKey, nextId)
      && KeyedBelow(subscriptions, SubscriptionKey, nextId)
      && KeyedBelow(payments, PaymentKey, nextId)
      && Owned(programs, goalLinks, prescriptions)
      && (forall i :: 0 <= i < |plannedDates| ==>
            HasKey(planned, PlannedKey, plannedDates[i].plannedProgramId))
      && (forall i :: 0 <= i < |completedExercises| ==>
            completedExercises[i].completedProgramId < nextId)
      && (forall i, j :: 0 <= i < j < |userData| ==> userData[i].userId != userData[j].userId)
    }

    /** Every table's keys stay below a counter that only grows. */
    lemma RaiseCounter(next: Id)
      requires Valid() && nextId <= next
      ensures KeyedBelow(programs, ProgramKey, next)
      ensures KeyedBelow(prescriptions, PrescriptionKey, next)
      ensures KeyedBelow(exercises, ExerciseKey, next)
      ensures KeyedBelow(planned, PlannedKey, next)
      ensures KeyedBelow(plannedDates, DateKey, next)
      ensures KeyedBelow(completedPrograms, CompletedProgramKey, next)
      ensures KeyedBelow(completedExercises, CompletedExerciseKey, next)
      ensures KeyedBelow(subscriptions, SubscriptionKey, next)
      ensures KeyedBelow(payments, PaymentKey, next)
      ensures forall i :: 0 <= i < |completedExercises| ==> completedExercises[i].completedProgramId < next
    {
      KeyedRaise(programs, ProgramKey, nextId, next);
      KeyedRaise(prescriptions, PrescriptionKey, nextId, next);
      KeyedRaise(exercises, ExerciseKey, nextId, next);
      KeyedRaise(planned, PlannedKey, nextId, next);
      KeyedRaise(plannedDates, DateKey, nextId, next);
      KeyedRaise(completedPrograms, CompletedProgramKey, nextId, next);
      KeyedRaise(completedExercises, CompletedExerciseKey, nextId, next);
      KeyedRaise(subscriptions, SubscriptionKey, nextId, next);
      KeyedRaise(payments, PaymentKey, nextId, next);
    }

    /** Writes the program, link and prescription tables and the counter
        in one step, given that their keys and references are in order. */
    method WriteProgramTables(programs': seq<Program>, links': seq<GoalLink>, rows': seq<Prescription>, next': Id)
      requires Valid() && nextId <= next'
      requires KeyedBelow(programs', ProgramKey, next') && KeyedBelow(rows', PrescriptionKey, next')
      requires Owned(programs', links', rows')
      modifies this`programs, this`goalLinks, this`prescriptions, this`nextId
      ensures Valid()
      ensures programs == programs' && goalLinks == links' && prescriptions == rows' && nextId == next'
    {
      RaiseCounter(next');
      programs, goalLinks, prescriptions, nextId := programs', links', rows', next';
    }

    /** Writes the planned-program and planned-date tables and the counter
        in one step, given that keys are in order and every date has its
        planned program. */
    method WritePlannedTables(planned': seq<PlannedProgram>, dates': seq<PlannedDate>, next': Id)
      requires Valid() && nextId <= next'
      requires KeyedBelow(planned', PlannedKey, next') && KeyedBelow(dates', DateKey, next')
      requires forall i :: 0 <= i < |dates'| ==> HasKey(planned', PlannedKey, dates'[i].plannedProgramId)
      modifies this`planned, this`plannedDates, this`nextId
      ensures Valid()
      ensures planned == planned' && plannedDates == dates' && nextId == next'
    {
      RaiseCounter(next');
      planned, plannedDates, nextId := planned', dates', next';
    }

    /** Writes the completed-exercise table and the counter, given unique
        keys and parent ids that have been handed out. */
    method WriteCompletedExercises(rows': seq<CompletedExercise>, next': Id)
      requires Valid() && nextId <= next'
      requires KeyedBelow(rows', CompletedExerciseKey, next')
      requires forall i :: 0 <= i < |rows'| ==> rows'[i].completedProgramId < next'
      modifies this`completedExercises, this`nextId
      ensures Valid()
      ensures completedExercises == rows' && nextId == next'
    {
      RaiseCounter(next');
      completedExercises, nextId := rows', next';
    }

    /** Writes the completed-program table and the counter, given unique keys. */
    method WriteCompletedPrograms(rows': seq<CompletedProgram>, next': Id)
      requires Valid() && nextId <= next'
      requires KeyedBelow(rows', CompletedProgramKey, next')
      modifies this`completedPrograms, this`nextId
      ensures Valid()
      ensures completedPrograms == rows' && nextId == next'
    {
      RaiseCounter(next');
      completedPrograms, nextId := rows', next';
    }

    /** Writes the user-subscription table and the counter, given unique keys. */
    method WriteSubscriptions(rows': seq<UserSubscription>, next': Id)
      requires Valid() && nextId <= next'
      requires KeyedBelow(rows', SubscriptionKey, next')
      modifies this`subscriptions, this`nextId
      ensures Valid()
      ensures subscriptions == rows' && nextId == next'
    {
      RaiseCounter(next');
      subscriptions, nextId := rows', next';
    }

    /** Writes the payment table and the counter, given unique keys. */
    method WritePayments(rows': seq<Payment>, next': Id)
      requires Valid() && nextId <= next'
      requires KeyedBelow(rows', PaymentKey, next')
      modifies this`payments, this`nextId
      ensures Valid()
      ensures payments == rows' && nextId == next'
    {
      RaiseCounter(next');
      payments, nextId := rows', next';
    }

    /** Writes the user-data table, given at most one row per user. */
    method WriteUserData(rows': seq<UserData>)
      requires Valid()
      requires forall i, j :: 0 <= i < j < |rows'| ==> rows'[i].userId != rows'[j].userId
      modifies this`userData
      ensures Valid()
      ensures userData == rows'
    {
      userData := rows';
    }

    /** An empty store over the given exercise catalogue and fitness goals. */
    constructor (catalogue: seq<Exercise>, goals: set<Id>, next: Id)
      requires KeyedBelow(catalogue, ExerciseKey, next)
      ensures Valid()
      ensures exercises == catalogue && fitnessGoals == goals && nextId == next
      ensures programs == [] && goalLinks == [] && prescriptions == []
      ensures planned == [] && plannedDates == []
      ensures completedPrograms == [] && completedExercises == []
      ensures subscriptions == [] && userData == [] && payments == []
    {
      programs, goalLinks, prescriptions := [], [], [];
      exercises, fitnessGoals := catalogue, goals;
      planned, plannedDates := [], [];
      completedPrograms, completedExercises := [], [];
      subscriptions, userData, payments := [], [], [];
      nextId := next;
    }
  }
}
