/** The exercise-program service: programs visible to a user with their
    prescribed exercises and fitness goals, filtered listing, and create,
    update and delete over the program, link and prescription tables. */
module ProgramService {
  import opened Wrappers
  import opened Seqs
  import opened Sorting
  import opened Store
  import opened IdList
  import opened ProgramSchema
  import opened Reconcile

  /** A catalogue exercise together with the prescription that names it. */
  datatype ExerciseInProgram = ExerciseInProgram(exercise: Exercise, programExercise: Prescription)

  /** A program with its exercises, in prescription order, and the ids of its goals. */
  datatype ProgramDetails = ProgramDetails(
    program: Program, exercises: seq<ExerciseInProgram>, fitnessGoals: seq<Id>)

  function OrderKey(x: ExerciseInProgram): int {
    x.programExercise.order
  }

  /** `p` paired with each exercise of `es`. */
  function Pairs(p: Prescription, es: seq<Exercise>): (r: seq<ExerciseInProgram>)
    ensures forall x :: x in r <==> x.programExercise == p && x.exercise in es
  {
    if es == [] then []
    else
      assert es == [es[0]] + es[1..];
      [ExerciseInProgram(es[0], p)] + Pairs(p, es[1..])
  }

  /** The inner join of prescriptions with the catalogue on the exercise id. */
  function JoinExercises(rows: seq<Prescription>, catalogue: seq<Exercise>): (r: seq<ExerciseInProgram>)
    ensures forall x :: x in r <==> x.programExercise in rows && x.exercise in catalogue
                                    && x.exercise.id == x.programExercise.exerciseId
  {
    if rows == [] then []
    else
      assert rows == [rows[0]] + rows[1..];
      Pairs(rows[0], Filter(catalogue, (e: Exercise) => e.id == rows[0].exerciseId))
        + JoinExercises(rows[1..], catalogue)
  }

  /** The program's exercises, ordered by the prescriptions' `order`. */
  function ExercisesOf(db: Database, programId: Id): (r: seq<ExerciseInProgram>)
    reads db
    ensures SortedBy(r, OrderKey)
    ensures forall x :: x in r <==> && x.programExercise in db.prescriptions
                                    && x.programExercise.programId == programId
                                    && x.exercise in db.exercises
                                    && x.exercise.id == x.programExercise.exerciseId
  {
    var joined := JoinExercises(Filter(db.prescriptions, (p: Prescription) => p.programId == programId), db.exercises);
    var r := SortBy(joined, OrderKey);
    assert forall x :: x in r <==> x in multiset(r);
    r
  }

  /** The ids of the program's linked goals that exist in the goal table. */
  function GoalsOf(db: Database, programId: Id): (r: seq<Id>)
    reads db
    ensures forall g :: g in r <==> GoalLink(programId, g) in db.goalLinks && g in db.fitnessGoals
  {
    var goals := db.fitnessGoals;
    var links := Filter(db.goalLinks, (l: GoalLink) => l.programId == programId && l.fitnessGoalId in goals);
    var r := MapRows(links, (l: GoalLink) => l.fitnessGoalId);
    assert forall g :: GoalLink(programId, g) in db.goalLinks && g in db.fitnessGoals ==> g in r by {
      forall g | GoalLink(programId, g) in db.goalLinks && g in db.fitnessGoals ensures g in r {
        var i :| 0 <= i < |links| && links[i] == GoalLink(programId, g);
        assert r[i] == g;
      }
    }
    r
  }

  function Details(db: Database, p: Program): (d: ProgramDetails)
    reads db
    ensures d.program == p && SortedBy(d.exercises, OrderKey)
  {
    ProgramDetails(p, ExercisesOf(db, p.id), GoalsOf(db, p.id))
  }

  /** The access check of `getById`, `update` and `delete`: the program with
      the id, when the user may see it. */
  function FindVisible(programs: seq<Program>, id: Id, user: Id): (r: Option<Program>)
    ensures r.Some? <==> exists i :: 0 <= i < |programs| && programs[i].id == id && Visible(programs[i], user)
    ensures r.Some? ==> r.value in programs && r.value.id == id && Visible(r.value, user)
  {
    FirstWhere(programs, (p: Program) => p.id == id && Visible(p, user))
  }

  /** `getById`: the program with its details when it exists and is
      visible to the user, `None` otherwise. */
  function GetById(db: Database, id: Id, user: Id): (r: Option<ProgramDetails>)
    reads db
    ensures r.Some? <==> exists i :: 0 <= i < |db.programs| && db.programs[i].id == id && Visible(db.programs[i], user)
    ensures r.Some? ==> && r.value.program in db.programs && r.value.program.id == id
                        && Visible(r.value.program, user) && r.value == Details(db, r.value.program)
  {
    match FindVisible(db.programs, id, user)
    case Some(p) => Some(Details(db, p))
    case None => None
  }

  /** With unique keys, `getById` finds a stored program exactly for the
      users who may see it. */
  lemma StoredProgramFound(db: Database, p: Program)
    requires KeyedBelow(db.programs, ProgramKey, db.nextId) && p in db.programs
    ensures forall user :: GetById(db, p.id, user).Some? <==> Visible(p, user)
  {
    forall user ensures GetById(db, p.id, user).Some? <==> Visible(p, user) {
      if GetById(db, p.id, user).Some? {
        var q := GetById(db, p.id, user).value.program;
        var i :| 0 <= i < |db.programs| && db.programs[i] == p;
        var j :| 0 <= j < |db.programs| && db.programs[j] == q;
        assert ProgramKey(db.programs[i]) == ProgramKey(db.programs[j]);
      }
    }
  }

  /** The goal ids a fitness-goal filter asks for: present whenever the
      filter string is non-empty, with unparseable entries kept as `None`. */
  function RequiredGoals(filter: Option<string>): (r: Option<seq<Option<int>>>)
    ensures r.Some? <==> filter.Some? && filter.value != []
    ensures r.Some? ==> r.value == ParseIdList(filter.value)
  {
    if filter.Some? && filter.value != [] then Some(ParseIdList(filter.value)) else None
  }

  /** The post-filter: some goal of the program is in the required list. */
  predicate HasRequiredGoal(goals: seq<Id>, required: Option<seq<Option<int>>>)
    ensures required.None? ==> HasRequiredGoal(goals, required)
    ensures goals == [] ==> (HasRequiredGoal(goals, required) <==> required.None?)
  {
    required.None? || exists g :: g in goals && Some(g) in required.value
  }

  /** The `where` clause of `getAll`: visible, and in every list filter that
      applies; a program without a subscription never passes the
      subscription filter. */
  predicate Selected(p: Program, user: Id, filters: ProgramFilter)
    ensures Selected(p, user, filters) ==> Visible(p, user)
    ensures filters.difficultyLevelId.None? && filters.subscriptionId.None? ==> (Selected(p, user, filters) <==> Visible(p, user))
    ensures Selected(p, user, filters) && AcceptedIds(filters.subscriptionId).Some? ==>
              p.subscriptionId.Some? && p.subscriptionId.value in AcceptedIds(filters.subscriptionId).value
  {
    var levels := AcceptedIds(filters.difficultyLevelId);
    var subscriptions := AcceptedIds(filters.subscriptionId);
    && Visible(p, user)
    && Admits(levels, p.difficultyLevelId)
    && (subscriptions.None? || (p.subscriptionId.Some? && p.subscriptionId.value in subscriptions.value))
  }

  /** Details for each program, dropping those the goal filter rejects. */
  function Assemble(db: Database, ps: seq<Program>, required: Option<seq<Option<int>>>): (r: seq<ProgramDetails>)
    reads db
    ensures forall d :: d in r <==> d.program in ps && d == Details(db, d.program)
                                    && HasRequiredGoal(d.fitnessGoals, required)
  {
    if ps == [] then []
    else
      assert ps == [ps[0]] + ps[1..];
      var d := Details(db, ps[0]);
      var rest := Assemble(db, ps[1..], required);
      if HasRequiredGoal(d.fitnessGoals, required) then [d] + rest else rest
  }

  /** `getAll`: the selected programs, each with its details, that pass the
      fitness-goal filter. */
  function GetAll(db: Database, user: Id, filters: ProgramFilter): (r: seq<ProgramDetails>)
    reads db
    ensures forall d :: d in r <==> && d.program in db.programs && Selected(d.program, user, filters)
                                    && d == Details(db, d.program)
                                    && HasRequiredGoal(GoalsOf(db, d.program.id), RequiredGoals(filters.fitnessGoalId))
  {
    Assemble(db, Filter(db.programs, (p: Program) => Selected(p, user, filters)), RequiredGoals(filters.fitnessGoalId))
  }

  /** A difficulty filter written as a list of ids returns only programs at
      one of those levels; with no other filter, it returns every visible
      program at one of them. */
  lemma DifficultyFilterByIds(db: Database, user: Id, ids: seq<int>, rest: ProgramFilter)
    requires |ids| >= 1
    ensures forall d :: d in GetAll(db, user, rest.(difficultyLevelId := Some(IdsQuery(ids)))) ==>
              d.program.difficultyLevelId in ids
    ensures rest.subscriptionId.None? && rest.fitnessGoalId.None? ==>
              forall p :: p in db.programs && Visible(p, user) && p.difficultyLevelId in ids ==>
                Details(db, p) in GetAll(db, user, rest.(difficultyLevelId := Some(IdsQuery(ids))))
  {
    IdsQueryAccepted(ids);
  }

  /** A difficulty filter with an unparseable entry is dropped: the listing
      holds the same programs as without it, whatever the other filters say. */
  lemma UnparseableDifficultyDropped(db: Database, user: Id, filters: ProgramFilter, levels: string)
    requires exists i :: 0 <= i < |ParseIdList(levels)| && ParseIdList(levels)[i].None?
    ensures forall d :: d in GetAll(db, user, filters.(difficultyLevelId := Some(levels)))
                    <==> d in GetAll(db, user, filters.(difficultyLevelId := None))
  {
    var f1 := filters.(difficultyLevelId := Some(levels));
    var f2 := filters.(difficultyLevelId := None);
    assert AcceptedIds(Some(levels)).None?;
    assert forall p :: Selected(p, user, f1) == Selected(p, user, f2);
  }

  /** A subscription filter with an unparseable entry is dropped: the
      listing holds the same programs as without it, whatever the other
      filters say. */
  lemma UnparseableSubscriptionDropped(db: Database, user: Id, filters: ProgramFilter, subscriptions: string)
    requires exists i :: 0 <= i < |ParseIdList(subscriptions)| && ParseIdList(subscriptions)[i].None?
    ensures forall d :: d in GetAll(db, user, filters.(subscriptionId := Some(subscriptions)))
                    <==> d in GetAll(db, user, filters.(subscriptionId := None))
  {
    var f1 := filters.(subscriptionId := Some(subscriptions));
    var f2 := filters.(subscriptionId := None);
    assert AcceptedIds(Some(subscriptions)).None?;
    assert forall p :: Selected(p, user, f1) == Selected(p, user, f2);
  }

  /** Unlike the other filters, a fitness-goal filter whose entries all fail
      to parse is not dropped: it matches no program. */
  lemma UnparseableGoalFilterMatchesNothing(db: Database, user: Id, filters: ProgramFilter)
    requires filters.fitnessGoalId.Some? && filters.fitnessGoalId.value != []
    requires forall i :: 0 <= i < |ParseIdList(filters.fitnessGoalId.value)| ==>
               ParseIdList(filters.fitnessGoalId.value)[i].None?
    ensures forall d :: d !in GetAll(db, user, filters)
  {
  }

  /** The program row `create` inserts; `isUserAdded` takes its column
      default when the input leaves it out. */
  function NewProgram(id: Id, data: CreateProgram): (r: Program)
    ensures r.id == id && r.userId == data.userId
    ensures r.isUserAdded <==> data.isUserAdded == Some(true)
    ensures r.name == data.name && r.description == data.description
    ensures r.difficultyLevelId == data.difficultyLevelId && r.subscriptionId == data.subscriptionId
  {
    Program(id, data.userId, data.isUserAdded.GetOr(false), data.name, data.description,
            data.difficultyLevelId, data.subscriptionId)
  }

  /** One link row per goal id of the payload. */
  function LinksFor(programId: Id, goals: seq<Id>): (r: seq<GoalLink>)
    ensures |r| == |goals|
    ensures forall l :: l in r <==> l.programId == programId && l.fitnessGoalId in goals
  {
    var r := MapRows(goals, (g: Id) => GoalLink(programId, g));
    assert forall g :: g in goals ==> GoalLink(programId, g) in r by {
      forall g | g in goals ensures GoalLink(programId, g) in r {
        var i :| 0 <= i < |goals| && goals[i] == g;
        assert r[i] == GoalLink(programId, g);
      }
    }
    r
  }

  /** The prescription rows of a create payload, appended to the table one
      by one; an explicit id that is already taken aborts the insert. */
  datatype Placed = Placed(rows: seq<Prescription>, next: Id)

  function PlaceRows(table: seq<Prescription>, programId: Id, xs: seq<RowInput>, next: Id): (r: Result<Placed, DbError>)
    requires KeyedBelow(table, PrescriptionKey, next)
    ensures r.Ok? ==> && |r.value.rows| == |table| + |xs| && r.value.rows[..|table|] == table
                      && r.value.next >= next
    ensures r.Ok? ==> forall i :: 0 <= i < |xs| ==>
              var row := r.value.rows[|table| + i];
              row == Fresh(programId, xs[i], row.id) && (xs[i].id.Some? ==> row.id == xs[i].id.value)
    ensures r.Ok? ==> KeyedBelow(r.value.rows, PrescriptionKey, r.value.next)
    ensures r.Ok? ==> forall j :: |table| <= j < |r.value.rows| ==> r.value.rows[j].programId == programId
    ensures r.Err? ==> r.error == DuplicateKey && exists i :: 0 <= i < |xs| && xs[i].id.Some?
    ensures (exists i :: 0 <= i < |xs| && xs[i].id.Some? && HasKey(table, PrescriptionKey, xs[i].id.value)) ==> r.Err?
    decreases |xs|
  {
    if xs == [] then Ok(Placed(table, next))
    else
      var init := xs[..|xs| - 1];
      var x := xs[|xs| - 1];
      match PlaceRows(table, programId, init, next)
      case Err(e) => Err(e)
      case Ok(placed) =>
        var k := NewKey(x.id, placed.next);
        if HasKey(placed.rows, PrescriptionKey, k) then Err(DuplicateKey)
        else
          var rows := placed.rows + [Fresh(programId, x, k)];
          assert rows[..|table|] == placed.rows[..|table|];
          assert forall j :: |table| <= j < |placed.rows| ==> rows[j] == placed.rows[j];
          assert forall i :: 0 <= i < |xs| - 1 ==> xs[i] == init[i];
          Ok(Placed(rows, Bump(placed.next, k)))
  }

  /** `create`: inserts the program, its goal links and its prescriptions
      in one transaction and returns the bare program row. */
  method Create(db: Database, data: CreateProgram) returns (r: Result<Program, DbError>)
    requires db.Valid()
    modifies db`programs, db`goalLinks, db`prescriptions, db`nextId
    ensures db.Valid()
    ensures var k := NewKey(data.id, old(db.nextId));
            var placed := PlaceRows(old(db.prescriptions), k, data.exerciseIds.GetOr([]), Bump(old(db.nextId), k));
            && (r.Err? <==> HasKey(old(db.programs), ProgramKey, k) || placed.Err?)
            && (r.Ok? ==> && r.value == NewProgram(k, data)
                          && db.programs == old(db.programs) + [r.value]
                          && db.goalLinks == old(db.goalLinks) + LinksFor(k, data.fitnessGoalIds.GetOr([]))
                          && db.prescriptions == placed.value.rows && db.nextId == placed.value.next)
    ensures r.Err? ==> r.error == DuplicateKey && unchanged(db)
    ensures data.id.None? && (forall i :: 0 <= i < |data.exerciseIds.GetOr([])| ==> data.exerciseIds.GetOr([])[i].id.None?)
            ==> r.Ok?
  {
    var k := NewKey(data.id, db.nextId);
    if HasKey(db.programs, ProgramKey, k) {
      return Err(DuplicateKey);
    }
    var next := Bump(db.nextId, k);
    KeyedRaise(db.prescriptions, PrescriptionKey, db.nextId, next);
    var placed := PlaceRows(db.prescriptions, k, data.exerciseIds.GetOr([]), next);
    if placed.Err? {
      return Err(DuplicateKey);
    }
    var program := NewProgram(k, data);
    var programs := db.programs + [program];
    var links := db.goalLinks + LinksFor(k, data.fitnessGoalIds.GetOr([]));
    var rows := placed.value.rows;
    KeyedAppend(db.programs, program, ProgramKey, next, placed.value.next);
    OwnedAppend(db.programs, db.goalLinks, db.prescriptions, program, LinksFor(k, data.fitnessGoalIds.GetOr([])), rows);
    db.WriteProgramTables(programs, links, rows, placed.value.next);
    r := Ok(program);
  }

  /** The row `update` writes: each scalar field falls back to the stored
      value with `??`; the owner is rewritten only on a program that has
      one, and only when the payload sends the key. */
  function Merge(p: Program, u: UpdateProgram): (r: Program)
    ensures r.id == p.id
    ensures p.userId.None? ==> r.userId.None?
    ensures p.userId.Some? && u.userId.Null? ==> r.userId.None?
    ensures p.userId.Some? && u.userId.Defined? ==> r.userId == Some(u.userId.value)
    ensures u.userId.Undefined? ==> r.userId == p.userId
    ensures r.isUserAdded == u.isUserAdded.GetOr(p.isUserAdded)
    ensures r.name == u.name.GetOr(p.name)
    ensures r.description == u.description.GetOr(p.description)
    ensures r.difficultyLevelId == u.difficultyLevelId.GetOr(p.difficultyLevelId)
    ensures r.subscriptionId == if u.subscriptionId.Some? then u.subscriptionId else p.subscriptionId
  {
    Program(p.id,
            if p.userId.Some? && !u.userId.Undefined? then u.userId.ToOption() else p.userId,
            u.isUserAdded.GetOr(p.isUserAdded), u.name.GetOr(p.name), u.description.GetOr(p.description),
            u.difficultyLevelId.GetOr(p.difficultyLevelId),
            if u.subscriptionId.Some? then u.subscriptionId else p.subscriptionId)
  }

  /** An update that sends no key leaves the program as it is. */
  lemma MergeNothing(p: Program)
    ensures Merge(p, UpdateProgram(None, None, None, None, None, Undefined, Undefined, Undefined)) == p
  {
  }

  /** Sending the same update twice changes nothing the second time. */
  lemma MergeIdempotent(p: Program, u: UpdateProgram)
    ensures Merge(Merge(p, u), u) == Merge(p, u)
  {
  }

  /** The program table with the row whose id is `p.id` replaced by `p`. */
  function ReplaceProgram(programs: seq<Program>, p: Program): (r: seq<Program>)
    ensures |r| == |programs|
    ensures forall i :: 0 <= i < |programs| ==> r[i].id == programs[i].id
    ensures forall i :: 0 <= i < |programs| && programs[i].id == p.id ==> r[i] == p
    ensures forall i :: 0 <= i < |programs| && programs[i].id != p.id ==> r[i] == programs[i]
  {
    MapRows(programs, (q: Program) => if q.id == p.id then p else q)
  }

  /** The link table after `update` replaces a program's goals. */
  function Relink(links: seq<GoalLink>, programId: Id, goals: seq<Id>): (r: seq<GoalLink>)
    ensures forall l :: l in r <==> || (l in links && l.programId != programId)
                                    || (l.programId == programId && l.fitnessGoalId in goals)
  {
    Filter(links, (l: GoalLink) => l.programId != programId) + LinksFor(programId, goals)
  }

  /** The program table without the program `id`. */
  function DropProgram(programs: seq<Program>, id: Id): (r: seq<Program>)
    ensures forall p :: p in r <==> p in programs && p.id != id
  {
    Filter(programs, (p: Program) => p.id != id)
  }

  /** The link table without the program's links. */
  function DropLinks(links: seq<GoalLink>, programId: Id): (r: seq<GoalLink>)
    ensures forall l :: l in r <==> l in links && l.programId != programId
  {
    Filter(links, (l: GoalLink) => l.programId != programId)
  }

  /** The prescription table without the program's rows. */
  function DropPrescriptions(rows: seq<Prescription>, programId: Id): (r: seq<Prescription>)
    ensures forall x :: x in r <==> x in rows && x.programId != programId
  {
    Filter(rows, (x: Prescription) => x.programId != programId)
  }

  /** Replacing a row by one with the same id keeps the key set. */
  lemma ReplaceKeepsKeys(programs: seq<Program>, p: Program, bound: Id)
    requires KeyedBelow(programs, ProgramKey, bound)
    ensures KeyedBelow(ReplaceProgram(programs, p), ProgramKey, bound)
    ensures forall k :: HasKey(ReplaceProgram(programs, p), ProgramKey, k) <==> HasKey(programs, ProgramKey, k)
  {
    var r := ReplaceProgram(programs, p);
    forall k | HasKey(programs, ProgramKey, k) ensures HasKey(r, ProgramKey, k) {
      var i :| 0 <= i < |programs| && programs[i].id == k;
      assert r[i].id == k;
    }
  }

  /** Step one of `update`: the merged row replaces the stored one. */
  method WriteProgram(db: Database, p: Program)
    requires db.Valid() && HasKey(db.programs, ProgramKey, p.id)
    modifies db`programs, db`goalLinks, db`prescriptions, db`nextId
    ensures db.Valid() && HasKey(db.programs, ProgramKey, p.id)
    ensures db.goalLinks == old(db.goalLinks) && db.prescriptions == old(db.prescriptions)
    ensures db.nextId == old(db.nextId)
    ensures db.programs == ReplaceProgram(old(db.programs), p)
  {
    var programs := ReplaceProgram(db.programs, p);
    ReplaceKeepsKeys(db.programs, p, db.nextId);
    OwnedRestrict(db.programs, db.goalLinks, db.prescriptions, programs, db.goalLinks, db.prescriptions, p.id);
    KeyedRaise(db.prescriptions, PrescriptionKey, db.nextId, db.nextId);
    db.WriteProgramTables(programs, db.goalLinks, db.prescriptions, db.nextId);
  }

  /** Step two of `update`: the program's goal links are replaced. */
  method WriteGoals(db: Database, id: Id, goals: seq<Id>)
    requires db.Valid() && HasKey(db.programs, ProgramKey, id)
    modifies db`programs, db`goalLinks, db`prescriptions, db`nextId
    ensures db.Valid()
    ensures db.programs == old(db.programs) && db.prescriptions == old(db.prescriptions)
    ensures db.nextId == old(db.nextId)
    ensures db.goalLinks == Relink(old(db.goalLinks), id, goals)
    ensures forall g :: g in GoalsOf(db, id) <==> g in goals && g in db.fitnessGoals
  {
    var links := Relink(db.goalLinks, id, goals);
    OwnedRestrict(db.programs, db.goalLinks, db.prescriptions, db.programs, links, db.prescriptions, id);
    KeyedRaise(db.programs, ProgramKey, db.nextId, db.nextId);
    KeyedRaise(db.prescriptions, PrescriptionKey, db.nextId, db.nextId);
    db.WriteProgramTables(db.programs, links, db.prescriptions, db.nextId);
  }

  /** Step three of `update`: the program's prescriptions are reconciled
      with the payload. */
  method WritePrescriptions(db: Database, id: Id, payload: seq<RowInput>)
    requires db.Valid() && HasKey(db.programs, ProgramKey, id)
    modifies db`programs, db`goalLinks, db`prescriptions, db`nextId
    ensures db.Valid()
    ensures db.programs == old(db.programs) && db.goalLinks == old(db.goalLinks)
    ensures var out := Reconcile.Reconcile(old(db.prescriptions), id, payload, db.completedExercises, old(db.nextId));
            db.prescriptions == out.rows && db.nextId == out.next
  {
    var out := ReconcileRows(db.prescriptions, id, payload, db.completedExercises, db.nextId);
    assert out.next >= db.nextId && KeyedBelow(out.rows, PrescriptionKey, out.next)
           && Owned(db.programs, db.goalLinks, out.rows) by {
      ReconcileFits(db.prescriptions, id, payload, db.completedExercises, db.nextId);
      OwnedRestrict(db.programs, db.goalLinks, db.prescriptions, db.programs, db.goalLinks, out.rows, id);
    }
    KeyedRaise(db.programs, ProgramKey, db.nextId, out.next);
    db.WriteProgramTables(db.programs, db.goalLinks, out.rows, out.next);
  }

  /** Step two of `update` as the service runs it: the links are replaced
      only when the payload sends `fitnessGoalIds`, `null` meaning none. */
  method WriteGoalsIfSent(db: Database, id: Id, u: UpdateProgram)
    requires db.Valid() && HasKey(db.programs, ProgramKey, id)
    modifies db`programs, db`goalLinks, db`prescriptions, db`nextId
    ensures db.Valid() && HasKey(db.programs, ProgramKey, id)
    ensures db.programs == old(db.programs) && db.prescriptions == old(db.prescriptions)
    ensures db.nextId == old(db.nextId)
    ensures db.goalLinks == if u.fitnessGoalIds.Undefined? then old(db.goalLinks)
                            else Relink(old(db.goalLinks), id, u.fitnessGoalIds.Coalesce([]))
  {
    if !u.fitnessGoalIds.Undefined? {
      WriteGoals(db, id, u.fitnessGoalIds.Coalesce([]));
    }
  }

  /** Step three of `update` as the service runs it: the prescriptions are
      reconciled only when the payload sends `exerciseIds`, `null` meaning
      an empty payload. */
  method WritePrescriptionsIfSent(db: Database, id: Id, u: UpdateProgram)
    requires db.Valid() && HasKey(db.programs, ProgramKey, id)
    modifies db`programs, db`goalLinks, db`prescriptions, db`nextId
    ensures db.Valid()
    ensures db.programs == old(db.programs) && db.goalLinks == old(db.goalLinks)
    ensures if u.exerciseIds.Undefined?
            then db.prescriptions == old(db.prescriptions) && db.nextId == old(db.nextId)
            else var out := Reconcile.Reconcile(old(db.prescriptions), id, u.exerciseIds.Coalesce([]),
                                                db.completedExercises, old(db.nextId));
                 db.prescriptions == out.rows && db.nextId == out.next
  {
    if !u.exerciseIds.Undefined? {
      WritePrescriptions(db, id, u.exerciseIds.Coalesce([]));
    }
  }

  /** The writes of `update` on a visible program: its row, then its goal
      links when the payload sends them, then its prescriptions when the
      payload sends them. */
  method Rewrite(db: Database, id: Id, program: Program, u: UpdateProgram)
    requires db.Valid() && program.id == id && HasKey(db.programs, ProgramKey, id)
    modifies db`programs, db`goalLinks, db`prescriptions, db`nextId
    ensures db.Valid()
    ensures db.programs == ReplaceProgram(old(db.programs), program)
    ensures db.goalLinks == if u.fitnessGoalIds.Undefined? then old(db.goalLinks)
                            else Relink(old(db.goalLinks), id, u.fitnessGoalIds.Coalesce([]))
    ensures if u.exerciseIds.Undefined?
            then db.prescriptions == old(db.prescriptions) && db.nextId == old(db.nextId)
            else var out := Reconcile.Reconcile(old(db.prescriptions), id, u.exerciseIds.Coalesce([]),
                                                old(db.completedExercises), old(db.nextId));
                 db.prescriptions == out.rows && db.nextId == out.next
  {
    WriteProgram(db, program);
    WriteGoalsIfSent(db, id, u);
    WritePrescriptionsIfSent(db, id, u);
  }

  /** `update`: when the user may see the program, rewrites it as `Rewrite`
      says; `None` and no change otherwise. */
  method Update(db: Database, id: Id, user: Id, u: UpdateProgram) returns (r: Option<Program>)
    requires db.Valid()
    modifies db`programs, db`goalLinks, db`prescriptions, db`nextId
    ensures db.Valid()
    ensures r.None? <==> FindVisible(old(db.programs), id, user).None?
    ensures r.None? ==> unchanged(db)
    ensures r.Some? ==> && r.value == Merge(FindVisible(old(db.programs), id, user).value, u)
                        && db.programs == ReplaceProgram(old(db.programs), r.value)
    ensures r.Some? ==> db.goalLinks == if u.fitnessGoalIds.Undefined? then old(db.goalLinks)
                                        else Relink(old(db.goalLinks), id, u.fitnessGoalIds.Coalesce([]))
    ensures r.Some? ==> if u.exerciseIds.Undefined?
                        then db.prescriptions == old(db.prescriptions) && db.nextId == old(db.nextId)
                        else var out := Reconcile.Reconcile(old(db.prescriptions), id, u.exerciseIds.Coalesce([]),
                                                            old(db.completedExercises), old(db.nextId));
                             db.prescriptions == out.rows && db.nextId == out.next
    ensures r.Some? && !u.fitnessGoalIds.Undefined? ==>
              forall g :: g in GoalsOf(db, id) <==> g in u.fitnessGoalIds.Coalesce([]) && g in db.fitnessGoals
  {
    var found := FindVisible(db.programs, id, user);
    if found.None? {
      return None;
    }
    var program := Merge(found.value, u);
    assert HasKey(db.programs, ProgramKey, id) by {
      var i :| 0 <= i < |db.programs| && db.programs[i] == found.value;
    }
    Rewrite(db, id, program, u);
    r := Some(program);
  }

  /** `delete`: when the user may see the program, removes its goal links,
      its prescriptions and then its row; reports whether it did. */
  method Delete(db: Database, id: Id, user: Id) returns (deleted: bool)
    requires db.Valid()
    modifies db`programs, db`goalLinks, db`prescriptions, db`nextId
    ensures db.Valid()
    ensures deleted <==> FindVisible(old(db.programs), id, user).Some?
    ensures !deleted ==> unchanged(db)
    ensures deleted ==> && db.programs == DropProgram(old(db.programs), id)
                        && db.goalLinks == DropLinks(old(db.goalLinks), id)
                        && db.prescriptions == DropPrescriptions(old(db.prescriptions), id)
                        && db.nextId == old(db.nextId)
    ensures deleted ==> !HasKey(db.programs, ProgramKey, id)
  {
    if FindVisible(db.programs, id, user).None? {
      return false;
    }
    var programs := DropProgram(db.programs, id);
    var links := DropLinks(db.goalLinks, id);
    var rows := DropPrescriptions(db.prescriptions, id);
    KeyedFilter(db.programs, ProgramKey, db.nextId, (p: Program) => p.id != id);
    assert programs == Filter(db.programs, (p: Program) => p.id != id);
    KeyedFilter(db.prescriptions, PrescriptionKey, db.nextId, (x: Prescription) => x.programId != id);
    assert rows == Filter(db.prescriptions, (x: Prescription) => x.programId != id);
    forall k | HasKey(db.programs, ProgramKey, k) && k != id ensures HasKey(programs, ProgramKey, k) {
      var i :| 0 <= i < |db.programs| && db.programs[i].id == k;
      assert db.programs[i] in programs;
    }
    OwnedRestrict(db.programs, db.goalLinks, db.prescriptions, programs, links, rows, id);
    db.WriteProgramTables(programs, links, rows, db.nextId);
    deleted := true;
  }
}
