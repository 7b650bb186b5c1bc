/** The completed-exercise service: the exercises a user logged inside one
    of their completed programs. Ownership is strict: a completed exercise
    is reachable only through a completed program whose `userId` is the
    caller; system rows do not exist here. */
module CompletedExerciseService {
  import opened Wrappers
  import opened Seqs
  import opened Store
  import opened CompletedExerciseSchema

  /** The caller owns the completed program `id`. */
  predicate OwnsProgram(programs: seq<CompletedProgram>, id: Id, user: Id)
    ensures OwnsProgram(programs, id, user) <==> exists p :: p in programs && p.id == id && p.userId == user
    ensures OwnsProgram(programs, id, user) ==> HasKey(programs, CompletedProgramKey, id)
  {
    exists i :: 0 <= i < |programs| && programs[i].id == id && programs[i].userId == user
  }

  /** The left join on a nullable reference: the row the id names, `None`
      when the id is null or names no row. */
  function Referenced<T>(table: seq<T>, key: T -> int, ref: Option<Id>): (r: Option<T>)
    ensures r.Some? <==> ref.Some? && HasKey(table, key, ref.value)
    ensures r.Some? ==> r.value in table && key(r.value) == ref.value
  {
    if ref.None? then None else FindKey(table, key, ref.value)
  }

  /** A completed exercise with its catalogue exercise and prescription. */
  function Details(db: Database, x: CompletedExercise): (r: CompletedExerciseDetails)
    reads db
    ensures r.row == x
    ensures r.exercise.Some? <==> x.exerciseId.Some? && HasKey(db.exercises, ExerciseKey, x.exerciseId.value)
    ensures r.exercise.Some? ==> r.exercise.value in db.exercises && r.exercise.value.id == x.exerciseId.value
    ensures r.programExercise.Some? <==>
              x.programExerciseId.Some? && HasKey(db.prescriptions, PrescriptionKey, x.programExerciseId.value)
    ensures r.programExercise.Some? ==> && r.programExercise.value in db.prescriptions
                                        && r.programExercise.value.id == x.programExerciseId.value
  {
    CompletedExerciseDetails(x, Referenced(db.exercises, ExerciseKey, x.exerciseId),
                             Referenced(db.prescriptions, PrescriptionKey, x.programExerciseId))
  }

  /** The completed exercises logged in one completed program, in table order. */
  function ExercisesOf(rows: seq<CompletedExercise>, completedProgramId: Id): (r: seq<CompletedExercise>)
    ensures forall x :: x in r <==> x in rows && x.completedProgramId == completedProgramId
  {
    Filter(rows, (x: CompletedExercise) => x.completedProgramId == completedProgramId)
  }

  /** Each completed exercise of a program with its details. */
  function DetailsOf(db: Database, completedProgramId: Id): (r: seq<CompletedExerciseDetails>)
    reads db
    ensures forall d :: d in r <==> && d.row in db.completedExercises
                                    && d.row.completedProgramId == completedProgramId
                                    && d == Details(db, d.row)
  {
    var rows := ExercisesOf(db.completedExercises, completedProgramId);
    var r := seq(|rows|, i reads db requires 0 <= i < |rows| => Details(db, rows[i]));
    assert forall x :: x in rows ==> Details(db, x) in r by {
      forall x | x in rows ensures Details(db, x) in r {
        var i :| 0 <= i < |rows| && rows[i] == x;
        assert r[i] == Details(db, x);
      }
    }
    r
  }

  /** `getAllByProgram`: the program's completed exercises with details
      when the caller owns the program, `None` otherwise. */
  function GetAllByProgram(db: Database, completedProgramId: Id, user: Id): (r: Option<seq<CompletedExerciseDetails>>)
    reads db
    ensures r.Some? <==> OwnsProgram(db.completedPrograms, completedProgramId, user)
    ensures r.Some? ==> forall d :: d in r.value <==> (&& d.row in db.completedExercises
                                                      && d.row.completedProgramId == completedProgramId
                                                      && d == Details(db, d.row))
  {
    if OwnsProgram(db.completedPrograms, completedProgramId, user) then Some(DetailsOf(db, completedProgramId))
    else None
  }

  /** The completed exercise `id` when its completed program is the caller's. */
  function FindOwned(db: Database, id: Id, user: Id): (r: Option<CompletedExercise>)
    reads db
    ensures r.Some? <==> exists i :: && 0 <= i < |db.completedExercises| && db.completedExercises[i].id == id
                                     && OwnsProgram(db.completedPrograms, db.completedExercises[i].completedProgramId, user)
    ensures r.Some? ==> && r.value in db.completedExercises && r.value.id == id
                        && OwnsProgram(db.completedPrograms, r.value.completedProgramId, user)
  {
    var programs := db.completedPrograms;
    FirstWhere(db.completedExercises,
               (x: CompletedExercise) => x.id == id && OwnsProgram(programs, x.completedProgramId, user))
  }

  /** `getById`: the completed exercise with its details when the caller
      owns its completed program, `None` otherwise. */
  function GetById(db: Database, id: Id, user: Id): (r: Option<CompletedExerciseDetails>)
    reads db
    ensures r.Some? <==> FindOwned(db, id, user).Some?
    ensures r.Some? ==> && r.value.row.id == id && r.value.row in db.completedExercises
                        && OwnsProgram(db.completedPrograms, r.value.row.completedProgramId, user)
                        && r.value == Details(db, r.value.row)
  {
    match FindOwned(db, id, user)
    case Some(x) => Some(Details(db, x))
    case None => None
  }

  /** In a keyed table, the owned row with a key is the one stored under it. */
  lemma FindOwnedUnique(db: Database, x: CompletedExercise, user: Id)
    requires KeyedBelow(db.completedExercises, CompletedExerciseKey, db.nextId)
    requires x in db.completedExercises && OwnsProgram(db.completedPrograms, x.completedProgramId, user)
    ensures FindOwned(db, x.id, user) == Some(x)
  {
  }

  /** The row `create` inserts under key `k`. */
  function NewCompletedExercise(k: Id, data: CreateCompletedExercise): (r: CompletedExercise)
    ensures r.id == k && r.completedProgramId == data.completedProgramId
    ensures r.programExerciseId == data.programExerciseId && r.exerciseId == data.exerciseId
    ensures r.sets == data.sets && r.reps == data.reps && r.duration == data.duration
    ensures r.weight == data.weight && r.restDuration == data.restDuration
  {
    CompletedExercise(k, data.completedProgramId, data.programExerciseId, data.exerciseId,
                      data.sets, data.reps, data.duration, data.weight, data.restDuration)
  }

  /** An owned completed program's id has been handed out by the counter. */
  lemma OwnedProgramBelow(db: Database, id: Id, user: Id)
    requires KeyedBelow(db.completedPrograms, CompletedProgramKey, db.nextId)
    requires OwnsProgram(db.completedPrograms, id, user)
    ensures id < db.nextId
  {
  }

  /** Stores one completed exercise under a fresh key. */
  method InsertCompletedExercise(db: Database, x: CompletedExercise, next: Id, user: Id)
    requires db.Valid() && db.nextId <= next && x.id < next
    requires !HasKey(db.completedExercises, CompletedExerciseKey, x.id)
    requires OwnsProgram(db.completedPrograms, x.completedProgramId, user)
    modifies db`completedExercises, db`nextId
    ensures db.Valid()
    ensures db.completedExercises == old(db.completedExercises) + [x] && db.nextId == next
    ensures GetById(db, x.id, user) == Some(Details(db, x))
  {
    var rows := db.completedExercises + [x];
    assert && KeyedBelow(rows, CompletedExerciseKey, next)
           && forall i :: 0 <= i < |rows| ==> rows[i].completedProgramId < next by {
      KeyedAppend(db.completedExercises, x, CompletedExerciseKey, db.nextId, next);
      OwnedProgramBelow(db, x.completedProgramId, user);
      assert rows[|db.completedExercises|] == x;
    }
    db.WriteCompletedExercises(rows, next);
    assert x in db.completedExercises by {
      assert db.completedExercises[|db.completedExercises| - 1] == x;
    }
    FindOwnedUnique(db, x, user);
  }

  /** `create`: refuses a completed program that is not the caller's, then
      inserts the completed exercise and returns it with its details. */
  method Create(db: Database, data: CreateCompletedExercise, user: Id) returns (r: Result<CompletedExerciseDetails, DbError>)
    requires db.Valid()
    modifies db`completedExercises, db`nextId
    ensures db.Valid()
    ensures r.Err? ==> unchanged(db)
    ensures !OwnsProgram(db.completedPrograms, data.completedProgramId, user) ==> r == Err(NotFound)
    ensures OwnsProgram(db.completedPrograms, data.completedProgramId, user) ==>
              var k := NewKey(data.id, old(db.nextId));
              if HasKey(old(db.completedExercises), CompletedExerciseKey, k) then r == Err(DuplicateKey)
              else && db.completedExercises == old(db.completedExercises) + [NewCompletedExercise(k, data)]
                   && db.nextId == Bump(old(db.nextId), k)
                   && r == Ok(Details(db, NewCompletedExercise(k, data)))
    ensures r.Ok? ==> GetById(db, r.value.row.id, user) == Some(r.value)
  {
    if !OwnsProgram(db.completedPrograms, data.completedProgramId, user) {
      return Err(NotFound);
    }
    var k := NewKey(data.id, db.nextId);
    if HasKey(db.completedExercises, CompletedExerciseKey, k) {
      return Err(DuplicateKey);
    }
    var x := NewCompletedExercise(k, data);
    InsertCompletedExercise(db, x, Bump(db.nextId, k), user);
    r := Ok(Details(db, x));
  }

  /** The row after `update`. The reference ids and `sets` take a supplied
      value and otherwise keep the stored one, so `null` cannot clear a
      reference; the measured values take a supplied value and otherwise
      keep the stored one; the id and the completed program never change. */
  function Merge(x: CompletedExercise, u: UpdateCompletedExercise): (r: CompletedExercise)
    ensures r.id == x.id && r.completedProgramId == x.completedProgramId
    ensures r.programExerciseId == if u.programExerciseId.Defined? then Some(u.programExerciseId.value) else x.programExerciseId
    ensures r.exerciseId == if u.exerciseId.Defined? then Some(u.exerciseId.value) else x.exerciseId
    ensures r.sets == u.sets.GetOr(x.sets)
    ensures r.reps == (if u.reps.Some? then u.reps else x.reps)
    ensures r.duration == (if u.duration.Some? then u.duration else x.duration)
    ensures r.weight == (if u.weight.Some? then u.weight else x.weight)
    ensures r.restDuration == (if u.restDuration.Some? then u.restDuration else x.restDuration)
  {
    x.(programExerciseId := Keep(u.programExerciseId, x.programExerciseId),
       exerciseId := Keep(u.exerciseId, x.exerciseId),
       sets := u.sets.GetOr(x.sets),
       reps := if u.reps.Some? then u.reps else x.reps,
       duration := if u.duration.Some? then u.duration else x.duration,
       weight := if u.weight.Some? then u.weight else x.weight,
       restDuration := if u.restDuration.Some? then u.restDuration else x.restDuration)
  }

  /** `m !== undefined ? m ?? undefined : stored ?? undefined`, where a
      column set to `undefined` is left as it is. */
  function Keep(m: Maybe<Id>, stored: Option<Id>): (r: Option<Id>)
    ensures r.Some? <==> m.Defined? || stored.Some?
    ensures m.Defined? ==> r == Some(m.value)
    ensures !m.Defined? ==> r == stored
  {
    if m.Defined? then Some(m.value) else stored
  }

  /** A reference a completed exercise has can never be cleared by `update`. */
  lemma ReferencesNeverCleared(x: CompletedExercise, u: UpdateCompletedExercise)
    ensures x.exerciseId.Some? ==> Merge(x, u).exerciseId.Some?
    ensures x.programExerciseId.Some? ==> Merge(x, u).programExerciseId.Some?
  {
  }

  /** Sending the same update twice changes nothing the second time. */
  lemma MergeIdempotent(x: CompletedExercise, u: UpdateCompletedExercise)
    ensures Merge(Merge(x, u), u) == Merge(x, u)
  {
  }

  /** Rewriting a stored completed exercise in place under its own id. */
  method ReplaceCompletedExercise(db: Database, x: CompletedExercise, stored: CompletedExercise, user: Id)
    requires db.Valid() && stored in db.completedExercises
    requires x.id == stored.id && x.completedProgramId == stored.completedProgramId
    requires OwnsProgram(db.completedPrograms, x.completedProgramId, user)
    modifies db`completedExercises, db`nextId
    ensures db.Valid()
    ensures db.completedExercises == ReplaceKey(old(db.completedExercises), CompletedExerciseKey, x)
    ensures db.nextId == old(db.nextId)
    ensures GetById(db, x.id, user) == Some(Details(db, x))
  {
    var rows := ReplaceKey(db.completedExercises, CompletedExerciseKey, x);
    var j :| 0 <= j < |db.completedExercises| && db.completedExercises[j] == stored;
    assert && KeyedBelow(rows, CompletedExerciseKey, db.nextId)
           && forall i :: 0 <= i < |rows| ==> rows[i].completedProgramId < db.nextId by {
      ReplaceKeyKeyed(db.completedExercises, CompletedExerciseKey, x, db.nextId);
    }
    db.WriteCompletedExercises(rows, db.nextId);
    assert db.completedExercises[j] == x;
    FindOwnedUnique(db, x, user);
  }

  /** `update`: when the caller owns the completed exercise, merges the
      payload into it and returns it with its details; `None` and no change
      otherwise. */
  method Update(db: Database, id: Id, user: Id, u: UpdateCompletedExercise) returns (r: Option<CompletedExerciseDetails>)
    requires db.Valid()
    modifies db`completedExercises, db`nextId
    ensures db.Valid()
    ensures r.None? <==> old(FindOwned(db, id, user)).None?
    ensures r.None? ==> unchanged(db)
    ensures r.Some? ==> && r.value.row == Merge(old(FindOwned(db, id, user)).value, u)
                        && db.completedExercises == ReplaceKey(old(db.completedExercises), CompletedExerciseKey, r.value.row)
                        && db.nextId == old(db.nextId)
    ensures r.Some? ==> GetById(db, id, user) == r
  {
    var found := FindOwned(db, id, user);
    if found.None? {
      return None;
    }
    var x := Merge(found.value, u);
    ReplaceCompletedExercise(db, x, found.value, user);
    r := Some(Details(db, x));
  }

  /** `delete`: when the caller owns the completed exercise, removes that
      row; reports whether it did. */
  method Delete(db: Database, id: Id, user: Id) returns (deleted: bool)
    requires db.Valid()
    modifies db`completedExercises, db`nextId
    ensures db.Valid()
    ensures deleted <==> old(FindOwned(db, id, user)).Some?
    ensures !deleted ==> unchanged(db)
    ensures deleted ==> && db.completedExercises == DropKey(old(db.completedExercises), CompletedExerciseKey, id)
                        && db.nextId == old(db.nextId)
    ensures deleted ==> !HasKey(db.completedExercises, CompletedExerciseKey, id) && GetById(db, id, user).None?
  {
    if FindOwned(db, id, user).None? {
      return false;
    }
    var rows := DropKey(db.completedExercises, CompletedExerciseKey, id);
    assert && KeyedBelow(rows, CompletedExerciseKey, db.nextId)
           && !HasKey(rows, CompletedExerciseKey, id)
           && forall i :: 0 <= i < |rows| ==> rows[i].completedProgramId < db.nextId by {
      DropKeyKeyed(db.completedExercises, CompletedExerciseKey, id, db.nextId);
      forall i | 0 <= i < |rows| ensures rows[i].completedProgramId < db.nextId {
        assert rows[i] in db.completedExercises;
      }
    }
    db.WriteCompletedExercises(rows, db.nextId);
    deleted := true;
  }
}
