/** The completed-program service: the program runs a user has finished or
    is doing, each with the exercises logged in it. Only the owner reaches
    a completed program. */
module CompletedProgramService {
  import opened Wrappers
  import opened Seqs
  import opened Sorting
  import opened Store
  import opened CompletedExerciseSchema
  import opened CompletedProgramSchema
  import opened CompletedExerciseService

  /** A completed program with its logged exercises and their details. */
  function WithExercises(db: Database, p: CompletedProgram): (r: CompletedProgramWithExercises)
    reads db
    ensures r.program == p
    ensures forall d :: d in r.completedExercises <==> (&& d.row in db.completedExercises
                                                       && d.row.completedProgramId == p.id
                                                       && d == Details(db, d.row))
  {
    CompletedProgramWithExercises(p, DetailsOf(db, p.id))
  }

  /** The sort key of `ORDER BY startDate DESC`, for an ascending sort. */
  function Recency(p: CompletedProgram): int {
    -p.startDate
  }

  /** The caller's completed programs, most recent start first. */
  function Newest(programs: seq<CompletedProgram>, user: Id): (r: seq<CompletedProgram>)
    ensures SortedBy(r, Recency)
    ensures multiset(r) == multiset(Filter(programs, (p: CompletedProgram) => p.userId == user))
  {
    SortBy(Filter(programs, (p: CompletedProgram) => p.userId == user), Recency)
  }

  /** `Newest` holds exactly the caller's rows, each start date at least
      the next one's. */
  lemma NewestOrder(programs: seq<CompletedProgram>, user: Id)
    ensures forall p :: p in Newest(programs, user) <==> p in programs && p.userId == user
    ensures forall i, j :: 0 <= i < j < |Newest(programs, user)| ==>
              Newest(programs, user)[i].startDate >= Newest(programs, user)[j].startDate
  {
    var own := Filter(programs, (p: CompletedProgram) => p.userId == user);
    var r := Newest(programs, user);
    forall p ensures p in r <==> p in own {
      assert p in r <==> p in multiset(r);
      assert p in own <==> p in multiset(own);
    }
    forall i, j | 0 <= i < j < |r| ensures r[i].startDate >= r[j].startDate {
      assert Recency(r[i]) <= Recency(r[j]);
    }
  }

  /** `getAll`: exactly the caller's completed programs, each with its
      exercises, ordered by start date, most recent first. */
  function GetAll(db: Database, user: Id): (r: seq<CompletedProgramWithExercises>)
    reads db
    ensures forall x :: x in r <==> && x.program in db.completedPrograms && x.program.userId == user
                                    && x == WithExercises(db, x.program)
    ensures forall i, j :: 0 <= i < j < |r| ==> r[i].program.startDate >= r[j].program.startDate
  {
    var ordered := Newest(db.completedPrograms, user);
    NewestOrder(db.completedPrograms, user);
    WithExercisesAll(db, ordered)
  }

  /** Each completed program of `ordered`, in that order, with its exercises. */
  function WithExercisesAll(db: Database, ordered: seq<CompletedProgram>): (r: seq<CompletedProgramWithExercises>)
    reads db
    ensures |r| == |ordered|
    ensures forall i :: 0 <= i < |r| ==> r[i] == WithExercises(db, ordered[i])
    ensures forall x :: x in r <==> x.program in ordered && x == WithExercises(db, x.program)
  {
    var r := seq(|ordered|, i reads db requires 0 <= i < |ordered| => WithExercises(db, ordered[i]));
    assert forall p :: p in ordered ==> WithExercises(db, p) in r by {
      forall p | p in ordered ensures WithExercises(db, p) in r {
        var i :| 0 <= i < |ordered| && ordered[i] == p;
        assert r[i] == WithExercises(db, p);
      }
    }
    r
  }

  /** The completed program `id` when it is the caller's. */
  function FindOwnedProgram(programs: seq<CompletedProgram>, id: Id, user: Id): (r: Option<CompletedProgram>)
    ensures r.Some? <==> OwnsProgram(programs, id, user)
    ensures r.Some? ==> r.value in programs && r.value.id == id && r.value.userId == user
  {
    FirstWhere(programs, (p: CompletedProgram) => p.id == id && p.userId == user)
  }

  /** `getById`: the completed program with its exercises when it exists
      and is the caller's, `None` otherwise. */
  function GetById(db: Database, id: Id, user: Id): (r: Option<CompletedProgramWithExercises>)
    reads db
    ensures r.Some? <==> OwnsProgram(db.completedPrograms, id, user)
    ensures r.Some? ==> && r.value.program in db.completedPrograms
                        && r.value.program.id == id && r.value.program.userId == user
                        && r == Some(WithExercises(db, r.value.program))
  {
    match FindOwnedProgram(db.completedPrograms, id, user)
    case Some(p) => Some(WithExercises(db, p))
    case None => None
  }

  /** In a keyed table, the caller's row under a key is the one stored there. */
  lemma FindOwnedProgramUnique(programs: seq<CompletedProgram>, p: CompletedProgram, bound: Id)
    requires KeyedBelow(programs, CompletedProgramKey, bound) && p in programs
    ensures FindOwnedProgram(programs, p.id, p.userId) == Some(p)
  {
  }

  /** A start date as `create` stores it: the supplied one when it is a
      non-empty string, the column's default (the current time) otherwise. */
  function StartOf(s: Option<string>, now: Timestamp, parse: string -> Timestamp): (r: Timestamp)
    ensures s.Some? && s.value != [] ==> r == parse(s.value)
    ensures s.None? || s == Some([]) ==> r == now
  {
    if s.Some? && s.value != [] then parse(s.value) else now
  }

  /** An end date as `create` stores it: the supplied one when it is a
      non-empty string, null otherwise. */
  function EndOf(s: Maybe<string>, parse: string -> Timestamp): (r: Option<Timestamp>)
    ensures r.Some? <==> s.Defined? && s.value != []
    ensures r.Some? ==> r.value == parse(s.value)
  {
    if s.Defined? && s.value != [] then Some(parse(s.value)) else None
  }

  /** `create`: inserts the completed program for the given user and
      program (the program's visibility is not checked) and returns it
      with its exercises, of which a new row has none. */
  method Create(db: Database, data: CreateCompletedProgram, now: Timestamp, parse: string -> Timestamp)
    returns (r: CompletedProgramWithExercises)
    requires db.Valid()
    modifies db`completedPrograms, db`nextId
    ensures db.Valid()
    ensures r.program == CompletedProgram(old(db.nextId), data.userId, data.programId,
                                          StartOf(data.startDate, now, parse), EndOf(data.endDate, parse))
    ensures db.completedPrograms == old(db.completedPrograms) + [r.program]
    ensures db.nextId == old(db.nextId) + 1
    ensures r.completedExercises == []
    ensures GetById(db, r.program.id, data.userId) == Some(r)
  {
    var p := CompletedProgram(db.nextId, data.userId, data.programId,
                              StartOf(data.startDate, now, parse), EndOf(data.endDate, parse));
    var rows := db.completedPrograms + [p];
    assert KeyedBelow(rows, CompletedProgramKey, db.nextId + 1) by {
      KeyedAppend(db.completedPrograms, p, CompletedProgramKey, db.nextId, db.nextId + 1);
    }
    assert DetailsOf(db, p.id) == [] by {
      NoExercisesYet(db.completedExercises, p.id);
    }
    db.WriteCompletedPrograms(rows, db.nextId + 1);
    assert p in db.completedPrograms by {
      assert db.completedPrograms[|db.completedPrograms| - 1] == p;
    }
    FindOwnedProgramUnique(db.completedPrograms, p, db.nextId);
    r := WithExercises(db, p);
  }

  /** No completed exercise names a completed-program id the counter has
      not yet handed out. */
  lemma NoExercisesYet(rows: seq<CompletedExercise>, id: Id)
    requires forall i :: 0 <= i < |rows| ==> rows[i].completedProgramId < id
    ensures ExercisesOf(rows, id) == []
  {
    FilterNone(rows, (x: CompletedExercise) => x.completedProgramId == id);
  }

  /** The row after `update`: owner and program fall back with `??`; a
      non-empty start date replaces the stored one; the end date is kept
      when absent, cleared by `null` or an empty string, and replaced by a
      non-empty string. */
  function Merge(p: CompletedProgram, u: UpdateCompletedProgram, parse: string -> Timestamp): (r: CompletedProgram)
    ensures r.id == p.id
    ensures r.userId == u.userId.GetOr(p.userId) && r.programId == u.programId.GetOr(p.programId)
    ensures r.startDate == if u.startDate.Some? && u.startDate.value != [] then parse(u.startDate.value) else p.startDate
    ensures u.endDate.Undefined? ==> r.endDate == p.endDate
    ensures u.endDate.Null? ==> r.endDate.None?
    ensures u.endDate.Defined? ==> r.endDate == EndOf(u.endDate, parse)
  {
    p.(userId := u.userId.GetOr(p.userId),
       programId := u.programId.GetOr(p.programId),
       startDate := if u.startDate.Some? && u.startDate.value != [] then parse(u.startDate.value) else p.startDate,
       endDate := if u.endDate.Undefined? then p.endDate else EndOf(u.endDate, parse))
  }

  /** An update that sends nothing leaves the row as it is. */
  lemma MergeNothing(p: CompletedProgram, parse: string -> Timestamp)
    ensures Merge(p, UpdateCompletedProgram(None, None, None, Undefined), parse) == p
  {
  }

  /** Rewriting a stored completed program in place under its own id. */
  method ReplaceCompletedProgram(db: Database, p: CompletedProgram)
    requires db.Valid() && HasKey(db.completedPrograms, CompletedProgramKey, p.id)
    modifies db`completedPrograms, db`nextId
    ensures db.Valid()
    ensures db.completedPrograms == ReplaceKey(old(db.completedPrograms), CompletedProgramKey, p)
    ensures db.nextId == old(db.nextId)
    ensures p in db.completedPrograms
  {
    var rows := ReplaceKey(db.completedPrograms, CompletedProgramKey, p);
    ReplaceKeyKeyed(db.completedPrograms, CompletedProgramKey, p, db.nextId);
    var j :| 0 <= j < |db.completedPrograms| && CompletedProgramKey(db.completedPrograms[j]) == p.id;
    db.WriteCompletedPrograms(rows, db.nextId);
    assert db.completedPrograms[j] == p;
  }

  /** `update`: when the completed program is the caller's, merges the
      payload into it and returns it with its exercises; `None` and no
      change otherwise. The payload may hand the row to another user. */
  method Update(db: Database, id: Id, user: Id, u: UpdateCompletedProgram, parse: string -> Timestamp)
    returns (r: Option<CompletedProgramWithExercises>)
    requires db.Valid()
    modifies db`completedPrograms, db`nextId
    ensures db.Valid()
    ensures r.None? <==> !OwnsProgram(old(db.completedPrograms), id, user)
    ensures r.None? ==> unchanged(db)
    ensures r.Some? ==> && r.value.program == Merge(FindOwnedProgram(old(db.completedPrograms), id, user).value, u, parse)
                        && db.completedPrograms == ReplaceKey(old(db.completedPrograms), CompletedProgramKey, r.value.program)
                        && db.nextId == old(db.nextId)
                        && r.value == WithExercises(db, r.value.program)
    ensures r.Some? ==> GetById(db, id, r.value.program.userId) == r
    ensures r.Some? && u.userId.Some? && u.userId.value != user ==> GetById(db, id, user).None?
  {
    var found := FindOwnedProgram(db.completedPrograms, id, user);
    if found.None? {
      return None;
    }
    var p := Merge(found.value, u, parse);
    assert HasKey(db.completedPrograms, CompletedProgramKey, id) by {
      var i :| 0 <= i < |db.completedPrograms| && db.completedPrograms[i] == found.value;
      assert CompletedProgramKey(db.completedPrograms[i]) == id;
    }
    ReplaceCompletedProgram(db, p);
    FindOwnedProgramUnique(db.completedPrograms, p, db.nextId);
    if u.userId.Some? && u.userId.value != user {
      NotOwnedAfterHandOver(db.completedPrograms, p, user, db.nextId);
    }
    r := Some(WithExercises(db, p));
  }

  /** In a keyed table, a row stored under a key owned by someone else is
      not the caller's. */
  lemma NotOwnedAfterHandOver(programs: seq<CompletedProgram>, p: CompletedProgram, user: Id, bound: Id)
    requires KeyedBelow(programs, CompletedProgramKey, bound) && p in programs && p.userId != user
    ensures !OwnsProgram(programs, p.id, user)
  {
  }

  /** `delete`: when the completed program is the caller's, removes that row
      and reports whether it did. Its completed exercises stay in the table;
      with their program gone, no user reaches them. */
  method Delete(db: Database, id: Id, user: Id) returns (deleted: bool)
    requires db.Valid()
    modifies db`completedPrograms, db`nextId
    ensures db.Valid()
    ensures deleted <==> OwnsProgram(old(db.completedPrograms), id, user)
    ensures !deleted ==> unchanged(db)
    ensures deleted ==> && db.completedPrograms == DropKey(old(db.completedPrograms), CompletedProgramKey, id)
                        && db.nextId == old(db.nextId)
    ensures deleted ==> forall v :: GetById(db, id, v).None? && GetAllByProgram(db, id, v).None?
  {
    if !OwnsProgram(db.completedPrograms, id, user) {
      return false;
    }
    var rows := DropKey(db.completedPrograms, CompletedProgramKey, id);
    DropKeyKeyed(db.completedPrograms, CompletedProgramKey, id, db.nextId);
    db.WriteCompletedPrograms(rows, db.nextId);
    deleted := true;
  }
}
