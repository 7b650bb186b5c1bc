/** The exercise catalogue's read side: every exercise, narrowed by
    optional comma-separated lists of category, muscle group and
    difficulty level ids, and one exercise by id. */
module ExerciseService {
  import opened Wrappers
  import opened Seqs
  import opened Store
  import opened IdList

  /** Query-string filters, each a comma-separated id list. */
  datatype ExerciseFilter = ExerciseFilter(
    categoryId: Option<string>, muscleGroupId: Option<string>, difficultyLevelId: Option<string>)

  /** An exercise passes when each of its three columns lies in the
      corresponding accepted list; a filter that imposes no restriction
      passes every value. */
  predicate Matches(f: ExerciseFilter, e: Exercise)
    ensures f == ExerciseFilter(None, None, None) ==> Matches(f, e)
    ensures Matches(f, e) && AcceptedIds(f.categoryId).Some? ==> e.categoryId in AcceptedIds(f.categoryId).value
    ensures Matches(f, e) && AcceptedIds(f.muscleGroupId).Some? ==> e.muscleGroupId in AcceptedIds(f.muscleGroupId).value
    ensures Matches(f, e) && AcceptedIds(f.difficultyLevelId).Some? ==>
              e.difficultyLevelId in AcceptedIds(f.difficultyLevelId).value
  {
    && Admits(AcceptedIds(f.categoryId), e.categoryId)
    && Admits(AcceptedIds(f.muscleGroupId), e.muscleGroupId)
    && Admits(AcceptedIds(f.difficultyLevelId), e.difficultyLevelId)
  }

  /** `getAll`: exactly the exercises every accepted list admits, in table order. */
  function GetAll(db: Database, f: ExerciseFilter): (r: seq<Exercise>)
    reads db
    ensures forall e :: e in r <==> && e in db.exercises
                                    && (AcceptedIds(f.categoryId).Some? ==> e.categoryId in AcceptedIds(f.categoryId).value)
                                    && (AcceptedIds(f.muscleGroupId).Some? ==> e.muscleGroupId in AcceptedIds(f.muscleGroupId).value)
                                    && (AcceptedIds(f.difficultyLevelId).Some? ==>
                                          e.difficultyLevelId in AcceptedIds(f.difficultyLevelId).value)
  {
    Filter(db.exercises, (e: Exercise) => Matches(f, e))
  }

  /** A filter that is absent or empty restricts nothing. */
  predicate Unrestricted(s: Option<string>) {
    s.None? || s.value == []
  }

  /** With no filters, or only empty filter strings, every exercise is
      returned, in table order. */
  lemma NoFiltersAll(db: Database, f: ExerciseFilter)
    requires Unrestricted(f.categoryId) && Unrestricted(f.muscleGroupId) && Unrestricted(f.difficultyLevelId)
    ensures GetAll(db, f) == db.exercises
  {
    FilterAll(db.exercises, (e: Exercise) => Matches(f, e));
  }

  /** A category filter with an entry `parseInt` cannot read imposes no
      restriction: the result is the one without that filter. */
  lemma UnparseableCategoryIgnored(db: Database, f: ExerciseFilter, i: int)
    requires f.categoryId.Some? && 0 <= i < |ParseIdList(f.categoryId.value)|
    requires ParseIdList(f.categoryId.value)[i].None?
    ensures forall e :: e in GetAll(db, f) <==> e in GetAll(db, f.(categoryId := None))
  {
    assert AcceptedIds(f.categoryId).None?;
  }

  /** A filter written as a list of decimal ids keeps exactly the
      exercises in those categories. */
  lemma CategoryFilterByIds(db: Database, ids: seq<int>)
    requires |ids| >= 1
    ensures forall e :: e in GetAll(db, ExerciseFilter(Some(IdsQuery(ids)), None, None)) <==>
                          e in db.exercises && e.categoryId in ids
  {
    IdsQueryAccepted(ids);
  }

  /** `getById`: the exercise with the id, or `None`. */
  function GetById(db: Database, id: Id): (r: Option<Exercise>)
    reads db
    ensures r.Some? <==> HasKey(db.exercises, ExerciseKey, id)
    ensures r.Some? ==> r.value in db.exercises && r.value.id == id
  {
    FindKey(db.exercises, ExerciseKey, id)
  }
}
