/** The planned-program service: a user's schedule of exercise programs on
    calendar dates. A planned program is reachable when the program it
    plans is; its dates are reachable through it. */
module PlannedService {
  import opened Wrappers
  import opened Seqs
  import opened Store
  import opened PlannedSchema
  import opened ProgramService

  /** A planned program with the dates it is scheduled on. */
  datatype PlannedWithDates = PlannedWithDates(planned: PlannedProgram, dates: seq<PlannedDate>)

  /** The join rule: the planned program's exercise program exists and is
      the user's own or a system one. */
  predicate PlannedVisible(programs: seq<Program>, q: PlannedProgram, user: Id)
    ensures PlannedVisible(programs, q, user) ==> HasKey(programs, ProgramKey, q.programId)
    ensures forall i :: 0 <= i < |programs| && programs[i].id == q.programId && Visible(programs[i], user) ==>
              PlannedVisible(programs, q, user)
  {
    FindVisible(programs, q.programId, user).Some?
  }

  /** The planned program with the id, when the user may reach it. */
  function FindPlanned(planned: seq<PlannedProgram>, programs: seq<Program>, id: Id, user: Id): (r: Option<PlannedProgram>)
    ensures r.Some? <==> exists i :: 0 <= i < |planned| && planned[i].id == id && PlannedVisible(programs, planned[i], user)
    ensures r.Some? ==> r.value in planned && r.value.id == id && PlannedVisible(programs, r.value, user)
  {
    FirstWhere(planned, (q: PlannedProgram) => q.id == id && PlannedVisible(programs, q, user))
  }

  /** The dates of one planned program, in table order. */
  function DatesOf(dates: seq<PlannedDate>, plannedId: Id): (r: seq<PlannedDate>)
    ensures forall d :: d in r <==> d in dates && d.plannedProgramId == plannedId
  {
    Filter(dates, (d: PlannedDate) => d.plannedProgramId == plannedId)
  }

  /** Each planned program with its dates. */
  function WithDates(planned: seq<PlannedProgram>, dates: seq<PlannedDate>): (r: seq<PlannedWithDates>)
    ensures forall x :: x in r <==> x.planned in planned && x.dates == DatesOf(dates, x.planned.id)
  {
    var r := MapRows(planned, (q: PlannedProgram) => PlannedWithDates(q, DatesOf(dates, q.id)));
    assert forall q :: q in planned ==> PlannedWithDates(q, DatesOf(dates, q.id)) in r by {
      forall q | q in planned ensures PlannedWithDates(q, DatesOf(dates, q.id)) in r {
        var i :| 0 <= i < |planned| && planned[i] == q;
        assert r[i] == PlannedWithDates(q, DatesOf(dates, q.id));
      }
    }
    r
  }

  /** `getAll`: every planned program the user may reach, with its dates. */
  function GetAll(db: Database, user: Id): (r: seq<PlannedWithDates>)
    reads db
    ensures forall x :: x in r <==> && x.planned in db.planned && PlannedVisible(db.programs, x.planned, user)
                                    && x.dates == DatesOf(db.plannedDates, x.planned.id)
  {
    var programs := db.programs;
    WithDates(Filter(db.planned, (q: PlannedProgram) => PlannedVisible(programs, q, user)), db.plannedDates)
  }

  /** `getById`: the planned program with its dates when the user may
      reach it, `None` otherwise. */
  function GetById(db: Database, id: Id, user: Id): (r: Option<PlannedWithDates>)
    reads db
    ensures r.Some? <==> FindPlanned(db.planned, db.programs, id, user).Some?
    ensures r.Some? ==> && r.value.planned == FindPlanned(db.planned, db.programs, id, user).value
                        && r.value.dates == DatesOf(db.plannedDates, id)
  {
    match FindPlanned(db.planned, db.programs, id, user)
    case Some(q) => Some(PlannedWithDates(q, DatesOf(db.plannedDates, id)))
    case None => None
  }

  /** The date strings a payload asks to insert: none for `null` or absent. */
  function DateStrings(m: Maybe<seq<string>>): (r: seq<string>)
    ensures m.Defined? ==> r == m.value
    ensures r != [] ==> m.Defined?
  {
    if m.Defined? then m.value else []
  }

  /** The date rows inserted for a planned program, with generated ids. */
  function NewDates(plannedId: Id, strs: seq<string>, parse: string -> Timestamp, next: Id): (r: seq<PlannedDate>)
    ensures |r| == |strs|
    ensures forall i :: 0 <= i < |strs| ==> r[i] == PlannedDate(next + i, plannedId, parse(strs[i]))
  {
    seq(|strs|, i requires 0 <= i < |strs| => PlannedDate(next + i, plannedId, parse(strs[i])))
  }

  /** Inserting a planned program's dates after every other date: its date
      list becomes the old one followed by the new rows. */
  lemma DatesAfterInsert(dates: seq<PlannedDate>, plannedId: Id, added: seq<PlannedDate>)
    requires forall i :: 0 <= i < |added| ==> added[i].plannedProgramId == plannedId
    ensures DatesOf(dates + added, plannedId) == DatesOf(dates, plannedId) + added
  {
    FilterAppend(dates, added, (d: PlannedDate) => d.plannedProgramId == plannedId);
    FilterAll(added, (d: PlannedDate) => d.plannedProgramId == plannedId);
  }

  /** A planned program no stored date names has no dates. */
  lemma NoDates(dates: seq<PlannedDate>, plannedId: Id)
    requires forall i :: 0 <= i < |dates| ==> dates[i].plannedProgramId != plannedId
    ensures DatesOf(dates, plannedId) == []
  {
    FilterNone(dates, (d: PlannedDate) => d.plannedProgramId == plannedId);
  }

  /** Appending a planned program with dates of its own keeps every date's
      planned program stored. */
  lemma ParentsAfterInsert(planned: seq<PlannedProgram>, dates: seq<PlannedDate>, q: PlannedProgram, added: seq<PlannedDate>)
    requires forall i :: 0 <= i < |dates| ==> HasKey(planned, PlannedKey, dates[i].plannedProgramId)
    requires forall i :: 0 <= i < |added| ==> added[i].plannedProgramId == q.id
    ensures forall i :: 0 <= i < |dates + added| ==> HasKey(planned + [q], PlannedKey, (dates + added)[i].plannedProgramId)
  {
    assert (planned + [q])[|planned|] == q;
    forall i | 0 <= i < |dates + added| ensures HasKey(planned + [q], PlannedKey, (dates + added)[i].plannedProgramId) {
      if i < |dates| {
        HasKeyGrow(planned, [q], PlannedKey, dates[i].plannedProgramId);
      } else {
        assert (dates + added)[i] == added[i - |dates|];
      }
    }
  }

  /** A planned program appended under a fresh key is the one found by it. */
  lemma FindAppended(planned: seq<PlannedProgram>, programs: seq<Program>, q: PlannedProgram, user: Id)
    requires !HasKey(planned, PlannedKey, q.id) && PlannedVisible(programs, q, user)
    ensures FindPlanned(planned + [q], programs, q.id, user) == Some(q)
  {
    var s := planned + [q];
    assert s[|planned|] == q;
    var r := FindPlanned(s, programs, q.id, user);
    var i :| 0 <= i < |s| && s[i] == r.value;
    if i < |planned| {
      assert PlannedKey(planned[i]) == q.id;
    }
  }

  /** The tables after appending a planned program under a fresh key and its
      dates under the counter's next values: keys stay unique and below the
      advanced counter, every date keeps its parent, and the new planned
      program is found with exactly the new dates. */
  lemma AppendPlannedFits(planned: seq<PlannedProgram>, dates: seq<PlannedDate>, programs: seq<Program>,
                          q: PlannedProgram, added: seq<PlannedDate>, bound: Id, next: Id, user: Id)
    requires KeyedBelow(planned, PlannedKey, bound) && KeyedBelow(dates, DateKey, bound)
    requires forall i :: 0 <= i < |dates| ==> HasKey(planned, PlannedKey, dates[i].plannedProgramId)
    requires bound <= next && q.id < next
    requires !HasKey(planned, PlannedKey, q.id) && PlannedVisible(programs, q, user)
    requires forall i :: 0 <= i < |added| ==> added[i].id == next + i && added[i].plannedProgramId == q.id
    ensures KeyedBelow(planned + [q], PlannedKey, next + |added|)
    ensures KeyedBelow(dates + added, DateKey, next + |added|)
    ensures forall i :: 0 <= i < |dates + added| ==>
              HasKey(planned + [q], PlannedKey, (dates + added)[i].plannedProgramId)
    ensures DatesOf(dates + added, q.id) == added
    ensures FindPlanned(planned + [q], programs, q.id, user) == Some(q)
  {
    KeyedAppend(planned, q, PlannedKey, bound, next + |added|);
    KeyedRaise(dates, DateKey, bound, next);
    KeyedExtend(dates, added, DateKey, next);
    ParentsAfterInsert(planned, dates, q, added);
    NoDates(dates, q.id);
    DatesAfterInsert(dates, q.id, added);
    FindAppended(planned, programs, q, user);
  }

  /** Stores a planned program under a fresh key together with its dates,
      whose ids are the counter's next values. */
  method InsertPlanned(db: Database, q: PlannedProgram, added: seq<PlannedDate>, next: Id, user: Id)
    requires db.Valid() && db.nextId <= next && q.id < next
    requires !HasKey(db.planned, PlannedKey, q.id) && PlannedVisible(db.programs, q, user)
    requires forall i :: 0 <= i < |added| ==> added[i].id == next + i && added[i].plannedProgramId == q.id
    modifies db`planned, db`plannedDates, db`nextId
    ensures db.Valid()
    ensures db.planned == old(db.planned) + [q] && db.plannedDates == old(db.plannedDates) + added
    ensures db.nextId == next + |added|
    ensures GetById(db, q.id, user) == Some(PlannedWithDates(q, added))
  {
    AppendPlannedFits(db.planned, db.plannedDates, db.programs, q, added, db.nextId, next, user);
    db.WritePlannedTables(db.planned + [q], db.plannedDates + added, next + |added|);
  }

  /** `create`: refuses a program the user may not see, then inserts the
      planned program and one date row per date string, and returns the
      planned program with its dates. */
  method Create(db: Database, data: CreatePlanned, user: Id, parse: string -> Timestamp)
    returns (r: Result<PlannedWithDates, DbError>)
    requires db.Valid()
    modifies db`planned, db`plannedDates, db`nextId
    ensures db.Valid()
    ensures r.Err? ==> unchanged(db)
    ensures FindVisible(db.programs, data.programId, user).None? ==> r == Err(NotFound)
    ensures FindVisible(db.programs, data.programId, user).Some? ==>
              var k := NewKey(data.id, old(db.nextId));
              var next := Bump(old(db.nextId), k);
              var added := NewDates(k, DateStrings(data.dates), parse, next);
              if HasKey(old(db.planned), PlannedKey, k) then r == Err(DuplicateKey)
              else && db.planned == old(db.planned) + [PlannedProgram(k, data.programId)]
                   && db.plannedDates == old(db.plannedDates) + added
                   && db.nextId == next + |added|
                   && r == Ok(PlannedWithDates(PlannedProgram(k, data.programId), added))
    ensures r.Ok? ==> GetById(db, r.value.planned.id, user) == Some(r.value)
  {
    if FindVisible(db.programs, data.programId, user).None? {
      return Err(NotFound);
    }
    var k := NewKey(data.id, db.nextId);
    if HasKey(db.planned, PlannedKey, k) {
      return Err(DuplicateKey);
    }
    var next := Bump(db.nextId, k);
    var q := PlannedProgram(k, data.programId);
    var added := NewDates(k, DateStrings(data.dates), parse, next);
    InsertPlanned(db, q, added, next, user);
    r := Ok(PlannedWithDates(q, added));
  }

  /** The planned table with the row of `q`'s id replaced by `q`. */
  function ReplacePlanned(planned: seq<PlannedProgram>, q: PlannedProgram): (r: seq<PlannedProgram>)
    ensures |r| == |planned|
    ensures forall i :: 0 <= i < |planned| ==> r[i].id == planned[i].id
    ensures forall i :: 0 <= i < |planned| && planned[i].id == q.id ==> r[i] == q
    ensures forall i :: 0 <= i < |planned| && planned[i].id != q.id ==> r[i] == planned[i]
  {
    MapRows(planned, (x: PlannedProgram) => if x.id == q.id then q else x)
  }

  /** The date table without the dates of one planned program. */
  function DropDates(dates: seq<PlannedDate>, plannedId: Id): (r: seq<PlannedDate>)
    ensures forall d :: d in r <==> d in dates && d.plannedProgramId != plannedId
  {
    Filter(dates, (d: PlannedDate) => d.plannedProgramId != plannedId)
  }

  /** Step one of `update`: the planned row takes its new program id. */
  method WritePlannedRow(db: Database, q: PlannedProgram)
    requires db.Valid() && HasKey(db.planned, PlannedKey, q.id)
    modifies db`planned, db`plannedDates, db`nextId
    ensures db.Valid() && HasKey(db.planned, PlannedKey, q.id)
    ensures db.planned == ReplacePlanned(old(db.planned), q)
    ensures db.plannedDates == old(db.plannedDates) && db.nextId == old(db.nextId)
  {
    var planned := ReplacePlanned(db.planned, q);
    KeyedSameKeys(db.planned, planned, PlannedKey, db.nextId);
    db.WritePlannedTables(planned, db.plannedDates, db.nextId);
  }

  /** Replacing one planned program's dates by dates keyed from the counter
      keeps keys unique and below the advanced counter and every parent
      stored, and leaves that planned program exactly the new dates. */
  lemma ReplaceDatesFits(planned: seq<PlannedProgram>, dates: seq<PlannedDate>, id: Id,
                         added: seq<PlannedDate>, bound: Id)
    requires KeyedBelow(planned, PlannedKey, bound) && KeyedBelow(dates, DateKey, bound)
    requires forall i :: 0 <= i < |dates| ==> HasKey(planned, PlannedKey, dates[i].plannedProgramId)
    requires HasKey(planned, PlannedKey, id)
    requires forall i :: 0 <= i < |added| ==> added[i].id == bound + i && added[i].plannedProgramId == id
    ensures KeyedBelow(planned, PlannedKey, bound + |added|)
    ensures KeyedBelow(DropDates(dates, id) + added, DateKey, bound + |added|)
    ensures forall i :: 0 <= i < |DropDates(dates, id) + added| ==>
              HasKey(planned, PlannedKey, (DropDates(dates, id) + added)[i].plannedProgramId)
    ensures DatesOf(DropDates(dates, id) + added, id) == added
  {
    var kept := DropDates(dates, id);
    var all := kept + added;
    KeyedFilter(dates, DateKey, bound, (d: PlannedDate) => d.plannedProgramId != id);
    assert kept == Filter(dates, (d: PlannedDate) => d.plannedProgramId != id);
    KeyedExtend(kept, added, DateKey, bound);
    KeyedRaise(planned, PlannedKey, bound, bound + |added|);
    forall i | 0 <= i < |all| ensures HasKey(planned, PlannedKey, all[i].plannedProgramId) {
      if i < |kept| {
        assert kept[i] in dates;
      } else {
        assert all[i] == added[i - |kept|];
      }
    }
    assert forall i :: 0 <= i < |kept| ==> kept[i] in kept;
    NoDates(kept, id);
    DatesAfterInsert(kept, id, added);
  }

  /** Step two of `update`: the planned program's dates are deleted and
      the payload's dates inserted in their place. */
  method ReplaceDates(db: Database, id: Id, strs: seq<string>, parse: string -> Timestamp)
    requires db.Valid() && HasKey(db.planned, PlannedKey, id)
    modifies db`planned, db`plannedDates, db`nextId
    ensures db.Valid()
    ensures db.planned == old(db.planned)
    ensures db.plannedDates == DropDates(old(db.plannedDates), id) + NewDates(id, strs, parse, old(db.nextId))
    ensures db.nextId == old(db.nextId) + |strs|
    ensures DatesOf(db.plannedDates, id) == NewDates(id, strs, parse, old(db.nextId))
  {
    var added := NewDates(id, strs, parse, db.nextId);
    ReplaceDatesFits(db.planned, db.plannedDates, id, added, db.nextId);
    db.WritePlannedTables(db.planned, DropDates(db.plannedDates, id) + added, db.nextId + |added|);
  }

  /** `update`: when the user may reach the planned program, points it at
      the payload's program (unchecked) or keeps its own, and replaces its
      dates when the payload sends a date list; returns the row with its
      dates, `None` and no change otherwise. */
  method Update(db: Database, id: Id, user: Id, u: UpdatePlanned, parse: string -> Timestamp)
    returns (r: Option<PlannedWithDates>)
    requires db.Valid()
    modifies db`planned, db`plannedDates, db`nextId
    ensures db.Valid()
    ensures r.None? <==> FindPlanned(old(db.planned), old(db.programs), id, user).None?
    ensures r.None? ==> unchanged(db)
    ensures r.Some? ==>
              var q := PlannedProgram(id, u.programId.GetOr(FindPlanned(old(db.planned), old(db.programs), id, user).value.programId));
              && r.value.planned == q
              && db.planned == ReplacePlanned(old(db.planned), q)
    ensures r.Some? ==> if u.dates.Undefined?
                        then db.plannedDates == old(db.plannedDates) && db.nextId == old(db.nextId)
                        else var added := NewDates(id, DateStrings(u.dates), parse, old(db.nextId));
                             && db.plannedDates == DropDates(old(db.plannedDates), id) + added
                             && db.nextId == old(db.nextId) + |added|
    ensures r.Some? ==> r.value.dates == DatesOf(db.plannedDates, id)
    ensures r.Some? ==> r.value.dates == if u.dates.Undefined? then DatesOf(old(db.plannedDates), id)
                                         else NewDates(id, DateStrings(u.dates), parse, old(db.nextId))
  {
    var found := FindPlanned(db.planned, db.programs, id, user);
    if found.None? {
      return None;
    }
    var q := PlannedProgram(id, u.programId.GetOr(found.value.programId));
    assert HasKey(db.planned, PlannedKey, id) by {
      var i :| 0 <= i < |db.planned| && db.planned[i] == found.value;
      assert PlannedKey(db.planned[i]) == id;
    }
    WritePlannedRow(db, q);
    if !u.dates.Undefined? {
      ReplaceDates(db, id, DateStrings(u.dates), parse);
    }
    r := Some(PlannedWithDates(q, DatesOf(db.plannedDates, id)));
  }

  /** The planned table without the row `id`. */
  function DropPlanned(planned: seq<PlannedProgram>, id: Id): (r: seq<PlannedProgram>)
    ensures forall q :: q in r <==> q in planned && q.id != id
  {
    Filter(planned, (q: PlannedProgram) => q.id != id)
  }

  /** Dropping a planned program with its dates keeps keys unique and
      every remaining date's planned program stored. */
  lemma DropPlannedFits(planned: seq<PlannedProgram>, dates: seq<PlannedDate>, id: Id, bound: Id)
    requires KeyedBelow(planned, PlannedKey, bound) && KeyedBelow(dates, DateKey, bound)
    requires forall i :: 0 <= i < |dates| ==> HasKey(planned, PlannedKey, dates[i].plannedProgramId)
    ensures KeyedBelow(DropPlanned(planned, id), PlannedKey, bound)
    ensures KeyedBelow(DropDates(dates, id), DateKey, bound)
    ensures forall i :: 0 <= i < |DropDates(dates, id)| ==>
              HasKey(DropPlanned(planned, id), PlannedKey, DropDates(dates, id)[i].plannedProgramId)
    ensures DatesOf(DropDates(dates, id), id) == []
  {
    var planned', dates' := DropPlanned(planned, id), DropDates(dates, id);
    KeyedFilter(planned, PlannedKey, bound, (q: PlannedProgram) => q.id != id);
    assert planned' == Filter(planned, (q: PlannedProgram) => q.id != id);
    KeyedFilter(dates, DateKey, bound, (d: PlannedDate) => d.plannedProgramId != id);
    assert dates' == Filter(dates, (d: PlannedDate) => d.plannedProgramId != id);
    forall i | 0 <= i < |dates'| ensures HasKey(planned', PlannedKey, dates'[i].plannedProgramId) {
      ParentStored(planned, dates, dates'[i]);
      KeptKey(planned, id, dates'[i].plannedProgramId);
    }
    assert forall i :: 0 <= i < |dates'| ==> dates'[i] in dates';
    NoDates(dates', id);
  }

  /** A stored date's planned program is stored. */
  lemma ParentStored(planned: seq<PlannedProgram>, dates: seq<PlannedDate>, d: PlannedDate)
    requires forall i :: 0 <= i < |dates| ==> HasKey(planned, PlannedKey, dates[i].plannedProgramId)
    requires d in dates
    ensures HasKey(planned, PlannedKey, d.plannedProgramId)
  {
    var j :| 0 <= j < |dates| && dates[j] == d;
  }

  /** A key other than the dropped one survives `DropPlanned`. */
  lemma KeptKey(planned: seq<PlannedProgram>, id: Id, k: Id)
    requires HasKey(planned, PlannedKey, k) && k != id
    ensures HasKey(DropPlanned(planned, id), PlannedKey, k)
  {
    var i :| 0 <= i < |planned| && PlannedKey(planned[i]) == k;
    var r := DropPlanned(planned, id);
    assert planned[i] in r;
    var m :| 0 <= m < |r| && r[m] == planned[i];
  }

  /** `delete`: when the user may reach the planned program, removes it
      and, by the storage's cascade, its dates; reports whether it did. */
  method Delete(db: Database, id: Id, user: Id) returns (deleted: bool)
    requires db.Valid()
    modifies db`planned, db`plannedDates, db`nextId
    ensures db.Valid()
    ensures deleted <==> FindPlanned(old(db.planned), old(db.programs), id, user).Some?
    ensures !deleted ==> unchanged(db)
    ensures deleted ==> && db.planned == DropPlanned(old(db.planned), id)
                        && db.plannedDates == DropDates(old(db.plannedDates), id)
                        && db.nextId == old(db.nextId)
    ensures deleted ==> GetById(db, id, user).None? && DatesOf(db.plannedDates, id) == []
  {
    if FindPlanned(db.planned, db.programs, id, user).None? {
      return false;
    }
    var planned := DropPlanned(db.planned, id);
    var dates := DropDates(db.plannedDates, id);
    DropPlannedFits(db.planned, db.plannedDates, id, db.nextId);
    db.WritePlannedTables(planned, dates, db.nextId);
    assert FindPlanned(db.planned, db.programs, id, user).None?;
    deleted := true;
  }

  /** The join `createDate` checks: a planned program with the id whose
      exercise program exists, whoever owns it. */
  predicate PlannedExists(planned: seq<PlannedProgram>, programs: seq<Program>, plannedId: Id)
    ensures PlannedExists(planned, programs, plannedId) ==> HasKey(planned, PlannedKey, plannedId)
    ensures forall user :: FindPlanned(planned, programs, plannedId, user).Some? ==> PlannedExists(planned, programs, plannedId)
  {
    exists i :: 0 <= i < |planned| && planned[i].id == plannedId && HasKey(programs, ProgramKey, planned[i].programId)
  }

  /** Stores one date row under a fresh key. */
  method InsertDate(db: Database, d: PlannedDate, next: Id)
    requires db.Valid() && db.nextId <= next && d.id < next
    requires !HasKey(db.plannedDates, DateKey, d.id) && HasKey(db.planned, PlannedKey, d.plannedProgramId)
    modifies db`planned, db`plannedDates, db`nextId
    ensures db.Valid()
    ensures db.planned == old(db.planned) && db.plannedDates == old(db.plannedDates) + [d]
    ensures db.nextId == next
    ensures DatesOf(db.plannedDates, d.plannedProgramId) == DatesOf(old(db.plannedDates), d.plannedProgramId) + [d]
  {
    var dates := db.plannedDates + [d];
    assert && KeyedBelow(db.planned, PlannedKey, next) && KeyedBelow(dates, DateKey, next)
           && forall i :: 0 <= i < |dates| ==> HasKey(db.planned, PlannedKey, dates[i].plannedProgramId) by {
      KeyedRaise(db.planned, PlannedKey, db.nextId, next);
      KeyedAppend(db.plannedDates, d, DateKey, db.nextId, next);
      assert dates[|db.plannedDates|] == d;
    }
    DatesAfterInsert(db.plannedDates, d.plannedProgramId, [d]);
    db.WritePlannedTables(db.planned, dates, next);
  }

  /** `createDate`: refuses a planned program that does not exist (there is
      no user check), then inserts the date and returns it. */
  method CreateDate(db: Database, data: CreateDate, parse: string -> Timestamp) returns (r: Result<PlannedDate, DbError>)
    requires db.Valid()
    modifies db`planned, db`plannedDates, db`nextId
    ensures db.Valid()
    ensures r.Err? ==> unchanged(db)
    ensures !PlannedExists(db.planned, db.programs, data.plannedProgramId) ==> r == Err(NotFound)
    ensures PlannedExists(db.planned, db.programs, data.plannedProgramId) ==>
              var k := NewKey(data.id, old(db.nextId));
              var d := PlannedDate(k, data.plannedProgramId, parse(data.date));
              if HasKey(old(db.plannedDates), DateKey, k) then r == Err(DuplicateKey)
              else && r == Ok(d)
                   && db.plannedDates == old(db.plannedDates) + [d]
                   && db.nextId == Bump(old(db.nextId), k)
    ensures db.planned == old(db.planned)
    ensures r.Ok? ==> DatesOf(db.plannedDates, data.plannedProgramId)
                      == DatesOf(old(db.plannedDates), data.plannedProgramId) + [r.value]
  {
    if !PlannedExists(db.planned, db.programs, data.plannedProgramId) {
      return Err(NotFound);
    }
    var k := NewKey(data.id, db.nextId);
    if HasKey(db.plannedDates, DateKey, k) {
      return Err(DuplicateKey);
    }
    var d := PlannedDate(k, data.plannedProgramId, parse(data.date));
    InsertDate(db, d, Bump(db.nextId, k));
    r := Ok(d);
  }

  /** The date `id` when the user may reach its planned program. */
  function FindDate(db: Database, id: Id, user: Id): (r: Option<PlannedDate>)
    reads db
    ensures r.Some? <==> exists i :: && 0 <= i < |db.plannedDates| && db.plannedDates[i].id == id
                                     && FindPlanned(db.planned, db.programs, db.plannedDates[i].plannedProgramId, user).Some?
    ensures r.Some? ==> && r.value in db.plannedDates && r.value.id == id
                        && FindPlanned(db.planned, db.programs, r.value.plannedProgramId, user).Some?
  {
    var planned, programs := db.planned, db.programs;
    FirstWhere(db.plannedDates, (d: PlannedDate) => d.id == id && FindPlanned(planned, programs, d.plannedProgramId, user).Some?)
  }

  /** The date row after `updateDate`: a non-empty date string replaces the
      stored date, anything else keeps it. */
  function UpdatedDate(d: PlannedDate, u: UpdateDate, parse: string -> Timestamp): (r: PlannedDate)
    ensures r.id == d.id && r.plannedProgramId == d.plannedProgramId
    ensures u.date.None? ==> r == d
    ensures u.date.Some? && u.date.value != [] ==> r.date == parse(u.date.value)
  {
    if u.date.Some? && u.date.value != [] then d.(date := parse(u.date.value)) else d
  }

  /** The date table with the row of `d`'s id replaced by `d`. */
  function ReplaceDate(dates: seq<PlannedDate>, d: PlannedDate): (r: seq<PlannedDate>)
    ensures |r| == |dates|
    ensures forall i :: 0 <= i < |dates| ==> r[i].id == dates[i].id
    ensures forall i :: 0 <= i < |dates| && dates[i].id == d.id ==> r[i] == d
    ensures forall i :: 0 <= i < |dates| && dates[i].id != d.id ==> r[i] == dates[i]
  {
    MapRows(dates, (x: PlannedDate) => if x.id == d.id then d else x)
  }

  /** Rewriting a stored date in place, under its own id and planned
      program, keeps keys unique and its planned program stored. */
  lemma ReplaceDateFits(planned: seq<PlannedProgram>, dates: seq<PlannedDate>, stored: PlannedDate, d: PlannedDate, bound: Id)
    requires KeyedBelow(dates, DateKey, bound)
    requires forall i :: 0 <= i < |dates| ==> HasKey(planned, PlannedKey, dates[i].plannedProgramId)
    requires stored in dates && d.id == stored.id && d.plannedProgramId == stored.plannedProgramId
    ensures KeyedBelow(ReplaceDate(dates, d), DateKey, bound)
    ensures forall i :: 0 <= i < |dates| ==> HasKey(planned, PlannedKey, ReplaceDate(dates, d)[i].plannedProgramId)
  {
    var r := ReplaceDate(dates, d);
    KeyedSameKeys(dates, r, DateKey, bound);
    var j :| 0 <= j < |dates| && dates[j] == stored;
    forall i | 0 <= i < |dates| ensures HasKey(planned, PlannedKey, r[i].plannedProgramId) {
      if dates[i].id == d.id {
        assert DateKey(dates[i]) == DateKey(dates[j]);
      }
    }
  }

  /** `updateDate`: when the user may reach the date, rewrites its date
      and returns the row; `None` and no change otherwise. */
  method UpdateDate(db: Database, id: Id, user: Id, u: UpdateDate, parse: string -> Timestamp)
    returns (r: Option<PlannedDate>)
    requires db.Valid()
    modifies db`planned, db`plannedDates, db`nextId
    ensures db.Valid()
    ensures r.None? <==> old(FindDate(db, id, user)).None?
    ensures r.None? ==> unchanged(db)
    ensures r.Some? ==> && r.value == UpdatedDate(old(FindDate(db, id, user)).value, u, parse)
                        && db.plannedDates == ReplaceDate(old(db.plannedDates), r.value)
                        && db.planned == old(db.planned) && db.nextId == old(db.nextId)
  {
    var found := FindDate(db, id, user);
    if found.None? {
      return None;
    }
    var d := UpdatedDate(found.value, u, parse);
    var dates := ReplaceDate(db.plannedDates, d);
    ReplaceDateFits(db.planned, db.plannedDates, found.value, d, db.nextId);
    db.WritePlannedTables(db.planned, dates, db.nextId);
    r := Some(d);
  }

  /** The date table without the row `id`. */
  function DropDate(dates: seq<PlannedDate>, id: Id): (r: seq<PlannedDate>)
    ensures forall d :: d in r <==> d in dates && d.id != id
  {
    Filter(dates, (d: PlannedDate) => d.id != id)
  }

  /** Dropping one date keeps keys unique, every remaining date's planned
      program stored, and no row keyed `id`. */
  lemma DropDateFits(planned: seq<PlannedProgram>, dates: seq<PlannedDate>, id: Id, bound: Id)
    requires KeyedBelow(dates, DateKey, bound)
    requires forall i :: 0 <= i < |dates| ==> HasKey(planned, PlannedKey, dates[i].plannedProgramId)
    ensures KeyedBelow(DropDate(dates, id), DateKey, bound)
    ensures forall i :: 0 <= i < |DropDate(dates, id)| ==>
              HasKey(planned, PlannedKey, DropDate(dates, id)[i].plannedProgramId)
    ensures !HasKey(DropDate(dates, id), DateKey, id)
  {
    var dates' := DropDate(dates, id);
    KeyedFilter(dates, DateKey, bound, (d: PlannedDate) => d.id != id);
    assert dates' == Filter(dates, (d: PlannedDate) => d.id != id);
    forall i | 0 <= i < |dates'| ensures HasKey(planned, PlannedKey, dates'[i].plannedProgramId) {
      assert dates'[i] in dates;
    }
    assert forall i :: 0 <= i < |dates'| ==> dates'[i] in dates';
  }

  /** `deleteDate`: when the user may reach the date, removes it; reports
      whether it did. */
  method DeleteDate(db: Database, id: Id, user: Id) returns (deleted: bool)
    requires db.Valid()
    modifies db`planned, db`plannedDates, db`nextId
    ensures db.Valid()
    ensures deleted <==> old(FindDate(db, id, user)).Some?
    ensures !deleted ==> unchanged(db)
    ensures deleted ==> && db.plannedDates == DropDate(old(db.plannedDates), id)
                        && db.planned == old(db.planned) && db.nextId == old(db.nextId)
    ensures deleted ==> !HasKey(db.plannedDates, DateKey, id)
  {
    if FindDate(db, id, user).None? {
      return false;
    }
    var dates := DropDate(db.plannedDates, id);
    DropDateFits(db.planned, db.plannedDates, id, db.nextId);
    db.WritePlannedTables(db.planned, dates, db.nextId);
    deleted := true;
  }
}
