/** Reconciling a program's prescriptions with an update payload: payload
    rows whose id names one of the program's rows overwrite that row, all
    other payload rows are inserted with added ids, and the program's rows
    the payload does not name are deleted unless a completed exercise
    still refers to them. */
module Reconcile {
  import opened Wrappers
  import opened Seqs
  import opened Store
  import opened ProgramSchema

  /** How many payload rows carry id `k`. */
  function CountId(xs: seq<RowInput>, k: Id): nat {
    if xs == [] then 0
    else CountId(xs[..|xs| - 1], k) + (if xs[|xs| - 1].id == Some(k) then 1 else 0)
  }

  /** The last payload row that carries id `k`. */
  function LastWithId(xs: seq<RowInput>, k: Id): (x: RowInput)
    requires CountId(xs, k) > 0
    ensures x in xs && x.id == Some(k)
  {
    if xs[|xs| - 1].id == Some(k) then xs[|xs| - 1] else LastWithId(xs[..|xs| - 1], k)
  }

  /** The ids of the program's stored prescriptions (`existingById`). */
  function ExistingIds(rows: seq<Prescription>, programId: Id): (r: set<Id>)
    ensures forall k :: k in r <==> exists i :: 0 <= i < |rows| && rows[i].programId == programId && rows[i].id == k
  {
    set i | 0 <= i < |rows| && rows[i].programId == programId :: rows[i].id
  }

  /** A payload row updates in place when its id is one of `existing`. */
  predicate Matches(existing: set<Id>, x: RowInput) {
    x.id.Some? && x.id.value in existing
  }

  /** The split the payload loop makes: rows to update, rows to insert, and
      the ids it has seen (`incomingIds`). */
  datatype Plan = Plan(updates: seq<RowInput>, inserts: seq<RowInput>, matched: set<Id>)

  function Partition(existing: set<Id>, payload: seq<RowInput>): (p: Plan)
    ensures |p.updates| + |p.inserts| == |payload|
    ensures forall x :: x in p.updates <==> x in payload && Matches(existing, x)
    ensures forall x :: x in p.inserts <==> x in payload && !Matches(existing, x)
    ensures forall k :: k in p.matched <==> k in existing && CountId(payload, k) > 0
    ensures forall k :: CountId(p.updates, k) == if k in existing then CountId(payload, k) else 0
  {
    if payload == [] then Plan([], [], {})
    else
      var front := payload[..|payload| - 1];
      var x := payload[|payload| - 1];
      var p := Partition(existing, front);
      assert payload == front + [x];
      if Matches(existing, x) then
        var r := Plan(p.updates + [x], p.inserts, p.matched + {x.id.value});
        assert r.updates[..|r.updates| - 1] == p.updates;
        r
      else
        Plan(p.updates, p.inserts + [x], p.matched)
  }

  /** Among the payload rows that match, the last one with a given id is the
      last update with that id. */
  lemma {:induction false} PartitionLast(existing: set<Id>, payload: seq<RowInput>, k: Id)
    requires k in existing && CountId(payload, k) > 0
    ensures CountId(Partition(existing, payload).updates, k) > 0
    ensures LastWithId(Partition(existing, payload).updates, k) == LastWithId(payload, k)
  {
    var front := payload[..|payload| - 1];
    var x := payload[|payload| - 1];
    var p := Partition(existing, front);
    if x.id == Some(k) {
      var u := Partition(existing, payload).updates;
      assert u == p.updates + [x];
    } else {
      PartitionLast(existing, front, k);
      var u := Partition(existing, payload).updates;
      if Matches(existing, x) {
        assert u == p.updates + [x];
        assert u[..|u| - 1] == p.updates;
      }
    }
  }

  /** The payload loop of the service, collecting updates, inserts and the
      matched ids. */
  method PartitionRows(existing: set<Id>, payload: seq<RowInput>) returns (p: Plan)
    ensures p == Partition(existing, payload)
  {
    var updates, inserts, matched := [], [], {};
    for i := 0 to |payload|
      invariant Plan(updates, inserts, matched) == Partition(existing, payload[..i])
    {
      var x := payload[i];
      assert payload[..i + 1][..i] == payload[..i];
      if x.id.Some? && x.id.value in existing {
        matched := matched + {x.id.value};
        updates := updates + [x];
      } else {
        inserts := inserts + [x];
      }
    }
    assert payload[..|payload|] == payload;
    p := Plan(updates, inserts, matched);
  }

  /** The columns an update writes: exercise, sets and rest always; order,
      reps and duration only when the payload gives them. */
  function Overwrite(row: Prescription, u: RowInput): (r: Prescription)
    ensures r.id == row.id && r.programId == row.programId
    ensures r.exerciseId == u.exerciseId && r.sets == u.sets && r.restDuration == u.restDuration
    ensures r.order == u.order.GetOr(row.order)
    ensures r.reps == (if u.reps.Some? then u.reps else row.reps)
    ensures r.duration == (if u.duration.Some? then u.duration else row.duration)
  {
    row.(exerciseId := u.exerciseId, order := u.order.GetOr(row.order), sets := u.sets,
         reps := if u.reps.Some? then u.reps else row.reps,
         duration := if u.duration.Some? then u.duration else row.duration,
         restDuration := u.restDuration)
  }

  /** One `update ... where id = u.id`. */
  function ApplyOne(rows: seq<Prescription>, u: RowInput): (r: seq<Prescription>)
    ensures |r| == |rows|
    ensures forall i :: 0 <= i < |rows| ==>
              r[i] == if u.id == Some(rows[i].id) then Overwrite(rows[i], u) else rows[i]
  {
    seq(|rows|, i requires 0 <= i < |rows| => if u.id == Some(rows[i].id) then Overwrite(rows[i], u) else rows[i])
  }

  /** The per-row update loop, in payload order. */
  function ApplyUpdates(rows: seq<Prescription>, us: seq<RowInput>): (r: seq<Prescription>)
    ensures |r| == |rows|
    ensures forall i :: 0 <= i < |rows| ==> r[i].id == rows[i].id && r[i].programId == rows[i].programId
    ensures forall i :: 0 <= i < |rows| && CountId(us, rows[i].id) == 0 ==> r[i] == rows[i]
    ensures forall i :: 0 <= i < |rows| && CountId(us, rows[i].id) == 1 ==>
              r[i] == Overwrite(rows[i], LastWithId(us, rows[i].id))
    ensures forall i :: 0 <= i < |rows| && CountId(us, rows[i].id) > 0 ==>
              var x := LastWithId(us, rows[i].id);
              r[i].exerciseId == x.exerciseId && r[i].sets == x.sets && r[i].restDuration == x.restDuration
  {
    if us == [] then rows
    else
      var front := us[..|us| - 1];
      var u := us[|us| - 1];
      var mid := ApplyUpdates(rows, front);
      var r := ApplyOne(mid, u);
      assert forall i :: 0 <= i < |rows| && CountId(us, rows[i].id) > 0 && u.id != Some(rows[i].id) ==>
        LastWithId(us, rows[i].id) == LastWithId(front, rows[i].id);
      r
  }

  /** The row an insert creates: the program's id, a added key, `order`
      falling back to its column default 1, absent reps and duration null. */
  function Fresh(programId: Id, x: RowInput, id: Id): (r: Prescription)
    ensures r.id == id && r.programId == programId && r.exerciseId == x.exerciseId
    ensures r.order == x.order.GetOr(1) && r.sets == x.sets && r.reps == x.reps
    ensures r.duration == x.duration && r.restDuration == x.restDuration
  {
    Prescription(id, programId, x.exerciseId, x.order.GetOr(1), x.sets, x.reps, x.duration, x.restDuration)
  }

  /** The inserted rows, keyed `next`, `next + 1`, ... in payload order. */
  function NewRows(programId: Id, xs: seq<RowInput>, next: Id): (r: seq<Prescription>)
    ensures |r| == |xs|
    ensures forall i :: 0 <= i < |xs| ==> r[i] == Fresh(programId, xs[i], next + i)
  {
    seq(|xs|, i requires 0 <= i < |xs| => Fresh(programId, xs[i], next + i))
  }

  /** The prescription ids completed exercises refer to. */
  function Referenced(completed: seq<CompletedExercise>): (r: set<Id>)
    ensures forall k :: k in r <==> exists i :: 0 <= i < |completed| && completed[i].programExerciseId == Some(k)
  {
    set i | 0 <= i < |completed| && completed[i].programExerciseId.Some? :: completed[i].programExerciseId.value
  }

  /** The deletable ids: the program's rows the payload did not name and no
      completed exercise refers to. */
  function Doomed(rows: seq<Prescription>, programId: Id, matched: set<Id>, referenced: set<Id>): (r: set<Id>)
    ensures forall k :: k in r <==> k !in matched && k !in referenced
                                    && exists i :: 0 <= i < |rows| && rows[i].programId == programId && rows[i].id == k
  {
    set i | 0 <= i < |rows| && rows[i].programId == programId && rows[i].id !in matched
                              && rows[i].id !in referenced :: rows[i].id
  }

  /** The prescriptions table after reconciliation, and the id counter. */
  datatype Outcome = Outcome(rows: seq<Prescription>, next: Id)

  /** The payload split against the program's stored rows. */
  function PlanOf(rows: seq<Prescription>, programId: Id, payload: seq<RowInput>): (r: Plan)
    ensures |r.updates| + |r.inserts| == |payload|
    ensures r.matched <= ExistingIds(rows, programId)
  {
    var p := Partition(ExistingIds(rows, programId), payload);
    assert forall k :: k in p.matched ==> k in ExistingIds(rows, programId);
    p
  }

  /** Carries out a plan: updates in place, then inserts, then deletes the
      unnamed, unreferenced rows. */
  function Apply(rows: seq<Prescription>, programId: Id, plan: Plan,
                 completed: seq<CompletedExercise>, next: Id): (r: Outcome)
    ensures r.next == next + |plan.inserts|
    ensures |r.rows| <= |rows| + |plan.inserts|
  {
    var kept := ApplyUpdates(rows, plan.updates) + NewRows(programId, plan.inserts, next);
    var doomed := Doomed(rows, programId, plan.matched, Referenced(completed));
    Outcome(Filter(kept, (r: Prescription) => r.id !in doomed), next + |plan.inserts|)
  }

  /** The reconciliation of a program's prescriptions with a payload. */
  function Reconcile(rows: seq<Prescription>, programId: Id, payload: seq<RowInput>,
                     completed: seq<CompletedExercise>, next: Id): (r: Outcome)
    ensures next <= r.next <= next + |payload|
    ensures |r.rows| <= |rows| + |payload|
  {
    Apply(rows, programId, PlanOf(rows, programId, payload), completed, next)
  }

  /** Every stored row of the table, rewritten or not, before the deletion. */
  lemma KeptRows(rows: seq<Prescription>, programId: Id, payload: seq<RowInput>,
                 completed: seq<CompletedExercise>, next: Id, i: int)
    requires 0 <= i < |rows|
    ensures var plan := PlanOf(rows, programId, payload);
            var doomed := Doomed(rows, programId, plan.matched, Referenced(completed));
            var u := ApplyUpdates(rows, plan.updates)[i];
            u.id == rows[i].id && (u.id !in doomed ==> u in Reconcile(rows, programId, payload, completed, next).rows)
  {
    var plan := PlanOf(rows, programId, payload);
    var upd := ApplyUpdates(rows, plan.updates);
    var kept := upd + NewRows(programId, plan.inserts, next);
    var doomed := Doomed(rows, programId, plan.matched, Referenced(completed));
    var out := Filter(kept, (r: Prescription) => r.id !in doomed);
    assert Reconcile(rows, programId, payload, completed, next).rows == out;
    assert kept[i] == upd[i];
    if upd[i].id !in doomed {
      assert upd[i] in kept;
      assert upd[i] in out;
    }
  }

  /** Reconciliation keeps the primary key unique and below the counter. */
  lemma ReconcileKeyed(rows: seq<Prescription>, programId: Id, payload: seq<RowInput>,
                       completed: seq<CompletedExercise>, next: Id)
    requires KeyedBelow(rows, PrescriptionKey, next)
    ensures var out := Reconcile(rows, programId, payload, completed, next);
            out.next >= next && KeyedBelow(out.rows, PrescriptionKey, out.next)
  {
    var plan := PlanOf(rows, programId, payload);
    var upd := ApplyUpdates(rows, plan.updates);
    var added := NewRows(programId, plan.inserts, next);
    var kept := upd + added;
    var next' := next + |plan.inserts|;
    KeyedSameKeys(rows, upd, PrescriptionKey, next);
    KeyedExtend(upd, added, PrescriptionKey, next);
    var doomed := Doomed(rows, programId, plan.matched, Referenced(completed));
    KeyedFilter(kept, PrescriptionKey, next', (r: Prescription) => r.id !in doomed);
    assert Reconcile(rows, programId, payload, completed, next).rows
        == Filter(kept, (r: Prescription) => r.id !in doomed);
  }

  /** The rows of every other program come through unchanged, and no row of
      another program appears. */
  lemma OtherProgramsUntouched(rows: seq<Prescription>, programId: Id, payload: seq<RowInput>,
                               completed: seq<CompletedExercise>, next: Id)
    requires KeyedBelow(rows, PrescriptionKey, next)
    ensures var out := Reconcile(rows, programId, payload, completed, next).rows;
            forall r :: r in rows && r.programId != programId <==> r in out && r.programId != programId
  {
    var plan := PlanOf(rows, programId, payload);
    var existing := ExistingIds(rows, programId);
    var upd := ApplyUpdates(rows, plan.updates);
    var added := NewRows(programId, plan.inserts, next);
    var kept := upd + added;
    var doomed := Doomed(rows, programId, plan.matched, Referenced(completed));
    var out := Reconcile(rows, programId, payload, completed, next).rows;
    forall i | 0 <= i < |rows| && rows[i].programId != programId ensures rows[i] in out {
      assert rows[i].id !in existing;
      assert CountId(plan.updates, rows[i].id) == 0;
      assert rows[i].id !in doomed;
      KeptRows(rows, programId, payload, completed, next, i);
    }
    forall r | r in out && r.programId != programId ensures r in rows {
      assert r in kept;
      var j :| 0 <= j < |kept| && kept[j] == r;
      if j < |upd| {
        assert upd[j].programId == rows[j].programId;
        assert rows[j].id !in existing;
        assert upd[j] == rows[j];
      } else {
        assert false;
      }
    }
  }

  /** A row of the program that no payload row names is deleted unless a
      completed exercise refers to it, and then it stays as it was. */
  lemma UnnamedRows(rows: seq<Prescription>, programId: Id, payload: seq<RowInput>,
                    completed: seq<CompletedExercise>, next: Id, r: Prescription)
    requires KeyedBelow(rows, PrescriptionKey, next)
    requires r in rows && r.programId == programId && CountId(payload, r.id) == 0
    ensures var out := Reconcile(rows, programId, payload, completed, next).rows;
            && (r.id in Referenced(completed) ==> r in out)
            && (r.id !in Referenced(completed) ==> !HasKey(out, PrescriptionKey, r.id))
  {
    var plan := PlanOf(rows, programId, payload);
    var doomed := Doomed(rows, programId, plan.matched, Referenced(completed));
    var i :| 0 <= i < |rows| && rows[i] == r;
    assert r.id !in plan.matched;
    if r.id in Referenced(completed) {
      assert CountId(plan.updates, r.id) == 0;
      KeptRows(rows, programId, payload, completed, next, i);
    } else {
      assert r.id in doomed;
    }
  }

  /** A row of the program named by exactly one payload row takes that row's
      columns; a named row is never deleted. */
  lemma NamedRows(rows: seq<Prescription>, programId: Id, payload: seq<RowInput>,
                  completed: seq<CompletedExercise>, next: Id, r: Prescription)
    requires KeyedBelow(rows, PrescriptionKey, next)
    requires r in rows && r.programId == programId && CountId(payload, r.id) > 0
    ensures var out := Reconcile(rows, programId, payload, completed, next).rows;
            && HasKey(out, PrescriptionKey, r.id)
            && (CountId(payload, r.id) == 1 ==> Overwrite(r, LastWithId(payload, r.id)) in out)
  {
    var existing := ExistingIds(rows, programId);
    var plan := PlanOf(rows, programId, payload);
    var i :| 0 <= i < |rows| && rows[i] == r;
    assert r.id in existing && r.id in plan.matched;
    KeptRows(rows, programId, payload, completed, next, i);
    var out := Reconcile(rows, programId, payload, completed, next).rows;
    var u := ApplyUpdates(rows, plan.updates)[i];
    assert u in out;
    var j :| 0 <= j < |out| && out[j] == u;
    assert PrescriptionKey(out[j]) == r.id;
    if CountId(payload, r.id) == 1 {
      PartitionLast(existing, payload, r.id);
    }
  }

  /** Each inserted row belongs to the program, has a key the table never
      held, and survives the deletion step. */
  lemma InsertedRows(rows: seq<Prescription>, programId: Id, payload: seq<RowInput>,
                     completed: seq<CompletedExercise>, next: Id)
    requires KeyedBelow(rows, PrescriptionKey, next)
    ensures var plan := PlanOf(rows, programId, payload);
            var out := Reconcile(rows, programId, payload, completed, next);
            && out.next == next + |plan.inserts|
            && forall i :: 0 <= i < |plan.inserts| ==>
                 Fresh(programId, plan.inserts[i], next + i) in out.rows
                 && !HasKey(rows, PrescriptionKey, next + i)
  {
    var plan := PlanOf(rows, programId, payload);
    var upd := ApplyUpdates(rows, plan.updates);
    var added := NewRows(programId, plan.inserts, next);
    var kept := upd + added;
    var doomed := Doomed(rows, programId, plan.matched, Referenced(completed));
    forall i | 0 <= i < |plan.inserts|
      ensures Fresh(programId, plan.inserts[i], next + i) in Reconcile(rows, programId, payload, completed, next).rows
    {
      assert kept[|upd| + i] == added[i];
      assert added[i].id !in doomed;
    }
  }

  lemma {:induction false} NoIdsNoUpdates(existing: set<Id>, payload: seq<RowInput>)
    requires forall i :: 0 <= i < |payload| ==> payload[i].id.None?
    ensures Partition(existing, payload).updates == [] && Partition(existing, payload).matched == {}
  {
    if payload != [] {
      NoIdsNoUpdates(existing, payload[..|payload| - 1]);
    }
  }

  /** A payload without ids, which is all the update schema lets through:
      every payload row is inserted, and afterwards the program's rows are
      the new ones and the old ones completed exercises refer to. */
  lemma PayloadWithoutIds(rows: seq<Prescription>, programId: Id, payload: seq<RowInput>,
                          completed: seq<CompletedExercise>, next: Id)
    requires KeyedBelow(rows, PrescriptionKey, next)
    requires forall i :: 0 <= i < |payload| ==> payload[i].id.None?
    ensures var out := Reconcile(rows, programId, payload, completed, next);
            && out.next == next + |payload|
            && forall r :: r in out.rows && r.programId == programId ==>
                 (r in rows && r.id in Referenced(completed)) || r.id >= next
  {
    var existing := ExistingIds(rows, programId);
    var plan := PlanOf(rows, programId, payload);
    NoIdsNoUpdates(existing, payload);
    var upd := ApplyUpdates(rows, plan.updates);
    assert upd == rows;
    var added := NewRows(programId, plan.inserts, next);
    var kept := upd + added;
    var doomed := Doomed(rows, programId, plan.matched, Referenced(completed));
    forall r | r in Reconcile(rows, programId, payload, completed, next).rows && r.programId == programId
      ensures (r in rows && r.id in Referenced(completed)) || r.id >= next
    {
      var j :| 0 <= j < |kept| && kept[j] == r;
      if j < |upd| {
        assert r == rows[j] && r.id !in doomed;
      } else {
        assert r == added[j - |upd|];
      }
    }
  }

  /** One more iteration of the update loop applies one more payload row. */
  lemma UpdatesStep(rows: seq<Prescription>, us: seq<RowInput>, i: nat)
    requires i < |us|
    ensures ApplyUpdates(rows, us[..i + 1]) == ApplyOne(ApplyUpdates(rows, us[..i]), us[i])
  {
    assert us[..i + 1][..i] == us[..i];
  }

  /** The service's steps in order: the payload loop, the per-row update
      loop, the batch insert, and the delete of the unnamed, unreferenced
      rows. */
  method ReconcileRows(rows: seq<Prescription>, programId: Id, payload: seq<RowInput>,
                       completed: seq<CompletedExercise>, next: Id) returns (out: Outcome)
    ensures out == Reconcile(rows, programId, payload, completed, next)
  {
    var plan := PartitionRows(ExistingIds(rows, programId), payload);
    var table := rows;
    for i := 0 to |plan.updates|
      invariant table == ApplyUpdates(rows, plan.updates[..i])
    {
      UpdatesStep(rows, plan.updates, i);
      table := ApplyOne(table, plan.updates[i]);
    }
    assert plan.updates[..|plan.updates|] == plan.updates;
    var kept := table + NewRows(programId, plan.inserts, next);
    var doomed := Doomed(rows, programId, plan.matched, Referenced(completed));
    out := Outcome(Filter(kept, (r: Prescription) => r.id !in doomed), next + |plan.inserts|);
  }

  /** What the table invariants need from reconciliation: keys stay unique
      under a counter that only grows, and every row either belongs to the
      program or was already stored. */
  lemma ReconcileFits(rows: seq<Prescription>, programId: Id, payload: seq<RowInput>,
                      completed: seq<CompletedExercise>, next: Id)
    requires KeyedBelow(rows, PrescriptionKey, next)
    ensures var out := Reconcile(rows, programId, payload, completed, next);
            && out.next >= next && KeyedBelow(out.rows, PrescriptionKey, out.next)
            && forall x :: x in out.rows ==> (x in rows && x.programId != programId) || x.programId == programId
  {
    ReconcileKeyed(rows, programId, payload, completed, next);
    OtherProgramsUntouched(rows, programId, payload, completed, next);
  }
}
