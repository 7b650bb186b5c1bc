/** The user-payment table service: a user's payments, one by id, and
    create, update and delete of a payment row. Ownership is checked by the
    callers. */
module PaymentService {
  import opened Wrappers
  import opened Seqs
  import opened Store

  /** The insert payload; `id` is `None` when the client sent it as null or
      left it out. */
  datatype CreatePayment = CreatePayment(id: Option<Id>, userId: Id, amount: int)

  /** The partial update payload; absent fields are left as stored. */
  datatype UpdatePayment = UpdatePayment(userId: Option<Id>, amount: Option<int>)

  /** `getByUserId`: exactly the user's payments, in table order. */
  function GetByUserId(db: Database, user: Id): (r: seq<Payment>)
    reads db
    ensures forall p :: p in r <==> p in db.payments && p.userId == user
  {
    Filter(db.payments, (p: Payment) => p.userId == user)
  }

  /** `getById`: the payment with the id, or `None`. */
  function GetById(db: Database, id: Id): (r: Option<Payment>)
    reads db
    ensures r.Some? <==> HasKey(db.payments, PaymentKey, id)
    ensures r.Some? ==> r.value in db.payments && r.value.id == id
  {
    FindKey(db.payments, PaymentKey, id)
  }

  /** `create`: stores the user and amount under the supplied id when there
      is one and under the next generated id otherwise; an explicit id
      already in use is refused and nothing is stored. */
  method Create(db: Database, data: CreatePayment) returns (r: Result<Payment, DbError>)
    requires db.Valid()
    modifies db`payments, db`nextId
    ensures db.Valid()
    ensures r.Err? <==> data.id.Some? && HasKey(old(db.payments), PaymentKey, data.id.value)
    ensures r.Err? ==> r.error == DuplicateKey && unchanged(db)
    ensures r.Ok? ==> && r.value.id == (if data.id.Some? then data.id.value else old(db.nextId))
                      && r.value.userId == data.userId && r.value.amount == data.amount
                      && db.payments == old(db.payments) + [r.value]
                      && db.nextId == Bump(old(db.nextId), r.value.id)
    ensures r.Ok? ==> GetById(db, r.value.id) == Some(r.value) && r.value in GetByUserId(db, data.userId)
  {
    var p := Payment(NewKey(data.id, db.nextId), data.userId, data.amount);
    if HasKey(db.payments, PaymentKey, p.id) {
      return Err(DuplicateKey);
    }
    var next := Bump(db.nextId, p.id);
    var rows := db.payments + [p];
    assert KeyedBelow(rows, PaymentKey, next) by {
      KeyedRaise(db.payments, PaymentKey, db.nextId, next);
      KeyedAppend(db.payments, p, PaymentKey, next, next);
    }
    db.WritePayments(rows, next);
    assert db.payments[|db.payments| - 1] == p;
    FindKeyStored(db.payments, PaymentKey, p);
    r := Ok(p);
  }

  /** The row after `update`: each supplied field replaces the stored one. */
  function Merge(p: Payment, u: UpdatePayment): (r: Payment)
    ensures r.id == p.id
    ensures r.userId == (if u.userId.Some? then u.userId.value else p.userId)
    ensures r.amount == (if u.amount.Some? then u.amount.value else p.amount)
  {
    Payment(p.id, u.userId.GetOr(p.userId), u.amount.GetOr(p.amount))
  }

  /** Applying the same update twice is applying it once. */
  lemma MergeIdempotent(p: Payment, u: UpdatePayment)
    ensures Merge(Merge(p, u), u) == Merge(p, u)
  {
  }

  /** `update`: `None` and no change when no row has the id; otherwise the
      row is merged with the payload in place and returned. */
  method Update(db: Database, id: Id, u: UpdatePayment) returns (r: Option<Payment>)
    requires db.Valid()
    modifies db`payments, db`nextId
    ensures db.Valid()
    ensures r.None? <==> !HasKey(old(db.payments), PaymentKey, id)
    ensures r.None? ==> unchanged(db)
    ensures r.Some? ==> && r.value == Merge(old(GetById(db, id)).value, u)
                        && db.payments == ReplaceKey(old(db.payments), PaymentKey, r.value)
                        && db.nextId == old(db.nextId)
    ensures r.Some? ==> GetById(db, id) == r
  {
    var found := GetById(db, id);
    if found.None? {
      return None;
    }
    var p := Merge(found.value, u);
    var rows := ReplaceKey(db.payments, PaymentKey, p);
    ReplaceKeyKeyed(db.payments, PaymentKey, p, db.nextId);
    var j :| 0 <= j < |db.payments| && db.payments[j] == found.value;
    db.WritePayments(rows, db.nextId);
    assert db.payments[j] == p;
    FindKeyStored(db.payments, PaymentKey, p);
    r := Some(p);
  }

  /** `delete`: true exactly when a row had the id; afterwards none has it
      and the other rows remain. */
  method Delete(db: Database, id: Id) returns (deleted: bool)
    requires db.Valid()
    modifies db`payments, db`nextId
    ensures db.Valid()
    ensures deleted <==> HasKey(old(db.payments), PaymentKey, id)
    ensures !deleted ==> unchanged(db)
    ensures deleted ==> && db.payments == DropKey(old(db.payments), PaymentKey, id)
                        && db.nextId == old(db.nextId)
    ensures GetById(db, id).None?
  {
    if !HasKey(db.payments, PaymentKey, id) {
      return false;
    }
    var rows := DropKey(db.payments, PaymentKey, id);
    DropKeyKeyed(db.payments, PaymentKey, id, db.nextId);
    db.WritePayments(rows, db.nextId);
    deleted := true;
  }
}
