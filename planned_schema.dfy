/** Input shapes of the planned-program endpoints: a planned program with
    its list of ISO date-time strings, and single planned dates. */
module PlannedSchema {
  import opened Wrappers
  import opened Zod
  import opened Store

  /** `dates` stays `null` when the client sends `null`: zod's default
      fills in `[]` only for a missing key. */
  datatype CreatePlanned = CreatePlanned(id: Option<Id>, programId: Id, dates: Maybe<seq<string>>)

  datatype UpdatePlanned = UpdatePlanned(programId: Option<Id>, dates: Maybe<seq<string>>)

  datatype CreateDate = CreateDate(id: Option<Id>, plannedProgramId: Id, date: string)

  datatype UpdateDate = UpdateDate(date: Option<string>)

  datatype RawPlanned = RawPlanned(id: Maybe<Id>, programId: Maybe<Id>, dates: Maybe<seq<string>>)

  datatype RawDate = RawDate(id: Maybe<Id>, plannedProgramId: Maybe<Id>, date: Maybe<string>)

  /** A date list that is absent, null, or made of ISO date-times. */
  predicate DatesOk(m: Maybe<seq<string>>) {
    m.Defined? ==> AllIsoDateTimes(m.value)
  }

  /** The create schema: `programId` required; `dates` optional and
      nullable, `[]` when missing; `id` is dropped. */
  function ParseCreatePlanned(raw: RawPlanned): (r: Option<CreatePlanned>)
    ensures r.Some? <==> raw.programId.Defined? && DatesOk(raw.dates)
    ensures r.Some? ==> && r.value.id.None? && r.value.programId == raw.programId.value
                        && (raw.dates.Undefined? ==> r.value.dates == Defined([]))
                        && (!raw.dates.Undefined? ==> r.value.dates == raw.dates)
  {
    if IsRequired(raw.programId) && DatesOk(raw.dates) then
      Some(CreatePlanned(None, raw.programId.value, if raw.dates.Undefined? then Defined([]) else raw.dates))
    else None
  }

  /** The update schema: both keys optional and nullable. */
  function ParseUpdatePlanned(raw: RawPlanned): (r: Option<UpdatePlanned>)
    ensures r.Some? <==> DatesOk(raw.dates)
    ensures r.Some? ==> r.value.programId == raw.programId.ToOption() && r.value.dates == raw.dates
  {
    if DatesOk(raw.dates) then Some(UpdatePlanned(raw.programId.ToOption(), raw.dates)) else None
  }

  /** The create-date schema: planned program and an ISO date-time required. */
  function ParseCreateDate(raw: RawDate): (r: Option<CreateDate>)
    ensures r.Some? <==> raw.plannedProgramId.Defined? && raw.date.Defined? && IsIsoDateTime(raw.date.value)
    ensures r.Some? ==> && r.value.id.None? && r.value.plannedProgramId == raw.plannedProgramId.value
                        && r.value.date == raw.date.value
  {
    if IsRequired(raw.plannedProgramId) && IsRequired(raw.date) && IsIsoDateTime(raw.date.value) then
      Some(CreateDate(None, raw.plannedProgramId.value, raw.date.value))
    else None
  }

  /** The update-date schema: the date is optional, an ISO date-time when sent. */
  function ParseUpdateDate(raw: RawDate): (r: Option<UpdateDate>)
    ensures r.Some? <==> !raw.date.Null? && (raw.date.Defined? ==> IsIsoDateTime(raw.date.value))
    ensures r.Some? ==> r.value.date == raw.date.ToOption()
  {
    if IsOptional(raw.date) && (raw.date.Defined? ==> IsIsoDateTime(raw.date.value)) then
      Some(UpdateDate(Optional(raw.date)))
    else None
  }

  /** A validated date is never the empty string, so the services' "is a
      date given" tests reduce to "is the key present". */
  lemma IsoDateTimeNonEmpty(s: string)
    requires IsIsoDateTime(s)
    ensures s != []
  {
  }
}
