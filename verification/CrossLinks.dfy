/**
 The links between the stores that a bundle of evidence claims: scripts/collect_identity_undo_evidence.py
 checks them on the rows it reads, scripts/verify_identity_undo_evidence.py on the files it is given.
 `text` is Python's `str` on the values that are not strings, `h` the digest of a written JSON file.
 */
module CrossLinks {
  import opened Common
  import opened JsonValues
  import opened EffectChain
  import Gate6Chain

  const TRACE_ID := "trace_id"
  const REQUEST_ID := "request_id"
  const EFFECT_LINK := "gen_ai.resilience.effect_id"
  const COMPENSATES_LINK := "gen_ai.resilience.compensates_effect_id"
  const HUMAN := "gen_ai.governance.human_principal"
  const AGENT := "gen_ai.governance.agent_id"
  const TENANT := "gen_ai.governance.tenant_id"

  // Rows, with the columns that the checks read. All of them are NOT NULL but the two options.

  datatype Effect = Effect(
    effectId: string, tenantId: string, traceId: string, compensationTraceId: string, principalSub: string,
    agentId: string, toolName: string, dataDomain: string, status: string, authorizationSnapshot: Json)

  datatype Undo = Undo(
    requestId: string, effectId: string, tenantId: string, requesterSub: string, approverSub: Option<string>,
    status: string)

  datatype Ticket = Ticket(
    ticketId: string, tenantId: string, createEffectId: string, state: string, createdAt: string,
    cancelledAt: Option<string>)

  datatype Links = Links(
    effectId: string, tenantId: string, originalTrace: string, compensationTrace: string, requesterSub: string,
    approverSub: string, agentId: string, businessEffectId: string, assignmentId: string, assignmentVersion: Json,
    assignmentDigest: string)

  /** What is sealed: the cross_links section and the files that it speaks about. */
  datatype Bundle = Bundle(links: Links, gate6: seq<Json>, events: seq<Event>, business: Json, assignment: Json)

  function Matches(events: seq<Event>, eventType: string, effectId: string): seq<Event> {
    if events == [] then []
    else
      var e := events[|events| - 1];
      Matches(events[..|events| - 1], eventType, effectId)
      + if e.eventType == eventType && e.effect == effectId then [e] else []
  }

  function Single(events: seq<Event>, eventType: string, effectId: string): Option<Event> {
    var found := Matches(events, eventType, effectId);
    if |found| == 1 then Some(found[0]) else None
  }

  // ---------------------------------------------------------------- collection

  datatype CollectionError =
    | UnsafeIdentifier | NotComplete | UndoNotLinked | TicketNotLinked | TicketNotCompensated | IdentitiesIncomplete
    | DutyNotSeparated | EventNotUnique | SameTrace | EventMismatch | RequestIdMismatch | OriginalTraceUnlinked
    | CompensationTraceUnlinked | NoSnapshot | NoVersion | NoAssignmentIdentity | NotIterable | SubjectIncomplete
    | AgentMismatch | OperationNotCovered

  predicate OriginalLink(effect: Effect, record: Json) {
    && Raw(record, TRACE_ID) == Str(effect.traceId)
    && Raw(record, EFFECT_LINK) == Str(effect.effectId)
    && Raw(record, HUMAN) == Str(effect.principalSub)
    && Raw(record, AGENT) == Str(effect.agentId)
    && Raw(record, TENANT) == Str(effect.tenantId)
  }

  predicate CompensationLink(effect: Effect, approver: string, record: Json) {
    && Raw(record, TRACE_ID) == Str(effect.compensationTraceId)
    && Raw(record, COMPENSATES_LINK) == Str(effect.effectId)
    && Raw(record, HUMAN) == Str(approver)
    && Raw(record, TENANT) == Str(effect.tenantId)
  }

  /** The rows themselves: the first check of `_validate_cross_system` that fails. */
  function RowError(effect: Effect, undo: Undo, ticket: Ticket): Option<CollectionError> {
    if effect.status != "compensated" || undo.status != "completed" then Some(NotComplete)
    else if undo.effectId != effect.effectId || undo.tenantId != effect.tenantId then Some(UndoNotLinked)
    else if ticket.createEffectId != effect.effectId || ticket.tenantId != effect.tenantId then Some(TicketNotLinked)
    else if ticket.state != "cancelled" || ticket.cancelledAt.None? || ticket.cancelledAt.value == "" then
      Some(TicketNotCompensated)
    else if undo.requesterSub != effect.principalSub || undo.approverSub.None? || undo.approverSub.value == "" then
      Some(IdentitiesIncomplete)
    else if undo.approverSub.value == effect.principalSub then Some(DutyNotSeparated)
    else None
  }

  /** The events of the effect. A payload that is no object raises as well. */
  function WorkflowError(text: Json -> string, effect: Effect, approver: string, requestId: string, events: seq<Event>)
    : Option<CollectionError>
  {
    var prepared := Single(events, "effect_prepared", effect.effectId);
    var requested := Single(events, "undo_requested", effect.effectId);
    var approved := Single(events, "undo_approved", effect.effectId);
    var compensated := Single(events, "compensated", effect.effectId);
    if prepared.None? || requested.None? || approved.None? || compensated.None? then Some(EventNotUnique)
    else if effect.traceId == effect.compensationTraceId then Some(SameTrace)
    else if
      || prepared.value.actor != effect.principalSub
      || Raw(prepared.value.payload, TRACE_ID) != Str(effect.traceId)
      || requested.value.actor != effect.principalSub
      || approved.value.actor != approver
      || Raw(compensated.value.payload, TRACE_ID) != Str(effect.compensationTraceId) then Some(EventMismatch)
    else if
      || !requested.value.payload.Obj? || !approved.value.payload.Obj?
      || TextOr(text, requested.value.payload, REQUEST_ID) != requestId
      || TextOr(text, approved.value.payload, REQUEST_ID) != requestId
      || TextOr(text, compensated.value.payload, REQUEST_ID) != requestId then Some(RequestIdMismatch)
    else None
  }

  /** The Gate6 records of the two traces. */
  function TraceError(effect: Effect, approver: string, gate6: seq<Json>): Option<CollectionError> {
    if !(exists record <- gate6 :: OriginalLink(effect, record)) then Some(OriginalTraceUnlinked)
    else if !(exists record <- gate6 :: CompensationLink(effect, approver, record)) then Some(CompensationTraceUnlinked)
    else None
  }

  /** `int(value)`; `parse` reads a string. */
  function Version(parse: string -> Option<int>, j: Json): Option<int> {
    match j
    case Num(n) => Some(n)
    case Bool(b) => Some(if b then 1 else 0)
    case Str(s) => parse(s)
    case _ => None
  }

  /** The strings that iterating `value or []` yields, each one shown; none where Python cannot iterate. */
  function Items(text: Json -> string, j: Json): Option<multiset<string>> {
    if !Truthy(j) then Some(multiset{})
    else match j
      case Arr(items) => Some(multiset(seq(|items|, i requires 0 <= i < |items| => Shown(text, items[i]))))
      case Obj(m) => Some(multiset(m.Keys))
      case Str(s) => Some(multiset(seq(|s|, i requires 0 <= i < |s| => [s[i]])))
      case _ => None
  }

  function Strings(items: seq<string>): Json {
    Arr(seq(|items|, i requires 0 <= i < |items| => Str(items[i])))
  }

  function Assignment(text: Json -> string, parse: string -> Option<int>, sorted: multiset<string> -> seq<string>,
                      effect: Effect): Result<Json, CollectionError>
  {
    var snapshot := effect.authorizationSnapshot;
    if !snapshot.Obj? then Err(NoSnapshot)
    else
      var id := TextOr(text, snapshot, "assignment_id");
      var version := Version(parse, Raw(snapshot, "version"));
      if version.None? then Err(NoVersion)
      else if id == "" || version.value <= 0 then Err(NoAssignmentIdentity)
      else
        var subjectType := TextOr(text, snapshot, "subject_type");
        var subjectId := TextOr(text, snapshot, "subject_id");
        var agent := TextOr(text, snapshot, "agent_id");
        var tools := Items(text, Raw(snapshot, "tools"));
        var domains := Items(text, Raw(snapshot, "data_domains"));
        if tools.None? || domains.None? then Err(NotIterable)
        else if (subjectType != "human" && subjectType != "group") || subjectId == "" then Err(SubjectIncomplete)
        else if agent != effect.agentId then Err(AgentMismatch)
        else if effect.toolName !in tools.value || effect.dataDomain !in domains.value then Err(OperationNotCovered)
        else
          var granted := Obj(map["agent_id" := Str(agent), "assignment_id" := Str(id),
                                 "data_domains" := Strings(sorted(domains.value)), "subject_id" := Str(subjectId),
                                 "subject_type" := Str(subjectType), "tools" := Strings(sorted(tools.value)),
                                 "version" := Num(version.value)]);
          Ok(Obj(map["agent_id" := Str(effect.agentId), "assignment" := granted,
                     "principal_sub" := Str(effect.principalSub), "tenant_id" := Str(effect.tenantId)]))
  }

  function BusinessTimeline(ticket: Ticket): Json {
    var cancelled := if ticket.cancelledAt.Some? then Str(ticket.cancelledAt.value) else Null;
    Obj(map["after" := Obj(map["observed_at" := cancelled, "state" := Str("cancelled")]),
            "before" := Obj(map["basis" := Str("reference create transition invariant and persisted created_at"),
                                "observed_at" := Str(ticket.createdAt), "state" := Str("open")]),
            "current" := Obj(map["observed_from" := Str("xa_reference_tickets"), "state" := Str(ticket.state)]),
            "effect_id" := Str(ticket.createEffectId), "tenant_id" := Str(ticket.tenantId),
            "ticket_id" := Str(ticket.ticketId), "transition" := Str("open_to_cancelled")])
  }

  datatype Source = Source(effect: Effect, undo: Undo, ticket: Ticket, events: seq<Event>, gate6: seq<Json>)

  /** `collect_bundle` from the rows read to the cross links; `safe` accepts an identifier. */
  function Collect(safe: string -> bool, text: Json -> string, parse: string -> Option<int>,
                   sorted: multiset<string> -> seq<string>, h: Digest, s: Source): Result<Bundle, CollectionError>
  {
    var e := s.effect;
    if !safe(e.effectId) || !safe(e.tenantId) || !safe(e.traceId) || !safe(e.compensationTraceId)
      || !safe(e.agentId) then
      Err(UnsafeIdentifier)
    else
      var rowError := RowError(e, s.undo, s.ticket);
      if rowError.Some? then Err(rowError.value)
      else
        var approver := s.undo.approverSub.value;
        var workflowError := WorkflowError(text, e, approver, s.undo.requestId, s.events);
        var traceError := TraceError(e, approver, s.gate6);
        if workflowError.Some? then Err(workflowError.value)
        else if traceError.Some? then Err(traceError.value)
        else
          var assignment := Assignment(text, parse, sorted, e);
          if assignment.Err? then Err(assignment.error)
          else
            Ok(Bundle(LinksOf(text, h, e, approver, assignment.value), s.gate6, s.events, BusinessTimeline(s.ticket),
                      assignment.value))
  }

  /** The cross_links section of the metadata. */
  function LinksOf(text: Json -> string, h: Digest, e: Effect, approver: string, assignment: Json): Links {
    var granted := Raw(assignment, "assignment");
    Links(e.effectId, e.tenantId, e.traceId, e.compensationTraceId, e.principalSub, approver, e.agentId, e.effectId,
          Text(text, granted, "assignment_id"), Raw(granted, "version"), h(assignment))
  }

  // What a source must be for a bundle to be collected from it.

  function Ids(e: Effect): seq<string> {
    [e.effectId, e.tenantId, e.traceId, e.compensationTraceId, e.agentId]
  }

  predicate IdsSafe(safe: string -> bool, e: Effect) {
    forall id <- Ids(e) :: safe(id)
  }

  predicate RowsAgree(e: Effect, undo: Undo, ticket: Ticket) {
    && e.status == "compensated" && undo.status == "completed" && ticket.state == "cancelled"
    && undo.effectId == e.effectId == ticket.createEffectId
    && undo.tenantId == e.tenantId == ticket.tenantId
    && ticket.cancelledAt.Some? && ticket.cancelledAt.value != ""
    && undo.requesterSub == e.principalSub && undo.approverSub.Some?
    && undo.approverSub.value !in {"", e.principalSub}
  }

  predicate WorkflowAgrees(text: Json -> string, e: Effect, approver: string, requestId: string, prepared: Event,
                           requested: Event, approved: Event, compensated: Event)
  {
    && prepared.actor == requested.actor == e.principalSub && approved.actor == approver
    && Raw(prepared.payload, "trace_id") == Str(e.traceId)
    && Raw(compensated.payload, "trace_id") == Str(e.compensationTraceId)
    && e.traceId != e.compensationTraceId
    && forall event <- [requested, approved, compensated] ::
         event.payload.Obj? && TextOr(text, event.payload, "request_id") == requestId
  }

  predicate EventsAgree(text: Json -> string, e: Effect, approver: string, requestId: string, events: seq<Event>) {
    exists prepared <- events, requested <- events, approved <- events, compensated <- events ::
      && IsTheOnly(events, "effect_prepared", e.effectId, prepared)
      && IsTheOnly(events, "undo_requested", e.effectId, requested)
      && IsTheOnly(events, "undo_approved", e.effectId, approved)
      && IsTheOnly(events, "compensated", e.effectId, compensated)
      && WorkflowAgrees(text, e, approver, requestId, prepared, requested, approved, compensated)
  }

  /** One record of the original trace says all of this, and one of the compensation trace. */
  predicate TracesAgree(e: Effect, approver: string, gate6: seq<Json>) {
    && (exists record <- gate6 :: record.Obj?
          && Says(record, "trace_id", e.traceId) && Says(record, "gen_ai.resilience.effect_id", e.effectId)
          && Says(record, "gen_ai.governance.human_principal", e.principalSub)
          && Says(record, "gen_ai.governance.agent_id", e.agentId)
          && Says(record, "gen_ai.governance.tenant_id", e.tenantId))
    && exists record <- gate6 :: record.Obj?
         && Says(record, "trace_id", e.compensationTraceId)
         && Says(record, "gen_ai.resilience.compensates_effect_id", e.effectId)
         && Says(record, "gen_ai.governance.human_principal", approver)
         && Says(record, "gen_ai.governance.tenant_id", e.tenantId)
  }

  predicate Says(record: Json, key: string, value: string)
    requires record.Obj?
  {
    key in record.fields && record.fields[key] == Str(value)
  }

  /** The snapshot names a positive version, a human or group, the agent, and grants the tool and the data domain. */
  predicate AssignmentAgrees(text: Json -> string, parse: string -> Option<int>, e: Effect) {
    var snapshot := e.authorizationSnapshot;
    && snapshot.Obj? && TextOr(text, snapshot, "assignment_id") != ""
    && PositiveVersion(parse, Raw(snapshot, "version"))
    && TextOr(text, snapshot, "subject_type") in {"human", "group"} && TextOr(text, snapshot, "subject_id") != ""
    && TextOr(text, snapshot, "agent_id") == e.agentId
    && Grants(text, Raw(snapshot, "tools"), e.toolName) && Grants(text, Raw(snapshot, "data_domains"), e.dataDomain)
  }

  predicate PositiveVersion(parse: string -> Option<int>, j: Json) {
    match j
    case Num(n) => n > 0
    case Bool(b) => b
    case Str(s) => parse(s).Some? && parse(s).value > 0
    case _ => false
  }

  /** A list with the value, an object with it as a key, or a string with it as one of its characters. */
  predicate Grants(text: Json -> string, j: Json, value: string) {
    match j
    case Arr(items) => exists item <- items :: Shown(text, item) == value
    case Obj(m) => value in m
    case Str(s) => exists c <- s :: value == [c]
    case _ => false
  }

  /** A bundle is collected from exactly the sources in which all of this agrees. */
  lemma CollectedExactly(safe: string -> bool, text: Json -> string, parse: string -> Option<int>,
                         sorted: multiset<string> -> seq<string>, h: Digest, s: Source)
    ensures Collect(safe, text, parse, sorted, h, s).Ok? <==>
      var e := s.effect;
      && IdsSafe(safe, e)
      && RowsAgree(e, s.undo, s.ticket) && EventsAgree(text, e, s.undo.approverSub.value, s.undo.requestId, s.events)
      && TracesAgree(e, s.undo.approverSub.value, s.gate6) && AssignmentAgrees(text, parse, e)
  {
    var e := s.effect;
    SafeExactly(safe, e);
    RowsExactly(e, s.undo, s.ticket);
    AssignmentExactly(text, parse, sorted, e);
    if RowsAgree(e, s.undo, s.ticket) {
      EventsExactly(text, e, s.undo.approverSub.value, s.undo.requestId, s.events);
      TracesExactly(e, s.undo.approverSub.value, s.gate6);
    }
  }

  lemma SafeExactly(safe: string -> bool, e: Effect)
    ensures IdsSafe(safe, e) <==>
      safe(e.effectId) && safe(e.tenantId) && safe(e.traceId) && safe(e.compensationTraceId) && safe(e.agentId)
  {
    var ids := Ids(e);
    assert ids[0] == e.effectId && ids[1] == e.tenantId && ids[2] == e.traceId && ids[3] == e.compensationTraceId
      && ids[4] == e.agentId;
  }

  lemma RowsExactly(e: Effect, undo: Undo, ticket: Ticket)
    ensures RowError(e, undo, ticket).None? <==> RowsAgree(e, undo, ticket)
  {
  }

  lemma EventsExactly(text: Json -> string, e: Effect, approver: string, requestId: string, events: seq<Event>)
    ensures WorkflowError(text, e, approver, requestId, events).None? <==>
      EventsAgree(text, e, approver, requestId, events)
  {
    SingleExactly(events, "effect_prepared", e.effectId);
    SingleExactly(events, "undo_requested", e.effectId);
    SingleExactly(events, "undo_approved", e.effectId);
    SingleExactly(events, "compensated", e.effectId);
    var prepared := Single(events, "effect_prepared", e.effectId);
    var requested := Single(events, "undo_requested", e.effectId);
    var approved, compensated := Single(events, "undo_approved", e.effectId), Single(events, "compensated", e.effectId);
    if WorkflowError(text, e, approver, requestId, events).None? {
      assert WorkflowAgrees(text, e, approver, requestId, prepared.value, requested.value, approved.value,
                            compensated.value);
    }
    if EventsAgree(text, e, approver, requestId, events) {
      assert prepared.Some? && requested.Some? && approved.Some? && compensated.Some?;
      assert WorkflowAgrees(text, e, approver, requestId, prepared.value, requested.value, approved.value,
                            compensated.value);
    }
  }

  lemma TracesExactly(e: Effect, approver: string, gate6: seq<Json>)
    ensures TraceError(e, approver, gate6).None? <==> TracesAgree(e, approver, gate6)
  {
    forall record <- gate6
      ensures OriginalLink(e, record) <==>
        record.Obj?
        && Says(record, "trace_id", e.traceId) && Says(record, "gen_ai.resilience.effect_id", e.effectId)
        && Says(record, "gen_ai.governance.human_principal", e.principalSub)
        && Says(record, "gen_ai.governance.agent_id", e.agentId)
        && Says(record, "gen_ai.governance.tenant_id", e.tenantId)
    {
    }
  }

  lemma AssignmentExactly(text: Json -> string, parse: string -> Option<int>, sorted: multiset<string> -> seq<string>,
                          e: Effect)
    ensures Assignment(text, parse, sorted, e).Ok? <==> AssignmentAgrees(text, parse, e)
  {
    GrantsExactly(text, Raw(e.authorizationSnapshot, "tools"), e.toolName);
    GrantsExactly(text, Raw(e.authorizationSnapshot, "data_domains"), e.dataDomain);
  }

  /** The integer that is read as a version. */
  predicate ReadsAs(parse: string -> Option<int>, j: Json, n: int) {
    match j
    case Num(m) => n == m
    case Bool(b) => if b then n == 1 else n == 0
    case Str(s) => parse(s) == Some(n)
    case _ => false
  }

  /** The collected assignment file says what the snapshot says, with the version as a number. */
  lemma AssignmentWritten(text: Json -> string, parse: string -> Option<int>, sorted: multiset<string> -> seq<string>,
                          e: Effect)
    requires Assignment(text, parse, sorted, e).Ok?
    ensures var file := Assignment(text, parse, sorted, e).value;
      && file.Obj? && Says(file, "tenant_id", e.tenantId) && Says(file, "principal_sub", e.principalSub)
      && Says(file, "agent_id", e.agentId)
      && "assignment" in file.fields && IsGranted(text, parse, e, file.fields["assignment"])
  {
    var snapshot := e.authorizationSnapshot;
    var tools, domains := Items(text, Raw(snapshot, "tools")), Items(text, Raw(snapshot, "data_domains"));
    GrantedFields(text, parse, e, Strings(sorted(domains.value)), Strings(sorted(tools.value)));
  }

  predicate IsGranted(text: Json -> string, parse: string -> Option<int>, e: Effect, granted: Json) {
    var snapshot := e.authorizationSnapshot;
    && granted.Obj? && Says(granted, "agent_id", e.agentId)
    && Says(granted, "assignment_id", TextOr(text, snapshot, "assignment_id"))
    && Says(granted, "subject_id", TextOr(text, snapshot, "subject_id"))
    && Says(granted, "subject_type", TextOr(text, snapshot, "subject_type"))
    && "version" in granted.fields && granted.fields["version"].Num?
    && ReadsAs(parse, Raw(snapshot, "version"), granted.fields["version"].n)
  }

  lemma GrantedFields(text: Json -> string, parse: string -> Option<int>, e: Effect, domains: Json, tools: Json)
    requires Version(parse, Raw(e.authorizationSnapshot, "version")).Some?
    requires TextOr(text, e.authorizationSnapshot, "agent_id") == e.agentId
    ensures var snapshot := e.authorizationSnapshot;
      IsGranted(text, parse, e, Obj(map["agent_id" := Str(TextOr(text, snapshot, "agent_id")),
                                        "assignment_id" := Str(TextOr(text, snapshot, "assignment_id")),
                                        "data_domains" := domains,
                                        "subject_id" := Str(TextOr(text, snapshot, "subject_id")),
                                        "subject_type" := Str(TextOr(text, snapshot, "subject_type")), "tools" := tools,
                                        "version" := Num(Version(parse, Raw(snapshot, "version")).value)]))
  {
  }

  /** The business file has the ticket, when it was created and when it was cancelled. */
  lemma BusinessWritten(ticket: Ticket)
    requires ticket.cancelledAt.Some?
    ensures var business := BusinessTimeline(ticket);
      && Raw(business, "ticket_id") == Str(ticket.ticketId) && Raw(business, "tenant_id") == Str(ticket.tenantId)
      && Raw(business, "effect_id") == Str(ticket.createEffectId)
      && Raw(Raw(business, "before"), "observed_at") == Str(ticket.createdAt)
      && Raw(Raw(business, "after"), "observed_at") == Str(ticket.cancelledAt.value)
      && Raw(Raw(business, "current"), "state") == Str(ticket.state)
  {
  }

  lemma GrantsExactly(text: Json -> string, j: Json, value: string)
    ensures Items(text, j).Some? && value in Items(text, j).value <==> Grants(text, j, value)
  {
    match j
    case Arr(items) =>
      var shown := seq(|items|, i requires 0 <= i < |items| => Shown(text, items[i]));
      if item :| item in items && Shown(text, item) == value {
        var i :| 0 <= i < |items| && items[i] == item;
        assert shown[i] == value;
      }
      if i :| 0 <= i < |items| && shown[i] == value {
        assert items[i] in items;
      }
    case Str(s) =>
      var characters := seq(|s|, i requires 0 <= i < |s| => [s[i]]);
      if c :| c in s && value == [c] {
        var i :| 0 <= i < |s| && s[i] == c;
        assert characters[i] == value;
      }
      if i :| 0 <= i < |s| && characters[i] == value {
        assert s[i] in s;
      }
    case _ =>
  }

  // ---------------------------------------------------------------- verification

  datatype EvidenceError =
    | TracesNotDistinct | SubjectsNotDistinct | EffectUnlinked | CompensationUnlinked | RequesterUnbound | AgentUnbound
    | ApproverUnbound | Gate6TenantMismatch | NotExactlyOneEvent | PreparedMismatch | RequesterMismatch
    | ApproverMismatch | CompensationMismatch | RequestIdsNotLinked | ForeignTenant | BusinessUnlinked
    | AssignmentDigestMismatch | AssignmentUnlinked

  predicate OfTrace(text: Json -> string, record: Json, trace: string) {
    Text(text, record, TRACE_ID) == trace
  }

  predicate AnyOfTrace(text: Json -> string, gate6: seq<Json>, trace: string, key: string, value: string) {
    exists record <- gate6 :: OfTrace(text, record, trace) && Text(text, record, key) == value
  }

  predicate DeepContains(text: Json -> string, j: Json, key: string, expected: string)
    decreases j
  {
    match j
    case Obj(m) => Text(text, j, key) == expected || exists k <- m :: DeepContains(text, m[k], key, expected)
    case Arr(items) => exists i :: 0 <= i < |items| && DeepContains(text, items[i], key, expected)
    case _ => false
  }

  /** The records of both traces carry the tenant. */
  predicate TracesCarryTenant(text: Json -> string, links: Links, gate6: seq<Json>) {
    forall record <- gate6 ::
      OfTrace(text, record, links.originalTrace) || OfTrace(text, record, links.compensationTrace)
      ==> Text(text, record, TENANT) == links.tenantId
  }

  function Gate6LinkError(text: Json -> string, l: Links, gate6: seq<Json>): Option<EvidenceError> {
    if l.originalTrace == l.compensationTrace then Some(TracesNotDistinct)
    else if l.requesterSub == l.approverSub then Some(SubjectsNotDistinct)
    else if !AnyOfTrace(text, gate6, l.originalTrace, EFFECT_LINK, l.effectId) then Some(EffectUnlinked)
    else if !AnyOfTrace(text, gate6, l.compensationTrace, COMPENSATES_LINK, l.effectId) then Some(CompensationUnlinked)
    else if !AnyOfTrace(text, gate6, l.originalTrace, HUMAN, l.requesterSub) then Some(RequesterUnbound)
    else if !AnyOfTrace(text, gate6, l.originalTrace, AGENT, l.agentId) then Some(AgentUnbound)
    else if !AnyOfTrace(text, gate6, l.compensationTrace, HUMAN, l.approverSub) then Some(ApproverUnbound)
    else if !TracesCarryTenant(text, l, gate6) then Some(Gate6TenantMismatch)
    else None
  }

  /** A payload that is no object raises as well. */
  function EventLinkError(text: Json -> string, l: Links, events: seq<Event>): Option<EvidenceError> {
    var prepared := Single(events, "effect_prepared", l.effectId);
    var requested := Single(events, "undo_requested", l.effectId);
    var approved := Single(events, "undo_approved", l.effectId);
    var compensated := Single(events, "compensated", l.effectId);
    if prepared.None? || requested.None? || approved.None? || compensated.None? then Some(NotExactlyOneEvent)
    else if Raw(prepared.value.payload, TRACE_ID) != Str(l.originalTrace) then Some(PreparedMismatch)
    else if prepared.value.actor != l.requesterSub || requested.value.actor != l.requesterSub then
      Some(RequesterMismatch)
    else if approved.value.actor != l.approverSub then Some(ApproverMismatch)
    else if Raw(compensated.value.payload, TRACE_ID) != Str(l.compensationTrace) then Some(CompensationMismatch)
    else if !RequestIdsLinked(text, requested.value.payload, approved.value.payload, compensated.value.payload) then
      Some(RequestIdsNotLinked)
    else if exists e <- events :: e.tenant != l.tenantId then Some(ForeignTenant)
    else None
  }

  /** The set of the three shown ids has one element, and it is not the empty string. */
  predicate RequestIdsLinked(text: Json -> string, requested: Json, approved: Json, compensated: Json) {
    var id := Text(text, requested, REQUEST_ID);
    && requested.Obj? && approved.Obj? && compensated.Obj? && id != ""
    && Text(text, approved, REQUEST_ID) == id && Text(text, compensated, REQUEST_ID) == id
  }

  function ArtifactLinkError(text: Json -> string, h: Digest, l: Links, business: Json,
                             assignment: Json): Option<EvidenceError> {
    var granted := Raw(assignment, "assignment");
    if l.businessEffectId != l.effectId || !DeepContains(text, business, "effect_id", l.effectId) then
      Some(BusinessUnlinked)
    else if h(assignment) != l.assignmentDigest then Some(AssignmentDigestMismatch)
    else if
      || !assignment.Obj? || Text(text, assignment, "tenant_id") != l.tenantId
      || Text(text, assignment, "principal_sub") != l.requesterSub
      || Text(text, assignment, "agent_id") != l.agentId
      || !granted.Obj? || Text(text, granted, "assignment_id") != l.assignmentId
      || Raw(granted, "version") != l.assignmentVersion then Some(AssignmentUnlinked)
    else None
  }

  /** `verify_cross_links`: the first check that fails. */
  function CrossLinkError(text: Json -> string, h: Digest, b: Bundle): Option<EvidenceError> {
    var gate6Error, eventError := Gate6LinkError(text, b.links, b.gate6), EventLinkError(text, b.links, b.events);
    if gate6Error.Some? then gate6Error
    else if eventError.Some? then eventError
    else ArtifactLinkError(text, h, b.links, b.business, b.assignment)
  }

  // ---------------------------------------------------------------- what an accepted bundle claims

  /** `e` is the one event of this type and effect. */
  predicate IsTheOnly(events: seq<Event>, eventType: string, effectId: string, e: Event) {
    exists i :: 0 <= i < |events| && events[i] == e && IsOnlyAt(events, eventType, effectId, i)
  }

  predicate IsOnlyAt(events: seq<Event>, eventType: string, effectId: string, i: nat)
    requires i < |events|
  {
    && events[i].eventType == eventType && events[i].effect == effectId
    && forall k :: 0 <= k < |events| && events[k].eventType == eventType && events[k].effect == effectId ==> k == i
  }

  /** Some record of the trace says so under its key. */
  predicate SomeRecord(text: Json -> string, gate6: seq<Json>, trace: string, key: string, value: string) {
    exists i :: 0 <= i < |gate6| && RecordSays(text, gate6[i], trace, key, value)
  }

  predicate RecordSays(text: Json -> string, record: Json, trace: string, key: string, value: string) {
    Text(text, record, "trace_id") == trace && Text(text, record, key) == value
  }

  /** The two traces: who acted in them, on which effect, for which tenant. */
  predicate TracesLinked(text: Json -> string, l: Links, gate6: seq<Json>) {
    && l.originalTrace != l.compensationTrace && l.requesterSub != l.approverSub
    && SomeRecord(text, gate6, l.originalTrace, "gen_ai.resilience.effect_id", l.effectId)
    && SomeRecord(text, gate6, l.originalTrace, "gen_ai.governance.human_principal", l.requesterSub)
    && SomeRecord(text, gate6, l.originalTrace, "gen_ai.governance.agent_id", l.agentId)
    && SomeRecord(text, gate6, l.compensationTrace, "gen_ai.resilience.compensates_effect_id", l.effectId)
    && SomeRecord(text, gate6, l.compensationTrace, "gen_ai.governance.human_principal", l.approverSub)
    && forall record <- gate6 :: Text(text, record, "trace_id") in {l.originalTrace, l.compensationTrace} ==>
         Text(text, record, "gen_ai.governance.tenant_id") == l.tenantId
  }

  /** The four events of the workflow are of the sealed subjects and traces, and share one request id. */
  predicate WorkflowLinked(text: Json -> string, l: Links, prepared: Event, requested: Event, approved: Event,
                           compensated: Event)
  {
    && prepared.actor == l.requesterSub && requested.actor == l.requesterSub && approved.actor == l.approverSub
    && prepared.payload.Obj? && requested.payload.Obj? && approved.payload.Obj? && compensated.payload.Obj?
    && Raw(prepared.payload, "trace_id") == Str(l.originalTrace)
    && Raw(compensated.payload, "trace_id") == Str(l.compensationTrace)
    && Text(text, approved.payload, "request_id") != ""
    && forall e <- [requested, compensated] ::
         Text(text, e.payload, "request_id") == Text(text, approved.payload, "request_id")
  }

  predicate EventsLinked(text: Json -> string, l: Links, events: seq<Event>) {
    && (forall e <- events :: e.tenant == l.tenantId)
    && exists prepared <- events, requested <- events, approved <- events, compensated <- events ::
         && IsTheOnly(events, "effect_prepared", l.effectId, prepared)
         && IsTheOnly(events, "undo_requested", l.effectId, requested)
         && IsTheOnly(events, "undo_approved", l.effectId, approved)
         && IsTheOnly(events, "compensated", l.effectId, compensated)
         && WorkflowLinked(text, l, prepared, requested, approved, compensated)
  }

  /** The business file speaks of the effect; the assignment file is the sealed one and names all that is sealed. */
  predicate FilesLinked(text: Json -> string, h: Digest, l: Links, business: Json, assignment: Json) {
    && l.businessEffectId == l.effectId
    && (exists part :: part in Parts(business) && part.Obj? && Text(text, part, "effect_id") == l.effectId)
    && h(assignment) == l.assignmentDigest && assignment.Obj?
    && Text(text, assignment, "tenant_id") == l.tenantId && Text(text, assignment, "principal_sub") == l.requesterSub
    && Text(text, assignment, "agent_id") == l.agentId
    && var granted := Raw(assignment, "assignment");
       && granted.Obj? && Text(text, granted, "assignment_id") == l.assignmentId
       && Raw(granted, "version") == l.assignmentVersion
  }

  /** A value and everything inside it. */
  function Parts(j: Json): set<Json>
    decreases j
  {
    match j
    case Obj(m) => {j} + set k, part | k in m && part in Parts(m[k]) :: part
    case Arr(items) => {j} + set i: nat, part | i < |items| && part in Parts(items[i]) :: part
    case _ => {j}
  }

  lemma {:induction false} DeepContainsPart(text: Json -> string, j: Json, key: string, expected: string)
    ensures DeepContains(text, j, key, expected)
      <==> exists part :: part in Parts(j) && part.Obj? && Text(text, part, key) == expected
    decreases j
  {
    match j
    case Obj(m) =>
      forall k | k in m ensures DeepContains(text, m[k], key, expected)
        <==> exists part :: part in Parts(m[k]) && part.Obj? && Text(text, part, key) == expected
      {
        DeepContainsPart(text, m[k], key, expected);
      }
      assert j in Parts(j);
    case Arr(items) =>
      forall i: nat | i < |items| ensures DeepContains(text, items[i], key, expected)
        <==> exists part :: part in Parts(items[i]) && part.Obj? && Text(text, part, key) == expected
      {
        DeepContainsPart(text, items[i], key, expected);
      }
    case _ =>
  }

  lemma {:induction false} MatchesExactly(events: seq<Event>, eventType: string, effectId: string, e: Event)
    ensures Matches(events, eventType, effectId) == [e] <==> IsTheOnly(events, eventType, effectId, e)
    ensures Matches(events, eventType, effectId) == [] <==>
      forall k :: 0 <= k < |events| ==> events[k].eventType != eventType || events[k].effect != effectId
  {
    if events == [] {
    } else {
      var n := |events| - 1;
      var before := events[..n];
      MatchesExactly(before, eventType, effectId, e);
      if events[n].eventType == eventType && events[n].effect == effectId {
        var earlier, all := Matches(before, eventType, effectId), Matches(events, eventType, effectId);
        assert |all| == |earlier| + 1 && all[|earlier|] == events[n];
        if earlier == [] && events[n] == e {
          assert IsOnlyAt(events, eventType, effectId, n);
        }
        if i :| 0 <= i < |events| && events[i] == e && IsOnlyAt(events, eventType, effectId, i) {
          assert i == n;
          forall k | 0 <= k < n ensures before[k].eventType != eventType || before[k].effect != effectId {
            assert before[k] == events[k];
          }
          assert Matches(before, eventType, effectId) == [];
        }
      } else {
        if i :| 0 <= i < n && before[i] == e && IsOnlyAt(before, eventType, effectId, i) {
          assert IsOnlyAt(events, eventType, effectId, i);
        }
        if i :| 0 <= i < |events| && events[i] == e && IsOnlyAt(events, eventType, effectId, i) {
          assert IsOnlyAt(before, eventType, effectId, i);
        }
      }
    }
  }

  lemma SingleExactly(events: seq<Event>, eventType: string, effectId: string)
    ensures Single(events, eventType, effectId).Some? ==>
      Single(events, eventType, effectId).value in events
      && IsTheOnly(events, eventType, effectId, Single(events, eventType, effectId).value)
    ensures forall e :: IsTheOnly(events, eventType, effectId, e) ==> Single(events, eventType, effectId) == Some(e)
  {
    var found := Matches(events, eventType, effectId);
    if |found| == 1 {
      assert found == [found[0]];
      MatchesExactly(events, eventType, effectId, found[0]);
    }
    forall e | IsTheOnly(events, eventType, effectId, e) ensures Single(events, eventType, effectId) == Some(e) {
      MatchesExactly(events, eventType, effectId, e);
    }
  }

  /** Verification accepts exactly the bundles in which all of this is linked. */
  lemma AcceptedExactly(text: Json -> string, h: Digest, b: Bundle)
    ensures CrossLinkError(text, h, b).None? <==>
      && TracesLinked(text, b.links, b.gate6) && EventsLinked(text, b.links, b.events)
      && FilesLinked(text, h, b.links, b.business, b.assignment)
  {
    TracesAccepted(text, b.links, b.gate6);
    EventsAccepted(text, b.links, b.events);
    FilesAccepted(text, h, b.links, b.business, b.assignment);
  }

  lemma TracesAccepted(text: Json -> string, l: Links, gate6: seq<Json>)
    ensures Gate6LinkError(text, l, gate6).None? <==> TracesLinked(text, l, gate6)
  {
    SayingIsAny(text, gate6, l.originalTrace, EFFECT_LINK, l.effectId);
    SayingIsAny(text, gate6, l.originalTrace, HUMAN, l.requesterSub);
    SayingIsAny(text, gate6, l.originalTrace, AGENT, l.agentId);
    SayingIsAny(text, gate6, l.compensationTrace, COMPENSATES_LINK, l.effectId);
    SayingIsAny(text, gate6, l.compensationTrace, HUMAN, l.approverSub);
  }

  lemma SayingIsAny(text: Json -> string, gate6: seq<Json>, trace: string, key: string, value: string)
    ensures AnyOfTrace(text, gate6, trace, key, value) <==> SomeRecord(text, gate6, trace, key, value)
  {
    if record :| record in gate6 && OfTrace(text, record, trace) && Text(text, record, key) == value {
      assert RecordSays(text, record, trace, key, value);
    }
  }

  lemma EventsAccepted(text: Json -> string, l: Links, events: seq<Event>)
    ensures EventLinkError(text, l, events).None? <==> EventsLinked(text, l, events)
  {
    SingleExactly(events, "effect_prepared", l.effectId);
    SingleExactly(events, "undo_requested", l.effectId);
    SingleExactly(events, "undo_approved", l.effectId);
    SingleExactly(events, "compensated", l.effectId);
    var prepared := Single(events, "effect_prepared", l.effectId);
    var requested := Single(events, "undo_requested", l.effectId);
    var approved, compensated := Single(events, "undo_approved", l.effectId), Single(events, "compensated", l.effectId);
    if EventLinkError(text, l, events).None? {
      assert WorkflowLinked(text, l, prepared.value, requested.value, approved.value, compensated.value);
    }
    if EventsLinked(text, l, events) {
      assert prepared.Some? && requested.Some? && approved.Some? && compensated.Some?;
      assert WorkflowLinked(text, l, prepared.value, requested.value, approved.value, compensated.value);
    }
  }

  lemma FilesAccepted(text: Json -> string, h: Digest, l: Links, business: Json, assignment: Json)
    ensures ArtifactLinkError(text, h, l, business, assignment).None? <==> FilesLinked(text, h, l, business, assignment)
  {
    DeepContainsPart(text, business, "effect_id", l.effectId);
  }

  // ---------------------------------------------------------------- what collection accepts, verification accepts

  /** How Python shows the values that are false and are not strings; nothing but a string shows as "". */
  ghost predicate PythonText(text: Json -> string) {
    && text(Null) == "None" && text(Bool(false)) == "False" && text(Num(0)) == "0"
    && text(Arr([])) == "[]" && text(Obj(map[])) == "{}"
    && forall j :: text(j) != ""
  }

  /** The three events of the workflow carry one and the same false value, and it is not the empty string. */
  predicate SameFalseRequestId(events: seq<Event>, effectId: string) {
    var requested := Single(events, "undo_requested", effectId);
    var approved := Single(events, "undo_approved", effectId);
    var compensated := Single(events, "compensated", effectId);
    && requested.Some? && approved.Some? && compensated.Some?
    && ShareFalse(requested.value.payload, approved.value.payload, compensated.value.payload)
  }

  predicate HoldsFalse(payload: Json) {
    && payload.Obj? && REQUEST_ID in payload.fields
    && !Truthy(payload.fields[REQUEST_ID]) && payload.fields[REQUEST_ID] != Str("")
  }

  predicate ShareFalse(requested: Json, approved: Json, compensated: Json) {
    && HoldsFalse(requested) && HoldsFalse(approved) && HoldsFalse(compensated)
    && requested.fields[REQUEST_ID] == approved.fields[REQUEST_ID] == compensated.fields[REQUEST_ID]
  }

  predicate OneTenant(events: seq<Event>, tenant: string) {
    forall e <- events :: e.tenant == tenant
  }

  /**
   Whatever is collected is accepted, unless a record of the two traces lacks the tenant, the Undo
   request has no usable id, or the events are not all of the tenant. These are the only three errors,
   and this is exactly when each is raised.
   */
  lemma CollectedBundleVerifies(safe: string -> bool, text: Json -> string, parse: string -> Option<int>,
                                sorted: multiset<string> -> seq<string>, h: Digest, s: Source, b: Bundle)
    requires PythonText(text)
    requires Collect(safe, text, parse, sorted, h, s) == Ok(b)
    ensures CrossLinkError(text, h, b) ==
      if !TracesCarryTenant(text, b.links, s.gate6) then Some(Gate6TenantMismatch)
      else if s.undo.requestId == "" && !SameFalseRequestId(s.events, s.effect.effectId) then Some(RequestIdsNotLinked)
      else if !OneTenant(s.events, s.effect.tenantId) then Some(ForeignTenant)
      else None
  {
    CollectedChecksPassed(safe, text, parse, sorted, h, s, b);
    CheckedBundleVerifies(text, parse, sorted, h, s, b);
  }

  /** What a successful collection has checked and written. */
  predicate ChecksPassed(text: Json -> string, parse: string -> Option<int>, sorted: multiset<string> -> seq<string>,
                         h: Digest, s: Source, b: Bundle)
  {
    && s.undo.approverSub.Some? && s.undo.approverSub.value != s.effect.principalSub
    && s.effect.traceId != s.effect.compensationTraceId && s.ticket.createEffectId == s.effect.effectId
    && WorkflowError(text, s.effect, s.undo.approverSub.value, s.undo.requestId, s.events).None?
    && TraceError(s.effect, s.undo.approverSub.value, s.gate6).None?
    && Assignment(text, parse, sorted, s.effect) == Ok(b.assignment)
    && b == Bundle(LinksOf(text, h, s.effect, s.undo.approverSub.value, b.assignment), s.gate6, s.events,
                   BusinessTimeline(s.ticket), b.assignment)
  }

  lemma CollectedChecksPassed(safe: string -> bool, text: Json -> string, parse: string -> Option<int>,
                              sorted: multiset<string> -> seq<string>, h: Digest, s: Source, b: Bundle)
    requires Collect(safe, text, parse, sorted, h, s) == Ok(b)
    ensures ChecksPassed(text, parse, sorted, h, s, b)
  {
  }

  lemma CheckedBundleVerifies(text: Json -> string, parse: string -> Option<int>,
                              sorted: multiset<string> -> seq<string>, h: Digest, s: Source, b: Bundle)
    requires PythonText(text) && ChecksPassed(text, parse, sorted, h, s, b)
    ensures CrossLinkError(text, h, b) ==
      if !TracesCarryTenant(text, b.links, s.gate6) then Some(Gate6TenantMismatch)
      else if s.undo.requestId == "" && !SameFalseRequestId(s.events, s.effect.effectId) then Some(RequestIdsNotLinked)
      else if !OneTenant(s.events, s.effect.tenantId) then Some(ForeignTenant)
      else None
  {
    var approver := s.undo.approverSub.value;
    CollectedTracesAreLinked(text, s.effect, approver, b.links, s.gate6);
    CollectedEventsAreLinked(text, s.effect, approver, s.undo.requestId, b.links, s.events);
    CollectedArtifactsAreLinked(text, parse, sorted, h, s.effect, approver, s.ticket);
  }

  /** The record that satisfied all of the collector's conditions satisfies each one of the verifier's. */
  lemma CollectedTracesAreLinked(text: Json -> string, effect: Effect, approver: string, l: Links, gate6: seq<Json>)
    requires TraceError(effect, approver, gate6).None?
    requires effect.traceId != effect.compensationTraceId && effect.principalSub != approver
    requires l.effectId == effect.effectId && l.tenantId == effect.tenantId && l.agentId == effect.agentId
    requires l.originalTrace == effect.traceId && l.compensationTrace == effect.compensationTraceId
    requires l.requesterSub == effect.principalSub && l.approverSub == approver
    ensures Gate6LinkError(text, l, gate6)
      == if TracesCarryTenant(text, l, gate6) then None else Some(Gate6TenantMismatch)
  {
    var original :| original in gate6 && OriginalLink(effect, original);
    var compensation :| compensation in gate6 && CompensationLink(effect, approver, compensation);
    RawIsText(text, original, TRACE_ID, l.originalTrace);
    RawIsText(text, original, EFFECT_LINK, l.effectId);
    RawIsText(text, original, HUMAN, l.requesterSub);
    RawIsText(text, original, AGENT, l.agentId);
    RawIsText(text, compensation, TRACE_ID, l.compensationTrace);
    RawIsText(text, compensation, COMPENSATES_LINK, l.effectId);
    RawIsText(text, compensation, HUMAN, l.approverSub);
  }

  lemma RawIsText(text: Json -> string, record: Json, key: string, value: string)
    requires Raw(record, key) == Str(value)
    ensures Text(text, record, key) == value
  {
  }

  /** The collector reads a false id as "", the verifier shows it. */
  lemma CollectedEventsAreLinked(text: Json -> string, effect: Effect, approver: string, requestId: string, l: Links,
                                 events: seq<Event>)
    requires PythonText(text) && WorkflowError(text, effect, approver, requestId, events).None?
    requires l.effectId == effect.effectId && l.tenantId == effect.tenantId
    requires l.originalTrace == effect.traceId && l.compensationTrace == effect.compensationTraceId
    requires l.requesterSub == effect.principalSub && l.approverSub == approver
    ensures EventLinkError(text, l, events) ==
      if requestId == "" && !SameFalseRequestId(events, effect.effectId) then Some(RequestIdsNotLinked)
      else if !OneTenant(events, effect.tenantId) then Some(ForeignTenant)
      else None
  {
    CollectedRequestIds(text, requestId,
                        Single(events, "undo_requested", effect.effectId).value.payload,
                        Single(events, "undo_approved", effect.effectId).value.payload,
                        Single(events, "compensated", effect.effectId).value.payload);
  }

  lemma CollectedRequestIds(text: Json -> string, requestId: string, requested: Json, approved: Json, compensated: Json)
    requires PythonText(text) && requested.Obj? && approved.Obj? && compensated.Obj?
    requires TextOr(text, requested, REQUEST_ID) == TextOr(text, approved, REQUEST_ID)
      == TextOr(text, compensated, REQUEST_ID) == requestId
    ensures RequestIdsLinked(text, requested, approved, compensated) <==>
      requestId != "" || ShareFalse(requested, approved, compensated)
  {
    ShownRequestId(text, requested);
    ShownRequestId(text, approved);
    ShownRequestId(text, compensated);
  }

  lemma ShownRequestId(text: Json -> string, payload: Json)
    requires PythonText(text) && payload.Obj?
    ensures TextOr(text, payload, REQUEST_ID) != ""
      ==> Text(text, payload, REQUEST_ID) == TextOr(text, payload, REQUEST_ID)
    ensures TextOr(text, payload, REQUEST_ID) == "" && Text(text, payload, REQUEST_ID) != "" ==>
      REQUEST_ID in payload.fields && payload.fields[REQUEST_ID] in {Null, Bool(false), Num(0), Arr([]), Obj(map[])}
  {
    assert REQUEST_ID in payload.fields && !Truthy(payload.fields[REQUEST_ID]) ==>
      payload.fields[REQUEST_ID] in {Null, Bool(false), Num(0), Str(""), Arr([]), Obj(map[])};
  }

  lemma CollectedArtifactsAreLinked(text: Json -> string, parse: string -> Option<int>,
                                    sorted: multiset<string> -> seq<string>, h: Digest, effect: Effect,
                                    approver: string, ticket: Ticket)
    requires Assignment(text, parse, sorted, effect).Ok? && ticket.createEffectId == effect.effectId
    ensures var a := Assignment(text, parse, sorted, effect).value;
      ArtifactLinkError(text, h, LinksOf(text, h, effect, approver, a), BusinessTimeline(ticket), a).None?
  {
    assert Text(text, BusinessTimeline(ticket), "effect_id") == effect.effectId;
  }

  /**
   Collection looks for one record of each trace, verification at all of them: add one record of another
   tenant to a collectable source, and it is still collected but no longer accepted.
   */
  lemma ForeignRecordIsCollectedNotAccepted(safe: string -> bool, text: Json -> string, parse: string -> Option<int>,
                                            sorted: multiset<string> -> seq<string>, h: Digest, s: Source, record: Json)
    requires PythonText(text) && Collect(safe, text, parse, sorted, h, s).Ok?
    requires OfTrace(text, record, s.effect.traceId) && Text(text, record, TENANT) != s.effect.tenantId
    ensures var r := Collect(safe, text, parse, sorted, h, s.(gate6 := s.gate6 + [record]));
      r.Ok? && CrossLinkError(text, h, r.value) == Some(Gate6TenantMismatch)
  {
    var longer := s.(gate6 := s.gate6 + [record]);
    MoreRecordsKeepLinks(s.effect, s.undo.approverSub.value, s.gate6, record);
    var r := Collect(safe, text, parse, sorted, h, longer);
    CollectedBundleVerifies(safe, text, parse, sorted, h, longer, r.value);
    assert record in longer.gate6 && OfTrace(text, record, r.value.links.originalTrace);
  }

  lemma MoreRecordsKeepLinks(effect: Effect, approver: string, gate6: seq<Json>, record: Json)
    requires TraceError(effect, approver, gate6).None?
    ensures TraceError(effect, approver, gate6 + [record]).None?
  {
    var original :| original in gate6 && OriginalLink(effect, original);
    var compensation :| compensation in gate6 && CompensationLink(effect, approver, compensation);
    assert original in gate6 + [record] && compensation in gate6 + [record];
  }

  // ---------------------------------------------------------------- a source that can be collected

  const SNAPSHOT := Obj(map[
    "agent_id" := Str("agent"), "assignment_id" := Str("grant-1"), "data_domains" := Arr([Str("tickets")]),
    "subject_id" := Str("alice"), "subject_type" := Str("human"), "tools" := Arr([Str("create_ticket")]),
    "version" := Num(1)])

  const EFFECT := Effect("effect-1", "tenant", "trace-1", "trace-2", "alice", "agent", "create_ticket", "tickets",
                         "compensated", SNAPSHOT)

  const PREPARED := Event(1, "tenant", "effect-1", "effect_prepared", "alice", Obj(map[TRACE_ID := Str("trace-1")]), "",
                          "", "")
  const REQUESTED := Event(2, "tenant", "effect-1", "undo_requested", "alice", Obj(map[REQUEST_ID := Str("undo-1")]),
                           "", "", "")
  const APPROVED := Event(3, "tenant", "effect-1", "undo_approved", "bob", Obj(map[REQUEST_ID := Str("undo-1")]), "",
                          "", "")
  const COMPENSATED := Event(4, "tenant", "effect-1", "compensated", "worker",
                             Obj(map[REQUEST_ID := Str("undo-1"), TRACE_ID := Str("trace-2")]), "", "", "")

  const ACTION_RECORD := Obj(map[TRACE_ID := Str("trace-1"), EFFECT_LINK := Str("effect-1"), HUMAN := Str("alice"),
                                 AGENT := Str("agent"), TENANT := Str("tenant")])
  const UNDO_RECORD := Obj(map[TRACE_ID := Str("trace-2"), COMPENSATES_LINK := Str("effect-1"), HUMAN := Str("bob"),
                               TENANT := Str("tenant")])

  const EXAMPLE := Source(
    EFFECT, Undo("undo-1", "effect-1", "tenant", "alice", Some("bob"), "completed"),
    Ticket("ticket-1", "tenant", "effect-1", "cancelled", "10:00", Some("11:00")),
    [PREPARED, REQUESTED, APPROVED, COMPENSATED], [ACTION_RECORD, UNDO_RECORD])

  /** A workflow from preparation to compensation is collected, and its bundle is accepted. */
  lemma ExampleIsCollectedAndAccepted(text: Json -> string, parse: string -> Option<int>,
                                      sorted: multiset<string> -> seq<string>, h: Digest)
    requires PythonText(text)
    ensures var r := Collect(_ => true, text, parse, sorted, h, EXAMPLE);
      r.Ok? && CrossLinkError(text, h, r.value).None?
  {
    ExampleIsCollected(text, parse, sorted, h);
    var b := Collect(_ => true, text, parse, sorted, h, EXAMPLE).value;
    CollectedBundleVerifies(_ => true, text, parse, sorted, h, EXAMPLE, b);
    ExampleTenant(text, b.links);
  }

  lemma ExampleIsCollected(text: Json -> string, parse: string -> Option<int>, sorted: multiset<string> -> seq<string>,
                           h: Digest)
    ensures var r := Collect(_ => true, text, parse, sorted, h, EXAMPLE);
      r.Ok? && r.value.links.tenantId == "tenant"
  {
    ExampleWorkflow(text);
    ExampleAssignment(text, parse, sorted);
    ExampleTraces();
    ExampleRows();
    PassingChecksCollect(text, parse, sorted, h, EXAMPLE, "bob");
  }

  lemma PassingChecksCollect(text: Json -> string, parse: string -> Option<int>,
                             sorted: multiset<string> -> seq<string>, h: Digest, s: Source, approver: string)
    requires RowError(s.effect, s.undo, s.ticket).None? && s.undo.approverSub == Some(approver)
    requires WorkflowError(text, s.effect, approver, s.undo.requestId, s.events).None?
    requires TraceError(s.effect, approver, s.gate6).None? && Assignment(text, parse, sorted, s.effect).Ok?
    ensures var r := Collect(_ => true, text, parse, sorted, h, s);
      r.Ok? && r.value.links.tenantId == s.effect.tenantId
  {
  }

  lemma ExampleRows()
    ensures RowError(EXAMPLE.effect, EXAMPLE.undo, EXAMPLE.ticket).None? && EXAMPLE.undo.approverSub == Some("bob")
    ensures EXAMPLE.effect == EFFECT && EXAMPLE.effect.tenantId == "tenant" && EXAMPLE.undo.requestId == "undo-1"
  {
  }

  lemma ExampleTraces()
    ensures TraceError(EFFECT, "bob", EXAMPLE.gate6).None?
  {
    assert OriginalLink(EFFECT, ACTION_RECORD) && ACTION_RECORD in EXAMPLE.gate6;
    assert CompensationLink(EFFECT, "bob", UNDO_RECORD) && UNDO_RECORD in EXAMPLE.gate6;
  }

  lemma ExampleTenant(text: Json -> string, l: Links)
    requires l.tenantId == "tenant"
    ensures TracesCarryTenant(text, l, EXAMPLE.gate6) && OneTenant(EXAMPLE.events, "tenant")
  {
    RawIsText(text, ACTION_RECORD, TENANT, "tenant");
    RawIsText(text, UNDO_RECORD, TENANT, "tenant");
  }

  lemma ExampleWorkflow(text: Json -> string)
    ensures WorkflowError(text, EFFECT, "bob", "undo-1", EXAMPLE.events).None?
  {
    FourEvents(PREPARED, REQUESTED, APPROVED, COMPENSATED, "effect-1");
  }

  lemma ExampleAssignment(text: Json -> string, parse: string -> Option<int>, sorted: multiset<string> -> seq<string>)
    ensures Assignment(text, parse, sorted, EFFECT).Ok?
  {
    OneItem(text, "create_ticket");
    OneItem(text, "tickets");
  }

  lemma OneItem(text: Json -> string, s: string)
    ensures Items(text, Arr([Str(s)])).Some? && s in Items(text, Arr([Str(s)])).value
  {
    assert seq(1, i requires 0 <= i < 1 => Shown(text, [Str(s)][i])) == [s];
  }

  lemma FourEvents(a: Event, b: Event, c: Event, d: Event, effectId: string)
    requires a.effect == b.effect == c.effect == d.effect == effectId
    requires a.eventType == "effect_prepared" && b.eventType == "undo_requested" && c.eventType == "undo_approved"
      && d.eventType == "compensated"
    ensures var events := [a, b, c, d];
      && Single(events, "effect_prepared", effectId) == Some(a) && Single(events, "undo_requested", effectId) == Some(b)
      && Single(events, "undo_approved", effectId) == Some(c) && Single(events, "compensated", effectId) == Some(d)
  {
    var events := [a, b, c, d];
    forall t: string
      ensures Matches(events, t, effectId)
        == (if t == a.eventType then [a] else []) + (if t == b.eventType then [b] else [])
           + (if t == c.eventType then [c] else []) + (if t == d.eventType then [d] else [])
    {
      assert events[..3] == [a, b, c] && [a, b, c][..2] == [a, b] && [a, b][..1] == [a] && [a][..0] == [];
      assert Matches([a], t, effectId) == if t == a.eventType then [a] else [];
      assert Matches([a, b], t, effectId) == Matches([a], t, effectId) + if t == b.eventType then [b] else [];
    }
  }

  // ---------------------------------------------------------------- the events that are collected

  predicate IsCompensation(e: Event, tenant: string, effectId: string) {
    e.tenant == tenant && e.effect == effectId && e.eventType == "compensated"
  }

  /** `max(seq)` over the compensation events of the effect. */
  function LastCompensation(table: seq<Event>, tenant: string, effectId: string): Option<int> {
    if table == [] then None
    else
      var e, before := table[|table| - 1], LastCompensation(table[..|table| - 1], tenant, effectId);
      if !IsCompensation(e, tenant, effectId) then before
      else if before.Some? && before.value > e.seqNo then before
      else Some(e.seqNo)
  }

  /** The rows of the tenant up to a sequence number, of a table listed in that order. */
  function UpTo(table: seq<Event>, tenant: string, last: int): seq<Event> {
    if table == [] then []
    else
      var e := table[|table| - 1];
      UpTo(table[..|table| - 1], tenant, last) + if e.tenant == tenant && e.seqNo <= last then [e] else []
  }

  /** The query of `_select_effect_events`; without a compensation it selects nothing. */
  function SelectEffectEvents(table: seq<Event>, tenant: string, effectId: string): seq<Event> {
    var last := LastCompensation(table, tenant, effectId);
    if last.None? then [] else UpTo(table, tenant, last.value)
  }

  lemma {:induction false} UpToIsPrefix(h: Digest, table: seq<Event>, tenant: string, last: int)
    requires ChainOk(h, TenantEvents(table, tenant))
    ensures UpTo(table, tenant, last) <= TenantEvents(table, tenant)
    ensures forall e <- TenantEvents(table, tenant) :: e.seqNo <= last ==> e in UpTo(table, tenant, last)
  {
    if table == [] {
    } else {
      var n := |table| - 1;
      var chain, before := TenantEvents(table, tenant), TenantEvents(table[..n], tenant);
      assert before == chain[..|before|];
      ChainPrefix(h, chain, |before|);
      UpToIsPrefix(h, table[..n], tenant, last);
      if table[n].tenant == tenant && table[n].seqNo <= last {
        forall e | e in before ensures e.seqNo <= last {
          var i :| 0 <= i < |before| && before[i] == e;
          NumbersIncrease(h, chain, i, |before|);
        }
        AllUpTo(table[..n], tenant, last);
      }
    }
  }

  lemma {:induction false} AllUpTo(table: seq<Event>, tenant: string, last: int)
    requires forall e <- TenantEvents(table, tenant) :: e.seqNo <= last
    ensures UpTo(table, tenant, last) == TenantEvents(table, tenant)
  {
    if table == [] {
    } else {
      AllUpTo(table[..|table| - 1], tenant, last);
    }
  }

  lemma {:induction false} SelectedHaveTenant(table: seq<Event>, tenant: string, last: int)
    ensures OneTenant(UpTo(table, tenant, last), tenant)
  {
    if table == [] {
    } else {
      SelectedHaveTenant(table[..|table| - 1], tenant, last);
    }
  }

  lemma {:induction false} LastCompensationIsSelected(table: seq<Event>, tenant: string, effectId: string)
    requires LastCompensation(table, tenant, effectId).Some?
    ensures exists e <- TenantEvents(table, tenant) ::
      IsCompensation(e, tenant, effectId) && e.seqNo == LastCompensation(table, tenant, effectId).value
  {
    var n := |table| - 1;
    if LastCompensation(table, tenant, effectId) == Some(table[n].seqNo) && IsCompensation(table[n], tenant, effectId) {
      assert table[n] in TenantEvents(table, tenant);
    } else {
      LastCompensationIsSelected(table[..n], tenant, effectId);
    }
  }

  /**
   From an intact tenant chain, the query selects a prefix that is itself an intact chain of that
   tenant, reaches the last compensation of the effect, and is empty only if there is none.
   */
  lemma SelectedEventsAreAChain(h: Digest, table: seq<Event>, tenant: string, effectId: string)
    requires ChainOk(h, TenantEvents(table, tenant))
    ensures var selected := SelectEffectEvents(table, tenant, effectId);
      && selected <= TenantEvents(table, tenant) && ChainOk(h, selected) && OneTenant(selected, tenant)
      && (LastCompensation(table, tenant, effectId).Some? ==>
           exists e <- selected :: IsCompensation(e, tenant, effectId)
                                   && e.seqNo == LastCompensation(table, tenant, effectId).value)
  {
    var last := LastCompensation(table, tenant, effectId);
    if last.Some? {
      var chain, selected := TenantEvents(table, tenant), UpTo(table, tenant, last.value);
      UpToIsPrefix(h, table, tenant, last.value);
      assert selected == chain[..|selected|];
      ChainPrefix(h, chain, |selected|);
      SelectedHaveTenant(table, tenant, last.value);
      LastCompensationIsSelected(table, tenant, effectId);
    }
  }

  /**
   From an intact event table and an intact Gate6 chain, a collected bundle passes both chain checks,
   and passes the cross-link check exactly if its traces carry the tenant, given an Undo request with an id.
   */
  lemma EvidenceFromTheTableVerifies(safe: string -> bool, text: Json -> string, parse: string -> Option<int>,
                                     sorted: multiset<string> -> seq<string>, h: Digest, lower: string -> string,
                                     flagged: string -> bool, table: seq<Event>, rows: seq<Gate6Chain.Row>, s: Source,
                                     b: Bundle)
    requires PythonText(text) && ChainOk(h, TenantEvents(table, s.effect.tenantId))
      && Gate6Chain.SourceIntact(h, text, rows)
    requires s.gate6 == Gate6Chain.PublicChain(h, lower, flagged, rows)
    requires s.events == SelectEffectEvents(table, s.effect.tenantId, s.effect.effectId)
    requires Collect(safe, text, parse, sorted, h, s) == Ok(b)
    requires s.undo.requestId != ""
    ensures RecordsOf(b.events) != [] && RecordsOk(h, RecordsOf(b.events))
    ensures Gate6Chain.ChainValid(h, b.gate6)
    ensures CrossLinkError(text, h, b).None? <==> TracesCarryTenant(text, b.links, s.gate6)
  {
    SelectedEventsAreAChain(h, table, s.effect.tenantId, s.effect.effectId);
    CollectedChecksPassed(safe, text, parse, sorted, h, s, b);
    CheckedBundleVerifies(text, parse, sorted, h, s, b);
    CollectedEventsExist(text, s.effect, s.undo.approverSub.value, s.undo.requestId, s.events);
    WrittenChainVerifiesExactly(h, b.events);
    ProjectedRecordsVerify(text, h, lower, flagged, rows, s.effect, s.undo.approverSub.value, s.gate6);
  }

  lemma ProjectedRecordsVerify(text: Json -> string, h: Digest, lower: string -> string, flagged: string -> bool,
                               rows: seq<Gate6Chain.Row>, effect: Effect, approver: string, gate6: seq<Json>)
    requires Gate6Chain.SourceIntact(h, text, rows) && gate6 == Gate6Chain.PublicChain(h, lower, flagged, rows)
    requires TraceError(effect, approver, gate6).None?
    ensures Gate6Chain.ChainValid(h, gate6)
  {
    forall row | row in rows ensures row.record.Obj? {
      var i :| 0 <= i < |rows| && rows[i] == row;
      assert Gate6Chain.RowIntact(h, text, rows, i);
    }
    Gate6Chain.PublicChainIsAccepted(h, lower, flagged, rows);
  }

  lemma CollectedEventsExist(text: Json -> string, effect: Effect, approver: string, requestId: string,
                             events: seq<Event>)
    requires WorkflowError(text, effect, approver, requestId, events).None?
    ensures events != []
  {
  }
}
