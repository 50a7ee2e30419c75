/**
 scripts/import_sqlite_effects.py: public effect metadata of a legacy store is imported into the
 control plane in one transaction, and its events are appended to the hash chains of their tenants.
 */
module EffectImport {
  import opened Common
  import opened JsonValues
  import opened EffectChain

  const LEGACY_CONTRACT_VERSION := "legacy-sqlite/v1"
  const IMPORTED_EVENT_TYPE := "legacy_effect_event_imported"

  datatype LegacyEffect = LegacyEffect(id: string, tenant: string)

  datatype LegacyEvent = LegacyEvent(
    seqNo: int, effect: string, eventType: string, actor: string, publicPayload: map<string, string>,
    prevHash: string, recordHash: string)

  datatype Snapshot = Snapshot(effects: seq<LegacyEffect>, events: seq<LegacyEvent>)

  datatype EffectRow = EffectRow(tenant: string, contractVersion: string)

  /** The two tables, and the next value of the event table's serial column. */
  datatype Store = Store(effects: map<string, EffectRow>, events: seq<Event>, nextSeq: int)

  datatype Counts = Counts(inserted: nat, existing: nat, other: nat)

  function Sum(c: Counts): nat {
    c.inserted + c.existing + c.other
  }

  // ---------------------------------------------------------------- effects

  function InsertEffect(s: Store, e: LegacyEffect): Store {
    if e.id in s.effects then s else s.(effects := s.effects[e.id := EffectRow(e.tenant, LEGACY_CONTRACT_VERSION)])
  }

  predicate Compatible(s: Store, e: LegacyEffect) {
    e.id in s.effects && s.effects[e.id] == EffectRow(e.tenant, LEGACY_CONTRACT_VERSION)
  }

  /** The effect loop: the store, the eligible identifiers, and inserted, existing, conflicted. */
  function ImportEffects(s: Store, effects: seq<LegacyEffect>): (Store, set<string>, Counts) {
    if effects == [] then (s, {}, Counts(0, 0, 0))
    else
      var (before, eligible, c) := ImportEffects(s, effects[..|effects| - 1]);
      var e := effects[|effects| - 1];
      if e.id !in before.effects then (InsertEffect(before, e), eligible + {e.id}, c.(inserted := c.inserted + 1))
      else if Compatible(before, e) then (before, eligible + {e.id}, c.(existing := c.existing + 1))
      else (before, eligible, c.(other := c.other + 1))
  }

  /** `{effect.effect_id: effect ...}`: the last effect with an identifier. */
  function EffectById(effects: seq<LegacyEffect>, id: string): Option<LegacyEffect> {
    if effects == [] then None
    else if effects[|effects| - 1].id == id then Some(effects[|effects| - 1])
    else EffectById(effects[..|effects| - 1], id)
  }

  // ---------------------------------------------------------------- events

  /** `payload->>key`; `text` is how the database shows a value that is not a string. */
  function Field(text: Json -> string, payload: Json, key: string): Option<string> {
    if payload.Obj? && key in payload.fields && !payload.fields[key].Null? then Some(Shown(text, payload.fields[key]))
    else None
  }

  predicate IsImportOf(text: Json -> string, row: Event, tenant: string, e: LegacyEvent) {
    && row.tenant == tenant && row.effect == e.effect && row.eventType == IMPORTED_EVENT_TYPE
    && Field(text, row.payload, "legacy_seq") == Some(text(Num(e.seqNo)))
    && Field(text, row.payload, "legacy_record_hash") == Some(e.recordHash)
  }

  predicate AlreadyPresent(text: Json -> string, s: Store, tenant: string, e: LegacyEvent) {
    exists row <- s.events :: IsImportOf(text, row, tenant, e)
  }

  function Tail(s: Store, tenant: string): string {
    var chain := TenantEvents(s.events, tenant);
    if chain == [] then "" else chain[|chain| - 1].recordHash
  }

  function Payload(e: LegacyEvent): Json {
    Obj(map["legacy_seq" := Num(e.seqNo), "legacy_event_type" := Str(e.eventType),
            "legacy_prev_hash" := Str(e.prevHash), "legacy_record_hash" := Str(e.recordHash),
            "legacy_public_payload" := Obj(map k <- e.publicPayload :: Str(e.publicPayload[k]))])
  }

  function NewEvent(h: Digest, s: Store, tenant: string, e: LegacyEvent, now: string): Event {
    var unhashed := Event(s.nextSeq, tenant, e.effect, IMPORTED_EVENT_TYPE, e.actor, Payload(e), Tail(s, tenant), "",
                          now);
    unhashed.(recordHash := h(Covered(unhashed)))
  }

  function InsertEvent(h: Digest, text: Json -> string, s: Store, tenant: string, e: LegacyEvent, now: string): Store {
    if AlreadyPresent(text, s, tenant, e) then s
    else s.(events := s.events + [NewEvent(h, s, tenant, e, now)], nextSeq := s.nextSeq + 1)
  }

  /** One turn of the event loop: inserted, existing or skipped. */
  function ImportEvent(h: Digest, text: Json -> string, done: (Store, Counts), effects: seq<LegacyEffect>,
                       eligible: set<string>, e: LegacyEvent, now: string): (Store, Counts)
  {
    var effect := EffectById(effects, e.effect);
    if effect.None? || e.effect !in eligible then (done.0, done.1.(other := done.1.other + 1))
    else if AlreadyPresent(text, done.0, effect.value.tenant, e) then (done.0, done.1.(existing := done.1.existing + 1))
    else (InsertEvent(h, text, done.0, effect.value.tenant, e, now), done.1.(inserted := done.1.inserted + 1))
  }

  /** The event loop. */
  function ImportEvents(h: Digest, text: Json -> string, s: Store, effects: seq<LegacyEffect>, eligible: set<string>,
                        events: seq<LegacyEvent>, now: string): (Store, Counts)
  {
    if events == [] then (s, Counts(0, 0, 0))
    else
      var n := |events| - 1;
      ImportEvent(h, text, ImportEvents(h, text, s, effects, eligible, events[..n], now), effects, eligible, events[n],
                  now)
  }

  // ---------------------------------------------------------------- order of the events

  function TenantOf(effects: seq<LegacyEffect>, e: LegacyEvent): string {
    var effect := EffectById(effects, e.effect);
    if effect.Some? then effect.value.tenant else ""
  }

  /** The sort key: tenant, then legacy sequence number. */
  predicate NotAfter(effects: seq<LegacyEffect>, a: LegacyEvent, b: LegacyEvent) {
    var s, t := TenantOf(effects, a), TenantOf(effects, b);
    (s != t && LexLe(s, t)) || (s == t && a.seqNo <= b.seqNo)
  }

  function Insert(effects: seq<LegacyEffect>, sorted: seq<LegacyEvent>, e: LegacyEvent): seq<LegacyEvent> {
    if sorted == [] || NotAfter(effects, sorted[|sorted| - 1], e) then sorted + [e]
    else Insert(effects, sorted[..|sorted| - 1], e) + [sorted[|sorted| - 1]]
  }

  function Sorted(effects: seq<LegacyEffect>, events: seq<LegacyEvent>): seq<LegacyEvent> {
    if events == [] then [] else Insert(effects, Sorted(effects, events[..|events| - 1]), events[|events| - 1])
  }

  predicate Ordered(effects: seq<LegacyEffect>, events: seq<LegacyEvent>) {
    forall i, j :: 0 <= i < j < |events| ==> NotAfter(effects, events[i], events[j])
  }

  lemma {:induction false} InsertKeepsAll(effects: seq<LegacyEffect>, sorted: seq<LegacyEvent>, e: LegacyEvent)
    ensures multiset(Insert(effects, sorted, e)) == multiset(sorted) + multiset{e}
  {
    if sorted == [] {
    } else {
      var n := |sorted| - 1;
      InsertKeepsAll(effects, sorted[..n], e);
      assert sorted == sorted[..n] + [sorted[n]];
    }
  }

  lemma {:induction false} InsertKeepsOrder(effects: seq<LegacyEffect>, sorted: seq<LegacyEvent>, e: LegacyEvent)
    requires Ordered(effects, sorted)
    ensures Ordered(effects, Insert(effects, sorted, e))
  {
    var n := |sorted| - 1;
    if sorted == [] {
    } else if NotAfter(effects, sorted[n], e) {
      forall i | 0 <= i < |sorted| ensures NotAfter(effects, sorted[i], e) {
        if i < n {
          NotAfterTransitive(effects, sorted[i], sorted[n], e);
        }
      }
    } else {
      var shorter := Insert(effects, sorted[..n], e);
      InsertKeepsOrder(effects, sorted[..n], e);
      LexTotal(TenantOf(effects, sorted[n]), TenantOf(effects, e));
      forall i | 0 <= i < |shorter| ensures NotAfter(effects, shorter[i], sorted[n]) {
        InsertedElements(effects, sorted[..n], e, i);
      }
    }
  }

  lemma InsertedElements(effects: seq<LegacyEffect>, sorted: seq<LegacyEvent>, e: LegacyEvent, i: nat)
    requires i < |Insert(effects, sorted, e)|
    ensures Insert(effects, sorted, e)[i] == e || Insert(effects, sorted, e)[i] in sorted
  {
    InsertKeepsAll(effects, sorted, e);
    assert Insert(effects, sorted, e)[i] in multiset(sorted) + multiset{e};
  }

  lemma NotAfterTransitive(effects: seq<LegacyEffect>, a: LegacyEvent, b: LegacyEvent, c: LegacyEvent)
    requires NotAfter(effects, a, b) && NotAfter(effects, b, c)
    ensures NotAfter(effects, a, c)
  {
    var s, t, u := TenantOf(effects, a), TenantOf(effects, b), TenantOf(effects, c);
    if s != t && t != u {
      LexTransitive(s, t, u);
      LexTotal(s, t);
    }
  }

  lemma {:induction false} SortedFacts(effects: seq<LegacyEffect>, events: seq<LegacyEvent>)
    ensures multiset(Sorted(effects, events)) == multiset(events)
    ensures Ordered(effects, Sorted(effects, events))
  {
    if events == [] {
    } else {
      var n := |events| - 1;
      SortedFacts(effects, events[..n]);
      InsertKeepsAll(effects, Sorted(effects, events[..n]), events[n]);
      InsertKeepsOrder(effects, Sorted(effects, events[..n]), events[n]);
      assert events == events[..n] + [events[n]];
    }
  }

  /** Events of one tenant come in the order of their legacy numbers, tenants in the order of their names. */
  lemma SortedByTenantAndNumber(effects: seq<LegacyEffect>, events: seq<LegacyEvent>, i: nat, j: nat)
    requires i < j < |Sorted(effects, events)|
    ensures var (a, b) := (Sorted(effects, events)[i], Sorted(effects, events)[j]);
      var (x, y) := (EffectById(effects, a.effect), EffectById(effects, b.effect));
      x.Some? && y.Some? ==>
        if x.value.tenant == y.value.tenant then a.seqNo <= b.seqNo else LexLe(x.value.tenant, y.value.tenant)
  {
    SortedFacts(effects, events);
    assert NotAfter(effects, Sorted(effects, events)[i], Sorted(effects, events)[j]);
  }

  // ---------------------------------------------------------------- the whole import

  datatype Stats = Stats(effects: Counts, events: Counts)

  function Import(h: Digest, text: Json -> string, s: Store, snapshot: Snapshot, now: string): (Store, Stats) {
    var (withEffects, eligible, effects) := ImportEffects(s, snapshot.effects);
    var ordered := Sorted(snapshot.effects, snapshot.events);
    var (done, events) := ImportEvents(h, text, withEffects, snapshot.effects, eligible, ordered, now);
    (done, Stats(effects, events))
  }

  /** Every scanned effect and event is counted in exactly one of its three counters. */
  lemma CountsAddUp(h: Digest, text: Json -> string, s: Store, snapshot: Snapshot, now: string)
    ensures var stats := Import(h, text, s, snapshot, now).1;
      Sum(stats.effects) == |snapshot.effects| && Sum(stats.events) == |snapshot.events|
  {
    var (withEffects, eligible, _) := ImportEffects(s, snapshot.effects);
    EffectCounts(s, snapshot.effects);
    SortedFacts(snapshot.effects, snapshot.events);
    var ordered := Sorted(snapshot.effects, snapshot.events);
    EventCounts(h, text, withEffects, snapshot.effects, eligible, ordered, now);
    assert |multiset(ordered)| == |ordered| && |multiset(snapshot.events)| == |snapshot.events|;
  }

  lemma {:induction false} EffectCounts(s: Store, effects: seq<LegacyEffect>)
    ensures Sum(ImportEffects(s, effects).2) == |effects|
  {
    if effects == [] {
    } else {
      EffectCounts(s, effects[..|effects| - 1]);
    }
  }

  lemma {:induction false} EventCounts(h: Digest, text: Json -> string, s: Store, effects: seq<LegacyEffect>,
                                       eligible: set<string>, events: seq<LegacyEvent>, now: string)
    ensures Sum(ImportEvents(h, text, s, effects, eligible, events, now).1) == |events|
  {
    if events == [] {
    } else {
      EventCounts(h, text, s, effects, eligible, events[..|events| - 1], now);
    }
  }

  /** Events are only appended, as many as are counted as inserted. */
  lemma {:induction false} EventsAreAppended(h: Digest, text: Json -> string, s: Store, effects: seq<LegacyEffect>,
                                             eligible: set<string>, events: seq<LegacyEvent>, now: string)
    ensures var (s', c) := ImportEvents(h, text, s, effects, eligible, events, now);
      s.events <= s'.events && |s'.events| == |s.events| + c.inserted
  {
    if events == [] {
    } else {
      EventsAreAppended(h, text, s, effects, eligible, events[..|events| - 1], now);
    }
  }

  // ---------------------------------------------------------------- chains stay valid

  predicate SerialOk(s: Store) {
    && s.nextSeq >= 0
    && forall e <- s.events :: e.seqNo < s.nextSeq
  }

  ghost predicate ChainsOk(h: Digest, s: Store) {
    SerialOk(s) && forall tenant :: ChainOk(h, TenantEvents(s.events, tenant))
  }

  lemma InsertEventKeepsChain(h: Digest, text: Json -> string, s: Store, tenant: string, e: LegacyEvent, now: string,
                              t: string)
    requires SerialOk(s) && ChainOk(h, TenantEvents(s.events, t))
    ensures var s' := InsertEvent(h, text, s, tenant, e, now); SerialOk(s') && ChainOk(h, TenantEvents(s'.events, t))
  {
    var s' := InsertEvent(h, text, s, tenant, e, now);
    if s' != s {
      var row := NewEvent(h, s, tenant, e, now);
      assert s'.events[..|s.events|] == s.events;
      var chain := TenantEvents(s.events, t);
      assert TenantEvents(s'.events, t) == chain + if t == tenant then [row] else [];
      if t == tenant {
        TenantEventsAreEvents(s.events, tenant);
        assert chain != [] ==> chain[|chain| - 1] in s.events;
        assert Covered(row) == Covered(row.(recordHash := ""));
        ChainExtends(h, chain, row);
      } else {
        assert chain + [] == chain;
      }
    }
  }

  lemma {:induction false} ImportEventsKeepsChain(h: Digest, text: Json -> string, s: Store, effects: seq<LegacyEffect>,
                                                  eligible: set<string>, events: seq<LegacyEvent>, now: string,
                                                  t: string)
    requires SerialOk(s) && ChainOk(h, TenantEvents(s.events, t))
    ensures var s' := ImportEvents(h, text, s, effects, eligible, events, now).0;
      SerialOk(s') && ChainOk(h, TenantEvents(s'.events, t))
  {
    if events == [] {
    } else {
      var n := |events| - 1;
      ImportEventsKeepsChain(h, text, s, effects, eligible, events[..n], now, t);
      var effect := EffectById(effects, events[n].effect);
      if effect.Some? {
        InsertEventKeepsChain(h, text, ImportEvents(h, text, s, effects, eligible, events[..n], now).0,
                              effect.value.tenant, events[n], now, t);
      }
    }
  }

  lemma {:induction false} ImportEffectsKeepsEvents(s: Store, effects: seq<LegacyEffect>)
    ensures ImportEffects(s, effects).0.events == s.events && ImportEffects(s, effects).0.nextSeq == s.nextSeq
    ensures forall id <- s.effects :: id in ImportEffects(s, effects).0.effects
                                   && ImportEffects(s, effects).0.effects[id] == s.effects[id]
  {
    if effects == [] {
    } else {
      ImportEffectsKeepsEvents(s, effects[..|effects| - 1]);
    }
  }

  lemma {:induction false} ImportEventsKeepsSerial(h: Digest, text: Json -> string, s: Store,
                                                   effects: seq<LegacyEffect>, eligible: set<string>,
                                                   events: seq<LegacyEvent>, now: string)
    requires SerialOk(s)
    ensures SerialOk(ImportEvents(h, text, s, effects, eligible, events, now).0)
  {
    if events == [] {
    } else {
      ImportEventsKeepsSerial(h, text, s, effects, eligible, events[..|events| - 1], now);
    }
  }

  lemma ImportKeepsSerial(h: Digest, text: Json -> string, s: Store, snapshot: Snapshot, now: string)
    requires SerialOk(s)
    ensures SerialOk(Import(h, text, s, snapshot, now).0)
  {
    var (withEffects, eligible, _) := ImportEffects(s, snapshot.effects);
    ImportEffectsKeepsEvents(s, snapshot.effects);
    ImportEventsKeepsSerial(h, text, withEffects, snapshot.effects, eligible, Sorted(snapshot.effects, snapshot.events),
                            now);
  }

  /** An import only appends events, as many as it counts, and keeps the chain of a tenant that has one. */
  lemma ImportKeepsChain(h: Digest, text: Json -> string, s: Store, snapshot: Snapshot, now: string, tenant: string)
    requires SerialOk(s)
    ensures var (s', stats) := Import(h, text, s, snapshot, now);
      && s.events <= s'.events && |s'.events| == |s.events| + stats.events.inserted
      && (ChainOk(h, TenantEvents(s.events, tenant)) ==> SerialOk(s') && ChainOk(h, TenantEvents(s'.events, tenant)))
  {
    var (withEffects, eligible, _) := ImportEffects(s, snapshot.effects);
    ImportEffectsKeepsEvents(s, snapshot.effects);
    var ordered := Sorted(snapshot.effects, snapshot.events);
    EventsAreAppended(h, text, withEffects, snapshot.effects, eligible, ordered, now);
    if ChainOk(h, TenantEvents(s.events, tenant)) {
      ImportEventsKeepsChain(h, text, withEffects, snapshot.effects, eligible, ordered, now, tenant);
    }
  }

  /** If every tenant's chain verifies before an import, every tenant's chain verifies after it. */
  lemma ImportKeepsChains(h: Digest, text: Json -> string, s: Store, snapshot: Snapshot, now: string)
    requires ChainsOk(h, s)
    ensures ChainsOk(h, Import(h, text, s, snapshot, now).0)
    ensures var (s', stats) := Import(h, text, s, snapshot, now);
      s.events <= s'.events && |s'.events| == |s.events| + stats.events.inserted
  {
    ImportKeepsChain(h, text, s, snapshot, now, "");
    forall tenant ensures SerialOk(Import(h, text, s, snapshot, now).0)
                       && ChainOk(h, TenantEvents(Import(h, text, s, snapshot, now).0.events, tenant)) {
      ImportKeepsChain(h, text, s, snapshot, now, tenant);
    }
  }

  // ---------------------------------------------------------------- importing again

  function CompatibleIds(s: Store, effects: seq<LegacyEffect>): set<string> {
    set e <- effects | Compatible(s, e) :: e.id
  }

  lemma {:induction false} EligibleAreCompatible(s: Store, effects: seq<LegacyEffect>)
    ensures var (s', eligible, _) := ImportEffects(s, effects);
      eligible == CompatibleIds(s', effects) && forall e <- effects :: e.id in s'.effects
  {
    if effects == [] {
    } else {
      var n := |effects| - 1;
      EligibleAreCompatible(s, effects[..n]);
      assert effects == effects[..n] + [effects[n]];
      LaterEffectsKeepVerdicts(s, effects);
    }
  }

  lemma LaterEffectsKeepVerdicts(s: Store, effects: seq<LegacyEffect>)
    requires effects != []
    requires var n := |effects| - 1; forall e <- effects[..n] :: e.id in ImportEffects(s, effects[..n]).0.effects
    ensures var n := |effects| - 1;
      forall e <- effects[..n] :: Compatible(ImportEffects(s, effects[..n]).0, e)
        <==> Compatible(ImportEffects(s, effects).0, e)
  {
  }

  lemma {:induction false} KnownEffectsAddNothing(s: Store, effects: seq<LegacyEffect>)
    requires forall e <- effects :: e.id in s.effects
    ensures var (s', eligible, c) := ImportEffects(s, effects);
      s' == s && eligible == CompatibleIds(s, effects) && c.inserted == 0
  {
    if effects == [] {
    } else {
      var n := |effects| - 1;
      assert effects == effects[..n] + [effects[n]];
      KnownEffectsAddNothing(s, effects[..n]);
    }
  }

  predicate Wanted(effects: seq<LegacyEffect>, eligible: set<string>, e: LegacyEvent) {
    EffectById(effects, e.effect).Some? && e.effect in eligible
  }

  predicate PresentIfWanted(text: Json -> string, s: Store, effects: seq<LegacyEffect>, eligible: set<string>,
                            e: LegacyEvent) {
    Wanted(effects, eligible, e) ==> AlreadyPresent(text, s, EffectById(effects, e.effect).value.tenant, e)
  }

  lemma {:induction false} WantedEventsArePresent(h: Digest, text: Json -> string, s: Store, effects: seq<LegacyEffect>,
                                                  eligible: set<string>, events: seq<LegacyEvent>, now: string)
    ensures var (s', _) := ImportEvents(h, text, s, effects, eligible, events, now);
      s'.effects == s.effects && forall e <- events :: PresentIfWanted(text, s', effects, eligible, e)
  {
    if events == [] {
    } else {
      var n := |events| - 1;
      WantedEventsArePresent(h, text, s, effects, eligible, events[..n], now);
      assert events == events[..n] + [events[n]];
      var before := ImportEvents(h, text, s, effects, eligible, events[..n], now).0;
      var s' := ImportEvents(h, text, s, effects, eligible, events, now).0;
      forall tenant, e | AlreadyPresent(text, before, tenant, e) ensures AlreadyPresent(text, s', tenant, e) {
        var row :| row in before.events && IsImportOf(text, row, tenant, e);
        assert row in s'.events;
      }
      var effect := EffectById(effects, events[n].effect);
      if effect.Some? && s' != before {
        var row := NewEvent(h, before, effect.value.tenant, events[n], now);
        assert row in s'.events && IsImportOf(text, row, effect.value.tenant, events[n]);
      }
    }
  }

  lemma {:induction false} PresentEventsAddNothing(h: Digest, text: Json -> string, s: Store,
                                                   effects: seq<LegacyEffect>, eligible: set<string>,
                                                   events: seq<LegacyEvent>, now: string)
    requires forall e <- events :: PresentIfWanted(text, s, effects, eligible, e)
    ensures var (s', c) := ImportEvents(h, text, s, effects, eligible, events, now); s' == s && c.inserted == 0
  {
    if events == [] {
    } else {
      var n := |events| - 1;
      assert events == events[..n] + [events[n]];
      assert PresentIfWanted(text, s, effects, eligible, events[n]);
      PresentEventsAddNothing(h, text, s, effects, eligible, events[..n], now);
    }
  }

  /** Importing the same snapshot again inserts nothing and leaves both tables as they are. */
  lemma ImportAgainInsertsNothing(h: Digest, text: Json -> string, s: Store, snapshot: Snapshot, now: string,
                                  later: string)
    ensures var once := Import(h, text, s, snapshot, now).0;
      var (twice, stats) := Import(h, text, once, snapshot, later);
      twice == once && stats.effects.inserted == 0 && stats.events.inserted == 0
  {
    var (withEffects, eligible, _) := ImportEffects(s, snapshot.effects);
    var ordered := Sorted(snapshot.effects, snapshot.events);
    EligibleAreCompatible(s, snapshot.effects);
    WantedEventsArePresent(h, text, withEffects, snapshot.effects, eligible, ordered, now);
    var once := Import(h, text, s, snapshot, now).0;
    KnownEffectsAddNothing(once, snapshot.effects);
    assert CompatibleIds(once, snapshot.effects) == eligible;
    PresentEventsAddNothing(h, text, once, snapshot.effects, eligible, ordered, later);
  }

  /** The legacy event that a stored event was made from. */
  function LegacyOf(row: Event): Option<LegacyEvent> {
    var seqNo, eventType := Raw(row.payload, "legacy_seq"), Raw(row.payload, "legacy_event_type");
    var prev, record := Raw(row.payload, "legacy_prev_hash"), Raw(row.payload, "legacy_record_hash");
    var public := Raw(row.payload, "legacy_public_payload");
    if seqNo.Num? && eventType.Str? && prev.Str? && record.Str? && public.Obj? then
      Some(LegacyEvent(seqNo.n, row.effect, eventType.s, row.actor,
                       map k <- public.fields | public.fields[k].Str? :: public.fields[k].s,
                       prev.s, record.s))
    else None
  }

  /** Nothing of a legacy event is lost: it can be read back from the event that was inserted for it. */
  lemma InsertedEventKeepsLegacy(h: Digest, text: Json -> string, s: Store, tenant: string, e: LegacyEvent, now: string)
    requires !AlreadyPresent(text, s, tenant, e)
    ensures var s' := InsertEvent(h, text, s, tenant, e, now);
      && s'.events[..|s.events|] == s.events && |s'.events| == |s.events| + 1
      && LegacyOf(s'.events[|s.events|]) == Some(e) && s'.events[|s.events|].tenant == tenant
  {
    var row := NewEvent(h, s, tenant, e, now);
    var public := Raw(row.payload, "legacy_public_payload");
    assert public.fields.Keys == e.publicPayload.Keys;
    assert (map k <- public.fields | public.fields[k].Str? :: public.fields[k].s) == e.publicPayload;
  }

  // ---------------------------------------------------------------- what is in the table afterwards

  /** A row from which this legacy event can be told: its tenant, effect, number and record hash. */
  predicate Tells(row: Event, tenant: string, e: LegacyEvent) {
    && row.tenant == tenant && row.effect == e.effect && row.eventType == IMPORTED_EVENT_TYPE
    && LegacyOf(row).Some? && LegacyOf(row).value.seqNo == e.seqNo && LegacyOf(row).value.recordHash == e.recordHash
  }

  predicate Told(s: Store, tenant: string, e: LegacyEvent) {
    exists row <- s.events :: Tells(row, tenant, e)
  }

  /** Rows of the import type were written by the importer. */
  predicate ImportsAreReadable(s: Store) {
    forall row <- s.events :: row.eventType == IMPORTED_EVENT_TYPE ==> LegacyOf(row).Some?
  }

  /** The database shows distinct numbers distinctly. */
  ghost predicate ShowsNumbers(text: Json -> string) {
    forall m: int, n: int :: text(Num(m)) == text(Num(n)) ==> m == n
  }

  lemma PresentMeansTold(text: Json -> string, s: Store, tenant: string, e: LegacyEvent)
    requires ShowsNumbers(text) && ImportsAreReadable(s)
    ensures AlreadyPresent(text, s, tenant, e) <==> Told(s, tenant, e)
  {
    forall row <- s.events ensures IsImportOf(text, row, tenant, e) <==> Tells(row, tenant, e) {
      if row.eventType == IMPORTED_EVENT_TYPE {
        var n := LegacyOf(row).value.seqNo;
        assert text(Num(n)) == text(Num(e.seqNo)) ==> n == e.seqNo;
      }
    }
  }

  /**
   One turn of the event loop inserts an event exactly if its effect was taken over and no row tells it yet, and
   then appends one row that does. Events of other effects are skipped, those that are told are counted as such.
   */
  lemma InsertedExactly(h: Digest, text: Json -> string, done: (Store, Counts), effects: seq<LegacyEffect>,
                        eligible: set<string>, e: LegacyEvent, now: string)
    requires ShowsNumbers(text) && ImportsAreReadable(done.0)
    ensures var (s, c) := done;
      var (s', c') := ImportEvent(h, text, done, effects, eligible, e, now);
      var effect := EffectById(effects, e.effect);
      if effect.None? || e.effect !in eligible then s' == s && c' == c.(other := c.other + 1)
      else if Told(s, effect.value.tenant, e) then s' == s && c' == c.(existing := c.existing + 1)
      else
        && c' == c.(inserted := c.inserted + 1) && |s'.events| == |s.events| + 1 && s.events <= s'.events
        && s'.effects == s.effects && s'.nextSeq == s.nextSeq + 1
        && s'.events[|s.events|].seqNo == s.nextSeq && Tells(s'.events[|s.events|], effect.value.tenant, e)
    ensures ImportsAreReadable(ImportEvent(h, text, done, effects, eligible, e, now).0)
  {
    var effect := EffectById(effects, e.effect);
    if effect.Some? {
      PresentMeansTold(text, done.0, effect.value.tenant, e);
      if e.effect in eligible && !AlreadyPresent(text, done.0, effect.value.tenant, e) {
        InsertedEventKeepsLegacy(h, text, done.0, effect.value.tenant, e, now);
      }
    }
  }

  predicate ToldIfWanted(s: Store, effects: seq<LegacyEffect>, eligible: set<string>, e: LegacyEvent) {
    Wanted(effects, eligible, e) ==> Told(s, EffectById(effects, e.effect).value.tenant, e)
  }

  lemma {:induction false} WantedEventsAreTold(h: Digest, text: Json -> string, s: Store, effects: seq<LegacyEffect>,
                                               eligible: set<string>, events: seq<LegacyEvent>, now: string)
    requires ShowsNumbers(text) && ImportsAreReadable(s)
    ensures var s' := ImportEvents(h, text, s, effects, eligible, events, now).0;
      ImportsAreReadable(s') && forall e <- events :: ToldIfWanted(s', effects, eligible, e)
  {
    if events == [] {
    } else {
      var n := |events| - 1;
      var before := ImportEvents(h, text, s, effects, eligible, events[..n], now);
      var s' := ImportEvents(h, text, s, effects, eligible, events, now).0;
      WantedEventsAreTold(h, text, s, effects, eligible, events[..n], now);
      InsertedExactly(h, text, before, effects, eligible, events[n], now);
      assert events == events[..n] + [events[n]];
      forall e <- events ensures ToldIfWanted(s', effects, eligible, e) {
        if e in events[..n] {
          assert ToldIfWanted(before.0, effects, eligible, e);
          StaysTold(before.0, s', effects, eligible, e);
        }
      }
    }
  }

  lemma StaysTold(s: Store, s': Store, effects: seq<LegacyEffect>, eligible: set<string>, e: LegacyEvent)
    requires s.events <= s'.events && ToldIfWanted(s, effects, eligible, e)
    ensures ToldIfWanted(s', effects, eligible, e)
  {
    assert forall row <- s.events :: row in s'.events;
  }

  /** The effect of this event was taken over: the effect table has it under the tenant of some legacy effect. */
  predicate TakenOver(s: Store, effects: seq<LegacyEffect>, e: LegacyEvent) {
    exists effect <- effects ::
      && effect.id == e.effect && e.effect in s.effects
      && s.effects[e.effect] == EffectRow(effect.tenant, LEGACY_CONTRACT_VERSION)
  }

  /** Nothing is dropped: after an import every event whose effect was taken over is told by a row of its tenant. */
  lemma EveryEventIsTold(h: Digest, text: Json -> string, s: Store, snapshot: Snapshot, now: string)
    requires ShowsNumbers(text) && ImportsAreReadable(s)
    ensures var s' := Import(h, text, s, snapshot, now).0;
      && ImportsAreReadable(s')
      && forall e <- snapshot.events :: TakenOver(s', snapshot.effects, e) ==>
           EffectById(snapshot.effects, e.effect).Some?
           && Told(s', EffectById(snapshot.effects, e.effect).value.tenant, e)
  {
    var (withEffects, eligible, _) := ImportEffects(s, snapshot.effects);
    var ordered := Sorted(snapshot.effects, snapshot.events);
    var s' := Import(h, text, s, snapshot, now).0;
    ImportEffectsKeepsEvents(s, snapshot.effects);
    EligibleAreCompatible(s, snapshot.effects);
    SortedFacts(snapshot.effects, snapshot.events);
    WantedEventsArePresent(h, text, withEffects, snapshot.effects, eligible, ordered, now);
    WantedEventsAreTold(h, text, withEffects, snapshot.effects, eligible, ordered, now);
    forall e <- snapshot.events | TakenOver(s', snapshot.effects, e)
      ensures EffectById(snapshot.effects, e.effect).Some?
           && Told(s', EffectById(snapshot.effects, e.effect).value.tenant, e)
    {
      var effect :| effect in snapshot.effects && effect.id == e.effect && Compatible(s', effect);
      LastById(snapshot.effects, e.effect);
      assert e in multiset(snapshot.events) && e in multiset(ordered) && e in ordered;
      assert ToldIfWanted(s', snapshot.effects, eligible, e);
    }
  }

  /** Of several legacy effects with one identifier the last one counts for the events. */
  lemma {:induction false} LastById(effects: seq<LegacyEffect>, id: string)
    ensures EffectById(effects, id).None? <==> forall e <- effects :: e.id != id
    ensures EffectById(effects, id).Some? ==>
      exists k :: 0 <= k < |effects| && effects[k] == EffectById(effects, id).value && IsLastOf(effects, k, id)
  {
    if effects == [] {
    } else {
      var n := |effects| - 1;
      if effects[n].id == id {
        assert IsLastOf(effects, n, id);
      } else {
        LastById(effects[..n], id);
        assert effects == effects[..n] + [effects[n]];
        if EffectById(effects[..n], id).Some? {
          var k :| 0 <= k < n && effects[..n][k] == EffectById(effects[..n], id).value && IsLastOf(effects[..n], k, id);
          assert IsLastOf(effects, k, id);
        }
      }
    }
  }

  predicate IsLastOf(effects: seq<LegacyEffect>, k: nat, id: string)
    requires k < |effects|
  {
    effects[k].id == id && forall i :: k < i < |effects| ==> effects[i].id != id
  }

  /** Nothing else is inserted: a new row tells an event of the snapshot whose effect was taken over. */
  lemma NothingElseIsInserted(h: Digest, text: Json -> string, s: Store, snapshot: Snapshot, now: string, i: nat)
    requires ShowsNumbers(text) && ImportsAreReadable(s)
    requires |s.events| <= i < |Import(h, text, s, snapshot, now).0.events|
    ensures var s' := Import(h, text, s, snapshot, now).0;
      exists e <- snapshot.events :: TakenOver(s', snapshot.effects, e) && IsTold(s'.events[i], snapshot.effects, e)
  {
    var (withEffects, eligible, _) := ImportEffects(s, snapshot.effects);
    var ordered := Sorted(snapshot.effects, snapshot.events);
    ImportEffectsKeepsEvents(s, snapshot.effects);
    EligibleAreCompatible(s, snapshot.effects);
    SortedFacts(snapshot.effects, snapshot.events);
    WantedEventsArePresent(h, text, withEffects, snapshot.effects, eligible, ordered, now);
    var e := NewRowTells(h, text, withEffects, snapshot.effects, eligible, ordered, now, i);
    assert e in multiset(ordered) && e in snapshot.events;
    var effect :| effect in snapshot.effects && Compatible(withEffects, effect) && effect.id == e.effect;
    assert TakenOver(withEffects, snapshot.effects, e);
  }

  predicate IsTold(row: Event, effects: seq<LegacyEffect>, e: LegacyEvent) {
    EffectById(effects, e.effect).Some? && Tells(row, EffectById(effects, e.effect).value.tenant, e)
  }

  lemma {:induction false} NewRowTells(h: Digest, text: Json -> string, s: Store, effects: seq<LegacyEffect>,
                                       eligible: set<string>, events: seq<LegacyEvent>, now: string, i: nat)
    returns (e: LegacyEvent)
    requires ShowsNumbers(text) && ImportsAreReadable(s)
    requires |s.events| <= i < |ImportEvents(h, text, s, effects, eligible, events, now).0.events|
    ensures e in events && e.effect in eligible
    ensures IsTold(ImportEvents(h, text, s, effects, eligible, events, now).0.events[i], effects, e)
  {
    var n := |events| - 1;
    var before := ImportEvents(h, text, s, effects, eligible, events[..n], now);
    WantedEventsAreTold(h, text, s, effects, eligible, events[..n], now);
    InsertedExactly(h, text, before, effects, eligible, events[n], now);
    if i < |before.0.events| {
      e := NewRowTells(h, text, s, effects, eligible, events[..n], now, i);
      assert events == events[..n] + [events[n]];
    } else {
      e := events[n];
    }
  }

  /** The first effect with an identifier. */
  function FirstById(effects: seq<LegacyEffect>, id: string): Option<LegacyEffect> {
    if effects == [] then None else if effects[0].id == id then Some(effects[0]) else FirstById(effects[1..], id)
  }

  lemma {:induction false} FirstByIdAppend(effects: seq<LegacyEffect>, e: LegacyEffect, id: string)
    ensures FirstById(effects + [e], id) ==
      if FirstById(effects, id).Some? then FirstById(effects, id) else if e.id == id then Some(e) else None
  {
    if effects == [] {
      assert (effects + [e])[1..] == [];
    } else {
      assert (effects + [e])[1..] == effects[1..] + [e];
      FirstByIdAppend(effects[1..], e, id);
    }
  }

  /** Effects on file stay as they are; a new one is taken over with the tenant of its first legacy row. */
  lemma {:induction false} EffectsAreTakenOver(s: Store, effects: seq<LegacyEffect>, id: string)
    ensures var (before, after) := (s.effects, ImportEffects(s, effects).0.effects);
      && (id in after <==> id in before || FirstById(effects, id).Some?)
      && (id in before ==> after[id] == before[id])
      && (id in after && id !in before ==>
            after[id] == EffectRow(FirstById(effects, id).value.tenant, LEGACY_CONTRACT_VERSION))
  {
    if effects == [] {
    } else {
      var n := |effects| - 1;
      EffectsAreTakenOver(s, effects[..n], id);
      FirstByIdAppend(effects[..n], effects[n], id);
      assert effects == effects[..n] + [effects[n]];
    }
  }

  // ---------------------------------------------------------------- the code

  lemma ImportEventsStep(h: Digest, text: Json -> string, s: Store, effects: seq<LegacyEffect>, eligible: set<string>,
                         events: seq<LegacyEvent>, i: nat, now: string)
    requires i < |events|
    ensures ImportEvents(h, text, s, effects, eligible, events[..i + 1], now)
         == ImportEvent(h, text, ImportEvents(h, text, s, effects, eligible, events[..i], now), effects, eligible,
                        events[i], now)
  {
    assert events[..i + 1][..i] == events[..i];
  }

  class ControlPlane {
    var effects: map<string, EffectRow>
    var events: seq<Event>
    var nextSeq: int

    function Value(): Store
      reads this
    {
      Store(effects, events, nextSeq)
    }

    constructor (s: Store)
      ensures Value() == s
    {
      effects, events, nextSeq := s.effects, s.events, s.nextSeq;
    }

    method TryInsertEffect(e: LegacyEffect) returns (inserted: bool)
      modifies this
      ensures Value() == InsertEffect(old(Value()), e) && (inserted <==> e.id !in old(effects))
    {
      inserted := e.id !in effects;
      if inserted {
        effects := effects[e.id := EffectRow(e.tenant, LEGACY_CONTRACT_VERSION)];
      }
    }

    /** The newest record hash of a tenant: one scan from the end of the table. */
    method NewestHash(tenant: string) returns (hash: string)
      ensures hash == Tail(Value(), tenant)
    {
      var i := |events|;
      assert events[..i] == events;
      while i > 0
        invariant 0 <= i <= |events|
        invariant TenantEvents(events, tenant) == TenantEvents(events[..i], tenant)
      {
        assert events[..i][..i - 1] == events[..i - 1];
        if events[i - 1].tenant == tenant {
          return events[i - 1].recordHash;
        }
        i := i - 1;
      }
      return "";
    }

    method TryInsertEvent(h: Digest, text: Json -> string, tenant: string, e: LegacyEvent, now: string)
      returns (inserted: bool)
      modifies this
      ensures Value() == InsertEvent(h, text, old(Value()), tenant, e, now)
      ensures inserted <==> !AlreadyPresent(text, old(Value()), tenant, e)
    {
      if exists row <- events :: IsImportOf(text, row, tenant, e) {
        return false;
      }
      var prevHash := NewestHash(tenant);
      var row := Event(nextSeq, tenant, e.effect, IMPORTED_EVENT_TYPE, e.actor, Payload(e), prevHash, "", now);
      events := events + [row.(recordHash := h(Covered(row)))];
      nextSeq := nextSeq + 1;
      return true;
    }

    /** The effect loop. */
    method ImportAllEffects(effects: seq<LegacyEffect>) returns (eligible: set<string>, c: Counts)
      modifies this
      ensures (Value(), eligible, c) == ImportEffects(old(Value()), effects)
    {
      eligible, c := {}, Counts(0, 0, 0);
      for i := 0 to |effects|
        invariant (Value(), eligible, c) == ImportEffects(old(Value()), effects[..i])
      {
        var e := effects[i];
        assert effects[..i + 1][..i] == effects[..i];
        var inserted := TryInsertEffect(e);
        if inserted {
          c, eligible := c.(inserted := c.inserted + 1), eligible + {e.id};
        } else if Compatible(Value(), e) {
          c, eligible := c.(existing := c.existing + 1), eligible + {e.id};
        } else {
          c := c.(other := c.other + 1);
        }
      }
      assert effects[..|effects|] == effects;
    }

    method ImportOne(h: Digest, text: Json -> string, effects: seq<LegacyEffect>, eligible: set<string>, e: LegacyEvent,
                     now: string, k: Counts)
      returns (counts: Counts)
      modifies this
      ensures (Value(), counts) == ImportEvent(h, text, (old(Value()), k), effects, eligible, e, now)
    {
      var effect := EffectById(effects, e.effect);
      if effect.None? || e.effect !in eligible {
        return k.(other := k.other + 1);
      }
      var inserted := TryInsertEvent(h, text, effect.value.tenant, e, now);
      counts := if inserted then k.(inserted := k.inserted + 1) else k.(existing := k.existing + 1);
    }

    /** The event loop, over the events in their sorted order. */
    method ImportAllEvents(h: Digest, text: Json -> string, effects: seq<LegacyEffect>, eligible: set<string>,
                           ordered: seq<LegacyEvent>, now: string)
      returns (k: Counts)
      modifies this
      ensures (Value(), k) == ImportEvents(h, text, old(Value()), effects, eligible, ordered, now)
    {
      k := Counts(0, 0, 0);
      ghost var start := Value();
      for i := 0 to |ordered|
        invariant (Value(), k) == ImportEvents(h, text, start, effects, eligible, ordered[..i], now)
      {
        ImportEventsStep(h, text, start, effects, eligible, ordered, i, now);
        k := ImportOne(h, text, effects, eligible, ordered[i], now, k);
      }
      assert ordered[..|ordered|] == ordered;
    }

    method ImportSnapshot(h: Digest, text: Json -> string, snapshot: Snapshot, now: string) returns (stats: Stats)
      modifies this
      ensures (Value(), stats) == Import(h, text, old(Value()), snapshot, now)
    {
      var eligible, c := ImportAllEffects(snapshot.effects);
      var k := ImportAllEvents(h, text, snapshot.effects, eligible, Sorted(snapshot.effects, snapshot.events), now);
      stats := Stats(c, k);
    }
  }
}
