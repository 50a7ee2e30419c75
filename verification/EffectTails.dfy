/**
 Who continues the per-tenant Effect chain: src/xa_guard/control/store.py keeps the newest hash of each chain in
 the table xa_chain_tails, scripts/import_sqlite_effects.py reads it from the events and leaves the table alone.
 */
module EffectTails {
  import opened Common
  import opened JsonValues
  import opened EffectChain
  import opened EffectImport
  import HashChains

  /** An event before it is linked. */
  datatype Item = Item(effect: string, eventType: string, actor: string, payload: Json)

  /** The event table with the effects, and the `effect` rows of xa_chain_tails. */
  datatype World = World(store: Store, tails: map<string, string>)

  /** A missing row is inserted with the empty hash before it is read. */
  function TableTail(w: World, tenant: string): string {
    if tenant in w.tails then w.tails[tenant] else ""
  }

  function TailOf(chain: seq<Event>): string {
    if chain == [] then "" else chain[|chain| - 1].recordHash
  }

  predicate Agrees(w: World, tenant: string) {
    TableTail(w, tenant) == Tail(w.store, tenant)
  }

  function Row(h: Digest, seqNo: int, tenant: string, previous: string, item: Item, now: string): Event {
    var unhashed := Event(seqNo, tenant, item.effect, item.eventType, item.actor, item.payload, previous, "", now);
    unhashed.(recordHash := h(Covered(unhashed)))
  }

  /** The rows of a batch, each linked to the one before it and the first to `previous`. */
  function Linked(h: Digest, seqNo: int, tenant: string, previous: string, items: seq<Item>,
                  now: string): (rows: seq<Event>)
    ensures |rows| == |items|
  {
    if items == [] then []
    else
      var n := |items| - 1;
      var before := Linked(h, seqNo, tenant, previous, items[..n], now);
      before + [Row(h, seqNo + n, tenant, NewestOf(previous, before), items[n], now)]
  }

  function NewestOf(previous: string, rows: seq<Event>): string {
    if rows == [] then previous else rows[|rows| - 1].recordHash
  }

  function AppendRows(s: Store, rows: seq<Event>): Store {
    s.(events := s.events + rows, nextSeq := s.nextSeq + |rows|)
  }

  /**
   The transactions that add events. A batch links to the tail that it reads from the table, or that was read
   before and is compared with the table (`cached`); a single event links to the newest event of the tenant.
   */
  datatype Step =
    | Import(snapshot: Snapshot, now: string)
    | Batch(tenant: string, items: seq<Item>, cached: Option<string>, now: string)
    | Single(tenant: string, item: Item, now: string)

  /** A batch whose cached tail is not the one in the table is rolled back. */
  predicate Refused(w: World, step: Step) {
    step.Batch? && step.cached.Some? && (step.tenant !in w.tails || w.tails[step.tenant] != step.cached.value)
  }

  function Take(h: Digest, text: Json -> string, w: World, step: Step): World {
    match step
    case Import(snapshot, now) => w.(store := EffectImport.Import(h, text, w.store, snapshot, now).0)
    case Batch(tenant, items, _, now) =>
      if Refused(w, step) then w
      else
        var rows := Linked(h, w.store.nextSeq, tenant, TableTail(w, tenant), items, now);
        World(AppendRows(w.store, rows), w.tails[tenant := NewestOf(TableTail(w, tenant), rows)])
    case Single(tenant, item, now) =>
      var row := Row(h, w.store.nextSeq, tenant, Tail(w.store, tenant), item, now);
      World(AppendRows(w.store, [row]), if tenant in w.tails then w.tails[tenant := row.recordHash] else w.tails)
  }

  function Run(h: Digest, text: Json -> string, w: World, steps: seq<Step>): World {
    if steps == [] then w
    else Take(h, text, Run(h, text, w, steps[..|steps| - 1]), steps[|steps| - 1])
  }

  function ChainOf(w: World, tenant: string): seq<Event> {
    TenantEvents(w.store.events, tenant)
  }

  predicate UsesTable(w: World, step: Step, tenant: string) {
    step.Batch? && step.tenant == tenant && step.items != [] && !Refused(w, step)
  }

  // ---------------------------------------------------------------- rows and chains

  lemma {:induction false} TenantEventsConcat(events: seq<Event>, rows: seq<Event>, tenant: string)
    ensures TenantEvents(events + rows, tenant) == TenantEvents(events, tenant) + TenantEvents(rows, tenant)
  {
    if rows == [] {
      assert events + rows == events;
    } else {
      var n := |rows| - 1;
      assert (events + rows)[..|events + rows| - 1] == events + rows[..n];
      TenantEventsConcat(events, rows[..n], tenant);
    }
  }

  lemma {:induction false} LinkedTenant(h: Digest, seqNo: int, tenant: string, previous: string, items: seq<Item>,
                                        now: string, t: string)
    ensures var rows := Linked(h, seqNo, tenant, previous, items, now);
      TenantEvents(rows, t) == if t == tenant then rows else []
    ensures forall e <- Linked(h, seqNo, tenant, previous, items, now) :: seqNo <= e.seqNo < seqNo + |items|
  {
    if items == [] {
    } else {
      var n := |items| - 1;
      LinkedTenant(h, seqNo, tenant, previous, items[..n], now, t);
      var rows := Linked(h, seqNo, tenant, previous, items, now);
      assert rows[..n] == Linked(h, seqNo, tenant, previous, items[..n], now);
    }
  }

  /** A linked batch continues a chain exactly if it starts from the tail of that chain. */
  lemma {:induction false} LinkedContinues(h: Digest, chain: seq<Event>, seqNo: int, tenant: string, previous: string,
                                           items: seq<Item>, now: string)
    requires ChainOk(h, chain) && seqNo >= 0 && forall e <- chain :: e.seqNo < seqNo
    ensures ChainOk(h, chain + Linked(h, seqNo, tenant, previous, items, now))
      <==> items == [] || previous == TailOf(chain)
  {
    if items == [] {
      assert chain + [] == chain;
    } else {
      var n := |items| - 1;
      var before := Linked(h, seqNo, tenant, previous, items[..n], now);
      var longer, row := chain + before, Row(h, seqNo + n, tenant, NewestOf(previous, before), items[n], now);
      assert chain + Linked(h, seqNo, tenant, previous, items, now) == longer + [row];
      LinkedContinues(h, chain, seqNo, tenant, previous, items[..n], now);
      if ChainOk(h, longer) {
        LinkedBelow(h, chain, seqNo, tenant, previous, items[..n], now);
        RowContinues(h, longer, seqNo + n, tenant, NewestOf(previous, before), items[n], now);
      } else {
        BrokenStaysBroken(h, longer, longer + [row]);
      }
    }
  }

  lemma LinkedBelow(h: Digest, chain: seq<Event>, seqNo: int, tenant: string, previous: string, items: seq<Item>,
                    now: string)
    requires forall e <- chain :: e.seqNo < seqNo
    ensures var rows := Linked(h, seqNo, tenant, previous, items, now);
      && (chain + rows != [] ==> (chain + rows)[|chain + rows| - 1].seqNo < seqNo + |items|)
      && TailOf(chain + rows) == if items == [] then TailOf(chain) else NewestOf(previous, rows)
  {
    var rows := Linked(h, seqNo, tenant, previous, items, now);
    LinkedTenant(h, seqNo, tenant, previous, items, now, tenant);
    if items == [] {
      assert chain + rows == chain;
    } else {
      assert (chain + rows)[|chain + rows| - 1] == rows[|rows| - 1];
    }
  }

  lemma RowContinues(h: Digest, chain: seq<Event>, seqNo: int, tenant: string, previous: string, item: Item,
                     now: string)
    requires ChainOk(h, chain) && seqNo >= 0 && (chain != [] ==> chain[|chain| - 1].seqNo < seqNo)
    ensures ChainOk(h, chain + [Row(h, seqNo, tenant, previous, item, now)]) <==> previous == TailOf(chain)
  {
    var row := Row(h, seqNo, tenant, previous, item, now);
    assert Covered(row) == Covered(row.(recordHash := ""));
    if previous == TailOf(chain) {
      ChainExtends(h, chain, row);
    } else {
      assert !EventOk(h, chain + [row], |chain|);
    }
  }

  lemma ChainBelow(h: Digest, w: World, tenant: string)
    requires SerialOk(w.store)
    ensures forall e <- ChainOf(w, tenant) :: e.seqNo < w.store.nextSeq
    ensures Tail(w.store, tenant) == TailOf(ChainOf(w, tenant))
  {
    TenantEventsAreEvents(w.store.events, tenant);
  }

  // ---------------------------------------------------------------- what one step does to a chain

  lemma TakeAppends(h: Digest, text: Json -> string, w: World, step: Step, tenant: string)
    requires SerialOk(w.store)
    ensures SerialOk(Take(h, text, w, step).store)
    ensures ChainOf(w, tenant) <= ChainOf(Take(h, text, w, step), tenant)
  {
    var w' := Take(h, text, w, step);
    if step.Import? {
      ImportKeepsSerial(h, text, w.store, step.snapshot, step.now);
      ImportKeepsChain(h, text, w.store, step.snapshot, step.now, tenant);
      var added := w'.store.events[|w.store.events|..];
      assert w'.store.events == w.store.events + added;
      TenantEventsConcat(w.store.events, added, tenant);
    } else {
      TakeAdds(h, text, w, step, tenant);
      if step.Batch? {
        LinkedTenant(h, w.store.nextSeq, step.tenant, TableTail(w, step.tenant), step.items, step.now, tenant);
      }
    }
  }

  /** One step keeps the chain of a tenant exactly if it does not continue it from a tail that is not the newest. */
  lemma TakeKeepsChainExactly(h: Digest, text: Json -> string, w: World, step: Step, tenant: string)
    requires SerialOk(w.store)
    ensures ChainOk(h, ChainOf(Take(h, text, w, step), tenant))
      <==> ChainOk(h, ChainOf(w, tenant)) && (UsesTable(w, step, tenant) ==> Agrees(w, tenant))
  {
    var chain := ChainOf(w, tenant);
    if !ChainOk(h, chain) {
      TakeAppends(h, text, w, step, tenant);
      BrokenStaysBroken(h, chain, ChainOf(Take(h, text, w, step), tenant));
    } else if step.Import? {
      ImportKeepsChain(h, text, w.store, step.snapshot, step.now, tenant);
    } else {
      ChainBelow(h, w, tenant);
      TakeAdds(h, text, w, step, tenant);
      assert chain + [] == chain;
      if AddedTo(h, w, step, tenant) == [] {
      } else if step.Batch? {
        LinkedContinues(h, chain, w.store.nextSeq, step.tenant, TableTail(w, step.tenant), step.items, step.now);
      } else {
        RowContinues(h, chain, w.store.nextSeq, step.tenant, Tail(w.store, step.tenant), step.item, step.now);
      }
    }
  }

  /** The events that a batch or a single event adds to the chain of a tenant. */
  function AddedTo(h: Digest, w: World, step: Step, tenant: string): seq<Event>
    requires !step.Import?
  {
    if step.tenant != tenant || Refused(w, step) then []
    else if step.Batch? then Linked(h, w.store.nextSeq, tenant, TableTail(w, tenant), step.items, step.now)
    else [Row(h, w.store.nextSeq, tenant, Tail(w.store, tenant), step.item, step.now)]
  }

  lemma TakeAdds(h: Digest, text: Json -> string, w: World, step: Step, tenant: string)
    requires !step.Import?
    ensures ChainOf(Take(h, text, w, step), tenant) == ChainOf(w, tenant) + AddedTo(h, w, step, tenant)
  {
    if step.Batch? {
      LinkedTenant(h, w.store.nextSeq, step.tenant, TableTail(w, step.tenant), step.items, step.now, tenant);
      if !Refused(w, step) {
        TenantEventsConcat(w.store.events,
                           Linked(h, w.store.nextSeq, step.tenant, TableTail(w, step.tenant), step.items, step.now),
                           tenant);
      }
    } else {
      var row := Row(h, w.store.nextSeq, step.tenant, Tail(w.store, step.tenant), step.item, step.now);
      OneEvent(row, tenant);
      TenantEventsConcat(w.store.events, [row], tenant);
    }
  }

  lemma OneEvent(e: Event, tenant: string)
    ensures TenantEvents([e], tenant) == if e.tenant == tenant then [e] else []
  {
    assert [e][..0] == [];
  }

  predicate FromNewest(h: Digest, text: Json -> string, w: World, steps: seq<Step>, k: nat, tenant: string)
    requires k < |steps|
  {
    var before := Run(h, text, w, steps[..k]);
    UsesTable(before, steps[k], tenant) ==> Agrees(before, tenant)
  }

  ghost predicate AlwaysFromNewest(h: Digest, text: Json -> string, w: World, steps: seq<Step>, tenant: string) {
    forall k :: 0 <= k < |steps| ==> FromNewest(h, text, w, steps, k, tenant)
  }

  lemma FromNewestStep(h: Digest, text: Json -> string, w: World, steps: seq<Step>, tenant: string)
    requires steps != []
    ensures var n := |steps| - 1;
      AlwaysFromNewest(h, text, w, steps, tenant)
      <==> AlwaysFromNewest(h, text, w, steps[..n], tenant) && FromNewest(h, text, w, steps, n, tenant)
  {
    var n := |steps| - 1;
    forall k | 0 <= k < n
      ensures FromNewest(h, text, w, steps, k, tenant) <==> FromNewest(h, text, w, steps[..n], k, tenant) {
      assert steps[..n][..k] == steps[..k];
    }
  }

  /**
   After any run of imports, batches and single events the chain of a tenant verifies exactly if the table agreed
   with the events each time a batch of that tenant was linked to it. Once broken it stays broken.
   */
  lemma {:induction false} ChainSurvivesExactly(h: Digest, text: Json -> string, w: World, steps: seq<Step>,
                                                tenant: string)
    requires SerialOk(w.store) && ChainOk(h, ChainOf(w, tenant))
    ensures SerialOk(Run(h, text, w, steps).store)
    ensures ChainOk(h, ChainOf(Run(h, text, w, steps), tenant)) <==> AlwaysFromNewest(h, text, w, steps, tenant)
  {
    if steps == [] {
    } else {
      var n := |steps| - 1;
      ChainSurvivesExactly(h, text, w, steps[..n], tenant);
      FromNewestStep(h, text, w, steps, tenant);
      TakeAppends(h, text, Run(h, text, w, steps[..n]), steps[n], tenant);
      TakeKeepsChainExactly(h, text, Run(h, text, w, steps[..n]), steps[n], tenant);
    }
  }

  lemma BrokenStaysBroken(h: Digest, chain: seq<Event>, longer: seq<Event>)
    requires !ChainOk(h, chain) && chain <= longer
    ensures !ChainOk(h, longer)
  {
    assert longer[..|chain|] == chain;
    if ChainOk(h, longer) {
      ChainPrefix(h, longer, |chain|);
    }
  }

  /** A cached tail is as good as the table exactly while it is the one in the table; otherwise nothing happens. */
  lemma CachedTail(h: Digest, text: Json -> string, w: World, tenant: string, items: seq<Item>, cached: string,
                   now: string)
    ensures Take(h, text, w, Batch(tenant, items, Some(cached), now)) ==
      if tenant in w.tails && w.tails[tenant] == cached then Take(h, text, w, Batch(tenant, items, None, now)) else w
  {
  }

  /** An import changes the store as it does on its own, and leaves the table as it is. */
  lemma ImportKeepsTails(h: Digest, text: Json -> string, w: World, snapshot: Snapshot, now: string)
    ensures var w' := Take(h, text, w, Import(snapshot, now));
      w'.tails == w.tails && w'.store == EffectImport.Import(h, text, w.store, snapshot, now).0
  {
  }

  // ---------------------------------------------------------------- when the table agrees

  /** The table holds the tail that the chain of the tenant has or once had. */
  ghost predicate Known(w: World, tenant: string) {
    exists n: nat :: n <= |ChainOf(w, tenant)| && TableTail(w, tenant) == TailOf(ChainOf(w, tenant)[..n])
  }

  /** A shorter part of a chain has another tail. */
  lemma TailsDiffer(h: Digest, chain: seq<Event>, n: nat)
    requires HashChains.CollisionFree(h) && ChainOk(h, chain) && n < |chain|
    ensures TailOf(chain[..n]) != TailOf(chain)
  {
    var m := |chain| - 1;
    assert EventOk(h, chain, m);
    if n > 0 && TailOf(chain[..n]) == TailOf(chain) {
      ChainPrefix(h, chain, n);
      WrittenChainVerifiesExactly(h, chain);
      WrittenChainVerifiesExactly(h, chain[..n]);
      HeadCommitsToRecords(h, RecordsOf(chain[..n]), RecordsOf(chain));
    }
  }

  /** Whether the table agrees with the events of a tenant after a step. */
  predicate AgreesAfter(w: World, w': World, step: Step, tenant: string) {
    match step
    case Import(_, _) => Agrees(w, tenant) && ChainOf(w', tenant) == ChainOf(w, tenant)
    case Batch(_, _, _, _) => UsesTable(w, step, tenant) || Agrees(w, tenant)
    case Single(t, _, _) => if t == tenant then tenant in w.tails else Agrees(w, tenant)
  }

  /**
   An import that adds an event for a tenant leaves the table behind, a batch brings it up to date, and so does a
   single event, but only if the tenant has a row.
   */
  lemma AgreementExactly(h: Digest, text: Json -> string, w: World, step: Step, tenant: string)
    requires HashChains.CollisionFree(h) && SerialOk(w.store) && Known(w, tenant)
    requires ChainOk(h, ChainOf(Take(h, text, w, step), tenant))
    ensures var w' := Take(h, text, w, step);
      (Agrees(w', tenant) <==> AgreesAfter(w, w', step, tenant)) && Known(w', tenant)
  {
    var w' := Take(h, text, w, step);
    var n: nat :| n <= |ChainOf(w, tenant)| && TableTail(w, tenant) == TailOf(ChainOf(w, tenant)[..n]);
    TakeAppends(h, text, w, step, tenant);
    ChainBelow(h, w, tenant);
    ChainBelow(h, w', tenant);
    var chain' := ChainOf(w', tenant);
    assert chain'[..n] == ChainOf(w, tenant)[..n] && chain'[..|chain'|] == chain' && chain'[..0] == [];
    if step.Import? {
      ImportLeavesTable(h, text, w, step, tenant, n);
    } else {
      TailAfterTake(h, text, w, step, tenant);
    }
  }

  lemma ImportLeavesTable(h: Digest, text: Json -> string, w: World, step: Step, tenant: string, n: nat)
    requires HashChains.CollisionFree(h) && step.Import?
      && ChainOf(w, tenant) <= ChainOf(Take(h, text, w, step), tenant)
    requires n <= |ChainOf(w, tenant)| && TableTail(w, tenant) == TailOf(ChainOf(w, tenant)[..n])
    requires ChainOk(h, ChainOf(Take(h, text, w, step), tenant))
    ensures var w' := Take(h, text, w, step);
      TableTail(w', tenant) == TailOf(ChainOf(w', tenant)) <==>
        TableTail(w, tenant) == TailOf(ChainOf(w, tenant)) && ChainOf(w', tenant) == ChainOf(w, tenant)
  {
    var chain, chain' := ChainOf(w, tenant), ChainOf(Take(h, text, w, step), tenant);
    if |chain'| > |chain| {
      assert chain'[..n] == chain[..n];
      TailsDiffer(h, chain', n);
    }
  }

  lemma TailAfterTake(h: Digest, text: Json -> string, w: World, step: Step, tenant: string)
    requires !step.Import?
    ensures var w' := Take(h, text, w, step);
      var tail := TailOf(ChainOf(w', tenant));
      && ((step.Batch? && !UsesTable(w, step, tenant)) || step.tenant != tenant ==>
            TableTail(w', tenant) == TableTail(w, tenant) && ChainOf(w', tenant) == ChainOf(w, tenant))
      && (UsesTable(w, step, tenant) ==> TableTail(w', tenant) == tail)
      && (step.Single? && step.tenant == tenant ==>
            if tenant in w.tails then TableTail(w', tenant) == tail
            else TableTail(w', tenant) == "" && (HashChains.CollisionFree(h) ==> tail != ""))
  {
    TakeAdds(h, text, w, step, tenant);
    var chain, added := ChainOf(w, tenant), AddedTo(h, w, step, tenant);
    assert added == [] ==> chain + added == chain;
    assert added != [] ==> (chain + added)[|chain + added| - 1] == added[|added| - 1];
  }

  /** As long as nothing is imported and the tenant has a row, its chain verifies and the table agrees. */
  lemma {:induction false} WithoutImportsChainsSurvive(h: Digest, text: Json -> string, w: World, steps: seq<Step>,
                                                       tenant: string)
    requires SerialOk(w.store) && ChainOk(h, ChainOf(w, tenant)) && Agrees(w, tenant) && tenant in w.tails
    requires forall step <- steps :: !step.Import?
    ensures var end := Run(h, text, w, steps);
      SerialOk(end.store) && ChainOk(h, ChainOf(end, tenant)) && Agrees(end, tenant) && tenant in end.tails
  {
    if steps == [] {
    } else {
      var n := |steps| - 1;
      WithoutImportsChainsSurvive(h, text, w, steps[..n], tenant);
      var before := Run(h, text, w, steps[..n]);
      assert steps[n] in steps;
      TakeAppends(h, text, before, steps[n], tenant);
      TakeKeepsChainExactly(h, text, before, steps[n], tenant);
      ChainBelow(h, before, tenant);
      ChainBelow(h, Run(h, text, w, steps), tenant);
      TailAfterTake(h, text, before, steps[n], tenant);
    }
  }

  lemma AgreesIsKnown(w: World, tenant: string)
    requires SerialOk(w.store) && Agrees(w, tenant)
    ensures Known(w, tenant)
  {
    var chain := ChainOf(w, tenant);
    assert chain[..|chain|] == chain;
  }

  /** The next batch after an import keeps the chain exactly if no event was imported for the tenant. */
  lemma BatchAfterImport(h: Digest, text: Json -> string, w: World, snapshot: Snapshot, now: string, tenant: string,
                         items: seq<Item>, later: string)
    requires HashChains.CollisionFree(h) && SerialOk(w.store) && ChainOk(h, ChainOf(w, tenant)) && Agrees(w, tenant)
    requires items != []
    ensures var imported := Take(h, text, w, Import(snapshot, now));
      ChainOk(h, ChainOf(Take(h, text, imported, Batch(tenant, items, None, later)), tenant))
      <==> ChainOf(imported, tenant) == ChainOf(w, tenant)
  {
    var imported := Take(h, text, w, Import(snapshot, now));
    TakeAppends(h, text, w, Import(snapshot, now), tenant);
    TakeKeepsChainExactly(h, text, w, Import(snapshot, now), tenant);
    AgreesIsKnown(w, tenant);
    AgreementExactly(h, text, w, Import(snapshot, now), tenant);
    TakeKeepsChainExactly(h, text, imported, Batch(tenant, items, None, later), tenant);
  }

  /** A single event in between repairs the table exactly if the tenant has a row. */
  lemma BatchAfterSingle(h: Digest, text: Json -> string, w: World, tenant: string, item: Item, now: string,
                         items: seq<Item>, later: string)
    requires HashChains.CollisionFree(h) && SerialOk(w.store) && ChainOk(h, ChainOf(w, tenant)) && Known(w, tenant)
    requires items != []
    ensures var continued := Take(h, text, w, Single(tenant, item, now));
      ChainOk(h, ChainOf(Take(h, text, continued, Batch(tenant, items, None, later)), tenant)) <==> tenant in w.tails
  {
    var continued := Take(h, text, w, Single(tenant, item, now));
    TakeAppends(h, text, w, Single(tenant, item, now), tenant);
    TakeKeepsChainExactly(h, text, w, Single(tenant, item, now), tenant);
    AgreementExactly(h, text, w, Single(tenant, item, now), tenant);
    TakeKeepsChainExactly(h, text, continued, Batch(tenant, items, None, later), tenant);
  }

  /** What the migration that creates the table puts into it. */
  function Migrated(s: Store): World {
    World(s, map e <- s.events :: e.tenant := Tail(s, e.tenant))
  }

  /** After the migration the table agrees for every tenant. */
  lemma MigratedAgrees(s: Store, tenant: string)
    ensures Agrees(Migrated(s), tenant)
  {
    if tenant !in Migrated(s).tails {
      forall e | e in s.events ensures e.tenant != tenant {
        assert e.tenant in Migrated(s).tails;
      }
      NoTenantEvents(s.events, tenant);
    }
  }

  lemma {:induction false} NoTenantEvents(events: seq<Event>, tenant: string)
    requires forall e <- events :: e.tenant != tenant
    ensures TenantEvents(events, tenant) == []
  {
    if events == [] {
    } else {
      NoTenantEvents(events[..|events| - 1], tenant);
    }
  }

  // ---------------------------------------------------------------- the code

  /** The part of the store that adds events. */
  class ControlStore {
    var store: Store
    var tails: map<string, string>

    function Value(): World
      reads this
    {
      World(store, tails)
    }

    constructor (w: World)
      ensures Value() == w
    {
      store, tails := w.store, w.tails;
    }

    /** Links the mutations of a batch one after the other. */
    method LinkRows(h: Digest, tenant: string, tail: string, items: seq<Item>, now: string)
      returns (rows: seq<Event>, previous: string)
      ensures rows == Linked(h, store.nextSeq, tenant, tail, items, now)
      ensures previous == NewestOf(tail, rows)
    {
      rows, previous := [], tail;
      for i := 0 to |items|
        invariant rows == Linked(h, store.nextSeq, tenant, tail, items[..i], now)
        invariant previous == NewestOf(tail, rows)
      {
        assert items[..i + 1][..i] == items[..i];
        var unhashed := Event(store.nextSeq + i, tenant, items[i].effect, items[i].eventType, items[i].actor,
                              items[i].payload,
                              previous, "", now);
        rows := rows + [unhashed.(recordHash := h(Covered(unhashed)))];
        previous := rows[i].recordHash;
      }
      assert items[..|items|] == items;
    }

    /** Reads the tail from the table under its lock. */
    method PersistMutations(h: Digest, text: Json -> string, tenant: string, items: seq<Item>, now: string)
      modifies this
      ensures Value() == Take(h, text, old(Value()), Batch(tenant, items, None, now))
    {
      if tenant !in tails {
        tails := tails[tenant := ""];
      }
      var rows, previous := LinkRows(h, tenant, tails[tenant], items, now);
      store := AppendRows(store, rows);
      tails := tails[tenant := previous];
    }

    /** Compares the cached tail with the table; false where the transaction is rolled back. */
    method PersistAudits(h: Digest, text: Json -> string, tenant: string, items: seq<Item>, cached: string, now: string)
      returns (ok: bool)
      modifies this
      ensures Value() == Take(h, text, old(Value()), Batch(tenant, items, Some(cached), now))
      ensures ok <==> !Refused(old(Value()), Batch(tenant, items, Some(cached), now))
    {
      var rows, previous := LinkRows(h, tenant, cached, items, now);
      ok := tenant in tails && tails[tenant] == cached;
      if ok {
        store := AppendRows(store, rows);
        tails := tails[tenant := previous];
      }
    }

    /** Reads the newest event of the tenant, and updates a row of the table if there is one. */
    method EffectEvent(h: Digest, text: Json -> string, tenant: string, item: Item, now: string)
      modifies this
      ensures Value() == Take(h, text, old(Value()), Single(tenant, item, now))
    {
      var row := Row(h, store.nextSeq, tenant, Tail(store, tenant), item, now);
      store := AppendRows(store, [row]);
      if tenant in tails {
        tails := tails[tenant := row.recordHash];
      }
    }
  }
}
