/**
 * Webhook deliveries applied to the dynamic store (apply, applyDelete, applyUpsert, removeUnpublished, upsertGuarded and
 * isManuallyPinned in internal/netboxwebhook/handler.go).
 */
module Webhook {
  import opened Wrappers
  import opened Records
  import opened DynamicStore

  /**
   * One delivery; `preName` is the name in its pre-change snapshot, `data` is None if it does not parse. `failAt` says
   * which of the store writes it makes, counted from 0, is not persisted, if one is not.
   */
  datatype Payload = Payload(
    event: string,
    timestamp: int,
    preName: Option<string>,
    data: Option<IPRecord>,
    status: string,
    failAt: Option<nat>)
  {
    predicate Persists(write: nat) { failAt != Some(write) }
  }

  /** The zone a name belongs to, and the statuses that are published. */
  datatype Policy = Policy(zoneFor: string -> Option<string>, published: set<string>)

  datatype Outcome = Noop | Applied | PollTriggered | Failed

  /** The record a delivery carries, marked with its source and its time. */
  function RecordOf(p: Payload): IPRecord
    requires p.data.Some?
  {
    p.data.value.(source := SOURCE_WEBHOOK, appliedAt := p.timestamp)
  }

  predicate IsManual(r: IPRecord) { r.source != SOURCE_WEBHOOK }

  predicate ManuallyPinned(recs: seq<IPRecord>, name: string) { Find(recs, name).Some? && IsManual(Find(recs, name).value) }

  /** A newer webhook record may replace an older one; nothing replaces a manual one. */
  predicate MayUpsert(recs: seq<IPRecord>, r: IPRecord) {
    var existing := Find(recs, r.dnsName);
    existing.None? || (!IsManual(existing.value) && r.appliedAt > existing.value.appliedAt)
  }

  /** What a delivery leaves, and how it ends. */
  datatype Effect = Effect(zones: ZoneMap, outcome: Outcome)

  /** A store write: made in memory in any case, and an error if it is not persisted. */
  function Wrote(persists: bool): Outcome { if persists then Applied else Failed }

  /** The name removed unless it has no zone or is pinned; the zone gets an entry if it had none. */
  function RemoveName(policy: Policy, zones: ZoneMap, name: string, persists: bool): Effect {
    var zone := policy.zoneFor(name);
    if zone.None? || ManuallyPinned(AtZone(zones, zone.value), name) then Effect(zones, Noop)
    else Effect(zones[zone.value := Deleted(AtZone(zones, zone.value), {name})], Wrote(persists))
  }

  function UpsertGuarded(zones: ZoneMap, zone: string, r: IPRecord, persists: bool): Effect {
    if MayUpsert(AtZone(zones, zone), r) then Effect(zones[zone := UpsertOne(AtZone(zones, zone), r)], Wrote(persists))
    else Effect(zones, Noop)
  }

  /** How two steps of a delivery end, the first without error. */
  function Then(a: Outcome, b: Outcome): Outcome { if b.Failed? then Failed else if a.Applied? then Applied else b }

  /** The number of the write after these. */
  function NextWrite(a: Outcome): nat { if a.Applied? then 1 else 0 }

  function ApplyDelete(policy: Policy, zones: ZoneMap, p: Payload): Effect {
    if p.preName.None? then Effect(zones, Noop)
    else if p.preName.value == "" then Effect(zones, PollTriggered)
    else RemoveName(policy, zones, p.preName.value, p.Persists(0))
  }

  /** The delivery renames: the name it had before is another one. */
  predicate Renames(p: Payload, name: string) { p.preName.Some? && p.preName.value != "" && p.preName.value != name }

  function RemoveUnpublished(policy: Policy, zones: ZoneMap, p: Payload, name: string): Effect {
    var first := RemoveName(policy, zones, name, p.Persists(0));
    if first.outcome.Failed? || !Renames(p, name) then first
    else
      var second := RemoveName(policy, first.zones, p.preName.value, p.Persists(NextWrite(first.outcome)));
      Effect(second.zones, Then(first.outcome, second.outcome))
  }

  /** The old name of a published rename removed. */
  function RemoveOldName(policy: Policy, zones: ZoneMap, p: Payload, name: string): Effect {
    if p.event == "updated" && Renames(p, name) then RemoveName(policy, zones, p.preName.value, p.Persists(0)) else Effect(zones, Noop)
  }

  function ApplyUpsert(policy: Policy, zones: ZoneMap, p: Payload): Effect {
    if p.data.None? then Effect(zones, Failed)
    else
      var r := RecordOf(p);
      if r.dnsName == "" then Effect(zones, PollTriggered)
      else if p.status != "" && p.status !in policy.published then RemoveUnpublished(policy, zones, p, r.dnsName)
      else
        var renamed := RemoveOldName(policy, zones, p, r.dnsName);
        var zone := policy.zoneFor(r.dnsName);
        if renamed.outcome.Failed? || zone.None? then renamed
        else
          var put := UpsertGuarded(renamed.zones, zone.value, r, p.Persists(NextWrite(renamed.outcome)));
          Effect(put.zones, Then(renamed.outcome, put.outcome))
  }

  function Apply(policy: Policy, zones: ZoneMap, p: Payload): Effect {
    if p.event == "deleted" then ApplyDelete(policy, zones, p)
    else if p.event == "created" || p.event == "updated" then ApplyUpsert(policy, zones, p)
    else Effect(zones, Noop)
  }

  // ---- the handler -----------------------------------------------------------------------------------------

  class Handler {
    const store: FileStore
    var mergeSignal: bool
    var pollSignal: bool

    constructor (store: FileStore)
      ensures this.store == store && !mergeSignal && !pollSignal
    {
      this.store := store;
      mergeSignal, pollSignal := false, false;
    }

    method IsManuallyPinned(zone: string, name: string) returns (pinned: bool)
      ensures pinned == ManuallyPinned(AtZone(store.zones, zone), name)
    {
      var recs := store.GetRecords(zone);
      var i := 0;
      assert recs[0..] == recs;
      while i < |recs|
        invariant 0 <= i <= |recs| && Find(recs[i..], name) == Find(recs, name)
      {
        assert recs[i..][1..] == recs[i + 1..];
        if recs[i].dnsName == name {
          return recs[i].source != SOURCE_WEBHOOK;
        }
        i := i + 1;
      }
      return false;
    }

    method RemoveNameGuarded(policy: Policy, name: string, persists: bool) returns (outcome: Outcome)
      modifies store
      ensures Effect(store.zones, outcome) == RemoveName(policy, old(store.zones), name, persists)
    {
      var zone := policy.zoneFor(name);
      if zone.None? {
        return Noop;
      }
      var pinned := IsManuallyPinned(zone.value, name);
      if pinned {
        return Noop;
      }
      var ok := store.DeleteRecords(zone.value, {name}, persists);
      if !ok {
        return Failed;
      }
      return Applied;
    }

    method UpsertIfNewer(zone: string, rec: IPRecord, persists: bool) returns (outcome: Outcome)
      modifies store
      ensures Effect(store.zones, outcome) == UpsertGuarded(old(store.zones), zone, rec, persists)
    {
      var recs := store.GetRecords(zone);
      var i := 0;
      assert recs[0..] == recs;
      while i < |recs|
        invariant 0 <= i <= |recs| && Find(recs[i..], rec.dnsName) == Find(recs, rec.dnsName)
      {
        assert recs[i..][1..] == recs[i + 1..];
        var existing := recs[i];
        i := i + 1;
        if existing.dnsName != rec.dnsName {
          continue;
        }
        if existing.source != SOURCE_WEBHOOK {
          return Noop;
        }
        if !(rec.appliedAt > existing.appliedAt) {
          return Noop;
        }
        break;
      }
      assert [rec][..0] == [];
      assert Upserted(recs, [rec]) == UpsertOne(recs, rec);
      var ok := store.UpsertRecords(zone, [rec], persists);
      if !ok {
        return Failed;
      }
      return Applied;
    }

    method Delete(policy: Policy, p: Payload) returns (outcome: Outcome)
      modifies this, store
      ensures Effect(store.zones, outcome) == ApplyDelete(policy, old(store.zones), p)
      ensures pollSignal == (old(pollSignal) || outcome.PollTriggered?) && mergeSignal == old(mergeSignal)
    {
      hide RemoveName;
      if p.preName.None? {
        return Noop;
      }
      var name := p.preName.value;
      if name == "" {
        pollSignal := true;
        return PollTriggered;
      }
      outcome := RemoveNameGuarded(policy, name, p.Persists(0));
      RemovalNeverPolls(policy, old(store.zones), name, p.Persists(0));
    }

    /** Each of the names a delivery touches. */
    method RemoveNames(policy: Policy, p: Payload, name: string) returns (outcome: Outcome)
      modifies store
      ensures Effect(store.zones, outcome) == RemoveUnpublished(policy, old(store.zones), p, name)
    {
      hide RemoveName;
      var names := [name];
      if p.preName.Some? && p.preName.value != "" && p.preName.value != name {
        names := names + [p.preName.value];
      }
      outcome := RemoveNameGuarded(policy, names[0], p.Persists(0));
      RemovalNeverPolls(policy, old(store.zones), name, p.Persists(0));
      if outcome.Failed? || |names| == 1 {
        return;
      }
      ghost var between := store.zones;
      var persists := p.Persists(if outcome.Applied? then 1 else 0);
      var second := RemoveNameGuarded(policy, names[1], persists);
      RemovalNeverPolls(policy, between, names[1], persists);
      if !second.Noop? {
        outcome := second;
      }
    }

    method Upsert(policy: Policy, p: Payload) returns (outcome: Outcome)
      modifies this, store
      ensures Effect(store.zones, outcome) == ApplyUpsert(policy, old(store.zones), p)
      ensures pollSignal == (old(pollSignal) || outcome.PollTriggered?) && mergeSignal == old(mergeSignal)
    {
      hide RemoveName, UpsertGuarded, RemoveUnpublished;
      if p.data.None? {
        return Failed;
      }
      var rec := p.data.value.(source := SOURCE_WEBHOOK, appliedAt := p.timestamp);
      if rec.dnsName == "" {
        pollSignal := true;
        return PollTriggered;
      }
      if p.status != "" && p.status !in policy.published {
        outcome := RemoveNames(policy, p, rec.dnsName);
        UnpublishedNeverPolls(policy, old(store.zones), p, rec.dnsName);
        return;
      }
      var mutated := Noop;
      if p.event == "updated" && p.preName.Some? && p.preName.value != "" && p.preName.value != rec.dnsName {
        mutated := RemoveNameGuarded(policy, p.preName.value, p.Persists(0));
        RemovalNeverPolls(policy, old(store.zones), p.preName.value, p.Persists(0));
        if mutated.Failed? {
          return Failed;
        }
      }
      var zone := policy.zoneFor(rec.dnsName);
      if zone.None? {
        return mutated;
      }
      ghost var between := store.zones;
      var persists := p.Persists(if mutated.Applied? then 1 else 0);
      var applied := UpsertIfNewer(zone.value, rec, persists);
      UpsertNeverPolls(between, zone.value, rec, persists);
      if applied.Failed? {
        return Failed;
      }
      return if mutated.Applied? then Applied else applied;
    }

    /** One delivery, its mutex held; a store change is signalled to the poll loop, unless it ends in an error. */
    method Serve(policy: Policy, p: Payload) returns (outcome: Outcome)
      modifies this, store
      ensures Effect(store.zones, outcome) == Apply(policy, old(store.zones), p)
      ensures mergeSignal == (old(mergeSignal) || outcome.Applied?)
      ensures pollSignal == (old(pollSignal) || outcome.PollTriggered?)
    {
      hide ApplyDelete, ApplyUpsert;
      if p.event == "deleted" {
        outcome := Delete(policy, p);
      } else if p.event == "created" || p.event == "updated" {
        outcome := Upsert(policy, p);
      } else {
        outcome := Noop;
      }
      if outcome.Failed? {
        return;
      }
      if outcome.Applied? {
        mergeSignal := true;
      }
    }
  }

  lemma RemovalNeverPolls(policy: Policy, zones: ZoneMap, name: string, persists: bool)
    ensures RemoveName(policy, zones, name, persists).outcome in {Noop, Applied, Failed}
  {
    hide Deleted;
  }

  lemma UpsertNeverPolls(zones: ZoneMap, zone: string, r: IPRecord, persists: bool)
    ensures UpsertGuarded(zones, zone, r, persists).outcome in {Noop, Applied, Failed}
  {
    hide UpsertOne;
  }

  lemma UnpublishedNeverPolls(policy: Policy, zones: ZoneMap, p: Payload, name: string)
    ensures RemoveUnpublished(policy, zones, p, name).outcome in {Noop, Applied, Failed}
  {
    hide RemoveName;
    var first := RemoveName(policy, zones, name, p.Persists(0));
    RemovalNeverPolls(policy, zones, name, p.Persists(0));
    if Renames(p, name) { RemovalNeverPolls(policy, first.zones, p.preName.value, p.Persists(NextWrite(first.outcome))); }
  }

  // ---- manual pins --------------------------------------------------------------------------------------------

  function Manuals(zones: ZoneMap, zone: string): seq<IPRecord> { Filter(IsManual, AtZone(zones, zone)) }

  /** The manual records of every zone are as they were, in order, and no name is held twice. */
  ghost predicate PinsKept(before: ZoneMap, after: ZoneMap) {
    Distinct(after) && forall z :: Manuals(after, z) == Manuals(before, z)
  }

  lemma {:induction false} DeleteKeepsManuals(recs: seq<IPRecord>, name: string)
    requires DistinctNames(recs) && !ManuallyPinned(recs, name)
    ensures Filter(IsManual, Deleted(recs, {name})) == Filter(IsManual, recs)
  {
    forall r | r in recs && IsManual(r) ensures r.dnsName != name {
      if r.dnsName == name {
        var i :| 0 <= i < |recs| && recs[i] == r;
        FindUnique(recs, i);
      }
    }
    FilterTwice(recs, name);
  }

  lemma {:induction false} FilterTwice(recs: seq<IPRecord>, name: string)
    requires forall r :: r in recs && IsManual(r) ==> r.dnsName != name
    ensures Filter(IsManual, Deleted(recs, {name})) == Filter(IsManual, recs)
  {
    if recs != [] {
      FilterTwice(recs[1..], name);
      assert recs[0] in recs;
    }
  }

  lemma {:induction false} UpsertKeepsManuals(recs: seq<IPRecord>, r: IPRecord)
    requires DistinctNames(recs) && MayUpsert(recs, r) && !IsManual(r)
    ensures Filter(IsManual, UpsertOne(recs, r)) == Filter(IsManual, recs)
  {
    var i := LastIndex(recs, r.dnsName);
    if i.Some? {
      FindUnique(recs, i.value);
      ReplaceKeepsManuals(recs, r, i.value);
    } else {
      FilterAppend(IsManual, recs, [r]);
      assert Filter(IsManual, [r]) == [];
      assert Filter(IsManual, recs) + [] == Filter(IsManual, recs);
    }
  }

  lemma {:induction false} ReplaceKeepsManuals(recs: seq<IPRecord>, r: IPRecord, i: nat)
    requires i < |recs| && !IsManual(recs[i]) && !IsManual(r)
    ensures Filter(IsManual, recs[i := r]) == Filter(IsManual, recs)
  {
    if i > 0 {
      ReplaceKeepsManuals(recs[1..], r, i - 1);
      assert recs[i := r][1..] == recs[1..][i - 1 := r];
    } else {
      assert recs[0 := r][1..] == recs[1..];
    }
  }

  lemma {:induction false} PutKeepsPins(zones: ZoneMap, zone: string, recs: seq<IPRecord>)
    requires Distinct(zones) && DistinctNames(recs) && Filter(IsManual, recs) == Manuals(zones, zone)
    ensures PinsKept(zones, zones[zone := recs])
  {
  }

  lemma DistinctAt(zones: ZoneMap, zone: string)
    requires Distinct(zones)
    ensures DistinctNames(AtZone(zones, zone))
  {
  }

  lemma {:induction false} RemovalKeepsPins(policy: Policy, zones: ZoneMap, name: string, persists: bool)
    requires Distinct(zones)
    ensures PinsKept(zones, RemoveName(policy, zones, name, persists).zones)
  {
    hide PinsKept, Deleted, DistinctNames, Distinct, ManuallyPinned;
    NothingKeepsPins(zones);
    if policy.zoneFor(name).Some? && !ManuallyPinned(AtZone(zones, policy.zoneFor(name).value), name) {
      var zone := policy.zoneFor(name).value;
      DistinctAt(zones, zone);
      DeleteMeans(AtZone(zones, zone), {name}, name);
      DeleteKeepsManuals(AtZone(zones, zone), name);
      PutKeepsPins(zones, zone, Deleted(AtZone(zones, zone), {name}));
    }
  }

  lemma NothingKeepsPins(zones: ZoneMap)
    requires Distinct(zones)
    ensures PinsKept(zones, zones)
  {
  }

  lemma {:induction false} UpsertKeepsPins(zones: ZoneMap, zone: string, r: IPRecord, persists: bool)
    requires Distinct(zones) && !IsManual(r)
    ensures PinsKept(zones, UpsertGuarded(zones, zone, r, persists).zones)
  {
    hide PinsKept, DistinctNames, Distinct, UpsertOne, MayUpsert;
    NothingKeepsPins(zones);
    if MayUpsert(AtZone(zones, zone), r) {
      DistinctAt(zones, zone);
      UpsertMeans(AtZone(zones, zone), r, r.dnsName);
      UpsertKeepsManuals(AtZone(zones, zone), r);
      PutKeepsPins(zones, zone, UpsertOne(AtZone(zones, zone), r));
    }
  }

  lemma PinsChain(a: ZoneMap, b: ZoneMap, c: ZoneMap)
    requires PinsKept(a, b) && PinsKept(b, c)
    ensures PinsKept(a, c)
  {
  }

  lemma PinsDistinct(a: ZoneMap, b: ZoneMap)
    requires PinsKept(a, b)
    ensures Distinct(b)
  {
  }

  lemma {:induction false} UnpublishedKeepsPins(policy: Policy, zones: ZoneMap, p: Payload, name: string)
    requires Distinct(zones)
    ensures PinsKept(zones, RemoveUnpublished(policy, zones, p, name).zones)
  {
    hide PinsKept, RemoveName, Distinct;
    RemovalKeepsPins(policy, zones, name, p.Persists(0));
    var first := RemoveName(policy, zones, name, p.Persists(0));
    PinsDistinct(zones, first.zones);
    if Renames(p, name) {
      var persists := p.Persists(NextWrite(first.outcome));
      RemovalKeepsPins(policy, first.zones, p.preName.value, persists);
      PinsChain(zones, first.zones, RemoveName(policy, first.zones, p.preName.value, persists).zones);
    }
  }

  /** Also when one of its writes is not persisted. */
  lemma {:induction false} ApplyKeepsPins(policy: Policy, zones: ZoneMap, p: Payload)
    requires Distinct(zones)
    ensures PinsKept(zones, Apply(policy, zones, p).zones)
  {
    hide PinsKept, RemoveName, UpsertGuarded, Distinct, RemoveUnpublished;
    NothingKeepsPins(zones);
    if p.event == "deleted" {
      if p.preName.Some? { RemovalKeepsPins(policy, zones, p.preName.value, p.Persists(0)); }
    } else if p.data.Some? {
      var r := RecordOf(p);
      UnpublishedKeepsPins(policy, zones, p, r.dnsName);
      if p.preName.Some? { RemovalKeepsPins(policy, zones, p.preName.value, p.Persists(0)); }
      var renamed := RemoveOldName(policy, zones, p, r.dnsName);
      PinsDistinct(zones, renamed.zones);
      if policy.zoneFor(r.dnsName).Some? {
        var zone, persists := policy.zoneFor(r.dnsName).value, p.Persists(NextWrite(renamed.outcome));
        UpsertKeepsPins(renamed.zones, zone, r, persists);
        PinsChain(zones, renamed.zones, UpsertGuarded(renamed.zones, zone, r, persists).zones);
      }
    }
  }

  lemma {:induction false} ReconcileKeepsPins(zones: ZoneMap, cutoff: int)
    requires Distinct(zones)
    ensures PinsKept(zones, ReconciledZones(zones, cutoff))
  {
    var keep := (r: IPRecord) => !Redundant(r, cutoff);
    forall z | z in zones
      ensures DistinctNames(Reconciled(zones[z], cutoff)) && Filter(IsManual, Reconciled(zones[z], cutoff)) == Filter(IsManual, zones[z])
    {
      FilterDistinct(keep, zones[z]);
      ManualsNotRedundant(zones[z], cutoff);
    }
  }

  lemma {:induction false} ManualsNotRedundant(recs: seq<IPRecord>, cutoff: int)
    ensures Filter(IsManual, Reconciled(recs, cutoff)) == Filter(IsManual, recs)
  {
    if recs != [] { ManualsNotRedundant(recs[1..], cutoff); }
  }

  /** What happens to the store from the webhook's side: whole deliveries, and reconciliations after a poll. */
  datatype Happening = Deliver(p: Payload) | Reconcile(cutoff: int)

  function After(policy: Policy, zones: ZoneMap, h: Happening): ZoneMap {
    match h
    case Deliver(p) => Apply(policy, zones, p).zones
    case Reconcile(cutoff) => ReconciledZones(zones, cutoff)
  }

  function AfterAll(policy: Policy, zones: ZoneMap, hs: seq<Happening>): ZoneMap
    decreases |hs|
  {
    if hs == [] then zones else AfterAll(policy, After(policy, zones, hs[0]), hs[1..])
  }

  /** Manual pins survive every sequence of deliveries and reconciliations, and names stay distinct. */
  lemma {:induction false} ManualPinsSurvive(policy: Policy, zones: ZoneMap, hs: seq<Happening>)
    requires Distinct(zones)
    ensures PinsKept(zones, AfterAll(policy, zones, hs))
    decreases |hs|
  {
    hide PinsKept, Apply, Distinct;
    if hs == [] {
      NothingKeepsPins(zones);
    } else {
      var next := After(policy, zones, hs[0]);
      match hs[0] {
        case Deliver(p) => ApplyKeepsPins(policy, zones, p);
        case Reconcile(cutoff) => ReconcileKeepsPins(zones, cutoff);
      }
      PinsDistinct(zones, next);
      ManualPinsSurvive(policy, next, hs[1..]);
      PinsChain(zones, next, AfterAll(policy, next, hs[1..]));
    }
  }

  // ---- confluence ------------------------------------------------------------------------------------------------

  /** A create or update of a published, named object that is no rename. */
  predicate PlainUpsert(policy: Policy, p: Payload) {
    && (p.event == "created" || p.event == "updated")
    && p.data.Some? && p.data.value.dnsName != ""
    && (p.status == "" || p.status in policy.published)
    && !(p.event == "updated" && Renames(p, p.data.value.dnsName))
  }

  ghost predicate PlainUpserts(policy: Policy, ps: seq<Payload>) { forall p :: p in ps ==> PlainUpsert(policy, p) }

  function Deliveries(ps: seq<Payload>): seq<Happening> { Map((p: Payload) => Deliver(p), ps) }

  /** What the store holds for a name. */
  function Held(policy: Policy, zones: ZoneMap, name: string): Option<IPRecord> {
    if policy.zoneFor(name).None? then None else Find(AtZone(zones, policy.zoneFor(name).value), name)
  }

  /** Of two records of a name, the later; on a tie the one already held. */
  function Later(held: Option<IPRecord>, r: IPRecord): Option<IPRecord> {
    if held.None? || (!IsManual(held.value) && r.appliedAt > held.value.appliedAt) then Some(r) else held
  }

  /** What becomes of one name over a sequence of deliveries. */
  function Latest(held: Option<IPRecord>, ps: seq<Payload>, name: string): Option<IPRecord>
    requires forall p :: p in ps ==> p.data.Some?
    decreases |ps|
  {
    if ps == [] then held
    else
      assert ps[0] in ps;
      Latest(if ps[0].data.value.dnsName == name then Later(held, RecordOf(ps[0])) else held, ps[1..], name)
  }

  lemma {:induction false} UpsertHolds(zones: ZoneMap, zone: string, r: IPRecord, persists: bool, name: string)
    requires Distinct(zones)
    ensures Distinct(UpsertGuarded(zones, zone, r, persists).zones)
    ensures Find(AtZone(UpsertGuarded(zones, zone, r, persists).zones, zone), name)
         == if name == r.dnsName then Later(Find(AtZone(zones, zone), name), r) else Find(AtZone(zones, zone), name)
    ensures forall z :: z != zone ==> AtZone(UpsertGuarded(zones, zone, r, persists).zones, z) == AtZone(zones, z)
  {
    hide Find, UpsertOne;
    DistinctAt(zones, zone);
    UpsertMeans(AtZone(zones, zone), r, name);
  }

  /** One plain delivery: the name it carries holds the later record, every other name what it held. */
  lemma {:induction false} DeliveryHolds(policy: Policy, zones: ZoneMap, p: Payload, name: string)
    requires Distinct(zones) && PlainUpsert(policy, p)
    ensures Distinct(Apply(policy, zones, p).zones)
    ensures Held(policy, Apply(policy, zones, p).zones, name)
         == if name == p.data.value.dnsName && policy.zoneFor(name).Some? then Later(Held(policy, zones, name), RecordOf(p))
            else Held(policy, zones, name)
  {
    hide Find, Distinct, UpsertGuarded, RemoveName;
    var r := RecordOf(p);
    var zone := policy.zoneFor(r.dnsName);
    if zone.Some? { UpsertHolds(zones, zone.value, r, p.Persists(0), name); }
  }

  lemma {:induction false} DeliveriesHold(policy: Policy, zones: ZoneMap, ps: seq<Payload>, name: string)
    requires Distinct(zones) && PlainUpserts(policy, ps) && policy.zoneFor(name).Some?
    ensures Held(policy, AfterAll(policy, zones, Deliveries(ps)), name) == Latest(Held(policy, zones, name), ps, name)
    decreases |ps|
  {
    hide Held, Distinct, Apply, Later, PlainUpsert;
    if ps != [] {
      PlainHasData(policy, ps);
      assert ps[0] in ps;
      DeliveryHolds(policy, zones, ps[0], name);
      DeliveriesHold(policy, Apply(policy, zones, ps[0]).zones, ps[1..], name);
      assert Deliveries(ps) == [Deliver(ps[0])] + Deliveries(ps[1..]);
    }
  }

  lemma PlainHasData(policy: Policy, ps: seq<Payload>)
    requires PlainUpserts(policy, ps)
    ensures forall p :: p in ps ==> p.data.Some?
  {
  }

  ghost predicate CarriesName(ps: seq<Payload>, name: string, r: IPRecord)
    requires forall p :: p in ps ==> p.data.Some?
  {
    exists p :: p in ps && p.data.value.dnsName == name && RecordOf(p) == r
  }

  /**
   * What a name ends with: what it held, or a delivered record; never older than any of them; and what it held only
   * if none is later.
   */
  lemma {:induction false} LatestIsLatest(held: Option<IPRecord>, ps: seq<Payload>, name: string)
    requires forall p :: p in ps ==> p.data.Some?
    requires held.Some? ==> !IsManual(held.value)
    ensures var last := Latest(held, ps, name);
            && (last == held || (last.Some? && CarriesName(ps, name, last.value)))
            && (last.Some? ==> !IsManual(last.value))
            && (held.Some? ==> last.Some? && last.value.appliedAt >= held.value.appliedAt)
            && (forall p :: p in ps && p.data.value.dnsName == name ==> last.Some? && last.value.appliedAt >= p.timestamp)
            && (last.Some? && held.Some? && last != held ==> last.value.appliedAt > held.value.appliedAt)
    decreases |ps|
  {
    if ps != [] {
      assert ps[0] in ps;
      var next := if ps[0].data.value.dnsName == name then Later(held, RecordOf(ps[0])) else held;
      LatestIsLatest(next, ps[1..], name);
      var last := Latest(held, ps, name);
      if last.Some? && CarriesName(ps[1..], name, last.value) {
        var p :| p in ps[1..] && p.data.value.dnsName == name && RecordOf(p) == last.value;
        assert p in ps;
      }
      forall p | p in ps && p.data.value.dnsName == name ensures last.Some? && last.value.appliedAt >= p.timestamp {
        assert p == ps[0] || p in ps[1..];
      }
    }
  }

  /** No two deliveries of one name carry the same time, nor the time of what the name already holds. */
  ghost predicate DistinctTimes(policy: Policy, zones: ZoneMap, ps: seq<Payload>, name: string)
    requires forall p :: p in ps ==> p.data.Some?
  {
    && (forall p, q :: p in ps && q in ps && p.data.value.dnsName == name && q.data.value.dnsName == name && p.timestamp == q.timestamp ==>
          RecordOf(p) == RecordOf(q))
    && (Held(policy, zones, name).Some? ==>
          && !IsManual(Held(policy, zones, name).value)
          && (forall p :: p in ps && p.data.value.dnsName == name ==> p.timestamp != Held(policy, zones, name).value.appliedAt))
  }

  /**
   * Confluence: deliveries of plain creates and updates leave every name not held manually with the record of the
   * greatest time, in whatever order they arrive, when the times of one name differ.
   */
  lemma {:induction false} DeliveriesConfluent(policy: Policy, zones: ZoneMap, ps: seq<Payload>, qs: seq<Payload>, name: string)
    requires Distinct(zones) && PlainUpserts(policy, ps) && multiset(ps) == multiset(qs)
    requires forall p :: p in ps ==> p.data.Some?
    requires DistinctTimes(policy, zones, ps, name)
    ensures Held(policy, AfterAll(policy, zones, Deliveries(ps)), name) == Held(policy, AfterAll(policy, zones, Deliveries(qs)), name)
    ensures var last := Held(policy, AfterAll(policy, zones, Deliveries(ps)), name);
            && (last == Held(policy, zones, name) || (last.Some? && CarriesName(ps, name, last.value)))
            && (forall p :: p in ps && p.data.value.dnsName == name && policy.zoneFor(name).Some? ==>
                  last.Some? && last.value.appliedAt >= p.timestamp)
  {
    hide AfterAll, PlainUpsert, Find, Latest, Distinct;
    assert forall p :: (p in ps <==> p in multiset(ps)) && (p in qs <==> p in multiset(qs));
    if policy.zoneFor(name).Some? {
      var held := Held(policy, zones, name);
      DeliveriesHold(policy, zones, ps, name);
      DeliveriesHold(policy, zones, qs, name);
      LatestIsLatest(held, ps, name);
      LatestIsLatest(held, qs, name);
      SameLatest(held, ps, qs, name, Latest(held, ps, name), Latest(held, qs, name));
    }
  }

  lemma SameLatest(held: Option<IPRecord>, ps: seq<Payload>, qs: seq<Payload>, name: string, a: Option<IPRecord>, b: Option<IPRecord>)
    requires forall p :: p in ps <==> p in qs
    requires (forall p :: p in ps ==> p.data.Some?) && (forall p :: p in qs ==> p.data.Some?)
    requires forall p, q :: p in ps && q in ps && p.data.value.dnsName == name && q.data.value.dnsName == name && p.timestamp == q.timestamp ==>
               RecordOf(p) == RecordOf(q)
    requires held.Some? ==> forall p :: p in ps && p.data.value.dnsName == name ==> p.timestamp != held.value.appliedAt
    requires a == held || (a.Some? && CarriesName(ps, name, a.value))
    requires b == held || (b.Some? && CarriesName(qs, name, b.value))
    requires held.Some? ==> a.Some? && b.Some? && a.value.appliedAt >= held.value.appliedAt && b.value.appliedAt >= held.value.appliedAt
    requires forall p :: p in ps && p.data.value.dnsName == name ==>
               a.Some? && b.Some? && a.value.appliedAt >= p.timestamp && b.value.appliedAt >= p.timestamp
    ensures a == b
  {
  }

  /**
   * On a tie the first to arrive wins, so two deliveries of one name commute exactly when their times differ or their
   * records are the same.
   */
  lemma {:induction false} TwoCommuteExactlyWhen(policy: Policy, zones: ZoneMap, p: Payload, q: Payload)
    requires Distinct(zones) && PlainUpsert(policy, p) && PlainUpsert(policy, q)
    requires p.data.value.dnsName == q.data.value.dnsName && policy.zoneFor(p.data.value.dnsName).Some?
    requires Held(policy, zones, p.data.value.dnsName).None?
    ensures var name := p.data.value.dnsName;
            Held(policy, AfterAll(policy, zones, Deliveries([p, q])), name) == Held(policy, AfterAll(policy, zones, Deliveries([q, p])), name)
            <==> p.timestamp != q.timestamp || RecordOf(p) == RecordOf(q)
  {
    hide Held, Find, PlainUpsert, AfterAll, Distinct;
    PlainHasName(policy, p);
    PlainHasName(policy, q);
    var name := p.data.value.dnsName;
    assert PlainUpserts(policy, [p, q]) && PlainUpserts(policy, [q, p]);
    DeliveriesHold(policy, zones, [p, q], name);
    DeliveriesHold(policy, zones, [q, p], name);
    LatestOfTwo(p, q, name);
    LatestOfTwo(q, p, name);
  }

  lemma PlainHasName(policy: Policy, p: Payload)
    requires PlainUpsert(policy, p)
    ensures p.data.Some?
  {
  }

  lemma LatestOfTwo(p: Payload, q: Payload, name: string)
    requires p.data.Some? && q.data.Some? && p.data.value.dnsName == q.data.value.dnsName == name
    ensures Latest(None, [p, q], name) == Some(if q.timestamp > p.timestamp then RecordOf(q) else RecordOf(p))
  {
    assert [p, q][1..] == [q] && [q][1..] == [];
    assert Latest(Later(Later(None, RecordOf(p)), RecordOf(q)), [], name) == Later(Some(RecordOf(p)), RecordOf(q));
  }

  // ---- one delivery, name by name --------------------------------------------------------------------------------

  /** What is removed: the name in its own zone, unless it is pinned there. */
  lemma {:induction false} RemovalHolds(policy: Policy, zones: ZoneMap, name: string, zone: string, other: string)
    requires Distinct(zones)
    ensures var after, was := RemoveName(policy, zones, name, true), Find(AtZone(zones, zone), other);
            && Distinct(after.zones)
            && Find(AtZone(after.zones, zone), other) ==
                 (if other == name && policy.zoneFor(name) == Some(zone) && (was.None? || was.value.source == SOURCE_WEBHOOK) then None else was)
            && after.outcome == if policy.zoneFor(name).Some? && !Pinned(policy, zones, name) then Applied else Noop
  {
    hide Find, Deleted;
    if policy.zoneFor(name).Some? {
      var at := policy.zoneFor(name).value;
      DistinctAt(zones, at);
      DeleteMeans(AtZone(zones, at), {name}, other);
    }
  }

  /** The name is held in its zone by a record that did not come from the webhook. */
  predicate Pinned(policy: Policy, zones: ZoneMap, name: string) {
    Held(policy, zones, name).Some? && Held(policy, zones, name).value.source != SOURCE_WEBHOOK
  }

  /**
   * A create or update of a published, named object whose writes persist: the name holds the later of what it held and the
   * payload, a manual record before any; the name it had before an update is gone from its zone, unless pinned; every
   * other name of every zone holds what it held.
   */
  lemma {:induction false} PublishedMeans(policy: Policy, zones: ZoneMap, p: Payload, zone: string, name: string)
    requires Distinct(zones) && p.failAt.None?
    requires (p.event == "created" || p.event == "updated") && p.data.Some? && p.data.value.dnsName != ""
    requires p.status == "" || p.status in policy.published
    ensures var was, after := Find(AtZone(zones, zone), name), Apply(policy, zones, p).zones;
            var r := p.data.value.(source := SOURCE_WEBHOOK, appliedAt := p.timestamp);
            && Distinct(after)
            && Find(AtZone(after, zone), name) ==
                 if policy.zoneFor(name) != Some(zone) then was
                 else if name == p.data.value.dnsName then
                   if was.None? || (was.value.source == SOURCE_WEBHOOK && p.timestamp > was.value.appliedAt) then Some(r) else was
                 else if p.event == "updated" && p.preName == Some(name) && name != "" && !Pinned(policy, zones, name) then None
                 else was
  {
    hide Find, Distinct, UpsertGuarded, RemoveName, RemoveUnpublished, AtZone;
    var current := p.data.value.dnsName;
    PublishedApply(policy, zones, p);
    RenameWrites(policy, zones, p);
    if p.preName.Some? { RemovalHolds(policy, zones, p.preName.value, zone, name); }
    var renamed := RemoveOldName(policy, zones, p, current).zones;
    if policy.zoneFor(current).Some? {
      UpsertHolds(renamed, policy.zoneFor(current).value, RecordOf(p), true, name);
    }
  }

  /** It ends in Applied exactly when a write was made: an old name removed that is not pinned, or a later record put. */
  lemma {:induction false} PublishedOutcome(policy: Policy, zones: ZoneMap, p: Payload)
    requires Distinct(zones) && p.failAt.None?
    requires (p.event == "created" || p.event == "updated") && p.data.Some? && p.data.value.dnsName != ""
    requires p.status == "" || p.status in policy.published
    ensures var current := p.data.value.dnsName;
            var removes := p.event == "updated" && p.preName.Some? && p.preName.value != "" && p.preName.value != current
                           && policy.zoneFor(p.preName.value).Some? && !Pinned(policy, zones, p.preName.value);
            var puts := policy.zoneFor(current).Some?
                        && (Held(policy, zones, current).None?
                            || (!Pinned(policy, zones, current) && p.timestamp > Held(policy, zones, current).value.appliedAt));
            Apply(policy, zones, p).outcome == if removes || puts then Applied else Noop
  {
    hide Find, Distinct, RemoveName, RemoveUnpublished, AtZone, UpsertOne;
    var current := p.data.value.dnsName;
    PublishedApply(policy, zones, p);
    RenameWrites(policy, zones, p);
    if policy.zoneFor(current).Some? {
      var zone := policy.zoneFor(current).value;
      if p.preName.Some? { RemovalHolds(policy, zones, p.preName.value, zone, current); }
    } else if p.preName.Some? {
      RemovalHolds(policy, zones, p.preName.value, "", current);
    }
  }

  /**
   * A create or update of an object that is not published, whose writes persist: its name, and the one it had before, are
   * gone from their zones, unless pinned, and every other name of every zone holds what it held. It ends in Applied
   * exactly when one of them has a zone and is not pinned.
   */
  lemma {:induction false} UnpublishedMeans(policy: Policy, zones: ZoneMap, p: Payload, zone: string, name: string)
    requires Distinct(zones) && p.failAt.None?
    requires (p.event == "created" || p.event == "updated") && p.data.Some? && p.data.value.dnsName != ""
    requires p.status != "" && p.status !in policy.published
    ensures var was, after := Find(AtZone(zones, zone), name), Apply(policy, zones, p);
            var goes := (n: string) => n != "" && (n == p.data.value.dnsName || p.preName == Some(n))
                                       && policy.zoneFor(n).Some? && !Pinned(policy, zones, n);
            && Distinct(after.zones)
            && Find(AtZone(after.zones, zone), name) == (if policy.zoneFor(name) == Some(zone) && goes(name) then None else was)
            && after.outcome == if exists n :: goes(n) then Applied else Noop
  {
    hide Find, Distinct, RemoveName, AtZone, ApplyDelete;
    var current := p.data.value.dnsName;
    var goes := (n: string) => n != "" && (n == p.data.value.dnsName || p.preName == Some(n))
                               && policy.zoneFor(n).Some? && !Pinned(policy, zones, n);
    RemovalHolds(policy, zones, current, zone, name);
    var first := RemoveName(policy, zones, current, true);
    if Renames(p, current) {
      var former := p.preName.value;
      RemovalHolds(policy, first.zones, former, zone, name);
      if policy.zoneFor(former).Some? { RemovalHolds(policy, zones, current, policy.zoneFor(former).value, former); }
      assert Pinned(policy, first.zones, former) <==> Pinned(policy, zones, former);
      assert goes(former) <==> policy.zoneFor(former).Some? && !Pinned(policy, zones, former);
    }
    assert goes(current) <==> policy.zoneFor(current).Some? && !Pinned(policy, zones, current);
  }

  /** A delete whose write persists takes the name it had out of its zone, unless it is pinned, and touches no other name. */
  lemma {:induction false} DeletedMeans(policy: Policy, zones: ZoneMap, p: Payload, zone: string, name: string)
    requires Distinct(zones) && p.failAt.None? && p.event == "deleted" && p.preName.Some? && p.preName.value != ""
    ensures var was, after, former := Find(AtZone(zones, zone), name), Apply(policy, zones, p), p.preName.value;
            && Distinct(after.zones)
            && Find(AtZone(after.zones, zone), name) ==
                 (if name == former && policy.zoneFor(former) == Some(zone) && !Pinned(policy, zones, former) then None else was)
            && after.outcome == if policy.zoneFor(former).Some? && !Pinned(policy, zones, former) then Applied else Noop
  {
    hide Find, Distinct, RemoveName, AtZone;
    RemovalHolds(policy, zones, p.preName.value, zone, name);
  }

  /** A delivery without a name asks for a poll; one that does not parse fails; and neither, nor any other event, writes. */
  lemma NamelessMeans(policy: Policy, zones: ZoneMap, p: Payload)
    requires var upsert := p.event == "created" || p.event == "updated";
             (upsert ==> p.data.None? || p.data.value.dnsName == "") && (p.event == "deleted" ==> p.preName.None? || p.preName.value == "")
    ensures Apply(policy, zones, p) ==
              Effect(zones, if p.event == "deleted" then (if p.preName.Some? then PollTriggered else Noop)
                            else if p.event == "created" || p.event == "updated" then (if p.data.Some? then PollTriggered else Failed)
                            else Noop)
  {
  }

  // ---- what is not ordered -------------------------------------------------------------------------------------

  predicate PlainDelete(policy: Policy, d: Payload, name: string) {
    d.event == "deleted" && d.preName == Some(name) && name != "" && policy.zoneFor(name).Some?
  }

  lemma {:induction false} DeleteHolds(policy: Policy, zones: ZoneMap, d: Payload, name: string)
    requires Distinct(zones) && PlainDelete(policy, d, name)
    requires Held(policy, zones, name).Some? ==> !IsManual(Held(policy, zones, name).value)
    ensures var after := Apply(policy, zones, d).zones; Distinct(after) && Held(policy, after, name).None?
  {
    hide Find, Deleted;
    var zone := policy.zoneFor(name).value;
    DistinctAt(zones, zone);
    DeleteMeans(AtZone(zones, zone), {name}, name);
  }

  /**
   * A delete carries no time into the store and looks at none: it removes a record applied later than it, and an
   * upsert that arrives after it puts its record back however old it is.
   */
  lemma {:induction false} DeleteIgnoresTime(policy: Policy, zones: ZoneMap, d: Payload, p: Payload)
    requires Distinct(zones) && PlainUpsert(policy, p) && PlainDelete(policy, d, p.data.value.dnsName)
    requires Held(policy, zones, p.data.value.dnsName).None?
    ensures var name := p.data.value.dnsName;
            && Held(policy, AfterAll(policy, zones, [Deliver(p), Deliver(d)]), name) == None
            && Held(policy, AfterAll(policy, zones, [Deliver(d), Deliver(p)]), name) == Some(RecordOf(p))
  {
    hide Held, Apply, Distinct, PlainDelete;
    PlainHasName(policy, p);
    var name := p.data.value.dnsName;
    DeliveryHolds(policy, zones, p, name);
    DeleteHolds(policy, Apply(policy, zones, p).zones, d, name);
    DeleteHolds(policy, zones, d, name);
    DeliveryHolds(policy, Apply(policy, zones, d).zones, p, name);
    assert [Deliver(p), Deliver(d)][1..] == [Deliver(d)] && [Deliver(d), Deliver(p)][1..] == [Deliver(p)];
    assert [Deliver(d)][1..] == [] && [Deliver(p)][1..] == [];
    TwoSteps(policy, zones, Deliver(p), Deliver(d));
    TwoSteps(policy, zones, Deliver(d), Deliver(p));
    ZoneIsKnown(policy, d, name);
  }

  lemma ZoneIsKnown(policy: Policy, d: Payload, name: string)
    requires PlainDelete(policy, d, name)
    ensures policy.zoneFor(name).Some?
  {
  }

  lemma TwoSteps(policy: Policy, zones: ZoneMap, g: Happening, h: Happening)
    ensures AfterAll(policy, zones, [g, h]) == After(policy, After(policy, zones, g), h)
  {
    hide After;
    assert [g, h][1..] == [h] && [h][1..] == [];
    assert AfterAll(policy, After(policy, After(policy, zones, g), h), []) == After(policy, After(policy, zones, g), h);
    assert AfterAll(policy, After(policy, zones, g), [h]) == After(policy, After(policy, zones, g), h);
  }

  // ---- writes that are not persisted ---------------------------------------------------------------------------

  /** The store after a step, if it writes. */
  function Wrote1(e: Effect): seq<ZoneMap> { if e.outcome.Applied? then [e.zones] else [] }

  predicate Unpublished(policy: Policy, p: Payload) { p.status != "" && p.status !in policy.published }

  /** A create or update with a record that has a name. */
  predicate Named(p: Payload) { (p.event == "created" || p.event == "updated") && p.data.Some? && p.data.value.dnsName != "" }

  /** The store after each write of a delivery whose writes all persist. */
  function Writes(policy: Policy, zones: ZoneMap, p: Payload): seq<ZoneMap> {
    if p.event == "deleted" then
      if p.preName.Some? && p.preName.value != "" then Wrote1(RemoveName(policy, zones, p.preName.value, true)) else []
    else if !Named(p) then []
    else
      var name := p.data.value.dnsName;
      if Unpublished(policy, p) then
        var first := RemoveName(policy, zones, name, true);
        Wrote1(first) + if Renames(p, name) then Wrote1(RemoveName(policy, first.zones, p.preName.value, true)) else []
      else
        var renamed := RemoveOldName(policy, zones, p.(failAt := None), name);
        var zone := policy.zoneFor(name);
        Wrote1(renamed) + if zone.Some? then Wrote1(UpsertGuarded(renamed.zones, zone.value, RecordOf(p), true)) else []
  }

  lemma RemovalWrites(policy: Policy, zones: ZoneMap, name: string, persists: bool)
    ensures var e, all := RemoveName(policy, zones, name, persists), RemoveName(policy, zones, name, true);
            && (all.outcome.Applied? || (all.outcome.Noop? && all.zones == zones)) && zones.Keys <= all.zones.Keys
            && e == if all.outcome.Applied? then Effect(all.zones, Wrote(persists)) else all
  {
    hide Deleted, ManuallyPinned;
  }

  lemma UpsertWrites(zones: ZoneMap, zone: string, r: IPRecord, persists: bool)
    ensures var e, all := UpsertGuarded(zones, zone, r, persists), UpsertGuarded(zones, zone, r, true);
            && (all.outcome.Applied? || (all.outcome.Noop? && all.zones == zones)) && zones.Keys <= all.zones.Keys
            && e == if all.outcome.Applied? then Effect(all.zones, Wrote(persists)) else all
  {
    hide UpsertOne, MayUpsert;
  }

  lemma {:induction false} UnpublishedWrites(policy: Policy, zones: ZoneMap, p: Payload)
    requires Named(p) && Unpublished(policy, p)
    ensures WritesExplain(zones, Writes(policy, zones, p), p.failAt, Apply(policy, zones, p))
  {
    hide RemoveName;
    var name := p.data.value.dnsName;
    var first := RemoveName(policy, zones, name, true);
    RemovalWrites(policy, zones, name, p.Persists(0));
    if Renames(p, name) {
      RemovalWrites(policy, first.zones, p.preName.value, p.Persists(0));
      RemovalWrites(policy, first.zones, p.preName.value, p.Persists(1));
    }
  }

  /** The second half of a published delivery. */
  function PutStep(policy: Policy, zones: ZoneMap, p: Payload, persists: bool): Effect
    requires Named(p)
  {
    var zone := policy.zoneFor(p.data.value.dnsName);
    if zone.None? then Effect(zones, Noop) else UpsertGuarded(zones, zone.value, RecordOf(p), persists)
  }

  lemma {:induction false} PutWrites(policy: Policy, zones: ZoneMap, p: Payload, persists: bool)
    requires Named(p)
    ensures var e, all := PutStep(policy, zones, p, persists), PutStep(policy, zones, p, true);
            && (all.outcome.Applied? || (all.outcome.Noop? && all.zones == zones)) && zones.Keys <= all.zones.Keys
            && e == if all.outcome.Applied? then Effect(all.zones, Wrote(persists)) else all
  {
    hide UpsertGuarded;
    var zone := policy.zoneFor(p.data.value.dnsName);
    if zone.Some? { UpsertWrites(zones, zone.value, RecordOf(p), persists); }
  }

  lemma {:induction false} RenameWrites(policy: Policy, zones: ZoneMap, p: Payload)
    requires Named(p)
    ensures var name := p.data.value.dnsName;
            var e, all := RemoveOldName(policy, zones, p, name), RemoveOldName(policy, zones, p.(failAt := None), name);
            && (all.outcome.Applied? || (all.outcome.Noop? && all.zones == zones)) && zones.Keys <= all.zones.Keys
            && e == if all.outcome.Applied? then Effect(all.zones, Wrote(p.Persists(0))) else all
  {
    hide RemoveName;
    if p.preName.Some? { RemovalWrites(policy, zones, p.preName.value, p.Persists(0)); }
  }

  /** A published delivery in its two halves. */
  lemma {:induction false} PublishedApply(policy: Policy, zones: ZoneMap, p: Payload)
    requires Named(p) && !Unpublished(policy, p)
    ensures var renamed := RemoveOldName(policy, zones, p.(failAt := None), p.data.value.dnsName);
            var put := PutStep(policy, renamed.zones, p, p.Persists(NextWrite(renamed.outcome)));
            Apply(policy, zones, p) ==
            if renamed.outcome.Applied? && p.failAt == Some(0) then Effect(renamed.zones, Failed)
            else Effect(put.zones, Then(renamed.outcome, put.outcome))
  {
    hide UpsertGuarded, RemoveUnpublished, ApplyDelete, RemoveOldName;
    RenameWrites(policy, zones, p);
  }

  lemma {:induction false} PublishedWrites(policy: Policy, zones: ZoneMap, p: Payload)
    requires Named(p) && !Unpublished(policy, p)
    ensures var renamed := RemoveOldName(policy, zones, p.(failAt := None), p.data.value.dnsName);
            Writes(policy, zones, p) == Wrote1(renamed) + Wrote1(PutStep(policy, renamed.zones, p, true))
    ensures WritesExplain(zones, Writes(policy, zones, p), p.failAt, Apply(policy, zones, p))
  {
    hide UpsertGuarded, Apply, RemoveOldName, RemoveName;
    PublishedApply(policy, zones, p);
    RenameWrites(policy, zones, p);
    var renamed := RemoveOldName(policy, zones, p.(failAt := None), p.data.value.dnsName);
    PutWrites(policy, renamed.zones, p, p.Persists(NextWrite(renamed.outcome)));
  }

  /** A delivery that makes these writes, of which one is not persisted perhaps, ends like this. */
  ghost predicate WritesExplain(zones: ZoneMap, writes: seq<ZoneMap>, failAt: Option<nat>, e: Effect) {
    if failAt.Some? && failAt.value < |writes| then e == Effect(writes[failAt.value], Failed)
    else if writes == [] then e.zones == zones && !e.outcome.Applied?
    else e == Effect(writes[|writes| - 1], Applied)
  }

  /**
   * A write that is not persisted is made all the same: whatever the delivery, the store in memory, which merges read, is the
   * one after the writes up to that one and no later one, and the delivery ends in an error, so that nothing is signalled.
   * Otherwise all its writes are made.
   */
  lemma {:induction false} FailedWriteIsInMemory(policy: Policy, zones: ZoneMap, p: Payload)
    ensures WritesExplain(zones, Writes(policy, zones, p), p.failAt, Apply(policy, zones, p))
  {
    hide RemoveName;
    if p.event == "deleted" {
      if p.preName.Some? { RemovalWrites(policy, zones, p.preName.value, p.Persists(0)); }
    } else if Named(p) {
      if Unpublished(policy, p) { UnpublishedWrites(policy, zones, p); } else { PublishedWrites(policy, zones, p); }
    }
  }

  lemma {:induction false} WritesGrow(policy: Policy, zones: ZoneMap, p: Payload)
    ensures Writes(policy, zones, p.(failAt := None)) == Writes(policy, zones, p)
    ensures |Writes(policy, zones, p)| <= 2
    ensures forall w :: w in Writes(policy, zones, p) ==> zones.Keys <= w.Keys
    ensures |Writes(policy, zones, p)| == 2 ==> Writes(policy, zones, p)[0].Keys <= Writes(policy, zones, p)[1].Keys
  {
    hide RemoveName, UpsertGuarded;
    if p.event == "deleted" {
      if p.preName.Some? { RemovalWrites(policy, zones, p.preName.value, true); }
    } else if Named(p) {
      var q, name := p.(failAt := None), p.data.value.dnsName;
      assert RecordOf(q) == RecordOf(p);
      if Unpublished(policy, p) {
        RemovalWrites(policy, zones, name, true);
        if p.preName.Some? { RemovalWrites(policy, RemoveName(policy, zones, name, true).zones, p.preName.value, true); }
      } else {
        RenameWrites(policy, zones, q);
        PutWrites(policy, RemoveOldName(policy, zones, q, name).zones, p, true);
      }
    }
  }

  /** A write that is not persisted adds no other zones than the delivery would have added. */
  lemma {:induction false} FailedDeliveryAddsNoMore(policy: Policy, zones: ZoneMap, p: Payload, zone: string)
    ensures zone in Apply(policy, zones, p).zones ==> zone in Apply(policy, zones, p.(failAt := None)).zones
  {
    hide Apply, Writes;
    FailedWriteIsInMemory(policy, zones, p);
    FailedWriteIsInMemory(policy, zones, p.(failAt := None));
    WritesGrow(policy, zones, p);
    var writes := Writes(policy, zones, p);
    assert forall k :: 0 <= k < |writes| ==> writes[k] in writes;
  }

  // ---- empty zones ----------------------------------------------------------------------------------------------

  /** The first of the two writes of a delivery is not persisted, so that the second is not made. */
  predicate CutShort(policy: Policy, zones: ZoneMap, p: Payload) { p.failAt == Some(0) && |Writes(policy, zones, p)| == 2 }

  /** The names a delivery takes out of the store. */
  function RemovedNames(policy: Policy, zones: ZoneMap, p: Payload): set<string> {
    if p.event == "deleted" then (if p.preName.Some? && p.preName.value != "" then {p.preName.value} else {})
    else if !Named(p) then {}
    else
      var name := p.data.value.dnsName;
      var before := if Renames(p, name) then {p.preName.value} else {};
      if Unpublished(policy, p) then (if CutShort(policy, zones, p) then {name} else {name} + before)
      else if p.event == "updated" then before else {}
  }

  /** The name a delivery puts a record at. */
  function PutName(policy: Policy, zones: ZoneMap, p: Payload): Option<string> {
    if !Named(p) || Unpublished(policy, p) || CutShort(policy, zones, p) then None else Some(p.data.value.dnsName)
  }

  lemma RemovalAdds(policy: Policy, zones: ZoneMap, name: string, zone: string)
    requires AtZone(zones, zone) == []
    ensures var after := RemoveName(policy, zones, name, true);
            && (zone in after.zones <==> zone in zones || policy.zoneFor(name) == Some(zone)) && AtZone(after.zones, zone) == []
            && (policy.zoneFor(name) == Some(zone) ==> after.outcome.Applied?)
  {
  }

  lemma PutIsNotEmpty(zones: ZoneMap, at: string, r: IPRecord, zone: string)
    requires AtZone(zones, zone) == []
    ensures var put := UpsertGuarded(zones, at, r, true);
            && (at == zone ==> zone in put.zones && put.zones[zone] != [])
            && (at != zone ==> (zone in put.zones <==> zone in zones) && AtZone(put.zones, zone) == [])
  {
  }

  lemma {:induction false} UnpublishedEmpties(policy: Policy, zones: ZoneMap, p: Payload, zone: string)
    requires Named(p) && Unpublished(policy, p) && zone !in zones
    ensures var after := Apply(policy, zones, p).zones;
            && (zone in after <==> exists n :: n in RemovedNames(policy, zones, p) && policy.zoneFor(n) == Some(zone))
            && AtZone(after, zone) == []
  {
    hide RemoveName;
    var name := p.data.value.dnsName;
    var first := RemoveName(policy, zones, name, true);
    RemovalAdds(policy, zones, name, zone);
    RemovalWrites(policy, zones, name, p.Persists(0));
    assert name in RemovedNames(policy, zones, p);
    if Renames(p, name) {
      RemovalAdds(policy, first.zones, p.preName.value, zone);
      RemovalWrites(policy, first.zones, p.preName.value, p.Persists(0));
      RemovalWrites(policy, first.zones, p.preName.value, p.Persists(1));
      assert CutShort(policy, zones, p) || p.preName.value in RemovedNames(policy, zones, p);
    }
  }

  lemma {:induction false} PublishedEmpties(policy: Policy, zones: ZoneMap, p: Payload, zone: string)
    requires Named(p) && !Unpublished(policy, p) && zone !in zones
    ensures var after := Apply(policy, zones, p).zones;
            zone in after && after[zone] == [] <==>
              && (exists n :: n in RemovedNames(policy, zones, p) && policy.zoneFor(n) == Some(zone))
              && !(PutName(policy, zones, p).Some? && policy.zoneFor(PutName(policy, zones, p).value) == Some(zone))
  {
    hide RemoveName, UpsertGuarded, Apply, Writes;
    var q, name := p.(failAt := None), p.data.value.dnsName;
    PublishedApply(policy, zones, p);
    PublishedWrites(policy, zones, p);
    RenameWrites(policy, zones, p);
    if p.preName.Some? { RemovalAdds(policy, zones, p.preName.value, zone); }
    var renamed := RemoveOldName(policy, zones, q, name);
    PutWrites(policy, renamed.zones, p, p.Persists(NextWrite(renamed.outcome)));
    assert zone in renamed.zones <==> exists n :: n in RemovedNames(policy, zones, p) && policy.zoneFor(n) == Some(zone);
    if policy.zoneFor(name).Some? { PutIsNotEmpty(renamed.zones, policy.zoneFor(name).value, RecordOf(p), zone); }
  }

  /**
   * A delivery leaves an empty entry for a zone the store did not have, which the next merge publishes as an empty zone,
   * exactly when a name it removes belongs there and the name it puts does not: deletes, renames and unpublished statuses
   * alike, with writes that persist or not.
   */
  lemma {:induction false} EmptyZoneExactlyWhen(policy: Policy, zones: ZoneMap, p: Payload, zone: string)
    requires zone !in zones
    ensures var after := Apply(policy, zones, p).zones;
            zone in after && after[zone] == [] <==>
              && (exists n :: n in RemovedNames(policy, zones, p) && policy.zoneFor(n) == Some(zone))
              && !(PutName(policy, zones, p).Some? && policy.zoneFor(PutName(policy, zones, p).value) == Some(zone))
  {
    hide RemoveName, UpsertGuarded, RemoveUnpublished;
    if p.event == "deleted" {
      if p.preName.Some? {
        RemovalAdds(policy, zones, p.preName.value, zone);
        RemovalWrites(policy, zones, p.preName.value, p.Persists(0));
      }
    } else if Named(p) {
      if Unpublished(policy, p) { UnpublishedEmpties(policy, zones, p, zone); } else { PublishedEmpties(policy, zones, p, zone); }
    }
  }
}
