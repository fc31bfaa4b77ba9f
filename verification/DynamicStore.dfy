/** The store of dynamic records (internal/dynamicstore/file_store.go), its persistence left out. */
module DynamicStore {
  import opened Wrappers
  import opened Records
  import Strings

  // ---- records of one zone ---------------------------------------------------------------------------------

  /** The last position of a name. */
  function LastIndex(recs: seq<IPRecord>, name: string): (i: Option<nat>)
    ensures i.Some? ==> i.value < |recs| && recs[i.value].dnsName == name && forall j :: i.value < j < |recs| ==> recs[j].dnsName != name
    ensures i.None? ==> forall j :: 0 <= j < |recs| ==> recs[j].dnsName != name
  {
    if recs == [] then None
    else if recs[|recs| - 1].dnsName == name then Some(|recs| - 1)
    else LastIndex(recs[..|recs| - 1], name)
  }

  /** One record inserted, or put in place of the last one of its name. */
  function UpsertOne(recs: seq<IPRecord>, r: IPRecord): seq<IPRecord> {
    var i := LastIndex(recs, r.dnsName);
    if i.Some? then recs[i.value := r] else recs + [r]
  }

  function Upserted(recs: seq<IPRecord>, rs: seq<IPRecord>): seq<IPRecord> {
    if rs == [] then recs else UpsertOne(Upserted(recs, rs[..|rs| - 1]), rs[|rs| - 1])
  }

  function Deleted(recs: seq<IPRecord>, names: set<string>): seq<IPRecord> {
    Filter((r: IPRecord) => r.dnsName !in names, recs)
  }

  predicate Redundant(r: IPRecord, cutoff: int) { r.source == SOURCE_WEBHOOK && r.appliedAt < cutoff }

  function Reconciled(recs: seq<IPRecord>, cutoff: int): seq<IPRecord> {
    Filter((r: IPRecord) => !Redundant(r, cutoff), recs)
  }

  function ReconciledZones(zones: ZoneMap, cutoff: int): ZoneMap { map z | z in zones :: Reconciled(zones[z], cutoff) }

  // ---- the store ---------------------------------------------------------------------------------------------

  /** idx holds the last position of every name. */
  ghost predicate Indexes(idx: map<string, nat>, recs: seq<IPRecord>) {
    forall n :: LastIndex(recs, n) == if n in idx then Some(idx[n]) else None
  }

  lemma {:induction false} LastIndexAfter(recs: seq<IPRecord>, r: IPRecord, n: string)
    ensures LastIndex(recs + [r], n) == if n == r.dnsName then Some(|recs|) else LastIndex(recs, n)
  {
    assert (recs + [r])[..|recs|] == recs;
  }

  lemma {:induction false} IndexesUpsert(idx: map<string, nat>, recs: seq<IPRecord>, r: IPRecord)
    requires Indexes(idx, recs)
    ensures Indexes(if r.dnsName in idx then idx else idx[r.dnsName := |recs|], UpsertOne(recs, r))
    ensures r.dnsName in idx ==> idx[r.dnsName] < |recs| && UpsertOne(recs, r) == recs[idx[r.dnsName] := r]
    ensures r.dnsName !in idx ==> UpsertOne(recs, r) == recs + [r]
  {
    hide LastIndex;
    var out := UpsertOne(recs, r);
    assert LastIndex(recs, r.dnsName) == if r.dnsName in idx then Some(idx[r.dnsName]) else None;
    forall n ensures LastIndex(out, n) == if n == r.dnsName && r.dnsName !in idx then Some(|recs|) else LastIndex(recs, n) {
      if r.dnsName in idx {
        SameLastIndex(recs, r, idx[r.dnsName], n);
      } else {
        LastIndexAfter(recs, r, n);
      }
    }
  }

  lemma {:induction false} SameLastIndex(recs: seq<IPRecord>, r: IPRecord, i: nat, n: string)
    requires i < |recs| && recs[i].dnsName == r.dnsName
    ensures LastIndex(recs[i := r], n) == LastIndex(recs, n)
    decreases |recs|
  {
    var k := |recs| - 1;
    if recs[k].dnsName != n {
      if i < k {
        assert recs[i := r][..k] == recs[..k][i := r];
        SameLastIndex(recs[..k], r, i, n);
      } else {
        assert recs[i := r][..k] == recs[..k];
      }
    }
  }

  method IndexByName(recs: seq<IPRecord>) returns (idx: map<string, nat>)
    ensures Indexes(idx, recs)
  {
    idx := map[];
    var i := 0;
    while i < |recs|
      invariant 0 <= i <= |recs| && Indexes(idx, recs[..i])
    {
      assert recs[..i + 1] == recs[..i] + [recs[i]];
      forall n ensures LastIndex(recs[..i + 1], n) == if n == recs[i].dnsName then Some(i) else LastIndex(recs[..i], n) {
        LastIndexAfter(recs[..i], recs[i], n);
      }
      idx := idx[recs[i].dnsName := i];
      i := i + 1;
    }
    assert recs[..i] == recs;
  }

  method UpsertInto(recs: seq<IPRecord>, rs: seq<IPRecord>) returns (existing: seq<IPRecord>)
    ensures existing == Upserted(recs, rs)
  {
    hide Indexes, LastIndex, UpsertOne;
    existing := recs;
    var idx: map<string, nat> := IndexByName(existing);
    var i := 0;
    while i < |rs|
      invariant 0 <= i <= |rs|
      invariant existing == Upserted(recs, rs[..i]) && Indexes(idx, existing)
    {
      var r := rs[i];
      assert rs[..i + 1][..i] == rs[..i];
      IndexesUpsert(idx, existing, r);
      if r.dnsName in idx {
        existing := existing[idx[r.dnsName] := r];
      } else {
        idx := idx[r.dnsName := |existing|];
        existing := existing + [r];
      }
      i := i + 1;
    }
    assert rs[..i] == rs;
  }

  method DeleteFrom(recs: seq<IPRecord>, names: set<string>) returns (out: seq<IPRecord>)
    ensures out == Deleted(recs, names)
  {
    ghost var keep := (r: IPRecord) => r.dnsName !in names;
    out := [];
    var i := 0;
    while i < |recs|
      invariant 0 <= i <= |recs| && out == Filter(keep, recs[..i])
    {
      FilterSnoc(keep, recs, i);
      if recs[i].dnsName !in names {
        out := out + [recs[i]];
      }
      i := i + 1;
    }
    assert recs[..i] == recs;
  }

  method ReconcileOne(recs: seq<IPRecord>, cutoff: int) returns (out: seq<IPRecord>, dropped: bool)
    ensures out == Reconciled(recs, cutoff) && (dropped <==> AnyRedundant(recs, cutoff))
  {
    ghost var keep := (r: IPRecord) => !Redundant(r, cutoff);
    out, dropped := [], false;
    var i := 0;
    while i < |recs|
      invariant 0 <= i <= |recs| && out == Filter(keep, recs[..i])
      invariant dropped <==> exists r :: r in recs[..i] && Redundant(r, cutoff)
    {
      FilterSnoc(keep, recs, i);
      Strings.PrefixStep(recs, i);
      var r := recs[i];
      if r.source == SOURCE_WEBHOOK && r.appliedAt < cutoff {
        assert r in recs[..i + 1];
        dropped := true;
      } else {
        out := out + [r];
      }
      i := i + 1;
    }
    assert recs[..i] == recs;
  }

  /** The zones of `done` upserted into, the others as they were. */
  ghost predicate BatchUpserted(before: ZoneMap, zoneRecords: ZoneMap, done: set<string>, after: ZoneMap) {
    && (forall z :: z in after <==> z in before || z in done)
    && (forall z :: z in after ==>
          after[z] == if z in done && z in zoneRecords then Upserted(AtZone(before, z), zoneRecords[z]) else AtZone(before, z))
  }

  lemma NothingUpserted(zones: ZoneMap, zoneRecords: ZoneMap)
    ensures BatchUpserted(zones, zoneRecords, {}, zones)
  {
  }

  lemma OneMoreUpserted(before: ZoneMap, zoneRecords: ZoneMap, done: set<string>, after: ZoneMap, zone: string)
    requires BatchUpserted(before, zoneRecords, done, after) && zone in zoneRecords && zone !in done
    ensures BatchUpserted(before, zoneRecords, done + {zone}, after[zone := Upserted(AtZone(after, zone), zoneRecords[zone])])
  {
    hide Upserted;
    assert AtZone(after, zone) == AtZone(before, zone);
  }

  /** Every change is made in memory and then persisted; if that fails the caller gets an error and the change stays. */
  class FileStore {
    var zones: ZoneMap

    constructor ()
      ensures zones == map[]
    {
      zones := map[];
    }

    method GetRecords(zone: string) returns (out: seq<IPRecord>)
      ensures out == AtZone(zones, zone)
    {
      out := if zone in zones then zones[zone] else [];
    }

    method UpsertRecords(zone: string, records: seq<IPRecord>, persists: bool) returns (ok: bool)
      modifies this
      ensures zones == old(zones)[zone := Upserted(AtZone(old(zones), zone), records)] && ok == persists
    {
      var existing := UpsertInto(AtZone(zones, zone), records);
      zones := zones[zone := existing];
      return persists;
    }

    method DeleteRecords(zone: string, names: set<string>, persists: bool) returns (ok: bool)
      modifies this
      ensures zones == old(zones)[zone := Deleted(AtZone(old(zones), zone), names)] && ok == persists
    {
      var out := DeleteFrom(AtZone(zones, zone), names);
      zones := zones[zone := out];
      return persists;
    }

    /** In any order of the zones. */
    method BatchUpsert(zoneRecords: ZoneMap, persists: bool) returns (ok: bool)
      modifies this
      ensures BatchUpserted(old(zones), zoneRecords, zoneRecords.Keys, zones) && ok == persists
    {
      hide BatchUpserted, Upserted;
      var todo := zoneRecords.Keys;
      ghost var done: set<string> := {};
      NothingUpserted(zones, zoneRecords);
      while todo != {}
        invariant todo + done == zoneRecords.Keys && todo !! done
        invariant BatchUpserted(old(zones), zoneRecords, done, zones)
        decreases |todo|
      {
        var zone :| zone in todo;
        OneMoreUpserted(old(zones), zoneRecords, done, zones, zone);
        var existing := UpsertInto(AtZone(zones, zone), zoneRecords[zone]);
        zones := zones[zone := existing];
        todo, done := todo - {zone}, done + {zone};
      }
      assert done == zoneRecords.Keys;
      return persists;
    }

    /** Nothing is persisted if nothing was redundant. */
    method ReconcileWebhookSourced(cutoff: int, persists: bool) returns (ok: bool)
      modifies this
      ensures zones == ReconciledZones(old(zones), cutoff)
      ensures ok <==> persists || forall z, r :: z in old(zones) && r in old(zones)[z] ==> !Redundant(r, cutoff)
    {
      hide Reconciled, Redundant, PartlyReconciled;
      var changed := false;
      var todo := zones.Keys;
      NoneReconciled(zones, cutoff);
      while todo != {}
        invariant PartlyReconciled(old(zones), cutoff, todo, zones, changed)
        decreases |todo|
      {
        var zone :| zone in todo;
        OneMoreReconciled(old(zones), cutoff, todo, zones, changed, zone);
        var out, dropped := ReconcileOne(zones[zone], cutoff);
        changed := changed || dropped;
        zones := zones[zone := out];
        todo := todo - {zone};
      }
      AllReconciled(old(zones), cutoff, zones, changed);
      return !changed || persists;
    }
  }

  predicate AnyRedundant(recs: seq<IPRecord>, cutoff: int) { exists r :: r in recs && Redundant(r, cutoff) }

  /** The zones not in `todo` reconciled, and whether anything was dropped from them. */
  ghost predicate PartlyReconciled(before: ZoneMap, cutoff: int, todo: set<string>, after: ZoneMap, changed: bool) {
    && todo <= after.Keys == before.Keys
    && (forall z :: z in before ==> after[z] == if z in todo then before[z] else Reconciled(before[z], cutoff))
    && (changed <==> exists z :: z in before && z !in todo && AnyRedundant(before[z], cutoff))
  }

  lemma NoneReconciled(zones: ZoneMap, cutoff: int)
    ensures PartlyReconciled(zones, cutoff, zones.Keys, zones, false)
  {
  }

  lemma OneMoreReconciled(before: ZoneMap, cutoff: int, todo: set<string>, after: ZoneMap, changed: bool, zone: string)
    requires PartlyReconciled(before, cutoff, todo, after, changed) && zone in todo
    ensures zone in after && after[zone] == before[zone]
    ensures PartlyReconciled(before, cutoff, todo - {zone}, after[zone := Reconciled(before[zone], cutoff)],
                             changed || AnyRedundant(before[zone], cutoff))
  {
    hide Reconciled, AnyRedundant;
  }

  lemma AllReconciled(before: ZoneMap, cutoff: int, after: ZoneMap, changed: bool)
    requires PartlyReconciled(before, cutoff, {}, after, changed)
    ensures after == ReconciledZones(before, cutoff)
    ensures changed <==> exists z, r :: z in before && r in before[z] && Redundant(r, cutoff)
  {
    hide Reconciled, Redundant;
  }

  // ---- what the operations do to one name ---------------------------------------------------------------------

  ghost predicate DistinctNames(recs: seq<IPRecord>) {
    forall i, j :: 0 <= i < j < |recs| ==> recs[i].dnsName != recs[j].dnsName
  }

  ghost predicate Distinct(zones: ZoneMap) { forall z :: z in zones ==> DistinctNames(zones[z]) }

  /** The first record of a name. */
  function Find(recs: seq<IPRecord>, name: string): (r: Option<IPRecord>)
    ensures r.Some? ==> r.value in recs && r.value.dnsName == name
    ensures r.None? ==> forall x :: x in recs ==> x.dnsName != name
  {
    if recs == [] then None
    else if recs[0].dnsName == name then Some(recs[0])
    else Find(recs[1..], name)
  }

  lemma {:induction false} FindUnique(recs: seq<IPRecord>, i: nat)
    requires DistinctNames(recs) && i < |recs|
    ensures Find(recs, recs[i].dnsName) == Some(recs[i])
  {
    var f := Find(recs, recs[i].dnsName);
    assert recs[i] in recs;
    var j :| 0 <= j < |recs| && recs[j] == f.value;
  }

  /** After an upsert the name holds the record, other names what they held, and names stay distinct. */
  lemma {:induction false} UpsertMeans(recs: seq<IPRecord>, r: IPRecord, name: string)
    requires DistinctNames(recs)
    ensures DistinctNames(UpsertOne(recs, r))
    ensures Find(UpsertOne(recs, r), name) == if name == r.dnsName then Some(r) else Find(recs, name)
  {
    hide LastIndex, Find;
    var out := UpsertOne(recs, r);
    var i := LastIndex(recs, r.dnsName);
    assert DistinctNames(out);
    var at := if i.Some? then i.value else |recs|;
    assert out[at] == r && forall j :: 0 <= j < |recs| && j != at ==> out[j] == recs[j];
    if name == r.dnsName {
      FindUnique(out, at);
    } else if Find(recs, name).Some? {
      var j :| 0 <= j < |recs| && recs[j] == Find(recs, name).value;
      FindUnique(out, j);
    } else {
      forall x | x in out ensures x.dnsName != name { assert x == r || x in recs; }
    }
  }

  /** An upsert keeps every record of another name in its place, and adds one only if the name is new. */
  lemma {:induction false} UpsertKeepsPlaces(recs: seq<IPRecord>, r: IPRecord, i: nat)
    requires i < |recs|
    ensures var out := UpsertOne(recs, r);
            && |out| == (if exists x :: x in recs && x.dnsName == r.dnsName then |recs| else |recs| + 1)
            && (recs[i].dnsName != r.dnsName ==> out[i] == recs[i])
  {
    hide LastIndex;
    var at := LastIndex(recs, r.dnsName);
    if at.Some? { assert recs[at.value] in recs; }
  }

  lemma {:induction false} FilterDistinct(keep: IPRecord -> bool, recs: seq<IPRecord>)
    requires DistinctNames(recs)
    ensures DistinctNames(Filter(keep, recs))
  {
    if recs != [] {
      forall i, j | 0 <= i < j < |recs[1..]| ensures recs[1..][i].dnsName != recs[1..][j].dnsName {
        assert recs[i + 1].dnsName != recs[j + 1].dnsName;
      }
      FilterDistinct(keep, recs[1..]);
      forall x | x in Filter(keep, recs[1..]) ensures x.dnsName != recs[0].dnsName {
        assert x in recs[1..];
      }
    }
  }

  /** After a deletion the names are gone, others hold what they held. */
  lemma {:induction false} DeleteMeans(recs: seq<IPRecord>, names: set<string>, name: string)
    requires DistinctNames(recs)
    ensures DistinctNames(Deleted(recs, names))
    ensures Find(Deleted(recs, names), name) == if name in names then None else Find(recs, name)
  {
    FilterDistinct((r: IPRecord) => r.dnsName !in names, recs);
    var out := Deleted(recs, names);
    hide Find, Deleted;
    if name !in names && Find(recs, name).Some? {
      var r := Find(recs, name).value;
      assert r in out by { InDeleted(recs, names, r); }
      var j :| 0 <= j < |out| && out[j] == r;
      FindUnique(out, j);
    } else if Find(out, name).Some? {
      InDeleted(recs, names, Find(out, name).value);
    }
  }

  /** After reconciling exactly the webhook records applied before the cutoff are gone, each other is there as often as it was. */
  lemma {:induction false} ReconciledMeans(zones: ZoneMap, cutoff: int, zone: string, r: IPRecord)
    ensures zone in ReconciledZones(zones, cutoff) <==> zone in zones
    ensures multiset(AtZone(ReconciledZones(zones, cutoff), zone))[r]
         == if r.source == "webhook" && r.appliedAt < cutoff then 0 else multiset(AtZone(zones, zone))[r]
  {
    FilterMultiset((x: IPRecord) => !Redundant(x, cutoff), AtZone(zones, zone), r);
  }

  lemma InDeleted(recs: seq<IPRecord>, names: set<string>, r: IPRecord)
    ensures r in Deleted(recs, names) <==> r in recs && r.dnsName !in names
  {
  }
}
