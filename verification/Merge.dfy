/** Overlaying dynamic records and their PTRs on the NetBox zones, then mirroring the result (internal/merge/merge.go). */
module Merge {
  import opened Wrappers
  import opened Records
  import opened Stamps
  import opened ReverseNames
  import opened Sorting
  import opened ZoneManager
  import Mirror
  import Collisions

  function NamesOf(rs: seq<IPRecord>): set<string> { set r | r in rs :: r.dnsName }

  function LabelsOf(rs: seq<IPRecord>): set<string> { set r | r in rs :: r.address }

  /** Dynamic records shadow the NetBox records of the same name. */
  function Overlaid(netbox: ZoneMap, store: ZoneMap, zone: string): seq<IPRecord> {
    var dyn, base := AtZone(store, zone), AtZone(netbox, zone);
    if dyn == [] then base else Filter((r: IPRecord) => r.dnsName !in NamesOf(dyn), base) + dyn
  }

  /** The dynamic records of all zones, in the order the store lists the zones. */
  function AllDynamic(store: ZoneMap, order: seq<string>): seq<IPRecord> {
    if order == [] then [] else AllDynamic(store, order[..|order| - 1]) + AtZone(store, order[|order| - 1])
  }

  function DynamicPtrs(disc: Option<Discoverer>, store: ZoneMap, order: seq<string>, zone: string): seq<IPRecord> {
    if disc.None? then [] else PtrsIn(disc.value, zone, AllDynamic(store, order))
  }

  /** Dynamic PTRs shadow the PTRs of the same label. */
  function WithPtrs(records: seq<IPRecord>, ptrs: seq<IPRecord>): seq<IPRecord> {
    if ptrs == [] then records else Filter((r: IPRecord) => r.address !in LabelsOf(ptrs), records) + ptrs
  }

  function MergedZone(netbox: ZoneMap, store: ZoneMap, disc: Option<Discoverer>, order: seq<string>, zone: string): seq<IPRecord> {
    WithPtrs(Overlaid(netbox, store, zone), DynamicPtrs(disc, store, order, zone))
  }

  ghost predicate HasZone(netbox: ZoneMap, store: ZoneMap, disc: Option<Discoverer>, order: seq<string>, zone: string) {
    zone in netbox || zone in store || DynamicPtrs(disc, store, order, zone) != []
  }

  ghost predicate IsMerged(netbox: ZoneMap, store: ZoneMap, disc: Option<Discoverer>, order: seq<string>, m: ZoneMap) {
    && (forall z :: z in m <==> HasZone(netbox, store, disc, order, z))
    && (forall z :: z in m ==> m[z] == MergedZone(netbox, store, disc, order, z))
  }

  // ---- the two loops -------------------------------------------------------------------------------------

  ghost predicate IsOverlaid(netbox: ZoneMap, store: ZoneMap, done: seq<string>, m: ZoneMap) {
    && (forall z :: z in m <==> z in netbox || z in done)
    && (forall z :: z in m ==> m[z] == if z in done then Overlaid(netbox, store, z) else AtZone(netbox, z))
  }

  lemma {:induction false} OneMoreOverlaid(netbox: ZoneMap, store: ZoneMap, order: seq<string>, i: nat, m: ZoneMap)
    requires i < |order| && Enumerates(order, store.Keys) && IsOverlaid(netbox, store, order[..i], m)
    ensures order[i] in store && AtZone(m, order[i]) == AtZone(netbox, order[i])
    ensures IsOverlaid(netbox, store, order[..i + 1], m[order[i] := Overlaid(netbox, store, order[i])])
    ensures AllDynamic(store, order[..i + 1]) == AllDynamic(store, order[..i]) + AtZone(store, order[i])
  {
    hide Overlaid;
    Strings.PrefixStep(order, i);
    assert order[..i + 1][..i] == order[..i];
    assert order[i] !in order[..i];
  }

  method Overlay(netbox: ZoneMap, store: ZoneMap, order: seq<string>) returns (merged: ZoneMap, allDynamic: seq<IPRecord>)
    requires Enumerates(order, store.Keys)
    ensures IsOverlaid(netbox, store, order, merged) && allDynamic == AllDynamic(store, order)
  {
    hide IsOverlaid, Enumerates, AllDynamic;
    merged, allDynamic := netbox, [];
    NothingOverlaid(netbox, store, order);
    var i := 0;
    while i < |order|
      invariant 0 <= i <= |order|
      invariant IsOverlaid(netbox, store, order[..i], merged) && allDynamic == AllDynamic(store, order[..i])
    {
      var zone := order[i];
      OneMoreOverlaid(netbox, store, order, i, merged);
      i := i + 1;
      var dynRecs := store[zone];
      if dynRecs == [] {
        KeptAsIs(merged, zone);
        assert allDynamic + [] == allDynamic;
        if zone !in merged {
          merged := merged[zone := []];
        }
        continue;
      }
      allDynamic := allDynamic + dynRecs;
      var dynByName := set r | r in dynRecs :: r.dnsName;
      assert dynByName == NamesOf(dynRecs);
      var result := NotNamed(AtZone(merged, zone), dynByName);
      merged := merged[zone := result + dynRecs];
    }
    assert order[..i] == order;
  }

  lemma KeptAsIs(m: ZoneMap, zone: string)
    ensures (if zone in m then m else m[zone := []]) == m[zone := AtZone(m, zone)]
  {
  }

  lemma NothingOverlaid(netbox: ZoneMap, store: ZoneMap, order: seq<string>)
    ensures IsOverlaid(netbox, store, order[..0], netbox) && AllDynamic(store, order[..0]) == []
  {
  }

  method NotNamed(records: seq<IPRecord>, names: set<string>) returns (result: seq<IPRecord>)
    ensures result == Filter((r: IPRecord) => r.dnsName !in names, records)
  {
    ghost var keep := (r: IPRecord) => r.dnsName !in names;
    result := [];
    var i := 0;
    while i < |records|
      invariant 0 <= i <= |records| && result == Filter(keep, records[..i])
    {
      FilterSnoc(keep, records, i);
      if records[i].dnsName !in names {
        result := result + [records[i]];
      }
      i := i + 1;
    }
    assert records[..i] == records;
  }

  method NotLabelled(records: seq<IPRecord>, labels: set<string>) returns (result: seq<IPRecord>)
    ensures result == Filter((r: IPRecord) => r.address !in labels, records)
  {
    ghost var keep := (r: IPRecord) => r.address !in labels;
    result := [];
    var i := 0;
    while i < |records|
      invariant 0 <= i <= |records| && result == Filter(keep, records[..i])
    {
      FilterSnoc(keep, records, i);
      if records[i].address !in labels {
        result := result + [records[i]];
      }
      i := i + 1;
    }
    assert records[..i] == records;
  }

  ghost predicate WithSomePtrs(base: ZoneMap, ptrs: ZoneMap, done: set<string>, m: ZoneMap) {
    && (forall z :: z in m <==> z in base || z in done)
    && (forall z :: z in m ==> m[z] == if z in done then WithPtrs(AtZone(base, z), AtZone(ptrs, z)) else AtZone(base, z))
  }

  lemma {:induction false} OneMoreWithPtrs(base: ZoneMap, ptrs: ZoneMap, done: set<string>, m: ZoneMap, zone: string)
    requires WithSomePtrs(base, ptrs, done, m) && zone !in done
    ensures AtZone(m, zone) == AtZone(base, zone)
    ensures WithSomePtrs(base, ptrs, done + {zone}, m[zone := WithPtrs(AtZone(base, zone), AtZone(ptrs, zone))])
  {
    hide WithPtrs;
  }

  method AddPtrs(base: ZoneMap, dynReverseZones: ZoneMap) returns (merged: ZoneMap)
    requires forall z :: z in dynReverseZones ==> dynReverseZones[z] != []
    ensures WithSomePtrs(base, dynReverseZones, dynReverseZones.Keys, merged)
  {
    hide WithSomePtrs, Filter;
    merged := base;
    var todo := dynReverseZones.Keys;
    ghost var done: set<string> := {};
    NoPtrsYet(base, dynReverseZones);
    while todo != {}
      invariant todo + done == dynReverseZones.Keys && todo !! done
      invariant WithSomePtrs(base, dynReverseZones, done, merged)
      decreases |todo|
    {
      var zone :| zone in todo;
      var ptrs := dynReverseZones[zone];
      var dynByAddr := set p | p in ptrs :: p.address;
      assert dynByAddr == LabelsOf(ptrs);
      OneMoreWithPtrs(base, dynReverseZones, done, merged, zone);
      var filtered := NotLabelled(AtZone(merged, zone), dynByAddr);
      merged := merged[zone := filtered + ptrs];
      todo, done := todo - {zone}, done + {zone};
    }
    assert done == dynReverseZones.Keys;
  }

  lemma NoPtrsYet(base: ZoneMap, ptrs: ZoneMap)
    ensures WithSomePtrs(base, ptrs, {}, base)
  {
  }

  lemma WithNoPtrs(records: seq<IPRecord>)
    ensures WithPtrs(records, []) == records
  {
  }

  lemma {:induction false} OneMergedZone(
      netbox: ZoneMap, store: ZoneMap, disc: Option<Discoverer>, order: seq<string>, base: ZoneMap, ptrs: ZoneMap, m: ZoneMap, z: string)
    requires (z in order <==> z in store) && IsOverlaid(netbox, store, order, base)
    requires z in ptrs <==> DynamicPtrs(disc, store, order, z) != []
    requires z in ptrs ==> ptrs[z] == DynamicPtrs(disc, store, order, z)
    requires WithSomePtrs(base, ptrs, ptrs.Keys, m)
    ensures z in m <==> HasZone(netbox, store, disc, order, z)
    ensures z in m ==> m[z] == MergedZone(netbox, store, disc, order, z)
  {
    hide DynamicPtrs, Overlaid, WithPtrs;
    WithNoPtrs(AtZone(base, z));
    if z !in store { NotOverlaid(netbox, store, z); }
  }

  lemma {:induction false} LoopsMerge(
      netbox: ZoneMap, store: ZoneMap, disc: Option<Discoverer>, order: seq<string>, base: ZoneMap, ptrs: ZoneMap, m: ZoneMap)
    requires Enumerates(order, store.Keys) && IsOverlaid(netbox, store, order, base)
    requires forall z :: z in ptrs <==> DynamicPtrs(disc, store, order, z) != []
    requires forall z :: z in ptrs ==> ptrs[z] == DynamicPtrs(disc, store, order, z)
    requires WithSomePtrs(base, ptrs, ptrs.Keys, m)
    ensures IsMerged(netbox, store, disc, order, m)
  {
    hide DynamicPtrs, Enumerates, IsOverlaid, WithSomePtrs, HasZone, MergedZone;
    Members(order, store.Keys);
    forall z ensures (z in m <==> HasZone(netbox, store, disc, order, z))
                  && (z in m ==> m[z] == MergedZone(netbox, store, disc, order, z))
    {
      OneMergedZone(netbox, store, disc, order, base, ptrs, m, z);
    }
  }

  lemma NotOverlaid(netbox: ZoneMap, store: ZoneMap, zone: string)
    requires zone !in store
    ensures Overlaid(netbox, store, zone) == AtZone(netbox, zone)
  {
  }

  /** A dynamic record makes the reverse discoverer panic. */
  ghost predicate Panics(store: ZoneMap, disc: Option<Discoverer>, order: seq<string>) {
    disc.Some? && exists r :: r in AllDynamic(store, order) && PlaceRecord(disc.value, r).Panic?
  }

  /** None for a panic. */
  method Merged(netbox: ZoneMap, store: ZoneMap, disc: Option<Discoverer>, order: seq<string>) returns (merged: Option<ZoneMap>)
    requires Enumerates(order, store.Keys)
    ensures merged.None? <==> Panics(store, disc, order)
    ensures merged.Some? ==> IsMerged(netbox, store, disc, order, merged.value)
  {
    hide IsMerged, IsOverlaid, Enumerates, AllDynamic, PtrsIn, PlaceRecord;
    var base, allDynamic := Overlay(netbox, store, order);
    var ptrs: ZoneMap := map[];
    if disc.Some? && |allDynamic| > 0 {
      var found := Discover(disc.value, allDynamic);
      if found.None? {
        return None;
      }
      ptrs := found.value;
    } else {
      NoPtrs(disc);
    }
    var all := AddPtrs(base, ptrs);
    LoopsMerge(netbox, store, disc, order, base, ptrs, all);
    return Some(all);
  }

  lemma NoPtrs(disc: Option<Discoverer>)
    ensures disc.Some? ==> forall z :: PtrsIn(disc.value, z, []) == []
  {
  }

  /**
   * Merge, mirror, and say whether anything changed; None if the merge panics, nothing having been written. `order` is
   * the order the store lists its zones in.
   */
  method Write(H: Hash, netbox: ZoneMap, store: ZoneMap, order: seq<string>, disc: Option<Discoverer>, mgr: Manager, clock: string -> int)
    returns (changed: Option<bool>, ghost merged: ZoneMap, ghost stats: Stats)
    requires mgr.Valid() && Enumerates(order, store.Keys)
    modifies mgr, mgr.generators.Values
    ensures mgr.Valid() && (changed.None? <==> Panics(store, disc, order))
    ensures changed.None? ==> mgr.State() == old(mgr.State())
    ensures changed.Some? ==>
      && IsMerged(netbox, store, disc, order, merged)
      && IsUpdate(old(mgr.State()), OutcomesOf(H, mgr.settings, old(mgr.State()), merged, clock), mgr.State())
      && IsStats(old(mgr.State()), OutcomesOf(H, mgr.settings, old(mgr.State()), merged, clock), stats)
      && (changed.value <==> stats.created + stats.updated + stats.deleted > 0)
  {
    hide IsMerged, IsUpdate, IsStats, OutcomesOf, Enumerates, Panics;
    merged, stats := map[], Stats(0, 0, 0);
    var all := Merged(netbox, store, disc, order);
    if all.None? {
      return None, merged, stats;
    }
    var counts := mgr.Update(H, all.value, clock);
    changed := Some(counts.created + counts.updated + counts.deleted > 0);
    merged, stats := all.value, counts;
  }

  // ---- the order of iteration --------------------------------------------------------------------------------

  lemma {:induction false} AllDynamicSplit(store: ZoneMap, a: seq<string>, b: seq<string>)
    ensures AllDynamic(store, a + b) == AllDynamic(store, a) + AllDynamic(store, b)
    decreases |b|
  {
    if b == [] {
      assert a + b == a;
      assert AllDynamic(store, a) + [] == AllDynamic(store, a);
    } else {
      var k := |b| - 1;
      assert (a + b)[..|a + b| - 1] == a + b[..k];
      AllDynamicSplit(store, a, b[..k]);
      Strings.Assoc(AllDynamic(store, a), AllDynamic(store, b[..k]), AtZone(store, b[k]));
    }
  }

  lemma {:induction false} AllDynamicAt(store: ZoneMap, b: seq<string>, i: nat)
    requires i < |b|
    ensures multiset(AllDynamic(store, b)) == multiset(AtZone(store, b[i])) + multiset(AllDynamic(store, b[..i] + b[i + 1..]))
  {
    hide AllDynamic, AtZone;
    var x, y, z := AllDynamic(store, b[..i]), AtZone(store, b[i]), AllDynamic(store, b[i + 1..]);
    SplitAt(b, i);
    AllDynamicSplit(store, b[..i], [b[i]]);
    AllDynamicSplit(store, b[..i] + [b[i]], b[i + 1..]);
    OneZone(store, b[i]);
    AllDynamicSplit(store, b[..i], b[i + 1..]);
    MiddleOut(x, y, z);
  }

  lemma SplitAt(b: seq<string>, i: nat)
    requires i < |b|
    ensures b[..i] + [b[i]] + b[i + 1..] == b
  {
  }

  lemma MiddleOut(x: seq<IPRecord>, y: seq<IPRecord>, z: seq<IPRecord>)
    ensures multiset(x + y + z) == multiset(y) + multiset(x + z)
  {
  }

  lemma {:induction false} AllDynamicIgnoresOrder(store: ZoneMap, a: seq<string>, b: seq<string>)
    requires multiset(a) == multiset(b)
    ensures multiset(AllDynamic(store, a)) == multiset(AllDynamic(store, b))
    decreases |a|
  {
    hide AllDynamic, AtZone;
    assert |a| == |multiset(a)| == |multiset(b)| == |b|;
    if a != [] {
      assert a[0] in multiset(b);
      var i :| 0 <= i < |b| && b[i] == a[0];
      RemoveAt(a, 0);
      RemoveAt(b, i);
      AllDynamicIgnoresOrder(store, a[..0] + a[1..], b[..i] + b[i + 1..]);
      AllDynamicAt(store, a, 0);
      AllDynamicAt(store, b, i);
    } else {
      assert b == [];
    }
  }

  lemma OneZone(store: ZoneMap, zone: string)
    ensures AllDynamic(store, [zone]) == AtZone(store, zone)
  {
    assert AllDynamic(store, []) + AtZone(store, zone) == AtZone(store, zone);
  }

  lemma {:induction false} EnumerationsPermute(a: seq<string>, b: seq<string>, s: set<string>)
    requires Enumerates(a, s) && Enumerates(b, s)
    ensures multiset(a) == multiset(b)
  {
    EnumeratesOnce(a, s);
    EnumeratesOnce(b, s);
  }

  lemma {:induction false} EnumeratesOnce(keys: seq<string>, s: set<string>)
    requires Enumerates(keys, s)
    ensures multiset(keys) == multiset(s)
    decreases |keys|
  {
    if keys == [] {
      assert s == {};
    } else {
      var k := keys[0];
      forall i, j | 0 <= i < j < |keys[1..]| ensures keys[1..][i] != keys[1..][j] {
        assert keys[i + 1] != keys[j + 1];
      }
      EnumeratesOnce(keys[1..], s - {k});
      assert keys == [k] + keys[1..];
      assert multiset(s) == multiset(s - {k}) + multiset{k};
    }
  }

  lemma {:induction false} PtrsAreData(disc: Option<Discoverer>, store: ZoneMap, order: seq<string>, zone: string)
    ensures forall p :: p in DynamicPtrs(disc, store, order, zone) ==> !p.IsCNAME()
  {
    if disc.Some? {
      var f := (r: IPRecord) => PtrOf(disc.value, r);
      var kept := Filter((r: IPRecord) => PlacedIn(disc.value, zone, r), AllDynamic(store, order));
      forall p: IPRecord | p in Map(f, kept) ensures !p.IsCNAME() {
        var i :| 0 <= i < |kept| && Map(f, kept)[i] == p;
        assert p == PtrOf(disc.value, kept[i]);
      }
    }
  }

  lemma {:induction false} NoAliases(rs: seq<IPRecord>)
    requires forall r :: r in rs ==> !r.IsCNAME()
    ensures Filter(Collisions.IsAlias, rs) == []
  {
    if rs != [] { NoAliases(rs[1..]); }
  }

  lemma SameLabels(a: seq<IPRecord>, b: seq<IPRecord>)
    requires multiset(a) == multiset(b)
    ensures LabelsOf(a) == LabelsOf(b) && (a == [] <==> b == [])
  {
    assert |a| == |multiset(a)| == |multiset(b)| == |b|;
    assert forall r :: r in a <==> r in multiset(a);
    assert forall r :: r in b <==> r in multiset(b);
  }

  lemma {:induction false} WithPtrsIgnoresOrder(records: seq<IPRecord>, a: seq<IPRecord>, b: seq<IPRecord>)
    requires multiset(a) == multiset(b)
    requires (forall r :: r in a ==> !r.IsCNAME()) && (forall r :: r in b ==> !r.IsCNAME())
    ensures multiset(WithPtrs(records, a)) == multiset(WithPtrs(records, b))
    ensures Filter(Collisions.IsAlias, WithPtrs(records, a)) == Filter(Collisions.IsAlias, WithPtrs(records, b))
  {
    SameLabels(a, b);
    if a != [] {
      var labels := LabelsOf(a);
      var left := Filter((r: IPRecord) => r.address !in labels, records);
      assert WithPtrs(records, a) == left + a && WithPtrs(records, b) == left + b by { SameFilter(records, a, b); }
      FilterAppend(Collisions.IsAlias, left, a);
      FilterAppend(Collisions.IsAlias, left, b);
      NoAliases(a);
      NoAliases(b);
    }
  }

  lemma SameFilter(records: seq<IPRecord>, a: seq<IPRecord>, b: seq<IPRecord>)
    requires LabelsOf(a) == LabelsOf(b)
    ensures Filter((r: IPRecord) => r.address !in LabelsOf(a), records) == Filter((r: IPRecord) => r.address !in LabelsOf(b), records)
  {
    FilterSame((r: IPRecord) => r.address !in LabelsOf(a), (r: IPRecord) => r.address !in LabelsOf(b), records);
  }

  lemma {:induction false} FilterSame(p: IPRecord -> bool, q: IPRecord -> bool, rs: seq<IPRecord>)
    requires forall r :: p(r) == q(r)
    ensures Filter(p, rs) == Filter(q, rs)
  {
    if rs != [] { FilterSame(p, q, rs[1..]); }
  }

  /** Two merges of the same inputs, listing the store's zones in different orders, hold the same records up to order. */
  lemma {:induction false} MergeIgnoresOrder(
      netbox: ZoneMap, store: ZoneMap, disc: Option<Discoverer>, order: seq<string>, other: seq<string>, m: ZoneMap, n: ZoneMap)
    requires Enumerates(order, store.Keys) && Enumerates(other, store.Keys)
    requires IsMerged(netbox, store, disc, order, m) && IsMerged(netbox, store, disc, other, n)
    ensures Mirror.SameUpToOrder(m, n)
  {
    hide PtrsIn, WithPtrs, Overlaid, Enumerates;
    EnumerationsPermute(order, other, store.Keys);
    AllDynamicIgnoresOrder(store, order, other);
    forall z
      ensures multiset(DynamicPtrs(disc, store, order, z)) == multiset(DynamicPtrs(disc, store, other, z))
    {
      if disc.Some? { PtrsIgnoreOrder(disc.value, z, AllDynamic(store, order), AllDynamic(store, other)); }
    }
    forall z ensures z in m <==> z in n {
      SameLabels(DynamicPtrs(disc, store, order, z), DynamicPtrs(disc, store, other, z));
    }
    forall z | z in m
      ensures multiset(m[z]) == multiset(n[z]) && Filter(Collisions.IsAlias, m[z]) == Filter(Collisions.IsAlias, n[z])
    {
      PtrsAreData(disc, store, order, z);
      PtrsAreData(disc, store, other, z);
      WithPtrsIgnoresOrder(Overlaid(netbox, store, z), DynamicPtrs(disc, store, order, z), DynamicPtrs(disc, store, other, z));
    }
  }

  /** The directory and what is remembered after a merge do not depend on the order the store lists its zones in. */
  lemma WriteIgnoresOrder(
      H: Hash, st: Settings, s: Managed, netbox: ZoneMap, store: ZoneMap, disc: Option<Discoverer>, clock: string -> int,
      order: seq<string>, other: seq<string>, m: ZoneMap, n: ZoneMap, t: Managed, u: Managed)
    requires Enumerates(order, store.Keys) && Enumerates(other, store.Keys)
    requires IsMerged(netbox, store, disc, order, m) && IsMerged(netbox, store, disc, other, n)
    requires IsUpdate(s, OutcomesOf(H, st, s, m, clock), t) && IsUpdate(s, OutcomesOf(H, st, s, n, clock), u)
    ensures t == u
  {
    hide Mirror.SameUpToOrder, IsMerged, IsUpdate, OutcomesOf, Enumerates;
    MergeIgnoresOrder(netbox, store, disc, order, other, m, n);
    Mirror.UpdateIgnoresOrder(H, st, s, m, n, clock, t, u);
  }

  /** Whether a merge panics does not depend on the listing order either. */
  lemma PanicsIgnoresOrder(store: ZoneMap, disc: Option<Discoverer>, order: seq<string>, other: seq<string>)
    requires Enumerates(order, store.Keys) && Enumerates(other, store.Keys)
    ensures Panics(store, disc, order) <==> Panics(store, disc, other)
  {
    hide AllDynamic, Enumerates, PlaceRecord;
    EnumerationsPermute(order, other, store.Keys);
    AllDynamicIgnoresOrder(store, order, other);
    assert forall r :: r in AllDynamic(store, order) <==> r in multiset(AllDynamic(store, order));
    assert forall r :: r in AllDynamic(store, other) <==> r in multiset(AllDynamic(store, other));
  }

  /**
   * A merge and the one after it, the store listing its zones in another order: the first leaves a directory that mirrors
   * the merged zones exactly when it misses none, and reports a change iff it changed the directory or forgot a zone whose
   * file had gone; the second changes and reports nothing.
   */
  lemma {:induction false} MergeMirrors(
      H: Hash, known: set<string>, st: Settings, s: Managed, netbox: ZoneMap, store: ZoneMap, disc: Option<Discoverer>,
      order: seq<string>, m: ZoneMap, clock: string -> int, t: Managed, stats: Stats,
      other: seq<string>, n: ZoneMap, later: string -> int, u: Managed, again: Stats)
    requires Enumerates(order, store.Keys) && Enumerates(other, store.Keys)
    requires IsMerged(netbox, store, disc, order, m) && IsMerged(netbox, store, disc, other, n)
    requires Mirror.InSync(H, known, st, s) && Mirror.CleanMap(H, known, st, m) && Separates(H, known)
    requires IsUpdate(s, OutcomesOf(H, st, s, m, clock), t) && IsStats(s, OutcomesOf(H, st, s, m, clock), stats)
    requires IsUpdate(t, OutcomesOf(H, st, t, n, later), u) && IsStats(t, OutcomesOf(H, st, t, n, later), again)
    ensures Mirror.InSync(H, known, st, t)
    ensures Mirror.Mirrors(H, st, t.disk, m) <==> forall z :: !Mirror.Missed(s, OutcomesOf(H, st, s, m, clock), z)
    ensures stats.created + stats.updated + stats.deleted > 0 <==> t.disk != s.disk || Mirror.GoneBefore(s, m)
    ensures u == t && again == Stats(0, 0, 0)
  {
    hide Mirror.SameUpToOrder, Mirror.InSync, Mirror.CleanMap, Mirror.Mirrors, Mirror.NoOthers, Mirror.Missed,
         Mirror.GoneBefore, Mirror.Shows, Mirror.AllSeen, IsMerged, IsUpdate, IsStats, OutcomesOf,
         Enumerates, Separates;
    Mirror.MirrorExact(H, known, st, s, m, clock, t);
    Mirror.ChangedExactlyWhen(H, known, st, s, m, clock, t, stats);
    MergeIgnoresOrder(netbox, store, disc, order, other, m, n);
    Mirror.OutcomesIgnoreOrder(H, st, t, m, n, later);
    Mirror.RepeatChangesNothing(H, st, s, m, clock, t, later, u, again);
  }

  // ---- what a merged zone holds ---------------------------------------------------------------------------------

  predicate Hits(d: Discoverer, zone: string, p: IPRecord, s: IPRecord) { PlacedIn(d, zone, s) && PtrOf(d, s) == p }

  function Positions(d: Discoverer, zone: string, rs: seq<IPRecord>, p: IPRecord): set<int> {
    set j | 0 <= j < |rs| && Hits(d, zone, p, rs[j])
  }

  lemma {:induction false} PtrsCounted(d: Discoverer, zone: string, rs: seq<IPRecord>, p: IPRecord)
    ensures multiset(PtrsIn(d, zone, rs))[p] == |Positions(d, zone, rs, p)|
  {
    hide PtrsIn, PtrOf, PlacedIn;
    if rs == [] {
      NoPtrs(Some(d));
      assert Positions(d, zone, [], p) == {};
    } else {
      var k := |rs| - 1;
      PtrsCounted(d, zone, rs[..k], p);
      PtrsSnoc(d, zone, rs, k);
      assert rs[..k + 1] == rs;
      var before := Positions(d, zone, rs[..k], p);
      assert Positions(d, zone, rs, p) == if Hits(d, zone, p, rs[k]) then before + {k} else before;
    }
  }

  /** The dynamic records whose PTR in the zone this is, by zone and position. */
  function Sources(d: Discoverer, zone: string, store: ZoneMap, zones: set<string>, p: IPRecord): set<(string, int)> {
    set w, j | w in zones && w in store && j in Positions(d, zone, store[w], p) :: (w, j)
  }

  function PairsOf<T(!new, ==)>(w: string, js: set<T>): set<(string, T)> { set j | j in js :: (w, j) }

  lemma SourcesOfOne(d: Discoverer, zone: string, store: ZoneMap, w: string, p: IPRecord)
    requires w in store
    ensures |Sources(d, zone, store, {w}, p)| == |Positions(d, zone, store[w], p)|
  {
    hide Positions;
    PairsCounted(w, Positions(d, zone, store[w], p));
    var js := Positions(d, zone, store[w], p);
    forall v: string, j: int ensures (v, j) in Sources(d, zone, store, {w}, p) <==> (v, j) in PairsOf(w, js) {
      if (v, j) in PairsOf(w, js) { assert v == w && j in js; }
    }
    assert Sources(d, zone, store, {w}, p) == PairsOf(w, js);
  }

  lemma {:induction false} PairsCounted<T(!new)>(w: string, js: set<T>)
    ensures |PairsOf(w, js)| == |js|
  {
    if j :| j in js {
      PairsCounted(w, js - {j});
      assert PairsOf(w, js) == PairsOf(w, js - {j}) + {(w, j)};
    } else {
      assert PairsOf(w, js) == {} && js == {};
    }
  }

  lemma SourcesSplit(d: Discoverer, zone: string, store: ZoneMap, zones: set<string>, w: string, p: IPRecord)
    requires w !in zones
    ensures |Sources(d, zone, store, zones + {w}, p)| == |Sources(d, zone, store, zones, p)| + |Sources(d, zone, store, {w}, p)|
  {
    hide Positions;
    var x, y := Sources(d, zone, store, zones, p), Sources(d, zone, store, {w}, p);
    assert Sources(d, zone, store, zones + {w}, p) == x + y && x !! y;
  }

  lemma {:induction false} SourcesCounted(d: Discoverer, zone: string, store: ZoneMap, order: seq<string>, p: IPRecord)
    requires (forall w :: w in order ==> w in store) && forall i, j :: 0 <= i < j < |order| ==> order[i] != order[j]
    ensures multiset(PtrsIn(d, zone, AllDynamic(store, order)))[p] == |Sources(d, zone, store, (set w | w in order), p)|
  {
    hide PtrsIn, Positions;
    if order == [] {
      NoPtrs(Some(d));
      assert Sources(d, zone, store, (set w | w in order), p) == {};
    } else {
      var k := |order| - 1;
      var w, before := order[k], set v | v in order[..k];
      SourcesCounted(d, zone, store, order[..k], p);
      SourcesOfOne(d, zone, store, w, p);
      PtrsCounted(d, zone, store[w], p);
      PtrsAppend(d, zone, AllDynamic(store, order[..k]), store[w]);
      SourcesSplit(d, zone, store, before, w, p);
      assert (set v | v in order) == before + {w};
    }
  }

  lemma {:induction false} PtrsAppend(d: Discoverer, zone: string, a: seq<IPRecord>, b: seq<IPRecord>)
    ensures PtrsIn(d, zone, a + b) == PtrsIn(d, zone, a) + PtrsIn(d, zone, b)
  {
    var keep, f := (r: IPRecord) => PlacedIn(d, zone, r), (r: IPRecord) => PtrOf(d, r);
    FilterAppend(keep, a, b);
    MapAppend(f, Filter(keep, a), Filter(keep, b));
  }

  lemma {:induction false} InAllDynamic(store: ZoneMap, order: seq<string>, s: IPRecord)
    requires forall w :: w in order ==> w in store
    ensures s in AllDynamic(store, order) <==> exists w :: w in order && s in store[w]
  {
    if order != [] {
      var k := |order| - 1;
      InAllDynamic(store, order[..k], s);
      assert forall w :: w in order <==> w in order[..k] || w == order[k];
    }
  }

  /** Some dynamic record has a PTR in the zone, with this label if one is given. */
  ghost predicate HasPtr(d: Discoverer, store: ZoneMap, zone: string, withLabel: Option<string>) {
    exists w, s :: w in store && s in store[w] && PlacedIn(d, zone, s) && (withLabel.None? || PtrOf(d, s).address == withLabel.value)
  }

  lemma {:induction false} PtrLabels(d: Discoverer, store: ZoneMap, order: seq<string>, zone: string, name: string)
    requires Enumerates(order, store.Keys)
    ensures PtrsIn(d, zone, AllDynamic(store, order)) != [] <==> HasPtr(d, store, zone, None)
    ensures name in LabelsOf(PtrsIn(d, zone, AllDynamic(store, order))) <==> HasPtr(d, store, zone, Some(name))
  {
    hide PtrsIn, PtrOf, PlacedIn, AllDynamic, Enumerates;
    Members(order, store.Keys);
    var rs := AllDynamic(store, order);
    forall s ensures s in rs <==> exists w :: w in store && s in store[w] { InAllDynamic(store, order, s); }
    forall p ensures p in PtrsIn(d, zone, rs) <==> exists s :: s in rs && PlacedIn(d, zone, s) && p == PtrOf(d, s) {
      PtrSource(d, zone, rs, p);
    }
    if PtrsIn(d, zone, rs) != [] {
      assert PtrsIn(d, zone, rs)[0] in PtrsIn(d, zone, rs);
    }
    if HasPtr(d, store, zone, None) {
      var w, s :| w in store && s in store[w] && PlacedIn(d, zone, s);
      assert PtrOf(d, s) in PtrsIn(d, zone, rs);
    }
  }

  /**
   * What a merged zone holds, record by record and as often: the PTRs of the dynamic records placed there; and, where none
   * of those has its address field for a label, the dynamic records of the zone and the NetBox records whose name no
   * dynamic record of the zone has. The zones are those of NetBox, those of the store, and those of the PTRs.
   */
  lemma {:induction false} MergedMeans(
      netbox: ZoneMap, store: ZoneMap, disc: Option<Discoverer>, order: seq<string>, m: ZoneMap, zone: string, r: IPRecord)
    requires Enumerates(order, store.Keys) && IsMerged(netbox, store, disc, order, m)
    ensures zone in m <==> zone in netbox || zone in store || (disc.Some? && HasPtr(disc.value, store, zone, None))
    ensures multiset(AtZone(m, zone))[r] ==
              (if disc.None? then 0 else |Sources(disc.value, zone, store, store.Keys, r)|)
              + if disc.Some? && HasPtr(disc.value, store, zone, Some(r.address)) then 0
                else multiset(AtZone(store, zone))[r]
                     + if exists x :: x in AtZone(store, zone) && x.dnsName == r.dnsName then 0 else multiset(AtZone(netbox, zone))[r]
  {
    hide Enumerates, Filter, AllDynamic, PtrsIn, HasPtr, Sources;
    var ptrs, base := DynamicPtrs(disc, store, order, zone), Overlaid(netbox, store, zone);
    OverlaidCounted(netbox, store, zone, r);
    FilterMultiset((x: IPRecord) => x.address !in LabelsOf(ptrs), base, r);
    if disc.Some? {
      PtrLabels(disc.value, store, order, zone, r.address);
      Members(order, store.Keys);
      Once(order, store.Keys);
      SourcesCounted(disc.value, zone, store, order, r);
      assert (set w | w in order) == store.Keys;
    }
  }

  lemma Once(order: seq<string>, keys: set<string>)
    requires Enumerates(order, keys)
    ensures forall i, j :: 0 <= i < j < |order| ==> order[i] != order[j]
  {
  }

  lemma {:induction false} OverlaidCounted(netbox: ZoneMap, store: ZoneMap, zone: string, r: IPRecord)
    ensures multiset(Overlaid(netbox, store, zone))[r] ==
              multiset(AtZone(store, zone))[r]
              + if exists x :: x in AtZone(store, zone) && x.dnsName == r.dnsName then 0 else multiset(AtZone(netbox, zone))[r]
  {
    hide Filter;
    var dyn := AtZone(store, zone);
    FilterMultiset((x: IPRecord) => x.dnsName !in NamesOf(dyn), AtZone(netbox, zone), r);
  }

  // ---- shadowing ----------------------------------------------------------------------------------------------

  /** After the merge a name of a forward overlay belongs to the dynamic store alone, and no dynamic record is lost. */
  lemma {:induction false} DynamicShadowsNames(netbox: ZoneMap, store: ZoneMap, zone: string, name: string)
    requires name in NamesOf(AtZone(store, zone))
    ensures forall r: IPRecord :: r.dnsName == name ==> (r in Overlaid(netbox, store, zone) <==> r in AtZone(store, zone))
    ensures forall r: IPRecord :: r.dnsName !in NamesOf(AtZone(store, zone)) ==>
              (r in Overlaid(netbox, store, zone) <==> r in AtZone(netbox, zone))
  {
  }

  lemma {:induction false} PtrSource(d: Discoverer, zone: string, rs: seq<IPRecord>, p: IPRecord)
    ensures p in PtrsIn(d, zone, rs) <==> exists r :: r in rs && PlacedIn(d, zone, r) && p == PtrOf(d, r)
  {
    var keep, f := (r: IPRecord) => PlacedIn(d, zone, r), (r: IPRecord) => PtrOf(d, r);
    var kept := Filter(keep, rs);
    if p in Map(f, kept) {
      var i :| 0 <= i < |kept| && Map(f, kept)[i] == p;
      assert kept[i] in rs && PlacedIn(d, zone, kept[i]) && p == PtrOf(d, kept[i]);
    }
    if r :| r in rs && PlacedIn(d, zone, r) && p == PtrOf(d, r) {
      assert r in kept;
      var i :| 0 <= i < |kept| && kept[i] == r;
      assert Map(f, kept)[i] == p;
    }
  }

  /**
   * A NetBox PTR of a record loses to the dynamic records exactly when one of them, placed in the same zone, has the
   * same address: shadowing by label is shadowing by address.
   */
  lemma {:induction false} PtrShadowedExactlyWhen(d: Discoverer, zone: string, dynamic: seq<IPRecord>, r: IPRecord)
    requires ReverseZones(d.zones4, V4_SUFFIX) && ReverseZones(d.zones6, V6_SUFFIX)
    requires PlacedIn(d, zone, r)
    ensures PtrOf(d, r).address in LabelsOf(PtrsIn(d, zone, dynamic)) <==>
              exists s :: s in dynamic && PlacedIn(d, zone, s) && d.parse(s.address) == d.parse(r.address)
  {
    hide Place, PtrsIn;
    if PtrOf(d, r).address in LabelsOf(PtrsIn(d, zone, dynamic)) {
      var p :| p in PtrsIn(d, zone, dynamic) && p.address == PtrOf(d, r).address;
      PtrSource(d, zone, dynamic, p);
      var s :| s in dynamic && PlacedIn(d, zone, s) && p == PtrOf(d, s);
      LabelIdentifiesAddress(d.parse(s.address).value, d.parse(r.address).value, d.zones4, d.zones6);
    }
    if s :| s in dynamic && PlacedIn(d, zone, s) && d.parse(s.address) == d.parse(r.address) {
      PtrSource(d, zone, dynamic, PtrOf(d, s));
      assert PtrOf(d, s).address == PtrOf(d, r).address;
    }
  }
}
