/** Mirroring a zone map to a directory (internal/zonemanager/manager.go). */
module ZoneManager {
  import opened Wrappers
  import opened Strings
  import opened Sorting
  import opened ZoneDir
  import opened Records
  import opened ZoneText
  import opened Stamps
  import G = Generator

  /** The parameters every zone shares. */
  datatype Settings = Settings(primaryNS: string, primaryNSIP: string, adminEmail: string, ttl: nat, soa: SOATimers)

  predicate IsReverseZone(zone: string) { HasSuffix(zone, ".in-addr.arpa") || HasSuffix(zone, ".ip6.arpa") }

  function ConfigFor(st: Settings, zone: string): ZoneConfig {
    ZoneConfig(zone, st.primaryNS, st.adminEmail, st.ttl, if IsReverseZone(zone) then Reverse else Forward, st.soa, st.primaryNSIP)
  }

  // ---- one update --------------------------------------------------------------------------------------

  /** What a manager remembers, and the directory. */
  datatype Managed = Managed(memories: map<string, G.Memory>, disk: Files)

  datatype Stats = Stats(created: nat, updated: nat, deleted: nat)

  type Outcomes = map<string, G.Outcome>

  /** What is known of a zone where this file is found. */
  function MemoryFor(H: Hash, st: Settings, s: Managed, zone: string, file: Option<string>): G.Memory {
    if zone in s.memories then s.memories[zone] else G.Opened(H, ConfigFor(st, zone), file)
  }

  /** A zone is generated from what is known of it when its turn comes: its file may have gone by then. */
  function OutcomeOf(H: Hash, st: Settings, s: Managed, zm: ZoneMap, clock: string -> int, zone: string): G.Outcome
    requires zone in zm
    decreases |zone|
  {
    var gone := IsTmp(zone) && BaseOf(zone) in zm && OutcomeOf(H, st, s, zm, clock, BaseOf(zone)).out.Some?;
    G.Generated(H, MemoryFor(H, st, s, zone, if gone then None else FileAt(s.disk, zone)), zm[zone], clock(zone))
  }

  function OutcomesOf(H: Hash, st: Settings, s: Managed, zm: ZoneMap, clock: string -> int): Outcomes {
    map z | z in zm :: OutcomeOf(H, st, s, zm, clock, z)
  }

  /** The file a zone has when its turn comes. */
  function Found(s: Managed, os: Outcomes, zone: string): Option<string> { Left(s.disk, Written(os), zone) }

  /** Each zone of the map is generated from what was known of it before the update and from what is left of its file. */
  lemma {:induction false} OutcomesAre(H: Hash, st: Settings, s: Managed, zm: ZoneMap, clock: string -> int)
    ensures var os := OutcomesOf(H, st, s, zm, clock);
            os.Keys == zm.Keys && forall z :: z in zm ==>
              os[z] == G.Generated(H, MemoryFor(H, st, s, z, Found(s, os, z)), zm[z], clock(z))
  {
    hide G.Generated, MemoryFor, FileAt, BaseOf, IsTmp, TmpsOf;
    var os := OutcomesOf(H, st, s, zm, clock);
    forall z | z in zm ensures os[z] == G.Generated(H, MemoryFor(H, st, s, z, Found(s, os, z)), zm[z], clock(z)) {
      InTmpsOf(Written(os), z);
    }
  }

  ghost predicate ZoneUpdated(o: G.Outcome, before: Option<string>, t: Managed, zone: string) {
    && zone in t.memories && t.memories[zone] == o.memory
    && FileAt(t.disk, zone) == if o.out.Some? then o.out else before
  }

  ghost predicate OtherFilesSame(s: Managed, t: Managed) {
    forall f :: !IsZonePath(f) ==> (f in t.disk <==> f in s.disk) && (f in t.disk ==> t.disk[f] == s.disk[f])
  }

  /**
   * What is left of a zone that is not active. A listing does not show a file whose zone name holds a slash, so that
   * one goes only with a generator that still knows it.
   */
  function Survivor(s: Managed, os: Outcomes, zone: string): Option<string> {
    if Flat(zone) || zone in s.memories then None else Found(s, os, zone)
  }

  /** t is s after an update: each zone of the map generated, the others removed as far as they are seen, other files untouched. */
  ghost predicate IsUpdate(s: Managed, os: Outcomes, t: Managed) {
    && t.memories.Keys == os.Keys
    && (forall z :: z in os ==> ZoneUpdated(os[z], Found(s, os, z), t, z))
    && (forall z :: z !in os ==> FileAt(t.disk, z) == Survivor(s, os, z))
    && OtherFilesSame(s, t)
  }

  function Written(os: Outcomes): set<string> { set z | z in os && os[z].out.Some? }

  function Orphans(s: Managed, active: set<string>): set<string> { (s.memories.Keys + ZonesOn(s.disk)) - active }

  /** The zones removed at the end of an update. */
  function Removed(s: Managed, os: Outcomes): set<string> {
    (s.memories.Keys + (ZonesOn(s.disk) - TmpsOf(Written(os)))) - os.Keys
  }

  ghost predicate IsStats(s: Managed, os: Outcomes, stats: Stats) {
    && stats.created == |Written(os) - s.memories.Keys|
    && stats.updated == |Written(os) * s.memories.Keys|
    && stats.deleted == |Removed(s, os)|
  }

  // ---- zone by zone --------------------------------------------------------------------------------------

  function Put(s: Managed, zone: string, o: G.Outcome): Managed {
    Managed(s.memories[zone := o.memory], if o.out.Some? then (s.disk - {FileName(TmpOf(zone))})[FileName(zone) := o.out.value] else s.disk)
  }

  function AfterZones(s: Managed, os: Outcomes, zones: seq<string>): Managed
    requires forall z :: z in zones ==> z in os
  {
    if zones == [] then s
    else
      var k := |zones| - 1;
      assert zones[k] in zones;
      Put(AfterZones(s, os, zones[..k]), zones[k], os[zones[k]])
  }

  /** Without the generators of other zones and their files, and without the listed files of other zones. */
  function WithoutOrphans(s: Managed, active: set<string>): Managed {
    Managed(map z | z in s.memories && z in active :: s.memories[z],
            KeptFiles(Without(s.disk, FilesOf(Inactive(s.memories.Keys, active))), active))
  }

  lemma {:induction false} PutIsLocal(s: Managed, zone: string, o: G.Outcome)
    ensures var t := Put(s, zone, o);
            && (forall z :: z != zone ==> (z in t.memories <==> z in s.memories) && (z in t.memories ==> t.memories[z] == s.memories[z]))
            && (forall z :: z != zone ==> FileAt(t.disk, z) == if o.out.Some? && z == TmpOf(zone) then None else FileAt(s.disk, z))
            && OtherFilesSame(s, t) && ZoneUpdated(o, FileAt(s.disk, zone), t, zone)
  {
    hide FileName, IsZonePath, ZoneOfFile, Listed, Flat, TmpOf;
    NamesAreFiles();
    TmpNames(zone);
  }

  /** t is s after the zones of `done`. */
  ghost predicate AfterSome(s: Managed, os: Outcomes, done: seq<string>, t: Managed) {
    && (forall z :: z in done && z in os ==> ZoneUpdated(os[z], Left(s.disk, WrittenOf(os, done), z), t, z))
    && (forall z :: z !in done ==> (z in t.memories <==> z in s.memories) && (z in t.memories ==> t.memories[z] == s.memories[z]))
    && (forall z :: z !in done ==> FileAt(t.disk, z) == Left(s.disk, WrittenOf(os, done), z))
    && OtherFilesSame(s, t)
  }

  lemma LeftOfOneMore(files: Files, written: set<string>, zone: string, z: string)
    ensures Left(files, written + {zone}, z) == if z == TmpOf(zone) then None else Left(files, written, z)
  {
    hide FileAt;
    assert TmpsOf(written + {zone}) == TmpsOf(written) + {TmpOf(zone)};
  }

  lemma WrittenAfterOneMore(os: Outcomes, done: seq<string>, zone: string)
    requires zone in os
    ensures WrittenOf(os, done + [zone]) == if os[zone].out.Some? then WrittenOf(os, done) + {zone} else WrittenOf(os, done)
  {
  }

  lemma {:induction false} AfterOneMore(s: Managed, os: Outcomes, done: seq<string>, t: Managed, zone: string)
    requires zone in os && zone !in done && TmpOf(zone) !in done
    requires AfterSome(s, os, done, t)
    ensures AfterSome(s, os, done + [zone], Put(t, zone, os[zone]))
  {
    hide Put, FileAt, IsZonePath, Left, WrittenOf, TmpOf;
    PutIsLocal(t, zone, os[zone]);
    WrittenAfterOneMore(os, done, zone);
    TmpNames(zone);
    var u, after := Put(t, zone, os[zone]), WrittenOf(os, done + [zone]);
    forall z ensures Left(s.disk, after, z) == if os[zone].out.Some? && z == TmpOf(zone) then None else Left(s.disk, WrittenOf(os, done), z) {
      LeftOfOneMore(s.disk, WrittenOf(os, done), zone, z);
    }
    forall z | z in done + [zone] && z in os ensures ZoneUpdated(os[z], Left(s.disk, after, z), u, z) {
      if z != zone { assert ZoneUpdated(os[z], Left(s.disk, WrittenOf(os, done), z), t, z); }
    }
  }

  lemma NoZonesYet(s: Managed, os: Outcomes)
    ensures AfterZones(s, os, []) == s
  {
  }

  /** In the order of names a zone comes before the one whose file is its temporary file. */
  lemma {:induction false} NotYet(zones: seq<string>, k: nat)
    requires SortedStrings(zones) && k < |zones|
    ensures zones[k] !in zones[..k] && TmpOf(zones[k]) !in zones[..k]
  {
    PrefixIsLess(zones[k], TMP);
    forall i | 0 <= i < k ensures zones[i] != zones[k] && zones[i] != TmpOf(zones[k]) {
      LessTotal(zones[i], zones[k]);
    }
  }

  lemma PrefixSorted(zones: seq<string>, k: nat)
    requires SortedStrings(zones) && k <= |zones|
    ensures SortedStrings(zones[..k])
  {
  }

  lemma NothingDone(s: Managed, os: Outcomes)
    ensures AfterSome(s, os, [], s)
  {
    assert TmpsOf(WrittenOf(os, [])) == {};
  }

  lemma {:induction false} AfterZonesFacts(s: Managed, os: Outcomes, zones: seq<string>)
    requires (forall z :: z in zones ==> z in os) && SortedStrings(zones)
    ensures AfterSome(s, os, zones, AfterZones(s, os, zones))
  {
    if zones != [] {
      hide AfterSome, TmpOf, Put, SortedStrings;
      PrefixSorted(zones, |zones| - 1);
      var k := |zones| - 1;
      NotYet(zones, k);
      AfterZonesFacts(s, os, zones[..k]);
      AfterOneMore(s, os, zones[..k], AfterZones(s, os, zones[..k]), zones[k]);
      assert zones[..k] + [zones[k]] == zones;
    } else {
      NothingDone(s, os);
    }
  }

  lemma {:induction false} FileLeft(s: Managed, active: set<string>, zone: string)
    ensures FileAt(WithoutOrphans(s, active).disk, zone) == 
              if zone !in active && (Flat(zone) || zone in s.memories) then None else FileAt(s.disk, zone)
  {
    hide FileName, IsZonePath, ZoneOfFile, Listed, Flat;
    NamesAreFiles();
    InFilesOf(Inactive(s.memories.Keys, active), zone);
  }

  lemma InFilesOf(zones: set<string>, zone: string)
    ensures FileName(zone) in FilesOf(zones) <==> zone in zones
  {
    hide FileName, IsZonePath, ZoneOfFile, Listed, Flat;
    NamesAreFiles();
  }

  lemma {:induction false} OtherFilesLeft(s: Managed, active: set<string>)
    ensures OtherFilesSame(s, WithoutOrphans(s, active))
  {
    hide FileName, IsZonePath, ZoneOfFile, Listed, Flat;
    NamesAreFiles();
  }

  lemma {:induction false} RemovedAre(s: Managed, os: Outcomes, zones: seq<string>, t: Managed)
    requires forall z :: z in zones <==> z in os
    requires AfterSome(s, os, zones, t)
    ensures Orphans(t, os.Keys) == Removed(s, os)
  {
    hide FileName, Flat, ZonesOn, TmpsOf, ZoneUpdated;
    assert WrittenOf(os, zones) == Written(os);
    forall z ensures z in Orphans(t, os.Keys) <==> z in Removed(s, os) {
      ZonesOnDisk(s.disk, z);
      ZonesOnDisk(t.disk, z);
    }
  }

  lemma {:induction false} WithoutOrphansIsUpdate(s: Managed, os: Outcomes, zones: seq<string>, t: Managed)
    requires forall z :: z in zones <==> z in os
    requires AfterSome(s, os, zones, t)
    ensures IsUpdate(s, os, WithoutOrphans(t, os.Keys))
    ensures Orphans(t, os.Keys) == Removed(s, os)
  {
    hide FileAt, IsZonePath, Flat, KeptFiles, Orphans, Left, Removed;
    var u := WithoutOrphans(t, os.Keys);
    assert WrittenOf(os, zones) == Written(os);
    OtherFilesLeft(t, os.Keys);
    forall z | z in os ensures ZoneUpdated(os[z], Found(s, os, z), u, z) && z in t.memories {
      assert ZoneUpdated(os[z], Left(s.disk, WrittenOf(os, zones), z), t, z);
      FileLeft(t, os.Keys, z);
    }
    forall z | z !in os ensures FileAt(u.disk, z) == Survivor(s, os, z) {
      FileLeft(t, os.Keys, z);
    }
    RemovedAre(s, os, zones, t);
  }

  /** An update has one result. */
  lemma UpdateIsUnique(s: Managed, os: Outcomes, t: Managed, u: Managed)
    requires IsUpdate(s, os, t) && IsUpdate(s, os, u)
    ensures t == u
  {
    hide FileName, IsZonePath, ZoneOfFile, Listed, Flat, Found;
    NamesAreFiles();
    forall z | z in os ensures t.memories[z] == u.memories[z] && FileAt(t.disk, z) == FileAt(u.disk, z) {
      assert ZoneUpdated(os[z], Found(s, os, z), t, z) && ZoneUpdated(os[z], Found(s, os, z), u, z);
    }
    assert t.memories == u.memories;
    forall f ensures (f in t.disk <==> f in u.disk) && (f in t.disk ==> t.disk[f] == u.disk[f]) {
      if IsZonePath(f) {
        assert FileAt(t.disk, ZoneOfFile(f)) == FileAt(u.disk, ZoneOfFile(f));
      }
    }
    assert t.disk == u.disk;
  }

  // ---- counting --------------------------------------------------------------------------------------------

  function FilesOf(zones: set<string>): set<string> { set z | z in zones :: FileName(z) }

  function KeptFiles(disk: Files, active: set<string>): Files {
    map f | f in disk && (Listed(f) ==> ZoneOfFile(f) in active) :: disk[f]
  }

  function Without<T>(m: map<string, T>, gone: set<string>): map<string, T> { m - gone }

  lemma OneMoreWithout<T>(m: map<string, T>, gone: set<string>, k: string)
    ensures Without(m, gone + {k}) == Without(m, gone) - {k}
    ensures Without(m, {}) == m
  {
  }

  function Inactive(keys: set<string>, active: set<string>): set<string> { keys - active }

  lemma WithoutInactive<T>(m: map<string, T>, active: set<string>)
    ensures var left := Without(m, Inactive(m.Keys, active));
            && (forall k :: k in left <==> k in m && k in active)
            && (forall k :: k in left ==> left[k] == m[k])
  {
  }

  lemma OneMoreFile(gone: set<string>, zone: string)
    ensures FilesOf(gone + {zone}) == FilesOf(gone) + {FileName(zone)}
    ensures FilesOf({}) == {}
  {
  }

  /** `gone` are the inactive ones among the keys already looked at. */
  ghost predicate Looked(keys: set<string>, active: set<string>, todo: set<string>, gone: set<string>, count: nat) {
    todo <= keys && gone == keys - todo - active && count == |gone|
  }

  lemma LookAt(keys: set<string>, active: set<string>, todo: set<string>, gone: set<string>, count: nat, key: string)
    requires Looked(keys, active, todo, gone, count) && key in todo
    ensures key in active ==> Looked(keys, active, todo - {key}, gone, count)
    ensures key !in active ==> Looked(keys, active, todo - {key}, gone + {key}, count + 1)
  {
    if key !in active {
      assert keys - (todo - {key}) - active == gone + {key};
    } else {
      assert keys - (todo - {key}) - active == gone;
    }
  }

  /** The generators of zones that are not active go, and their files. */
  method RemoveOrphanGenerators<T>(generators: map<string, T>, disk: Files, active: set<string>)
    returns (left: map<string, T>, files: Files, deleted: nat)
    ensures left == Without(generators, Inactive(generators.Keys, active))
    ensures files == Without(disk, FilesOf(Inactive(generators.Keys, active)))
    ensures deleted == |Inactive(generators.Keys, active)|
  {
    hide FileName, FilesOf, Without, Looked;
    left, files, deleted := generators, disk, 0;
    ghost var gone: set<string> := {};
    var todo := generators.Keys;
    OneMoreFile({}, "");
    OneMoreWithout(generators, {}, "");
    OneMoreWithout(disk, {}, "");
    LookedAll(generators.Keys, active);
    while todo != {}
      invariant Looked(generators.Keys, active, todo, gone, deleted)
      invariant left == Without(generators, gone) && files == Without(disk, FilesOf(gone))
      decreases |todo|
    {
      var zone :| zone in todo;
      LookAt(generators.Keys, active, todo, gone, deleted, zone);
      todo := todo - {zone};
      if zone !in active {
        OneMoreFile(gone, zone);
        OneMoreWithout(disk, FilesOf(gone), FileName(zone));
        OneMoreWithout(generators, gone, zone);
        files := files - {FileName(zone)};
        deleted := deleted + 1;
        left := left - {zone};
        gone := gone + {zone};
      }
    }
    LookedDone(generators.Keys, active, gone, deleted);
  }

  lemma LookedAll(keys: set<string>, active: set<string>)
    ensures Looked(keys, active, keys, {}, 0)
  {
  }

  lemma LookedDone(keys: set<string>, active: set<string>, gone: set<string>, count: nat)
    requires Looked(keys, active, {}, gone, count)
    ensures gone == keys - active && count == |keys - active|
  {
  }

  method RemoveStaleFiles(disk: Files, active: set<string>) returns (kept: Files, deleted: nat)
    ensures kept == KeptFiles(disk, active) && deleted == |ZonesOn(disk) - active|
  {
    hide FileName, IsZonePath, ZoneOfFile, Listed, Flat, Without, Looked;
    kept, deleted := disk, 0;
    ghost var gone: set<string> := {};
    var todo := disk.Keys;
    ghost var staying := disk.Keys - StaleFiles(disk, active);
    OneMoreWithout(disk, {}, "");
    LookedAll(disk.Keys, staying);
    while todo != {}
      invariant Looked(disk.Keys, staying, todo, gone, deleted)
      invariant kept == Without(disk, gone) && todo <= disk.Keys
      decreases |todo|
    {
      var name :| name in todo;
      LookAt(disk.Keys, staying, todo, gone, deleted, name);
      todo := todo - {name};
      if Listed(name) && ZoneOfFile(name) !in active {
        OneMoreWithout(disk, gone, name);
        kept := kept - {name};
        deleted := deleted + 1;
        gone := gone + {name};
      }
    }
    LookedDone(disk.Keys, staying, gone, deleted);
    StaleCounted(disk, active, staying);
  }

  function StaleFiles(disk: Files, active: set<string>): set<string> {
    set f | f in disk && Listed(f) && ZoneOfFile(f) !in active
  }

  lemma StaleAreFiles(disk: Files, active: set<string>)
    ensures StaleFiles(disk, active) == FilesOf(ZonesOn(disk) - active)
  {
    hide FileName, IsZonePath, ZoneOfFile, Listed, Flat;
    NamesAreFiles();
  }

  lemma KeptWithoutStale(disk: Files, active: set<string>)
    ensures Without(disk, StaleFiles(disk, active)) == KeptFiles(disk, active)
  {
  }

  lemma {:induction false} StaleCounted(disk: Files, active: set<string>, staying: set<string>)
    requires staying == disk.Keys - StaleFiles(disk, active)
    ensures Without(disk, disk.Keys - staying) == KeptFiles(disk, active)
    ensures |disk.Keys - staying| == |ZonesOn(disk) - active|
  {
    assert disk.Keys - staying == StaleFiles(disk, active);
    hide FilesOf, ZonesOn, Without, KeptFiles, StaleFiles;
    StaleAreFiles(disk, active);
    KeptWithoutStale(disk, active);
    FilesCounted(ZonesOn(disk) - active);
  }

  lemma {:induction false} FilesCounted(zones: set<string>)
    ensures |FilesOf(zones)| == |zones|
  {
    if zones != {} {
      var z :| z in zones;
      NamesAreFiles();
      FilesCounted(zones - {z});
      assert FilesOf(zones) == FilesOf(zones - {z}) + {FileName(z)};
      assert FileName(z) !in FilesOf(zones - {z});
    }
  }

  lemma {:induction false} ZonesLeft(disk: Files, gone: set<string>)
    ensures ZonesOn(Without(disk, FilesOf(gone))) == ZonesOn(disk) - gone
  {
    hide FileName, IsZonePath, ZoneOfFile, Listed, Flat;
    NamesAreFiles();
  }

  lemma CountUnion<T>(k: set<T>, z: set<T>, active: set<T>)
    ensures |k - active| + |z - (k - active) - active| == |(k + z) - active|
  {
    var a, b := k - active, z - (k - active) - active;
    assert a + b == (k + z) - active;
    assert a !! b;
  }

  lemma {:induction false} OrphansCounted(keys: set<string>, disk: Files, active: set<string>)
    ensures var gone := Inactive(keys, active);
            |gone| + |ZonesOn(Without(disk, FilesOf(gone))) - active| == |(keys + ZonesOn(disk)) - active|
  {
    hide ZonesOn, KeptFiles, FilesOf, Without;
    ZonesLeft(disk, Inactive(keys, active));
    CountUnion(keys, ZonesOn(disk), active);
  }

  lemma IsWithoutOrphans(s: Managed, t: Managed, active: set<string>)
    requires t.disk == KeptFiles(Without(s.disk, FilesOf(Inactive(s.memories.Keys, active))), active)
    requires forall z :: z in t.memories <==> z in s.memories && z in active
    requires forall z :: z in t.memories ==> t.memories[z] == s.memories[z]
    ensures t == WithoutOrphans(s, active)
  {
    assert t.memories == WithoutOrphans(s, active).memories;
  }

  /** The zones of a list that are written. */
  function WrittenOf(os: Outcomes, zones: seq<string>): set<string> { set z | z in zones && z in os && os[z].out.Some? }

  lemma {:induction false} AfterZonesStep(s: Managed, os: Outcomes, zones: seq<string>, i: nat)
    requires i < |zones| && Enumerates(zones, os.Keys) && SortedStrings(zones)
    ensures var z, now := zones[i], AfterZones(s, os, zones[..i]);
            && z in os && (forall y :: y in zones[..i + 1] ==> y in os)
            && (z in s.memories <==> z in now.memories) && (z in s.memories ==> now.memories[z] == s.memories[z])
            && FileAt(now.disk, z) == Found(s, os, z)
            && AfterZones(s, os, zones[..i + 1]) == Put(AfterZones(s, os, zones[..i]), z, os[z])
  {
    hide Put, FileAt, IsZonePath, TmpsOf, ZoneUpdated;
    assert zones[..i + 1][..i] == zones[..i];
    AfterZonesFacts(s, os, zones[..i]);
    NotYet(zones, i);
    SoFar(s, os, zones, i);
  }

  /** How many of the zones were written for the first time and how many again. */
  ghost predicate Counted(os: Outcomes, zones: seq<string>, s: Managed, created: nat, updated: nat) {
    && created == |WrittenOf(os, zones) - s.memories.Keys|
    && updated == |WrittenOf(os, zones) * s.memories.Keys|
  }

  lemma NoneCounted(os: Outcomes, zones: seq<string>, s: Managed)
    ensures zones[..0] == [] && Counted(os, [], s, 0, 0)
  {
    assert WrittenOf(os, []) == {};
  }

  lemma OneMoreInside(a: set<string>, z: string, keys: set<string>)
    requires z !in a
    ensures |(a + {z}) * keys| == if z in keys then |a * keys| + 1 else |a * keys|
    ensures |(a + {z}) - keys| == if z in keys then |a - keys| else |a - keys| + 1
  {
    if z in keys {
      assert (a + {z}) * keys == a * keys + {z};
      assert (a + {z}) - keys == a - keys;
    } else {
      assert (a + {z}) * keys == a * keys;
      assert (a + {z}) - keys == a - keys + {z};
    }
  }

  lemma {:induction false} OneMoreWritten(os: Outcomes, zones: seq<string>, i: nat)
    requires i < |zones| && Enumerates(zones, os.Keys)
    ensures var z, before := zones[i], WrittenOf(os, zones[..i]);
            z in os && z !in before && WrittenOf(os, zones[..i + 1]) == if os[z].out.Some? then before + {z} else before
  {
    PrefixStep(zones, i);
  }

  lemma {:induction false} OneMoreCounted(os: Outcomes, zones: seq<string>, i: nat, s: Managed, created: nat, updated: nat)
    requires i < |zones| && Enumerates(zones, os.Keys) && Counted(os, zones[..i], s, created, updated)
    ensures var z := zones[i];
            z in os && Counted(os, zones[..i + 1], s, if os[z].out.Some? && z !in s.memories then created + 1 else created,
                               if os[z].out.Some? && z in s.memories then updated + 1 else updated)
  {
    hide WrittenOf, Enumerates;
    OneMoreWritten(os, zones, i);
    OneMoreInside(WrittenOf(os, zones[..i]), zones[i], s.memories.Keys);
  }

  /**
   * What the counters say: created and updated together are the zones written; nothing is created where every zone has a
   * generator, and nothing updated where none has; deleted are the zones not of the map that had a generator or, at the end,
   * a listed file.
   */
  lemma {:induction false} CountersMean(s: Managed, os: Outcomes, stats: Stats)
    requires IsStats(s, os, stats)
    ensures stats.created + stats.updated == |set z | z in os && os[z].out.Some?|
    ensures os.Keys <= s.memories.Keys ==> stats.created == 0
    ensures os.Keys !! s.memories.Keys ==> stats.updated == 0
    ensures forall gone: set<string> ::
              (forall z :: z in gone <==> z !in os && (z in s.memories || (Flat(z) && Found(s, os, z).Some?))) ==> stats.deleted == |gone|
  {
    hide Removed, Found, Written, Flat;
    forall z ensures z in Removed(s, os) <==> z !in os && (z in s.memories || (Flat(z) && Found(s, os, z).Some?)) { RemovedExactly(s, os, z); }
    forall gone: set<string> | forall z :: z in gone <==> z !in os && (z in s.memories || (Flat(z) && Found(s, os, z).Some?))
      ensures stats.deleted == |gone|
    {
      assert gone == Removed(s, os);
    }
    CreatedAndUpdated(s, os, stats);
    assert Written(os) == set z | z in os && os[z].out.Some? by { WrittenAre(os); }
  }

  lemma WrittenAre(os: Outcomes)
    ensures Written(os) == set z | z in os && os[z].out.Some?
  {
  }

  lemma RemovedExactly(s: Managed, os: Outcomes, zone: string)
    ensures zone in Removed(s, os) <==> zone !in os && (zone in s.memories || (Flat(zone) && Found(s, os, zone).Some?))
  {
    hide Written, TmpsOf, ZonesOn, FileName, Flat;
    ZonesOnDisk(s.disk, zone);
    FileAtThere(s.disk, zone);
  }

  lemma CreatedAndUpdated(s: Managed, os: Outcomes, stats: Stats)
    requires IsStats(s, os, stats)
    ensures stats.created + stats.updated == |Written(os)|
    ensures os.Keys <= s.memories.Keys ==> stats.created == 0
    ensures os.Keys !! s.memories.Keys ==> stats.updated == 0
  {
    var written, keys := Written(os), s.memories.Keys;
    assert written == (written - keys) + written * keys;
    assert os.Keys <= s.memories.Keys ==> written - keys == {};
    assert os.Keys !! s.memories.Keys ==> written * keys == {};
  }

  lemma AllCounted(os: Outcomes, zones: seq<string>, s: Managed, created: nat, updated: nat)
    requires Enumerates(zones, os.Keys) && Counted(os, zones, s, created, updated)
    ensures created == |Written(os) - s.memories.Keys| && updated == |Written(os) * s.memories.Keys|
  {
    assert WrittenOf(os, zones) == Written(os);
  }

  /** What is written from zone i on does not touch the file zone i has when its turn comes. */
  lemma {:induction false} SoFar(s: Managed, os: Outcomes, zones: seq<string>, i: nat)
    requires i < |zones| && Enumerates(zones, os.Keys) && SortedStrings(zones)
    ensures Left(s.disk, WrittenOf(os, zones[..i]), zones[i]) == Found(s, os, zones[i])
  {
    hide FileAt, TmpsOf, IsTmp, BaseOf, SortedStrings;
    var z := zones[i];
    InTmpsOf(WrittenOf(os, zones[..i]), z);
    InTmpsOf(Written(os), z);
    if z in TmpsOf(Written(os)) {
      var k :| 0 <= k < |zones| && zones[k] == BaseOf(z);
      TmpNames(z);
      NotYet(zones, k);
      assert zones[..i][k] == BaseOf(z);
    }
  }

  lemma OutcomesKeys(H: Hash, st: Settings, s: Managed, zm: ZoneMap, clock: string -> int)
    ensures OutcomesOf(H, st, s, zm, clock).Keys == zm.Keys
  {
  }

  lemma OutcomeNow(H: Hash, st: Settings, s: Managed, t: Managed, zm: ZoneMap, clock: string -> int, zone: string)
    requires zone in zm && (zone in s.memories <==> zone in t.memories) && (zone in s.memories ==> t.memories[zone] == s.memories[zone])
    requires FileAt(t.disk, zone) == Found(s, OutcomesOf(H, st, s, zm, clock), zone)
    ensures G.Generated(H, MemoryFor(H, st, t, zone, FileAt(t.disk, zone)), zm[zone], clock(zone)) == OutcomesOf(H, st, s, zm, clock)[zone]
  {
    hide G.Generated, G.Opened, ConfigFor, FileAt, OutcomesOf, Found;
    OutcomesAre(H, st, s, zm, clock);
  }

  lemma {:induction false} AllZones(s: Managed, os: Outcomes, zones: seq<string>)
    requires Enumerates(zones, os.Keys) && SortedStrings(zones)
    ensures var t := AfterZones(s, os, zones);
            IsUpdate(s, os, WithoutOrphans(t, os.Keys)) && Orphans(t, os.Keys) == Removed(s, os)
  {
    AfterZonesFacts(s, os, zones);
    WithoutOrphansIsUpdate(s, os, zones, AfterZones(s, os, zones));
  }

  // ---- the manager -----------------------------------------------------------------------------------------

  class Manager {
    const settings: Settings
    var generators: map<string, G.Generator>
    var disk: Files

    ghost predicate Valid()
      reads this`generators
    {
      forall z :: z in generators ==> generators[z].config.origin == z
    }

    ghost function Memories(): map<string, G.Memory>
      reads this, generators.Values
    {
      map z | z in generators :: generators[z].State()
    }

    ghost function State(): Managed
      reads this, generators.Values
    {
      Managed(Memories(), disk)
    }

    constructor (settings: Settings, disk: Files)
      ensures this.settings == settings && Valid() && State() == Managed(map[], disk)
    {
      this.settings := settings;
      this.disk := disk;
      generators := map[];
      new;

    }

    ghost function Now(H: Hash, zone: string): G.Memory
      reads this, generators.Values
    {
      MemoryFor(H, settings, State(), zone, FileAt(State().disk, zone))
    }

    ghost function NextOutcome(H: Hash, zone: string, records: seq<IPRecord>, clock: int): G.Outcome
      reads this, generators.Values
    {
      G.Generated(H, Now(H, zone), records, clock)
    }

    /** Make the zone's generator from its file if there is none. */
    method EnsureGenerator(H: Hash, zone: string) returns (isNew: bool)
      requires Valid()
      modifies this`generators
      ensures Valid() && isNew == (zone !in old(generators)) && zone in generators
      ensures forall z :: z in generators ==> fresh(generators[z]) || (z in old(generators) && generators[z] == old(generators)[z])
      ensures Memories() == old(Memories())[zone := old(Now(H, zone))]
    {
      hide G.Opened, FileAt;
      isNew := zone !in generators;
      if isNew {
        var gen := new G.Generator(H, ConfigFor(settings, zone), FileAt(disk, zone));
        generators := generators[zone := gen];
      }
    }

    method Regenerate(H: Hash, zone: string, records: seq<IPRecord>, clock: int) returns (content: string, changed: bool)
      requires Valid() && zone in generators
      modifies generators[zone]
      ensures Memories() == old(Memories())[zone := G.Generated(H, old(Memories())[zone], records, clock).memory]
      ensures G.Generated(H, old(Memories())[zone], records, clock).out == if changed then Some(content) else None
    {
      hide G.Generated;
      var count;
      content, changed, count := generators[zone].Generate(H, records, clock);
    }

    /** The zone's generator has generated; its file is not yet written. */
    method GenerateZone(H: Hash, zone: string, records: seq<IPRecord>, clock: int)
      returns (content: string, isNew: bool, changed: bool)
      requires Valid()
      modifies this`generators, generators.Values
      ensures Valid()
      ensures forall z :: z in generators ==> fresh(generators[z]) || (z in old(generators) && generators[z] == old(generators)[z])
      ensures Memories() == old(Memories())[zone := old(NextOutcome(H, zone, records, clock)).memory]
      ensures old(NextOutcome(H, zone, records, clock)).out == if changed then Some(content) else None
      ensures isNew == (zone !in old(generators))
    {
      hide G.Generated, MemoryFor, Memories;
      isNew := EnsureGenerator(H, zone);
      assert Memories()[zone] == old(Now(H, zone));
      content, changed := Regenerate(H, zone, records, clock);
    }

    method WriteZone(zone: string, content: string)
      modifies this`disk
      ensures disk == (old(disk) - {FileName(TmpOf(zone))})[FileName(zone) := content] && Memories() == old(Memories())
    {
      hide FileName;
      TmpNames(zone);
      disk := WriteFile(disk, FileName(zone), content);
    }

    /** One turn of the loop of Update. */
    method UpdateZone(H: Hash, zone: string, records: seq<IPRecord>, clock: int) returns (isNew: bool, changed: bool)
      requires Valid()
      modifies this, generators.Values
      ensures Valid()
      ensures forall z :: z in generators ==> fresh(generators[z]) || (z in old(generators) && generators[z] == old(generators)[z])
      ensures State() == Put(old(State()), zone, old(NextOutcome(H, zone, records, clock)))
      ensures isNew == (zone !in old(generators)) && changed == old(NextOutcome(H, zone, records, clock)).out.Some?
    {
      hide G.Generated, FileName, MemoryFor, Memories, TmpOf, FileAt;
      var content;
      content, isNew, changed := GenerateZone(H, zone, records, clock);
      if changed {
        WriteZone(zone, content);
      }
    }

    /** The generators of zones that are not active, and their files. */
    method ForgetGenerators(active: set<string>) returns (deleted: nat)
      requires Valid()
      modifies this
      ensures Valid()
      ensures forall z :: z in generators ==> z in old(generators) && generators[z] == old(generators)[z]
      ensures forall z :: z in generators <==> z in old(generators) && z in active
      ensures disk == Without(old(disk), FilesOf(Inactive(old(generators).Keys, active)))
      ensures deleted == |Inactive(old(generators).Keys, active)|
    {
      hide FileName, FilesOf, Without, Inactive;
      WithoutInactive(generators, active);
      generators, disk, deleted := RemoveOrphanGenerators(generators, disk, active);
    }

    /** Remove the generators and the files of zones that are not active. */
    method RemoveOrphans(active: set<string>) returns (deleted: nat)
      requires Valid()
      modifies this
      ensures Valid()
      ensures forall z :: z in generators ==> z in old(generators) && generators[z] == old(generators)[z]
      ensures State() == WithoutOrphans(old(State()), active)
      ensures deleted == |Orphans(old(State()), active)|
    {
      hide FilesOf, KeptFiles, ZonesOn, Without, Inactive, WithoutOrphans, Valid;
      OrphansCounted(generators.Keys, disk, active);
      deleted := ForgetGenerators(active);
      var stale;
      disk, stale := RemoveStaleFiles(disk, active);
      deleted := deleted + stale;
      assert old(Memories()).Keys == old(generators).Keys;
      IsWithoutOrphans(old(State()), State(), active);
    }

    /** The state and the counts after the first i zones. */
    ghost predicate Reached(zones: seq<string>, i: nat, before: Managed, os: Outcomes, created: nat, updated: nat)
      reads this, generators.Values
    {
      && i <= |zones| && Enumerates(zones, os.Keys) && (forall z :: z in zones[..i] ==> z in os)
      && State() == AfterZones(before, os, zones[..i])
      && Counted(os, zones[..i], before, created, updated)
    }

    /** One turn of the loop of Update, with its counting. */
    method UpdateNext(H: Hash, zoneMap: ZoneMap, clock: string -> int, zones: seq<string>, i: nat,
                      ghost before: Managed, ghost os: Outcomes, created: nat, updated: nat)
      returns (created': nat, updated': nat)
      requires Valid() && i < |zones| && zones[i] in zoneMap && SortedStrings(zones)
      requires os == OutcomesOf(H, settings, before, zoneMap, clock) && Reached(zones, i, before, os, created, updated)
      modifies this, generators.Values
      ensures Valid() && Reached(zones, i + 1, before, os, created', updated')
      ensures forall z :: z in generators ==> fresh(generators[z]) || (z in old(generators) && generators[z] == old(generators)[z])
    {
      hide G.Generated, MemoryFor, Put, Valid, FileAt, Memories, State, Counted, WrittenOf, AfterZones, Enumerates, OutcomesOf;
      AfterZonesStep(before, os, zones, i);
      OneMoreCounted(os, zones, i, before, created, updated);
      OutcomeNow(H, settings, before, State(), zoneMap, clock, zones[i]);
      Tracked(zones[i]);
      created', updated' := created, updated;
      var isNew, changed := UpdateZone(H, zones[i], zoneMap[zones[i]], clock(zones[i]));
      if changed {
        if isNew {
          created' := created + 1;
        } else {
          updated' := updated + 1;
        }
      }
    }

    /** The loop of Update. */
    method UpdateZones(H: Hash, zoneMap: ZoneMap, clock: string -> int, zones: seq<string>, ghost before: Managed, ghost os: Outcomes)
      returns (created: nat, updated: nat)
      requires Valid() && Enumerates(zones, zoneMap.Keys) && SortedStrings(zones)
      requires before == State() && os == OutcomesOf(H, settings, before, zoneMap, clock)
      modifies this, generators.Values
      ensures Valid()
      ensures forall z :: z in generators ==> fresh(generators[z]) || (z in old(generators) && generators[z] == old(generators)[z])
      ensures Reached(zones, |zones|, before, os, created, updated)
    {
      hide Valid, Memories, State, Reached, Enumerates, OutcomesOf;
      created, updated := 0, 0;
      var i := 0;
      OutcomesKeys(H, settings, before, zoneMap, clock);
      Members(zones, zoneMap.Keys);
      NoneReached(zones, os);
      while i < |zones|
        invariant 0 <= i <= |zones|
        invariant Valid() && Reached(zones, i, before, os, created, updated)
        invariant forall z :: z in generators ==> fresh(generators[z]) || (z in old(generators) && generators[z] == old(generators)[z])
      {
        created, updated := UpdateNext(H, zoneMap, clock, zones, i, before, os, created, updated);
        i := i + 1;
      }
    }

    lemma NoneReached(zones: seq<string>, os: Outcomes)
      requires Enumerates(zones, os.Keys)
      ensures Reached(zones, 0, State(), os, 0, 0)
    {
      NoneCounted(os, zones, State());
      NoZonesYet(State(), os);
    }

    lemma Tracked(zone: string)
      ensures zone in generators <==> zone in State().memories
    {
    }

    /**
     * Generate every zone of the map, in the order of their names, write the files that changed, and remove what is
     * left of zones no longer there.
     */
    method Update(H: Hash, zoneMap: ZoneMap, clock: string -> int) returns (stats: Stats)
      requires Valid()
      modifies this, generators.Values
      ensures Valid()
      ensures forall z :: z in generators ==> fresh(generators[z]) || (z in old(generators) && generators[z] == old(generators)[z])
      ensures IsUpdate(old(State()), OutcomesOf(H, settings, old(State()), zoneMap, clock), State())
      ensures IsStats(old(State()), OutcomesOf(H, settings, old(State()), zoneMap, clock), stats)
    {
      hide G.Generated, MemoryFor, Valid, WithoutOrphans, Orphans, IsUpdate, State, Counted, Written, AfterZones, Enumerates, SortedStrings, OutcomesOf;
      var zones := SortedKeys(zoneMap.Keys);
      ghost var before := State();
      ghost var os := OutcomesOf(H, settings, before, zoneMap, clock);
      var created, updated := UpdateZones(H, zoneMap, clock, zones, before, os);
      OutcomesKeys(H, settings, before, zoneMap, clock);
      assert zones[..|zones|] == zones;
      AllZones(before, os, zones);
      AllCounted(os, zones, before, created, updated);
      var deleted := RemoveOrphans(zoneMap.Keys);
      stats := Stats(created, updated, deleted);
    }

    /** At least one zone file is already there. */
    method HasExistingZones() returns (found: bool)
      ensures found <==> ZonesOn(disk) != {}
    {
      var names := disk.Keys;
      while names != {}
        invariant names <= disk.Keys && forall f :: f in disk.Keys - names ==> !Listed(f)
        decreases |names|
      {
        var name :| name in names;
        if Listed(name) {
          assert ZoneOfFile(name) in ZonesOn(disk);
          return true;
        }
        names := names - {name};
      }
      return false;
    }
  }
}
