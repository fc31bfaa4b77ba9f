/** The directory of a zone manager mirrors the zone map: what every update, and every run of updates and restarts, keeps. */
module Mirror {
  import opened Wrappers
  import opened Records
  import opened ZoneText
  import opened ZoneFile
  import opened Stamps
  import opened Fingerprint
  import opened Generator
  import opened ZoneManager
  import opened ZoneDir
  import Collisions

  // ---- one zone ------------------------------------------------------------------------------------------

  /** The file is v of this zone, and the texts hashed for v are among the known ones. */
  ghost predicate Rendered(H: Hash, known: set<string>, cfg: ZoneConfig, file: Option<string>, v: Version) {
    && SameZone(v.config, cfg) && CleanVersion(v) && VersionTexts(H, v) <= known
    && file == Some(FileOf(H, v))
  }

  /** A file found in the directory: not trusted (damaged, edited, foreign), or rendered by this program at some time. */
  ghost predicate Authentic(H: Hash, known: set<string>, cfg: ZoneConfig, file: string) {
    VerifiedHash(H, file) == "" || exists v :: Rendered(H, known, cfg, Some(file), v)
  }

  /** What is remembered of a zone fits its file. The file may have gone without the generator knowing. */
  ghost predicate Tracks(H: Hash, known: set<string>, cfg: ZoneConfig, file: Option<string>, m: Memory) {
    && m.config == Effective(cfg)
    && (file.Some? ==> m.lastHash == FoundHash(H, file))
    && (file.Some? && m.lastHash != "" ==>
          exists v :: Rendered(H, known, cfg, file, v) && m.lastHash == FingerprintOf(H, v.config, v.records))
  }

  /** The file shows the records, under the configuration in force, at some serial. */
  ghost predicate Shows(H: Hash, cfg: ZoneConfig, file: Option<string>, records: seq<IPRecord>) {
    exists serial :: file == Some(FileOf(H, Version(Effective(cfg), serial, Prepared(Effective(cfg), records))))
  }

  lemma {:induction false} VersionReadsBack(H: Hash, v: Version)
    requires CleanConfig(v.config)
    ensures VerifiedHash(H, FileOf(H, v)) == FingerprintOf(H, v.config, v.records)
  {
    hide Plain, Stamp, CleanConfig, VerifiedHash, FingerprintOf;
    var h := FingerprintOf(H, v.config, v.records);
    FingerprintIsHex(H, v.config, v.records);
    RenderedIsStampable(v.config, v.serial, v.records);
    StampRoundTrip(H, Plain(v.config, v.serial, v.records), h);
  }

  lemma {:induction false} OpenedTracks(H: Hash, known: set<string>, cfg: ZoneConfig, file: Option<string>)
    requires file.Some? ==> Authentic(H, known, cfg, file.value)
    ensures Tracks(H, known, cfg, file, Opened(H, cfg, file))
  {
    hide VerifiedHash, FingerprintOf, FoundSerial, HashedTexts, CleanConfig, AllEncodable, Published, Effective;
    if file.Some? && VerifiedHash(H, file.value) != "" {
      var v :| Rendered(H, known, cfg, file, v);
      VersionReadsBack(H, v);
    }
  }

  ghost predicate CleanInput(H: Hash, known: set<string>, cfg: ZoneConfig, records: seq<IPRecord>) {
    && CleanConfig(cfg)
    && AllEncodable(Prepared(Effective(cfg), records))
    && HashedTexts(H, Effective(cfg), Prepared(Effective(cfg), records)) <= known
  }

  function FileAfter(file: Option<string>, o: Outcome): Option<string> { if o.out.Some? then o.out else file }

  lemma {:induction false} WrittenShows(H: Hash, known: set<string>, cfg: ZoneConfig, file: Option<string>, m: Memory, records: seq<IPRecord>, clock: int)
    requires Tracks(H, known, cfg, file, m) && CleanInput(H, known, cfg, records)
    requires Generated(H, m, records, clock).out.Some?
    ensures var o := Generated(H, m, records, clock);
            Tracks(H, known, cfg, o.out, o.memory) && Shows(H, cfg, o.out, records) && o.out != file
  {
    hide VerifiedHash, FingerprintOf, HashedTexts, CleanConfig, AllEncodable, Published, Effective, Prepared;
    var o := Generated(H, m, records, clock);
    var v := Version(m.config, o.memory.serial, Prepared(m.config, records));
    assert o.out == Some(FileOf(H, v));
    EffectiveConfig(cfg);
    VersionReadsBack(H, v);
    assert Rendered(H, known, cfg, o.out, v);
  }

  lemma EffectiveConfig(cfg: ZoneConfig)
    ensures SameZone(Effective(cfg), cfg) && (CleanConfig(cfg) <==> CleanConfig(Effective(cfg)))
  {
  }

  lemma {:induction false} SkippedShows(H: Hash, known: set<string>, cfg: ZoneConfig, file: Option<string>, m: Memory, records: seq<IPRecord>, clock: int)
    requires Tracks(H, known, cfg, file, m) && CleanInput(H, known, cfg, records) && Separates(H, known)
    requires Generated(H, m, records, clock).out.None? && file.Some?
    ensures var o := Generated(H, m, records, clock);
            o.memory == m && Shows(H, cfg, file, records)
  {
    hide VerifiedHash, FingerprintOf, HashedTexts, CleanConfig, AllEncodable, Published, Effective, Prepared, Separates, FoundHash, FileOf;
    EffectiveConfig(cfg);
    FingerprintIsHex(H, m.config, Prepared(m.config, records));
    Unchanged(H, m, records, clock);
    var v :| Rendered(H, known, cfg, file, v) && m.lastHash == FingerprintOf(H, v.config, v.records);
    FewerTexts(H, VersionTexts(H, v) + HashedTexts(H, m.config, Prepared(m.config, records)), known);
    SkipSoundness(H, m, v, records, clock);
  }

  lemma Unchanged(H: Hash, m: Memory, records: seq<IPRecord>, clock: int)
    requires Generated(H, m, records, clock).out.None?
    ensures Generated(H, m, records, clock).memory == m && m.lastHash == FingerprintOf(H, m.config, Prepared(m.config, records))
  {
    hide FingerprintOf, Prepared, Published;
  }

  /**
   * Generating keeps memory and file in step and writes only what differs. A file that is there afterwards shows the
   * records, and none is there only where nothing was written and none was there before.
   */
  lemma {:induction false} GeneratedShows(H: Hash, known: set<string>, cfg: ZoneConfig, file: Option<string>, m: Memory, records: seq<IPRecord>, clock: int)
    requires Tracks(H, known, cfg, file, m) && CleanInput(H, known, cfg, records) && Separates(H, known)
    ensures var o := Generated(H, m, records, clock);
            && Tracks(H, known, cfg, FileAfter(file, o), o.memory)
            && (if file.None? && o.out.None? then FileAfter(file, o).None? else Shows(H, cfg, FileAfter(file, o), records))
            && (o.out.Some? <==> FileAfter(file, o) != file)
  {
    hide Tracks, CleanInput, Separates, Generated, Shows;
    if Generated(H, m, records, clock).out.Some? {
      WrittenShows(H, known, cfg, file, m, records, clock);
    } else {
      Unchanged(H, m, records, clock);
      if file.Some? { SkippedShows(H, known, cfg, file, m, records, clock); }
    }
  }

  // ---- the directory -----------------------------------------------------------------------------------------

  /** Every memory fits its file, and every zone file there is either not trusted or was rendered here. */
  ghost predicate InSync(H: Hash, known: set<string>, st: Settings, s: Managed) {
    && (forall z :: z in s.memories ==> Tracks(H, known, ConfigFor(st, z), FileAt(s.disk, z), s.memories[z]))
    && (forall z :: FileAt(s.disk, z).Some? ==> Authentic(H, known, ConfigFor(st, z), FileAt(s.disk, z).value))
  }

  ghost predicate CleanMap(H: Hash, known: set<string>, st: Settings, zm: ZoneMap) {
    forall z :: z in zm ==> PlainPath(z) && CleanInput(H, known, ConfigFor(st, z), zm[z])
  }

  /** Every zone of the map has its file, showing its records, and a listing shows the flat ones of the map and no other. */
  ghost predicate Mirrors(H: Hash, st: Settings, disk: Files, zm: ZoneMap) {
    && ZonesOn(disk) == (set z | z in zm && Flat(z))
    && (forall z :: z in zm ==> Shows(H, ConfigFor(st, z), FileAt(disk, z), zm[z]))
  }

  /** No other zone has a file, listed or not. */
  ghost predicate NoOthers(disk: Files, zm: ZoneMap) { forall z :: FileAt(disk, z).Some? ==> z in zm }

  /** A zone that is skipped, because its records are those of the last time, though it has no file any more. */
  ghost predicate Missed(s: Managed, os: Outcomes, zone: string) {
    zone in os && os[zone].out.None? && Found(s, os, zone).None?
  }

  lemma {:induction false} FoundTracks(H: Hash, known: set<string>, st: Settings, s: Managed, os: Outcomes, zone: string)
    requires InSync(H, known, st, s)
    ensures Tracks(H, known, ConfigFor(st, zone), Found(s, os, zone), MemoryFor(H, st, s, zone, Found(s, os, zone)))
  {
    hide Authentic, ConfigFor, FileAt, Opened, Rendered, TmpsOf, Written;
    if zone !in s.memories { OpenedTracks(H, known, ConfigFor(st, zone), Found(s, os, zone)); }
  }

  lemma {:induction false} ZoneMirrors(
      H: Hash, known: set<string>, st: Settings, s: Managed, zm: ZoneMap, clock: string -> int, t: Managed, zone: string)
    requires InSync(H, known, st, s) && CleanMap(H, known, st, zm) && Separates(H, known) && zone in zm
    requires IsUpdate(s, OutcomesOf(H, st, s, zm, clock), t)
    ensures zone in t.memories && Tracks(H, known, ConfigFor(st, zone), FileAt(t.disk, zone), t.memories[zone])
    ensures var os := OutcomesOf(H, st, s, zm, clock);
            && (if Missed(s, os, zone) then FileAt(t.disk, zone).None? else Shows(H, ConfigFor(st, zone), FileAt(t.disk, zone), zm[zone]))
            && zone in os && (FileAt(t.disk, zone) != Found(s, os, zone) <==> os[zone].out.Some?)
  {
    hide Tracks, CleanInput, Separates, Generated, Shows, InSync, ConfigFor, FileAt, MemoryFor, OtherFilesSame, Found, OutcomesOf;
    var os := OutcomesOf(H, st, s, zm, clock);
    OutcomesAre(H, st, s, zm, clock);
    FoundTracks(H, known, st, s, os, zone);
    var file := Found(s, os, zone);
    GeneratedShows(H, known, ConfigFor(st, zone), file, MemoryFor(H, st, s, zone, file), zm[zone], clock(zone));
    assert ZoneUpdated(os[zone], file, t, zone);
  }

  lemma ShownIsThere(H: Hash, cfg: ZoneConfig, file: Option<string>, records: seq<IPRecord>)
    requires Shows(H, cfg, file, records)
    ensures file.Some?
  {
  }

  lemma TrackedIsAuthentic(H: Hash, known: set<string>, cfg: ZoneConfig, file: Option<string>, m: Memory)
    requires Tracks(H, known, cfg, file, m) && file.Some?
    ensures Authentic(H, known, cfg, file.value)
  {
    hide VerifiedHash, FingerprintOf, Rendered, Effective;
  }

  lemma FilesOfUpdate(s: Managed, os: Outcomes, t: Managed, zone: string)
    requires IsUpdate(s, os, t) && zone !in os
    ensures zone !in t.memories && FileAt(t.disk, zone) == Survivor(s, os, zone)
  {
    hide FileName, IsZonePath, ZoneOfFile, ZoneUpdated, OtherFilesSame, Found;
  }

  /** Every file of another zone that the update finds, it sees: by a listing or by a generator that still knows the zone. */
  ghost predicate AllSeen(s: Managed, os: Outcomes) {
    forall z :: Found(s, os, z).Some? && z !in os ==> Flat(z) || z in s.memories
  }

  /**
   * Mirror exactness: after an update what is remembered still fits the files; a zone of the map has its file, showing its
   * records under the present configuration, or, exactly when it is missed, no file; and a listing shows the zones of the
   * map that have one and no other. No other zone has a file at all exactly when none had one that is out of sight:
   * slashed, and not of a running generator.
   */
  lemma {:induction false} MirrorExact(
      H: Hash, known: set<string>, st: Settings, s: Managed, zm: ZoneMap, clock: string -> int, t: Managed)
    requires InSync(H, known, st, s) && CleanMap(H, known, st, zm) && Separates(H, known)
    requires IsUpdate(s, OutcomesOf(H, st, s, zm, clock), t)
    ensures InSync(H, known, st, t)
    ensures var os := OutcomesOf(H, st, s, zm, clock);
            && (forall z :: z in zm ==>
                  if Missed(s, os, z) then FileAt(t.disk, z).None? else Shows(H, ConfigFor(st, z), FileAt(t.disk, z), zm[z]))
            && ZonesOn(t.disk) == (set z | z in zm && Flat(z) && !Missed(s, os, z))
            && (Mirrors(H, st, t.disk, zm) <==> forall z :: !Missed(s, os, z))
            && (NoOthers(t.disk, zm) <==> AllSeen(s, os))
  {
    hide Tracks, Authentic, Separates, Shows, ConfigFor, FileAt, OutcomesOf, CleanMap, ZoneUpdated, OtherFilesSame, IsUpdate, InSync, Flat,
         ZonesOn, Found, Missed;
    OutcomesKeys(H, st, s, zm, clock);
    var os := OutcomesOf(H, st, s, zm, clock);
    UpdateInSync(H, known, st, s, zm, clock, t);
    forall z | z in zm
      ensures if Missed(s, os, z) then FileAt(t.disk, z).None? else Shows(H, ConfigFor(st, z), FileAt(t.disk, z), zm[z])
      ensures Missed(s, os, z) <==> FileAt(t.disk, z).None?
    {
      ZoneMirrors(H, known, st, s, zm, clock, t, z);
      if !Missed(s, os, z) { ShownIsThere(H, ConfigFor(st, z), FileAt(t.disk, z), zm[z]); }
    }
    forall z | z !in zm ensures FileAt(t.disk, z) == Survivor(s, os, z) && !Missed(s, os, z) {
      FilesOfUpdate(s, os, t, z);
      MissedIsActive(s, os, z);
    }
    forall z ensures z in ZonesOn(t.disk) <==> z in zm && Flat(z) && !Missed(s, os, z) {
      ZonesOnDisk(t.disk, z);
      FileAtThere(t.disk, z);
    }
    MirrorsMeans(H, st, t.disk, zm);
  }

  lemma MissedIsActive(s: Managed, os: Outcomes, zone: string)
    ensures Missed(s, os, zone) ==> zone in os
  {
  }

  /** A directory mirrors the map where no zone is without its file. */
  lemma {:induction false} MirrorsMeans(H: Hash, st: Settings, disk: Files, zm: ZoneMap)
    requires ZonesOn(disk) == set z | z in zm && Flat(z) && FileAt(disk, z).Some?
    requires forall z :: z in zm ==> FileAt(disk, z).None? || Shows(H, ConfigFor(st, z), FileAt(disk, z), zm[z])
    ensures Mirrors(H, st, disk, zm) <==> forall z :: z in zm ==> FileAt(disk, z).Some?
  {
    hide Shows, ConfigFor, FileAt, Flat, ZonesOn;
    forall z | z in zm && Shows(H, ConfigFor(st, z), FileAt(disk, z), zm[z]) ensures FileAt(disk, z).Some? {
      ShownIsThere(H, ConfigFor(st, z), FileAt(disk, z), zm[z]);
    }
  }

  lemma {:induction false} UpdateInSync(
      H: Hash, known: set<string>, st: Settings, s: Managed, zm: ZoneMap, clock: string -> int, t: Managed)
    requires InSync(H, known, st, s) && CleanMap(H, known, st, zm) && Separates(H, known)
    requires IsUpdate(s, OutcomesOf(H, st, s, zm, clock), t)
    ensures InSync(H, known, st, t)
  {
    hide Tracks, Authentic, Separates, Shows, ConfigFor, FileAt, OutcomesOf, CleanMap, ZoneUpdated, OtherFilesSame, IsUpdate, Flat, Missed, TmpsOf;
    OutcomesKeys(H, st, s, zm, clock);
    var os := OutcomesOf(H, st, s, zm, clock);
    forall z
      ensures z in t.memories ==> Tracks(H, known, ConfigFor(st, z), FileAt(t.disk, z), t.memories[z])
      ensures FileAt(t.disk, z).Some? ==> Authentic(H, known, ConfigFor(st, z), FileAt(t.disk, z).value)
    {
      if z in zm {
        ZoneMirrors(H, known, st, s, zm, clock, t, z);
        if FileAt(t.disk, z).Some? { TrackedIsAuthentic(H, known, ConfigFor(st, z), FileAt(t.disk, z), t.memories[z]); }
      } else {
        FilesOfUpdate(s, os, t, z);
      }
    }
  }

  /** A directory looks empty to the gate on the first fetch exactly when every zone file in it is out of a listing's sight. */
  lemma LooksEmptyExactlyWhen(disk: Files)
    ensures ZonesOn(disk) == {} <==> forall z :: FileAt(disk, z).Some? ==> !Flat(z)
  {
    hide FileName, Flat, ZonesOn;
    forall z ensures z in ZonesOn(disk) <==> FileAt(disk, z).Some? && Flat(z) {
      ZonesOnDisk(disk, z);
      FileAtThere(disk, z);
    }
  }

  /** Of the zones written one has a file that no other of them removed. */
  lemma {:induction false} SomeUntouched(written: set<string>, zone: string) returns (first: string)
    requires zone in written
    ensures first in written && first !in TmpsOf(written)
    decreases |zone|
  {
    hide IsTmp, BaseOf, TmpsOf;
    InTmpsOf(written, zone);
    if zone in TmpsOf(written) {
      TmpNames(zone);
      first := SomeUntouched(written, BaseOf(zone));
    } else {
      first := zone;
    }
  }

  lemma {:induction false} WritingChanges(
      H: Hash, known: set<string>, st: Settings, s: Managed, zm: ZoneMap, clock: string -> int, t: Managed)
    requires InSync(H, known, st, s) && CleanMap(H, known, st, zm) && Separates(H, known)
    requires IsUpdate(s, OutcomesOf(H, st, s, zm, clock), t) && Written(OutcomesOf(H, st, s, zm, clock)) != {}
    ensures t.disk != s.disk
  {
    hide Separates, FileAt, OutcomesOf, CleanMap, InSync, IsUpdate, OtherFilesSame, TmpsOf, Missed, Shows;
    var os := OutcomesOf(H, st, s, zm, clock);
    OutcomesKeys(H, st, s, zm, clock);
    var z :| z in Written(os);
    var first := SomeUntouched(Written(os), z);
    ZoneMirrors(H, known, st, s, zm, clock, t, first);
  }

  lemma {:induction false} NothingWritten(s: Managed, os: Outcomes)
    requires Written(os) == {}
    ensures (forall z :: Found(s, os, z) == FileAt(s.disk, z)) && Removed(s, os) == Orphans(s, os.Keys)
  {
    hide FileAt, ZonesOn;
    assert TmpsOf({}) == {};
  }

  lemma {:induction false} RemovalChanges(s: Managed, os: Outcomes, t: Managed)
    requires IsUpdate(s, os, t) && Written(os) == {}
    ensures t.disk != s.disk <==> exists z :: z in Removed(s, os) && FileAt(s.disk, z).Some?
  {
    hide FileAt, OtherFilesSame, Found, ZonesOn, Flat, Written;
    NothingWritten(s, os);
    forall z ensures FileAt(t.disk, z) != FileAt(s.disk, z) <==> z in Removed(s, os) && FileAt(s.disk, z).Some? {
      ZonesOnDisk(s.disk, z);
      FileAtThere(s.disk, z);
      if z in os {
        assert ZoneUpdated(os[z], Found(s, os, z), t, z);
        assert z !in Written(os) by { NotWritten(os, z); }
        NotWritten(os, z);
      } else {
        FilesOfUpdate(s, os, t, z);
      }
    }
    if t.disk != s.disk {
      var z := DifferentZone(s, os, t);
    }
  }

  lemma NotWritten(os: Outcomes, zone: string)
    requires zone in os && Written(os) == {}
    ensures os[zone].out.None? && zone !in Written(os)
  {
    assert zone !in Written(os);
  }

  /** A zone no longer in the map whose file had already gone. */
  ghost predicate GoneBefore(s: Managed, zm: ZoneMap) {
    exists z :: z in s.memories && z !in zm && FileAt(s.disk, z).None?
  }

  /**
   * No spurious rewrites and no silent ones: an update counts something created, updated or deleted iff the
   * directory is not what it was, or it forgot a zone whose file had already gone.
   */
  lemma {:induction false} ChangedExactlyWhen(
      H: Hash, known: set<string>, st: Settings, s: Managed, zm: ZoneMap, clock: string -> int, t: Managed, stats: Stats)
    requires InSync(H, known, st, s) && CleanMap(H, known, st, zm) && Separates(H, known)
    requires IsUpdate(s, OutcomesOf(H, st, s, zm, clock), t)
    requires IsStats(s, OutcomesOf(H, st, s, zm, clock), stats)
    ensures stats.created + stats.updated + stats.deleted > 0 <==> t.disk != s.disk || GoneBefore(s, zm)
  {
    hide Separates, FileAt, OutcomesOf, CleanMap, InSync, IsUpdate, Written, OtherFilesSame, TmpsOf, ZonesOn, Found, Removed;
    var os := OutcomesOf(H, st, s, zm, clock);
    OutcomesKeys(H, st, s, zm, clock);
    SomeCounted(Written(os), s.memories.Keys);
    RemovedAre(s, os);
    if Written(os) != {} {
      WritingChanges(H, known, st, s, zm, clock, t);
    } else {
      RemovalChanges(s, os, t);
      RemovedHaveFiles(s, os);
      if z :| z in Removed(s, os) { assert FileAt(s.disk, z).Some? || FileAt(s.disk, z).None?; }
    }
  }

  lemma RemovedAre(s: Managed, os: Outcomes)
    ensures forall z :: z in s.memories && z !in os ==> z in Removed(s, os)
    ensures |Removed(s, os)| > 0 <==> exists z :: z in Removed(s, os)
  {
    hide ZonesOn, TmpsOf, Written;
    if Removed(s, os) != {} { var z :| z in Removed(s, os); }
  }

  lemma RemovedHaveFiles(s: Managed, os: Outcomes)
    ensures forall z :: z in Removed(s, os) ==> z !in os && (z in s.memories || FileAt(s.disk, z).Some?)
  {
    hide ZonesOn, TmpsOf, Written;
    forall z | z in Removed(s, os) ensures z !in os && (z in s.memories || FileAt(s.disk, z).Some?) { ZonesOnDisk(s.disk, z); }
  }

  lemma SomeCounted(written: set<string>, keys: set<string>)
    ensures |written - keys| + |written * keys| > 0 <==> written != {}
  {
    assert written == (written - keys) + written * keys;
  }

  /** Where two directories before and after an update differ, it is at a zone. */
  ghost function DifferentZone(s: Managed, os: Outcomes, t: Managed): (zone: string)
    requires IsUpdate(s, os, t) && t.disk != s.disk
    ensures FileAt(t.disk, zone) != FileAt(s.disk, zone)
  {
    assert exists z :: FileAt(t.disk, z) != FileAt(s.disk, z) by {
      if forall z :: FileAt(t.disk, z) == FileAt(s.disk, z) {
        SameFilesSameDisk(s, t);
      }
    }
    var zone :| FileAt(t.disk, zone) != FileAt(s.disk, zone);
    zone
  }

  lemma SameFilesSameDisk(s: Managed, t: Managed)
    requires OtherFilesSame(s, t)
    requires forall z :: FileAt(t.disk, z) == FileAt(s.disk, z)
    ensures t.disk == s.disk
  {
    hide FileName, IsZonePath, ZoneOfFile;
    NamesAreFiles();
    forall f ensures (f in t.disk <==> f in s.disk) && (f in t.disk ==> t.disk[f] == s.disk[f]) {
      assert FileAt(t.disk, ZoneOfFile(f)) == FileAt(s.disk, ZoneOfFile(f));
    }
  }

  /** Updating again with the same map changes nothing: no file, no memory, nothing counted. */
  lemma {:induction false} RepeatChangesNothing(
      H: Hash, st: Settings, s: Managed, zm: ZoneMap, clock: string -> int, t: Managed, later: string -> int, u: Managed, stats: Stats)
    requires IsUpdate(s, OutcomesOf(H, st, s, zm, clock), t)
    requires IsUpdate(t, OutcomesOf(H, st, t, zm, later), u) && IsStats(t, OutcomesOf(H, st, t, zm, later), stats)
    ensures u == t && stats == Stats(0, 0, 0)
  {
    hide Generated, Opened, ConfigFor, FileName, Listed, MemoryFor, ZonesOn, Flat, OutcomesOf, Found, TmpsOf, OtherFilesSame;
    var was, os := OutcomesOf(H, st, s, zm, clock), OutcomesOf(H, st, t, zm, later);
    OutcomesAre(H, st, s, zm, clock);
    OutcomesAre(H, st, t, zm, later);
    forall z | z in zm ensures os[z] == Outcome(t.memories[z], None) {
      assert ZoneUpdated(was[z], Found(s, was, z), t, z);
      RememberedMemory(H, st, t, z, Found(t, os, z));
      RepeatIsUnchanged(H, MemoryFor(H, st, s, z, Found(s, was, z)), zm[z], clock(z), later(z));
    }
    assert Written(os) == {};
    OnlyActive(s, was, t);
    NothingWritten(t, os);
    NothingToDo(t, os);
    UpdateIsUnique(t, os, u, t);
  }

  lemma RememberedMemory(H: Hash, st: Settings, s: Managed, zone: string, file: Option<string>)
    requires zone in s.memories
    ensures MemoryFor(H, st, s, zone, file) == s.memories[zone]
  {
  }

  lemma OnlyActive(s: Managed, os: Outcomes, t: Managed)
    requires IsUpdate(s, os, t)
    ensures Orphans(t, os.Keys) == {}
  {
    hide FileName, Flat, ZonesOn, ZoneUpdated, Found;
    forall z | z !in os ensures z !in ZonesOn(t.disk) {
      ZonesOnDisk(t.disk, z);
      FileAtThere(t.disk, z);
    }
  }

  lemma NothingToDo(s: Managed, os: Outcomes)
    requires s.memories.Keys == os.Keys && Orphans(s, os.Keys) == {}
    requires forall z :: z in os ==> os[z] == Outcome(s.memories[z], None)
    requires forall z :: Found(s, os, z) == FileAt(s.disk, z)
    ensures IsUpdate(s, os, s)
  {
    hide FileName, Flat, ZonesOn, Found;
    forall z | z !in os ensures FileAt(s.disk, z) == Survivor(s, os, z) {
      ZonesOnDisk(s.disk, z);
      FileAtThere(s.disk, z);
      assert z !in Orphans(s, os.Keys);
    }
  }

  /** The two maps hold the same records; only records that are not CNAMEs come in another order. */
  ghost predicate SameUpToOrder(a: ZoneMap, b: ZoneMap) {
    && a.Keys == b.Keys
    && forall z :: z in a ==> multiset(a[z]) == multiset(b[z]) && Filter(Collisions.IsAlias, a[z]) == Filter(Collisions.IsAlias, b[z])
  }

  lemma {:induction false} OutcomeIgnoresOrder(
      H: Hash, st: Settings, s: Managed, a: ZoneMap, b: ZoneMap, clock: string -> int, zone: string)
    requires SameUpToOrder(a, b) && zone in a
    ensures OutcomeOf(H, st, s, a, clock, zone) == OutcomeOf(H, st, s, b, clock, zone)
    decreases |zone|
  {
    hide Generated, MemoryFor, Filter, IsTmp, BaseOf, FileAt;
    var base := BaseOf(zone);
    TmpNames(zone);
    if IsTmp(zone) && base in a { OutcomeIgnoresOrder(H, st, s, a, b, clock, base); }
    var gone := IsTmp(zone) && base in a && OutcomeOf(H, st, s, a, clock, base).out.Some?;
    GenerateIgnoresOrder(H, MemoryFor(H, st, s, zone, if gone then None else FileAt(s.disk, zone)), a[zone], b[zone], clock(zone));
  }

  lemma {:induction false} OutcomesIgnoreOrder(H: Hash, st: Settings, s: Managed, a: ZoneMap, b: ZoneMap, clock: string -> int)
    requires SameUpToOrder(a, b)
    ensures OutcomesOf(H, st, s, a, clock) == OutcomesOf(H, st, s, b, clock)
  {
    hide OutcomeOf;
    forall z | z in a ensures OutcomeOf(H, st, s, a, clock, z) == OutcomeOf(H, st, s, b, clock, z) {
      OutcomeIgnoresOrder(H, st, s, a, b, clock, z);
    }
  }

  /** The order of the records in the map, CNAMEs aside, does not show in the directory nor in what is remembered. */
  lemma {:induction false} UpdateIgnoresOrder(
      H: Hash, st: Settings, s: Managed, a: ZoneMap, b: ZoneMap, clock: string -> int, t: Managed, u: Managed)
    requires SameUpToOrder(a, b)
    requires IsUpdate(s, OutcomesOf(H, st, s, a, clock), t) && IsUpdate(s, OutcomesOf(H, st, s, b, clock), u)
    ensures t == u
  {
    hide Generated, MemoryFor, IsUpdate, SameUpToOrder, OutcomesOf;
    OutcomesIgnoreOrder(H, st, s, a, b, clock);
    UpdateIsUnique(s, OutcomesOf(H, st, s, a, clock), t, u);
  }

  // ---- whole runs ----------------------------------------------------------------------------------------------

  /** An update of the directory, or a restart of the program, with other settings perhaps. */
  datatype Turn = Update(zm: ZoneMap, clock: string -> int, after: Managed) | Restart(settings: Settings)

  ghost predicate IsRun(H: Hash, known: set<string>, st: Settings, s: Managed, turns: seq<Turn>)
    decreases |turns|
  {
    turns == [] ||
    match turns[0]
    case Restart(next) => IsRun(H, known, next, Managed(map[], s.disk), turns[1..])
    case Update(zm, clock, t) =>
      CleanMap(H, known, st, zm) && IsUpdate(s, OutcomesOf(H, st, s, zm, clock), t) && IsRun(H, known, st, t, turns[1..])
  }

  /** The settings of turn i. */
  ghost function SettingsAt(st: Settings, turns: seq<Turn>, i: nat): Settings
    requires i < |turns|
    decreases i
  {
    if i == 0 then st else SettingsAt(if turns[0].Restart? then turns[0].settings else st, turns[1..], i - 1)
  }

  /** The directory mirrors the map after every update of the run. */
  ghost predicate EveryUpdateMirrors(H: Hash, st: Settings, turns: seq<Turn>)
    decreases |turns|
  {
    turns == [] ||
    match turns[0]
    case Restart(next) => EveryUpdateMirrors(H, next, turns[1..])
    case Update(zm, _, t) => Mirrors(H, st, t.disk, zm) && EveryUpdateMirrors(H, st, turns[1..])
  }

  /** No zone is skipped whose file is the temporary file of a zone that is written. */
  ghost predicate Undisturbed(os: Outcomes) { forall z :: z in os && os[z].out.None? ==> z !in TmpsOf(Written(os)) }

  ghost predicate RunUndisturbed(H: Hash, st: Settings, s: Managed, turns: seq<Turn>)
    decreases |turns|
  {
    turns == [] ||
    match turns[0]
    case Restart(next) => RunUndisturbed(H, next, Managed(map[], s.disk), turns[1..])
    case Update(zm, clock, t) => Undisturbed(OutcomesOf(H, st, s, zm, clock)) && RunUndisturbed(H, st, t, turns[1..])
  }

  /** Every zone remembered has its file. */
  ghost predicate AllThere(s: Managed) { forall z :: z in s.memories ==> FileAt(s.disk, z).Some? }

  lemma RestartInSync(H: Hash, known: set<string>, st: Settings, next: Settings, s: Managed)
    requires InSync(H, known, st, s)
    ensures InSync(H, known, next, Managed(map[], s.disk))
  {
    hide Tracks, FileAt, VerifiedHash, FileOf, CleanVersion, VersionTexts;
    forall z | FileAt(s.disk, z).Some? ensures Authentic(H, known, ConfigFor(next, z), FileAt(s.disk, z).value) {
      if VerifiedHash(H, FileAt(s.disk, z).value) != "" {
        var v :| Rendered(H, known, ConfigFor(st, z), Some(FileAt(s.disk, z).value), v);
        assert Rendered(H, known, ConfigFor(next, z), Some(FileAt(s.disk, z).value), v);
      }
    }
  }

  /**
   * From a directory of files that are untrusted or were rendered here, over any run of updates and restarts: after
   * every update a file of a zone of the map shows the records given, and a listing shows no other zone.
   */
  lemma {:induction false} RunShows(H: Hash, known: set<string>, st: Settings, s: Managed, turns: seq<Turn>, i: nat)
    requires InSync(H, known, st, s) && Separates(H, known) && IsRun(H, known, st, s, turns)
    requires i < |turns| && turns[i].Update?
    ensures var settings, zm, after := SettingsAt(st, turns, i), turns[i].zm, turns[i].after;
            && InSync(H, known, settings, after) && ZonesOn(after.disk) <= zm.Keys
            && forall z :: z in zm && FileAt(after.disk, z).Some? ==> Shows(H, ConfigFor(settings, z), FileAt(after.disk, z), zm[z])
    decreases i
  {
    hide InSync, Separates, Mirrors, CleanMap, IsUpdate, OutcomesOf, Shows, ZonesOn, FileAt, Missed, ConfigFor;
    match turns[0]
    case Restart(next) =>
      RestartInSync(H, known, st, next, s);
      RunShows(H, known, next, Managed(map[], s.disk), turns[1..], i - 1);
    case Update(zm, clock, t) =>
      MirrorExact(H, known, st, s, zm, clock, t);
      if i > 0 { RunShows(H, known, st, t, turns[1..], i - 1); }
  }

  lemma {:induction false} NewIsWritten(H: Hash, cfg: ZoneConfig, records: seq<IPRecord>, clock: int)
    ensures Generated(H, Opened(H, cfg, None), records, clock).out.Some?
  {
    hide FingerprintOf, Prepared;
    FingerprintIsHex(H, Effective(cfg), Prepared(Effective(cfg), records));
  }

  /**
   * A zone of the map is missed exactly when its generator runs, its records have the fingerprint of the last time, and
   * its file had gone before or goes as the temporary file of a zone that is written.
   */
  lemma {:induction false} MissedExactlyWhen(H: Hash, st: Settings, s: Managed, zm: ZoneMap, clock: string -> int, zone: string)
    requires zone in zm
    ensures var os := OutcomesOf(H, st, s, zm, clock);
            Missed(s, os, zone) <==>
              && zone in s.memories
              && (var m := s.memories[zone]; m.lastHash == FingerprintOf(H, m.config, Prepared(m.config, zm[zone])))
              && (FileAt(s.disk, zone).None? || (IsTmp(zone) && BaseOf(zone) in Written(os)))
  {
    hide FileAt, Opened, ConfigFor, TmpsOf, OutcomesOf, Written, FingerprintOf, Prepared, IsTmp, BaseOf;
    var os := OutcomesOf(H, st, s, zm, clock);
    OutcomesAre(H, st, s, zm, clock);
    InTmpsOf(Written(os), zone);
    if zone !in s.memories { NewIsWritten(H, ConfigFor(st, zone), zm[zone], clock(zone)); }
  }

  /** Where every zone remembered has its file, a zone is missed only by being disturbed. */
  lemma {:induction false} MissedExactlyWhenDisturbed(H: Hash, st: Settings, s: Managed, zm: ZoneMap, clock: string -> int)
    requires AllThere(s)
    ensures var os := OutcomesOf(H, st, s, zm, clock);
            (forall z :: !Missed(s, os, z)) <==> Undisturbed(os)
  {
    hide FileAt, Opened, Generated, ConfigFor, TmpsOf, OutcomesOf, Written;
    var os := OutcomesOf(H, st, s, zm, clock);
    OutcomesAre(H, st, s, zm, clock);
    forall z | z in zm && os[z].out.None? && z !in TmpsOf(Written(os)) ensures !Missed(s, os, z) {
      if z !in s.memories { NewIsWritten(H, ConfigFor(st, z), zm[z], clock(z)); }
    }
    if z :| z in os && os[z].out.None? && z in TmpsOf(Written(os)) {
      assert Missed(s, os, z);
    }
  }

  lemma MirroredAllThere(H: Hash, st: Settings, s: Managed, os: Outcomes, t: Managed, zm: ZoneMap)
    requires IsUpdate(s, os, t) && os.Keys == zm.Keys && Mirrors(H, st, t.disk, zm)
    ensures AllThere(t)
  {
    hide Shows, ZonesOn, FileAt;
    forall z | z in t.memories ensures FileAt(t.disk, z).Some? { ShownIsThere(H, ConfigFor(st, z), FileAt(t.disk, z), zm[z]); }
  }

  /**
   * Where every zone remembered has its file, the directory mirrors the map after every update of a run exactly when no
   * update skips a zone whose file is the temporary file of one it writes.
   */
  lemma {:induction false} RunMirrors(H: Hash, known: set<string>, st: Settings, s: Managed, turns: seq<Turn>)
    requires InSync(H, known, st, s) && Separates(H, known) && IsRun(H, known, st, s, turns) && AllThere(s)
    ensures EveryUpdateMirrors(H, st, turns) <==> RunUndisturbed(H, st, s, turns)
    decreases |turns|
  {
    hide InSync, Separates, Mirrors, CleanMap, IsUpdate, OutcomesOf, Missed, Undisturbed, Shows, ZonesOn, FileAt, NoOthers, AllSeen;
    if turns != [] {
      match turns[0]
      case Restart(next) =>
        RestartInSync(H, known, st, next, s);
        RunMirrors(H, known, next, Managed(map[], s.disk), turns[1..]);
      case Update(zm, clock, t) =>
        MirrorExact(H, known, st, s, zm, clock, t);
        MissedExactlyWhenDisturbed(H, st, s, zm, clock);
        OutcomesKeys(H, st, s, zm, clock);
        if Mirrors(H, st, t.disk, zm) {
          MirroredAllThere(H, st, s, OutcomesOf(H, st, s, zm, clock), t, zm);
          RunMirrors(H, known, st, t, turns[1..]);
        }
    }
  }

  /** No map holds a zone together with the one whose file is its temporary file. */
  ghost predicate PairFree(turns: seq<Turn>) {
    forall k, z :: 0 <= k < |turns| && turns[k].Update? && z in turns[k].zm ==> TmpOf(z) !in turns[k].zm
  }

  lemma {:induction false} PairFreeUndisturbed(H: Hash, st: Settings, s: Managed, turns: seq<Turn>)
    requires PairFree(turns)
    ensures RunUndisturbed(H, st, s, turns)
    decreases |turns|
  {
    hide OutcomesOf, TmpOf;
    if turns != [] {
      forall k, z | 0 <= k < |turns[1..]| && turns[1..][k].Update? && z in turns[1..][k].zm ensures TmpOf(z) !in turns[1..][k].zm {
        assert turns[k + 1].Update? && z in turns[k + 1].zm;
      }
      match turns[0]
      case Restart(next) => PairFreeUndisturbed(H, next, Managed(map[], s.disk), turns[1..]);
      case Update(zm, clock, t) =>
        OutcomesKeys(H, st, s, zm, clock);
        PairFreeUndisturbed(H, st, t, turns[1..]);
    }
  }

  lemma {:induction false} MirrorsAt(H: Hash, st: Settings, turns: seq<Turn>, i: nat)
    requires EveryUpdateMirrors(H, st, turns) && i < |turns| && turns[i].Update?
    ensures Mirrors(H, SettingsAt(st, turns, i), turns[i].after.disk, turns[i].zm)
    decreases i
  {
    hide Mirrors;
    if i > 0 {
      MirrorsAt(H, if turns[0].Restart? then turns[0].settings else st, turns[1..], i - 1);
    }
  }

  /**
   * A zone and the one whose file is its temporary file, on an empty directory: when the records of the first change and
   * those of the other do not, the file of the other is gone, and no update with the same map brings it back.
   */
  lemma {:induction false} TmpPairLoses(
      H: Hash, st: Settings, zone: string, a: seq<IPRecord>, b: seq<IPRecord>, c: seq<IPRecord>, clock: string -> int,
      first: Managed, second: Managed, third: Managed)
    requires var cfg := Effective(ConfigFor(st, zone)); FingerprintOf(H, cfg, Prepared(cfg, a)) != FingerprintOf(H, cfg, Prepared(cfg, b))
    requires var s, m := Managed(map[], map[]), map[zone := a, TmpOf(zone) := c]; IsUpdate(s, OutcomesOf(H, st, s, m, clock), first)
    requires var m := map[zone := b, TmpOf(zone) := c]; IsUpdate(first, OutcomesOf(H, st, first, m, clock), second)
    requires var m := map[zone := b, TmpOf(zone) := c]; IsUpdate(second, OutcomesOf(H, st, second, m, clock), third)
    ensures FileAt(first.disk, TmpOf(zone)).Some? && FileAt(second.disk, TmpOf(zone)).None? && third == second
  {
    hide FingerprintOf, Prepared, OutcomesOf, ConfigFor, Effective, TmpOf, FileAt, OtherFilesSame, Published, Survivor, ZonesOn;
    var s, m, n, other := Managed(map[], map[]), map[zone := a, TmpOf(zone) := c], map[zone := b, TmpOf(zone) := c], TmpOf(zone);
    var os, after := OutcomesOf(H, st, s, m, clock), OutcomesOf(H, st, first, n, clock);
    TmpNames(zone);
    OutcomesAre(H, st, s, m, clock);
    OutcomesAre(H, st, first, n, clock);
    FirstTime(H, st, os, zone, a, clock(zone), first);
    FirstTime(H, st, os, other, c, clock(other), first);
    assert after[zone].out.Some?;
    assert zone in Written(after) && other in TmpsOf(Written(after));
    assert after[other].out.None?;
    assert ZoneUpdated(after[other], None, second, other);
    var again := OutcomesOf(H, st, second, n, clock);
    var stats := Stats(|Written(again) - second.memories.Keys|, |Written(again) * second.memories.Keys|, |Removed(second, again)|);
    RepeatChangesNothing(H, st, first, n, clock, second, clock, third, stats);
  }

  /** A zone with a slash, from an empty directory: after a restart without it its file stays, and no listing shows it. */
  lemma {:induction false} SlashFileStays(
      H: Hash, st: Settings, zone: string, records: seq<IPRecord>, clock: string -> int, first: Managed, second: Managed)
    requires !Flat(zone)
    requires var s, m := Managed(map[], map[]), map[zone := records]; IsUpdate(s, OutcomesOf(H, st, s, m, clock), first)
    requires var s := Managed(map[], first.disk); IsUpdate(s, OutcomesOf(H, st, s, map[], clock), second)
    ensures FileAt(first.disk, zone).Some? && FileAt(second.disk, zone) == FileAt(first.disk, zone)
    ensures zone !in second.memories && zone !in ZonesOn(second.disk)
  {
    hide OutcomesOf, FileAt, OtherFilesSame, Flat, ZonesOn, ZoneUpdated;
    var s, m, t := Managed(map[], map[]), map[zone := records], Managed(map[], first.disk);
    OutcomesAre(H, st, s, m, clock);
    OutcomesAre(H, st, t, map[], clock);
    FirstTime(H, st, OutcomesOf(H, st, s, m, clock), zone, records, clock(zone), first);
    var os := OutcomesOf(H, st, t, map[], clock);
    assert Written(os) == {};
    NothingWritten(t, os);
    FilesOfUpdate(t, os, second, zone);
    ZonesOnDisk(second.disk, zone);
  }

  lemma {:induction false} FirstTime(H: Hash, st: Settings, os: Outcomes, zone: string, records: seq<IPRecord>, clock: int, t: Managed)
    requires var s := Managed(map[], map[]);
             && zone in os && os[zone] == Generated(H, MemoryFor(H, st, s, zone, Found(s, os, zone)), records, clock)
             && IsUpdate(s, os, t)
    ensures var cfg := Effective(ConfigFor(st, zone));
            && FileAt(t.disk, zone).Some? && zone in t.memories && t.memories[zone].config == cfg
            && t.memories[zone].lastHash == FingerprintOf(H, cfg, Prepared(cfg, records))
  {
    hide FingerprintOf, Prepared, ConfigFor, Effective, OtherFilesSame, Published, ZonesOn;
    var s := Managed(map[], map[]);
    assert Found(s, os, zone).None?;
    NewIsWritten(H, ConfigFor(st, zone), records, clock);
    assert ZoneUpdated(os[zone], Found(s, os, zone), t, zone);
  }

  ghost predicate FlatFiles(disk: Files) { forall z :: FileAt(disk, z).Some? ==> Flat(z) }

  ghost predicate FlatMaps(turns: seq<Turn>) {
    forall k, z :: 0 <= k < |turns| && turns[k].Update? && z in turns[k].zm ==> Flat(z)
  }

  lemma {:induction false} UpdateKeepsFlat(s: Managed, os: Outcomes, t: Managed)
    requires IsUpdate(s, os, t) && FlatFiles(s.disk) && forall z :: z in os ==> Flat(z)
    ensures FlatFiles(t.disk) && (forall z :: FileAt(t.disk, z).Some? ==> z in os)
  {
    hide FileName, Flat, FileAt, TmpsOf, Written;
    forall z | z !in os ensures FileAt(t.disk, z).None? { FilesOfUpdate(s, os, t, z); }
  }

  /** Where no zone name holds a slash or names a temporary file the mirror is exact after every update: one file per zone of the map and no other. */
  lemma {:induction false} FlatRunMirrorsExactly(H: Hash, known: set<string>, st: Settings, s: Managed, turns: seq<Turn>, i: nat)
    requires InSync(H, known, st, s) && Separates(H, known) && IsRun(H, known, st, s, turns) && AllThere(s)
    requires FlatFiles(s.disk) && FlatMaps(turns) && PairFree(turns) && i < |turns| && turns[i].Update?
    ensures var after, zm := turns[i].after, turns[i].zm;
            Mirrors(H, SettingsAt(st, turns, i), after.disk, zm) && ZonesOn(after.disk) == zm.Keys && NoOthers(after.disk, zm)
  {
    hide Mirrors, InSync, IsRun, Separates, FlatFiles, AllThere, RunUndisturbed, EveryUpdateMirrors, PairFree;
    RunMirrors(H, known, st, s, turns);
    PairFreeUndisturbed(H, st, s, turns);
    MirrorsAt(H, st, turns, i);
    FlatRun(H, known, st, s, turns, i);
    MirrorsListing(H, SettingsAt(st, turns, i), turns[i].after.disk, turns[i].zm);
  }

  lemma MirrorsListing(H: Hash, st: Settings, disk: Files, zm: ZoneMap)
    requires Mirrors(H, st, disk, zm) && forall z :: z in zm ==> Flat(z)
    ensures ZonesOn(disk) == zm.Keys
  {
    hide Shows, Flat;
  }

  lemma {:induction false} FlatRun(H: Hash, known: set<string>, st: Settings, s: Managed, turns: seq<Turn>, i: nat)
    requires IsRun(H, known, st, s, turns) && FlatFiles(s.disk) && FlatMaps(turns) && i < |turns| && turns[i].Update?
    ensures NoOthers(turns[i].after.disk, turns[i].zm)
    decreases i
  {
    hide CleanMap, IsUpdate, OutcomesOf, FlatFiles, Flat;
    forall k, z | 0 <= k < |turns[1..]| && turns[1..][k].Update? && z in turns[1..][k].zm ensures Flat(z) {
      assert turns[k + 1].Update? && z in turns[k + 1].zm;
    }
    match turns[0]
    case Restart(next) =>
      FlatRun(H, known, next, Managed(map[], s.disk), turns[1..], i - 1);
    case Update(zm, clock, t) =>
      OutcomesKeys(H, st, s, zm, clock);
      UpdateKeepsFlat(s, OutcomesOf(H, st, s, zm, clock), t);
      if i > 0 {
        FlatRun(H, known, st, t, turns[1..], i - 1);
      }
  }
}
