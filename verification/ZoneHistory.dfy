/** The life of one zone: updates, restarts with the same or another configuration, and removal. */
module ZoneHistory {
  import opened Wrappers
  import opened Strings
  import opened Records
  import opened ZoneText
  import opened ZoneFile
  import opened Stamps
  import opened Fingerprint
  import opened Serial
  import opened Generator
  import Collisions

  /** `history` holds every version written, oldest first, and `now` the last clock reading. */
  datatype World = World(config: ZoneConfig, file: Option<string>, gen: Option<Memory>, history: seq<Version>, now: int)

  datatype Event = Update(records: seq<IPRecord>, clock: int) | Restart(config: ZoneConfig)

  function MemoryOf(H: Hash, w: World): Memory {
    if w.gen.Some? then w.gen.value else Opened(H, w.config, w.file)
  }

  function Step(H: Hash, w: World, e: Event): World {
    match e
    case Restart(cfg) => w.(config := cfg, gen := None)
    case Update(records, clock) =>
      var m := MemoryOf(H, w);
      var Outcome(after, out) := Generated(H, m, records, clock);
      if out.None? then w.(gen := Some(after), now := clock)
      else World(w.config, out, Some(after), w.history + [Version(m.config, after.serial, Prepared(m.config, records))], clock)
  }

  function Run(H: Hash, w: World, events: seq<Event>): World
    decreases |events|
  {
    if events == [] then w else Run(H, Step(H, w, events[0]), events[1..])
  }

  function Start(cfg: ZoneConfig): World { World(cfg, None, None, [], 0) }

  // ---- what is assumed of a run ----------------------------------------------------------------------------

  /** Clock readings with ten digits, at least a year before the 2106 wrap. */
  predicate Modern(clock: int) { 1_000_000_000 <= clock < MODULUS - MAX_SERIAL_DRIFT }

  /** A field that cannot break its line: the names are checked by the generator itself. */
  predicate CleanFields(r: IPRecord) {
    NoNewline(r.address) && (r.IsCNAME() || (r.rtype == "" && r.cnameTarget == ""))
  }

  /**
   * One event of a run: the zone stays what it is, its clock does not go back, addresses hold no newline, and the
   * hash tells apart the texts of the run, all of them in `known`.
   */
  ghost predicate Admissible(H: Hash, known: set<string>, w: World, e: Event) {
    match e
    case Restart(cfg) => SameZone(cfg, w.config) && CleanConfig(cfg)
    case Update(records, clock) =>
      && w.now <= clock && Modern(clock) && |w.history| < MAX_SERIAL_DRIFT
      && (forall r :: r in records ==> CleanFields(r))
      && HashedTexts(H, Effective(w.config), Prepared(Effective(w.config), records)) <= known
  }

  ghost predicate AllAdmissible(H: Hash, known: set<string>, w: World, events: seq<Event>)
    decreases |events|
  {
    events == [] || (Admissible(H, known, w, events[0]) && AllAdmissible(H, known, Step(H, w, events[0]), events[1..]))
  }

  // ---- what a run keeps ----------------------------------------------------------------------------------------

  ghost predicate SerialsIncrease(history: seq<Version>) {
    forall i, j :: 0 <= i < j < |history| ==> history[i].serial < history[j].serial
  }

  /** The file is the last version, and a running generator remembers exactly that. */
  ghost predicate OnDisk(H: Hash, known: set<string>, w: World, v: Version) {
    && w.file == Some(FileOf(H, v))
    && SameZone(v.config, w.config) && CleanVersion(v) && VersionTexts(H, v) <= known
    && (w.gen.Some? ==> w.gen.value.lastHash == FingerprintOf(H, v.config, v.records) && w.gen.value.serial == v.serial)
    && 1_000_000_000 <= v.serial < w.now + |w.history|
  }

  ghost predicate Sound(H: Hash, known: set<string>, w: World) {
    && CleanConfig(w.config)
    && (w.gen.Some? ==> w.gen.value.config == Effective(w.config))
    && (w.history == [] ==> w.file == None && w.gen == None)
    && (w.history != [] ==> OnDisk(H, known, w, w.history[|w.history| - 1]))
    && SerialsIncrease(w.history)
  }

  /** A safe name holds neither separators nor newlines. */
  lemma {:induction false} SafeNameIsClean(name: string)
    requires SafeZoneName(name)
    ensures NoNewline(name) && NoBar(name)
  {
    var t := TrimSuffix(name, ".");
    JoinSplit(t, '.');
    CleanJoin(Split(t, '.'));
    if HasSuffix(name, ".") { assert name == t + "."; }
  }

  lemma {:induction false} CleanJoin(labels: seq<string>)
    requires forall l :: l in labels ==> SafeLabel(l)
    ensures NoNewline(Join(labels, ".")) && NoBar(Join(labels, "."))
  {
    if |labels| == 1 {
      assert labels[0] in labels;
    } else if |labels| > 1 {
      assert labels[0] in labels;
      CleanJoin(labels[1..]);
    }
  }

  lemma {:induction false} SafeIsEncodable(r: IPRecord)
    requires SafeRecord(r) && CleanFields(r)
    ensures Encodable(r)
  {
    hide SafeZoneName;
    SafeNameIsClean(r.dnsName);
    if r.IsCNAME() { SafeNameIsClean(r.cnameTarget); }
  }

  lemma {:induction false} PreparedIsEncodable(cfg: ZoneConfig, records: seq<IPRecord>)
    requires forall r :: r in records ==> CleanFields(r)
    ensures AllEncodable(Prepared(cfg, records))
  {
    hide SafeZoneName, Collisions.Pass, Collisions.Eligible, Filter, Encodable;
    var safe := Filter(SafeRecord, records);
    Collisions.PassMembers(safe, cfg.origin, safe);
    forall r | r in Prepared(cfg, records) ensures Encodable(r) {
      assert r in safe;
      SafeIsEncodable(r);
    }
  }

  /** Memory after a restart is what it was before, the file having been the last version all along. */
  lemma {:induction false} MemoryHolds(H: Hash, known: set<string>, w: World)
    requires Sound(H, known, w)
    ensures MemoryOf(H, w).config == Effective(w.config)
    ensures w.history == [] ==> MemoryOf(H, w).lastHash == "" && MemoryOf(H, w).serial == 0
    ensures w.history != [] ==>
      var v := w.history[|w.history| - 1];
      MemoryOf(H, w).lastHash == FingerprintOf(H, v.config, v.records) && MemoryOf(H, w).serial == v.serial
  {
    hide FileOf, FingerprintOf, HashedTexts, CleanConfig, AllEncodable, VerifiedHash, SerialOf, Effective;
    if w.history != [] && w.gen.None? {
      RestartRemembers(H, w.config, w.history[|w.history| - 1]);
    }
  }

  lemma {:induction false} NextWithinBounds(serial: UInt32, clock: int, now: int, writes: nat)
    requires now <= clock && Modern(clock) && writes < MAX_SERIAL_DRIFT
    requires serial == 0 || 1_000_000_000 <= serial < now + writes
    ensures serial < NextSerial(serial, clock) < clock + writes + 1
    ensures 1_000_000_000 <= NextSerial(serial, clock)
  {
    assert Truncate(clock) == clock;
    assert serial + 1 < MODULUS ==> Truncate(serial + 1) == serial + 1;
  }

  lemma SerialsAppend(history: seq<Version>, v: Version)
    requires SerialsIncrease(history)
    requires history != [] ==> history[|history| - 1].serial < v.serial
    ensures SerialsIncrease(history + [v])
  {
  }

  function LastSerial(w: World): UInt32 { if w.history == [] then 0 else w.history[|w.history| - 1].serial }

  /** What an update writes: a version whose serial is above every serial before it. */
  lemma {:induction false} WriteKeeps(H: Hash, known: set<string>, w: World, records: seq<IPRecord>, clock: int)
    requires Sound(H, known, w) && Admissible(H, known, w, Update(records, clock))
    requires Generated(H, MemoryOf(H, w), records, clock).out.Some?
    ensures Sound(H, known, Step(H, w, Update(records, clock)))
    ensures var after := Step(H, w, Update(records, clock));
            && after.history == w.history + [Version(Effective(w.config), LastSerial(after), Prepared(Effective(w.config), records))]
            && LastSerial(after) == NextSerial(LastSerial(w), clock)
  {
    hide HashedTexts, CleanConfig, Encodable, VerifiedHash, SerialOf, Opened, FingerprintOf, Published, Prepared, NextSerial;
    MemoryHolds(H, known, w);
    PreparedIsEncodable(Effective(w.config), records);
    EffectiveIsClean(w.config);
    var m := MemoryOf(H, w);
    var v := Version(m.config, NextSerial(m.serial, clock), Prepared(m.config, records));
    NextWithinBounds(LastSerial(w), clock, w.now, |w.history|);
    SerialsAppend(w.history, v);
    var after := Step(H, w, Update(records, clock));
    assert after.history[|after.history| - 1] == v;
    assert OnDisk(H, known, after, v);
  }

  lemma EffectiveIsClean(cfg: ZoneConfig)
    requires CleanConfig(cfg)
    ensures CleanConfig(Effective(cfg)) && SameZone(cfg, Effective(cfg))
  {
  }

  lemma {:induction false} SkipKeeps(H: Hash, known: set<string>, w: World, records: seq<IPRecord>, clock: int)
    requires Sound(H, known, w) && Admissible(H, known, w, Update(records, clock)) && Separates(H, known)
    requires Generated(H, MemoryOf(H, w), records, clock).out.None?
    ensures Sound(H, known, Step(H, w, Update(records, clock))) && w.history != []
    ensures w.file == Some(FileOf(H, Version(Effective(w.config), LastSerial(w), Prepared(Effective(w.config), records))))
  {
    hide HashedTexts, CleanConfig, CleanVersion, FingerprintOf, Published, Prepared, FileOf, Separates, Opened, Generated,
         SerialsIncrease, Effective, AllEncodable, CleanFields;
    MemoryHolds(H, known, w);
    var m := MemoryOf(H, w);
    SkipMeans(H, m, records, clock);
    PreparedIsEncodable(Effective(w.config), records);
    EffectiveIsClean(w.config);
    SkippedFile(H, known, w.history[|w.history| - 1], m, records, clock);
    var after := Step(H, w, Update(records, clock));
    assert after == w.(gen := Some(m), now := clock);
    assert OnDisk(H, known, after, w.history[|w.history| - 1]);
  }

  lemma SkipMeans(H: Hash, m: Memory, records: seq<IPRecord>, clock: int)
    requires Generated(H, m, records, clock).out.None?
    ensures Generated(H, m, records, clock).memory == m && m.lastHash != ""
  {
    hide Prepared, FingerprintOf, Published;
    FingerprintIsHex(H, m.config, Prepared(m.config, records));
  }

  lemma {:induction false} SkippedFile(
      H: Hash, known: set<string>, v: Version, m: Memory, records: seq<IPRecord>, clock: int)
    requires CleanVersion(v) && VersionTexts(H, v) <= known && Separates(H, known)
    requires CleanConfig(m.config) && AllEncodable(Prepared(m.config, records)) && SameZone(m.config, v.config)
    requires HashedTexts(H, m.config, Prepared(m.config, records)) <= known
    requires m.lastHash == FingerprintOf(H, v.config, v.records)
    requires Generated(H, m, records, clock).out.None?
    ensures FileOf(H, v) == FileOf(H, Version(m.config, v.serial, Prepared(m.config, records)))
  {
    hide HashedTexts, CleanConfig, Encodable, FingerprintOf, Published, Prepared, FileOf, Separates, AllEncodable;
    FewerTexts(H, VersionTexts(H, v) + HashedTexts(H, m.config, Prepared(m.config, records)), known);
    SkipSoundness(H, m, v, records, clock);
  }

  lemma {:induction false} RestartKeeps(H: Hash, known: set<string>, w: World, cfg: ZoneConfig)
    requires Sound(H, known, w) && Admissible(H, known, w, Restart(cfg))
    ensures Sound(H, known, Step(H, w, Restart(cfg)))
  {
    hide HashedTexts, CleanConfig, Encodable, FingerprintOf, FileOf;
  }

  lemma {:induction false} StepKeeps(H: Hash, known: set<string>, w: World, e: Event)
    requires Sound(H, known, w) && Admissible(H, known, w, e) && Separates(H, known)
    ensures Sound(H, known, Step(H, w, e))
  {
    hide Sound, Admissible, Step, Separates;
    match e
    case Restart(cfg) => RestartKeeps(H, known, w, cfg);
    case Update(records, clock) =>
      if Generated(H, MemoryOf(H, w), records, clock).out.Some? {
        WriteKeeps(H, known, w, records, clock);
      } else {
        SkipKeeps(H, known, w, records, clock);
      }
  }

  lemma {:induction false} RunKeeps(H: Hash, known: set<string>, w: World, events: seq<Event>)
    requires Sound(H, known, w) && AllAdmissible(H, known, w, events) && Separates(H, known)
    ensures Sound(H, known, Run(H, w, events))
    decreases |events|
  {
    hide Sound, Admissible, Step, Separates;
    if events != [] {
      StepKeeps(H, known, w, events[0]);
      RunKeeps(H, known, Step(H, w, events[0]), events[1..]);
    }
  }

  /**
   * Two versions published over a whole run of updates and restarts, with configuration changes at the restarts, carry
   * one serial only if they are the same file.
   */
  lemma {:induction false} SerialIdentifiesVersion(
      H: Hash, known: set<string>, cfg: ZoneConfig, events: seq<Event>, i: nat, j: nat)
    requires CleanConfig(cfg) && AllAdmissible(H, known, Start(cfg), events) && Separates(H, known)
    requires var h := Run(H, Start(cfg), events).history; i < |h| && j < |h| && h[i].serial == h[j].serial
    ensures var h := Run(H, Start(cfg), events).history; i == j && FileOf(H, h[i]) == FileOf(H, h[j])
  {
    hide Run, AllAdmissible, CleanConfig, FileOf;
    RunKeeps(H, known, Start(cfg), events);
  }

  /**
   * After any update of any run, written or skipped, the file on disk is the rendering of the records just given under
   * the configuration in force, at the serial of the last version.
   */
  lemma {:induction false} UpdateShowsRecords(
      H: Hash, known: set<string>, cfg: ZoneConfig, before: seq<Event>, records: seq<IPRecord>, clock: int)
    requires CleanConfig(cfg) && AllAdmissible(H, known, Start(cfg), before) && Separates(H, known)
    requires Admissible(H, known, Run(H, Start(cfg), before), Update(records, clock))
    ensures var w := Run(H, Start(cfg), before);
            var after := Step(H, w, Update(records, clock));
            var c := Effective(w.config);
            after.file == Some(FileOf(H, Version(c, LastSerial(after), Prepared(c, records))))
  {
    hide Run, AllAdmissible, CleanConfig, Admissible, FileOf, Separates, Opened, FingerprintOf, Prepared, Published, NextSerial;
    RunKeeps(H, known, Start(cfg), before);
    var w := Run(H, Start(cfg), before);
    if Generated(H, MemoryOf(H, w), records, clock).out.Some? {
      WriteKeeps(H, known, w, records, clock);
      var after := Step(H, w, Update(records, clock));
      assert after.history[|after.history| - 1].records == Prepared(Effective(w.config), records);
    } else {
      SkipKeeps(H, known, w, records, clock);
    }
  }

  /** The zone left the record set: its file is removed and its generator forgotten. */
  function Removed(w: World): World { w.(file := None, gen := None) }

  /**
   * A zone that is removed and comes back has lost its serial: the new version's serial is the clock, so it is above
   * the one it follows exactly when the clock is; a zone that comes back within the second of its last write reuses
   * that version's serial for other content.
   */
  lemma {:induction false} RecreatedSerial(H: Hash, w: World, records: seq<IPRecord>, clock: int)
    requires 0 < clock < MODULUS && w.history != []
    ensures var after := Step(H, Removed(w), Update(records, clock));
            && |after.history| == |w.history| + 1 && LastSerial(after) == clock
            && (LastSerial(after) > LastSerial(w) <==> clock > LastSerial(w))
  {
    hide FingerprintOf, Published, Prepared;
    var m := MemoryOf(H, Removed(w));
    FingerprintIsHex(H, m.config, Prepared(m.config, records));
  }
}
