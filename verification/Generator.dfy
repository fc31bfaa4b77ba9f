/** The zone file generator: skip or bump, render and stamp (NewGenerator and Generate in internal/zonegen/generator.go). */
module Generator {
  import opened Wrappers
  import opened Records
  import opened ZoneText
  import opened ZoneFile
  import opened Stamps
  import opened Fingerprint
  import opened Serial
  import Collisions

  const DEFAULT_SOA := SOATimers(3600, 900, 604800, 86400)

  /** The configuration in force: zero timers stand for the defaults. */
  function Effective(cfg: ZoneConfig): ZoneConfig {
    if cfg.soa == SOATimers(0, 0, 0, 0) then cfg.(soa := DEFAULT_SOA) else cfg
  }

  /** The records that reach a zone: those safe to print and, in a forward zone, no CNAME that collides. */
  function Prepared(cfg: ZoneConfig, records: seq<IPRecord>): seq<IPRecord> {
    var safe := Filter(SafeRecord, records);
    if cfg.ztype == Forward then Collisions.Resolve(safe, cfg.origin) else safe
  }

  /** What a generator remembers of its zone. */
  datatype Memory = Memory(config: ZoneConfig, lastHash: string, serial: UInt32, hashFromFile: bool)

  /** What a new generator learns from the file it finds. */
  function Opened(H: Hash, cfg: ZoneConfig, file: Option<string>): Memory {
    Memory(Effective(cfg), FoundHash(H, file), FoundSerial(file), FoundHash(H, file) != "")
  }

  function FoundHash(H: Hash, file: Option<string>): string {
    if file.Some? then VerifiedHash(H, file.value) else ""
  }

  function FoundSerial(file: Option<string>): UInt32 {
    if file.Some? && SerialOf(file.value).Some? && SerialOf(file.value).value < MODULUS then SerialOf(file.value).value else 0
  }

  /** What is remembered after generating, and the file to write if there is one. */
  datatype Outcome = Outcome(memory: Memory, out: Option<string>)

  function Generated(H: Hash, m: Memory, records: seq<IPRecord>, clock: int): Outcome {
    var kept := Prepared(m.config, records);
    var hash := FingerprintOf(H, m.config, kept);
    if hash == m.lastHash then Outcome(m, None)
    else
      var serial := NextSerial(m.serial, clock);
      Outcome(Memory(m.config, hash, serial, false), Some(Published(H, m.config, serial, kept, hash)))
  }

  lemma {:induction false} SerialFits(lines: seq<string>, inSOA: bool)
    ensures SerialIn(lines, inSOA).Some? ==> SerialIn(lines, inSOA).value < MODULUS
    decreases |lines|
  {
    if lines != [] {
      SerialFits(lines[1..], true);
      SerialFits(lines[1..], false);
    }
  }

  /** The two readings of an existing file: its serial for continuity, its fingerprint to recognise its records. */
  method ReadZoneFile(H: Hash, file: Option<string>) returns (serial: UInt32, hash: string)
    ensures serial == FoundSerial(file) && hash == FoundHash(H, file)
  {
    hide SerialOf, SerialIn, VerifiedHash, ScanLines;
    serial, hash := 0, "";
    if file.Some? {
      var found := ReadSerialFromZoneFile(file.value);
      SerialOfFits(file.value);
      if found.Some? && found.value > 0 {
        serial := found.value;
      }
      hash := ReadVerifiedContentHash(H, file.value);
    }
  }

  lemma {:induction false} SerialOfFits(content: string)
    ensures SerialOf(content).Some? ==> SerialOf(content).value < MODULUS
  {
    hide SerialIn, ScanLines;
    SerialFits(ScanLines(content), false);
  }

  class Generator {
    const config: ZoneConfig
    var lastHash: string
    var serial: UInt32
    var hashFromFile: bool

    ghost function State(): Memory
      reads this
    {
      Memory(config, lastHash, serial, hashFromFile)
    }

    /** `file` is what is at the zone's path, if anything is. */
    constructor (H: Hash, cfg: ZoneConfig, file: Option<string>)
      ensures State() == Opened(H, cfg, file) && config.origin == cfg.origin
    {
      hide FoundSerial, FoundHash;
      config := if cfg.soa == SOATimers(0, 0, 0, 0) then cfg.(soa := DEFAULT_SOA) else cfg;
      lastHash := "";
      hashFromFile := false;
      var found, hash := ReadZoneFile(H, file);
      serial := found;
      if hash != "" {
        lastHash := hash;
        hashFromFile := true;
      }
    }

    method Generate(H: Hash, records: seq<IPRecord>, clock: int) returns (content: string, changed: bool, count: nat)
      modifies this
      ensures State() == Generated(H, old(State()), records, clock).memory
      ensures Generated(H, old(State()), records, clock).out == if changed then Some(content) else None
      ensures !changed ==> content == ""
      ensures count == |Prepared(config, records)|
    {
      hide Plain, Stamp, FingerprintOf, Filter, Collisions.Resolve, NextSerial;
      var kept := DropUnsafeNames(records);
      if config.ztype == Forward {
        kept := Collisions.ResolveCNAMECollisions(kept, config.origin);
      }
      var hash := ComputeFingerprint(H, config, kept);
      if hash == lastHash {
        return "", false, |kept|;
      }
      serial := NextSerial(serial, clock);
      var plain := Render(config, serial, kept);
      lastHash := hash;
      hashFromFile := false;
      content := WithFingerprints(H, plain, hash);
      changed, count := true, |kept|;
    }
  }

  // ---- what one call means ----------------------------------------------------------------------------------

  /** A version of a zone: what its file was rendered from. */
  datatype Version = Version(config: ZoneConfig, serial: UInt32, records: seq<IPRecord>)

  function FileOf(H: Hash, v: Version): string {
    Published(H, v.config, v.serial, v.records, FingerprintOf(H, v.config, v.records))
  }

  function VersionTexts(H: Hash, v: Version): set<string> { HashedTexts(H, v.config, v.records) }

  ghost predicate CleanVersion(v: Version) { CleanConfig(v.config) && AllEncodable(v.records) }

  /** The two versions are of one zone. */
  predicate SameZone(c: ZoneConfig, d: ZoneConfig) { c.origin == d.origin && c.ztype == d.ztype }

  /**
   * Skip soundness: with the last version on disk, "unchanged" means that the file already is, byte for byte, what
   * the given records render to under the present configuration at the serial it carries.
   */
  lemma {:induction false} SkipSoundness(H: Hash, m: Memory, v: Version, records: seq<IPRecord>, clock: int)
    requires m.lastHash == FingerprintOf(H, v.config, v.records)
    requires SameZone(m.config, v.config) && CleanVersion(v)
    requires CleanVersion(Version(m.config, v.serial, Prepared(m.config, records)))
    requires Separates(H, VersionTexts(H, v) + HashedTexts(H, m.config, Prepared(m.config, records)))
    ensures Generated(H, m, records, clock).out.None? ==>
              FileOf(H, v) == FileOf(H, Version(m.config, v.serial, Prepared(m.config, records)))
  {
    hide FingerprintOf, Published, Plain, HashedTexts, CleanConfig, Encodable, Separates, Prepared;
    if Generated(H, m, records, clock).out.None? {
      var kept := Prepared(m.config, records);
      EqualFingerprintEqualFile(H, v.config, v.records, m.config, kept, v.serial);
      SameStamp(H, v.config, kept, v.records, v.serial, m.lastHash);
    }
  }

  lemma SameStamp(H: Hash, cfg: ZoneConfig, a: seq<IPRecord>, b: seq<IPRecord>, serial: nat, h: string)
    requires Plain(cfg, serial, a) == Plain(cfg, serial, b)
    ensures Published(H, cfg, serial, a, h) == Published(H, cfg, serial, b, h)
  {
    hide Plain, Stamp;
  }

  /**
   * Generating the same records again changes nothing, whatever became of the file in between: the fingerprint is
   * remembered before the file is written, so a write that failed is not tried again until the records change.
   */
  lemma RepeatIsUnchanged(H: Hash, m: Memory, records: seq<IPRecord>, clock: int, later: int)
    ensures var after := Generated(H, m, records, clock).memory;
            Generated(H, after, records, later) == Outcome(after, None) && after.config == m.config
  {
    hide FingerprintOf, Published, Prepared;
  }

  /** A restarted process recovers both the fingerprint and the serial of the version on disk. */
  lemma {:induction false} RestartRemembers(H: Hash, cfg: ZoneConfig, v: Version)
    requires CleanConfig(v.config) && v.serial >= 1_000_000_000
    ensures var m := Opened(H, cfg, Some(FileOf(H, v)));
            m.lastHash == FingerprintOf(H, v.config, v.records) && m.serial == v.serial && m.hashFromFile
  {
    hide Plain, Stamp, CleanConfig, VerifiedHash, SerialOf, FingerprintOf, Effective;
    var h := FingerprintOf(H, v.config, v.records);
    FingerprintIsHex(H, v.config, v.records);
    RenderedIsStampable(v.config, v.serial, v.records);
    StampRoundTrip(H, Plain(v.config, v.serial, v.records), h);
    SerialRoundTrip(H, v.config, v.serial, v.records, h);
  }

  lemma FingerprintIsHex(H: Hash, cfg: ZoneConfig, records: seq<IPRecord>)
    ensures IsHex64(FingerprintOf(H, cfg, records)) && FingerprintOf(H, cfg, records) != ""
  {
  }

  /**
   * A file found at a restart with its two fingerprint comments intact but another body is always rewritten,
   * whatever the records.
   */
  lemma {:induction false} AlteredBodyRewritten(
      H: Hash, cfg: ZoneConfig, file: string, h: string, body: string, records: seq<IPRecord>, clock: int)
    requires StampsOf(file) == (h, H.Of(body)) && h != ""
    requires StripStamps(file) != body && Separates(H, {StripStamps(file), body})
    ensures Generated(H, Opened(H, cfg, Some(file)), records, clock).out.Some?
  {
    hide FingerprintOf, Published, Prepared, StripStamps, StampsOf;
    TrustedExactlyWhenBodyIntact(H, file, h, body);
    var m := Opened(H, cfg, Some(file));
    FingerprintIsHex(H, m.config, Prepared(m.config, records));
  }

  /** The order of the records given, CNAMEs keeping theirs, changes nothing that is remembered or written. */
  lemma {:induction false} GenerateIgnoresOrder(H: Hash, m: Memory, a: seq<IPRecord>, b: seq<IPRecord>, clock: int)
    requires multiset(a) == multiset(b)
    requires Filter(Collisions.IsAlias, a) == Filter(Collisions.IsAlias, b)
    ensures Generated(H, m, a, clock) == Generated(H, m, b, clock)
    ensures multiset(Prepared(m.config, a)) == multiset(Prepared(m.config, b))
  {
    hide FingerprintOf, Published, Plain, Prepared;
    var pa, pb := Prepared(m.config, a), Prepared(m.config, b);
    PreparedIgnoresOrder(m.config, a, b);
    RecordOrder.ViewsIgnoreOrder(pa, pb);
    FingerprintIgnoresOrder(H, m.config, pa, pb);
    var serial := NextSerial(m.serial, clock);
    SamePlain(m.config, serial, pa, pb);
    SameStamp(H, m.config, pa, pb, serial, FingerprintOf(H, m.config, pa));
  }

  lemma {:induction false} SamePlain(cfg: ZoneConfig, serial: nat, a: seq<IPRecord>, b: seq<IPRecord>)
    requires multiset(RecordOrder.Views(a)) == multiset(RecordOrder.Views(b))
    ensures Plain(cfg, serial, a) == Plain(cfg, serial, b)
  {
    RecordOrder.SortSorts(b);
    PlainIgnoresOrder(cfg, serial, a, b, RecordOrder.Sort(b));
  }

  lemma {:induction false} FiltersCommute<T(!new)>(p: T -> bool, q: T -> bool, s: seq<T>)
    ensures Filter(p, Filter(q, s)) == Filter(q, Filter(p, s))
    decreases |s|
  {
    if s != [] {
      FiltersCommute(p, q, s[1..]);
    }
  }

  lemma {:induction false} PreparedIgnoresOrder(cfg: ZoneConfig, a: seq<IPRecord>, b: seq<IPRecord>)
    requires multiset(a) == multiset(b)
    requires Filter(Collisions.IsAlias, a) == Filter(Collisions.IsAlias, b)
    ensures multiset(Prepared(cfg, a)) == multiset(Prepared(cfg, b))
  {
    FilterPermutation(SafeRecord, a, b);
    if cfg.ztype == Forward {
      FiltersCommute(Collisions.IsAlias, SafeRecord, a);
      FiltersCommute(Collisions.IsAlias, SafeRecord, b);
      Collisions.ResolveIgnoresAddressOrder(Filter(SafeRecord, a), Filter(SafeRecord, b), cfg.origin);
    }
  }
}
