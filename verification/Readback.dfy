/** What is read back from the zone directory after an update, in terms of the settings, the zone's name and the records given. */
module Readback {
  import opened Wrappers
  import opened Strings
  import opened Decimal
  import opened Records
  import opened ZoneText
  import opened Stamps
  import opened ZoneFile
  import opened ZoneDir
  import opened ZoneReader
  import opened ZoneManager
  import opened Mirror
  import opened Fingerprint
  import opened Serial
  import G = Generator
  import Collisions
  import RecordOrder
  import Replica

  // ---- what is meant to be there ---------------------------------------------------------------------------------

  predicate NamedReverse(zone: string) { HasSuffix(zone, ".in-addr.arpa") || HasSuffix(zone, ".ip6.arpa") }

  /** Zero timers stand for an hour, a quarter of one, a week and a day. */
  function Timers(st: Settings): SOATimers {
    if st.soa.refresh == 0 && st.soa.retry == 0 && st.soa.expire == 0 && st.soa.minimum == 0 then SOATimers(3600, 900, 604800, 86400)
    else st.soa
  }

  /** The SOA record: the settings' name server and mailbox, the serial, and the timers in the order of section 3.3.13 of RFC 1035. */
  function SOAFor(st: Settings, zone: string, serial: nat): RR {
    var o, t := EnsureTrailingDot(zone), Timers(st);
    RR(o, st.ttl, "SOA",
       [Absolute(st.primaryNS, o), Absolute(st.adminEmail, o), Dec(serial), Dec(t.refresh), Dec(t.retry), Dec(t.expire), Dec(t.minimum)])
  }

  function NSFor(st: Settings, zone: string): RR {
    var o := EnsureTrailingDot(zone);
    RR(o, st.ttl, "NS", [Absolute(st.primaryNS, o)])
  }

  /** A record of a reverse zone: its address field is the label, its name the target. */
  function PtrFor(st: Settings, zone: string, r: IPRecord): RR {
    RR((if r.address == "" then "" else r.address + ".") + EnsureTrailingDot(zone), st.ttl, "PTR", [EnsureTrailingDot(r.dnsName)])
  }

  /** A record of a forward zone: an alias, or an address of its family, with its own TTL if it has one. */
  function RecordFor(st: Settings, r: IPRecord): RR {
    RR(EnsureTrailingDot(r.dnsName), if r.ttl == 0 then st.ttl else r.ttl,
       if r.rtype == "CNAME" then "CNAME" else if r.family == 6 then "AAAA" else "A",
       [if r.rtype == "CNAME" then EnsureTrailingDot(r.cnameTarget) else r.address])
  }

  /** The name server's name, dot-terminated. */
  function ServerName(st: Settings): string { EnsureTrailingDot(TrimSuffix(st.primaryNS, ".")) }

  /** An address is configured for the name server, its name is in the zone, and no record there has that name. */
  ghost predicate NeedsAddress(st: Settings, zone: string, records: seq<IPRecord>) {
    && st.primaryNSIP != ""
    && (ServerName(st) == EnsureTrailingDot(zone) || HasSuffix(ServerName(st), "." + EnsureTrailingDot(zone)))
    && forall r :: r in records ==> TrimSuffix(r.dnsName, ".") != TrimSuffix(st.primaryNS, ".")
  }

  ghost function ServerAddress(st: Settings, zone: string, records: seq<IPRecord>): seq<RR> {
    if NeedsAddress(st, zone, records)
    then [RR(ServerName(st), st.ttl, if ':' in st.primaryNSIP then "AAAA" else "A", [st.primaryNSIP])]
    else []
  }

  /** The records of a zone but for SOA and NS: PTRs in a zone with a reverse name, else addresses, aliases and the name server's address. */
  ghost function RecordsFor(st: Settings, zone: string, records: seq<IPRecord>): multiset<RR> {
    var safe := Filter(SafeRecord, records);
    if NamedReverse(zone) then multiset(Map((r: IPRecord) => PtrFor(st, zone, r), safe))
    else
      var kept := Collisions.Resolve(safe, zone);
      multiset(ServerAddress(st, zone, kept)) + multiset(Map((r: IPRecord) => RecordFor(st, r), kept))
  }

  /** Settings, zone name and addresses that can stand in a zone file. */
  predicate Writable(st: Settings, zone: string, records: seq<IPRecord>) {
    && zone != "" && zone != "." && PlainWord(zone) && PlainWord(st.primaryNS) && PlainWord(st.adminEmail)
    && (st.primaryNSIP != "" ==> PlainWord(st.primaryNSIP) && SafeZoneName(TrimSuffix(st.primaryNS, ".")))
    && forall r :: r in records ==>
         if NamedReverse(zone) then
           r.address == "" || (PlainWord(r.address) && r.address != "@" && r.address[0] != '$' && !HasSuffix(r.address, "."))
         else r.rtype == "CNAME" || PlainWord(r.address)
  }

  // ---- what the model's configuration comes to --------------------------------------------------------------------

  function Config(st: Settings, zone: string): ZoneConfig { G.Effective(ConfigFor(st, zone)) }

  lemma ConfigIs(st: Settings, zone: string)
    ensures Config(st, zone) == ZoneConfig(zone, st.primaryNS, st.adminEmail, st.ttl, if NamedReverse(zone) then Reverse else Forward,
                                           Timers(st), st.primaryNSIP)
  {
  }

  lemma {:induction false} WritableIsPrintable(st: Settings, zone: string, records: seq<IPRecord>)
    requires Writable(st, zone, records)
    ensures PrintableConfig(Config(st, zone)) && forall r :: r in records ==> PrintableAddress(Config(st, zone), r)
  {
    hide Config, PlainWord, SafeZoneName;
    ConfigIs(st, zone);
  }

  lemma {:induction false} NameInZone(name: string, zone: string)
    requires SafeZoneName(name) && zone != ""
    ensures var o, full := EnsureTrailingDot(zone), EnsureTrailingDot(name);
            !HasSuffix(ShortName(name, o), ".") <==> full == o || HasSuffix(full, "." + o)
  {
    hide SafeZoneName;
    var o := EnsureTrailingDot(zone);
    SafeNameShape(name);
    var t := TrimSuffix(name, ".");
    if t + "." == o {
    } else if HasSuffix(t + ".", "." + o) {
      CutZone(t, o);
    } else {
      assert HasSuffix(t + ".", ".");
    }
  }

  lemma {:induction false} AddressIs(st: Settings, zone: string, records: seq<IPRecord>)
    requires zone != "" && (st.primaryNSIP != "" ==> SafeZoneName(TrimSuffix(st.primaryNS, ".")))
    ensures NSAddressRecords(Config(st, zone), records) == if NamedReverse(zone) then [] else ServerAddress(st, zone, records)
  {
    hide Config, SafeZoneName, ShortName, EnsureTrailingDot, TrimSuffix, HasSuffix, NamedReverse;
    ConfigIs(st, zone);
    if st.primaryNSIP != "" { NameInZone(TrimSuffix(st.primaryNS, "."), zone); }
  }

  lemma {:induction false} MeaningsAre(st: Settings, zone: string, records: seq<IPRecord>)
    ensures Meanings(Config(st, zone), records)
         == if NamedReverse(zone) then Map((r: IPRecord) => PtrFor(st, zone, r), records) else Map((r: IPRecord) => RecordFor(st, r), records)
  {
    hide Config, EnsureTrailingDot, NamedReverse;
    ConfigIs(st, zone);
    forall r ensures Meaning(Config(st, zone), r) == if NamedReverse(zone) then PtrFor(st, zone, r) else RecordFor(st, r) {
      LabelThenZone(r.address, EnsureTrailingDot(zone));
    }
  }

  lemma LabelThenZone(name: string, o: string)
    ensures (if name == "" then o else name + "." + o) == (if name == "" then "" else name + ".") + o
  {
    assert "" + o == o;
  }

  lemma HeadIs(st: Settings, zone: string, serial: nat)
    ensures SOARecord(Config(st, zone), serial) == SOAFor(st, zone, serial) && NSRecordRead(Config(st, zone)) == NSFor(st, zone)
  {
    hide Config, Dec, Absolute, EnsureTrailingDot;
    ConfigIs(st, zone);
    var t := Timers(st);
    assert SOAData(Config(st, zone), serial)[2..] == [Dec(serial), Dec(t.refresh), Dec(t.retry), Dec(t.expire), Dec(t.minimum)];
  }

  lemma PreparedIs(st: Settings, zone: string, records: seq<IPRecord>)
    ensures var safe := Filter(SafeRecord, records);
            G.Prepared(Config(st, zone), records) == if NamedReverse(zone) then safe else Collisions.Resolve(safe, zone)
  {
    hide Config, NamedReverse, Filter, Collisions.Resolve;
    ConfigIs(st, zone);
  }

  /** What is read from a file that shows the records. */
  ghost predicate ReadsAs(st: Settings, zone: string, records: seq<IPRecord>, file: Option<string>) {
    file.Some? && exists serial: nat, rrs: seq<RR> ::
      && ReadZone(EnsureTrailingDot(zone), file.value) == Some([SOAFor(st, zone, serial), NSFor(st, zone)] + rrs)
      && multiset(rrs) == RecordsFor(st, zone, records)
  }

  lemma {:induction false} ShownReadsAs(H: Hash, st: Settings, zone: string, file: Option<string>, records: seq<IPRecord>)
    requires Shows(H, ConfigFor(st, zone), file, records) && Writable(st, zone, records)
    ensures ReadsAs(st, zone, records, file)
  {
    hide Writable, G.Effective, ConfigFor, PrintableConfig, PrintableAddress, Published, G.Prepared, SOARecord, NSRecordRead, NSAddressRecords, Meanings,
         FingerprintOf, ReadZone, RecordOrder.Sort, Printable, SOAFor, NSFor, RecordsFor, EnsureTrailingDot;
    var cfg := Config(st, zone);
    var kept := G.Prepared(cfg, records);
    var serial: UInt32 :| file == Some(G.FileOf(H, G.Version(cfg, serial, kept)));
    WritableIsPrintable(st, zone, records);
    Replica.PreparedIsPrintable(cfg, records);
    G.FingerprintIsHex(H, cfg, kept);
    PrintedZoneReadsBack(H, cfg, serial, kept, FingerprintOf(H, cfg, kept));
    HeadIs(st, zone, serial);
    ConfigIs(st, zone);
    var rrs := NSAddressRecords(cfg, kept) + Meanings(cfg, RecordOrder.Sort(kept));
    Pieces(SOARecord(cfg, serial), NSRecordRead(cfg), NSAddressRecords(cfg, kept), Meanings(cfg, RecordOrder.Sort(kept)));
    KeptAre(st, zone, records);
  }

  lemma Pieces(a: RR, b: RR, c: seq<RR>, d: seq<RR>)
    ensures [a] + [b] + c + d == [a, b] + (c + d) && multiset(c + d) == multiset(c) + multiset(d)
  {
  }

  lemma {:induction false} KeptAre(st: Settings, zone: string, records: seq<IPRecord>)
    requires Writable(st, zone, records)
    ensures var cfg := Config(st, zone); var kept := G.Prepared(cfg, records);
            multiset(NSAddressRecords(cfg, kept)) + multiset(Meanings(cfg, kept)) == RecordsFor(st, zone, records)
  {
    hide Config, G.Prepared, NSAddressRecords, Meanings, PlainWord, SafeZoneName, NamedReverse, PtrFor, RecordFor, ServerAddress,
         Collisions.Resolve;
    PreparedIs(st, zone, records);
    AddressIs(st, zone, G.Prepared(Config(st, zone), records));
    MeaningsAre(st, zone, G.Prepared(Config(st, zone), records));
  }

  /**
   * After an update every zone of the map that is not missed has a file that reads as its records: the PTRs of the safe ones
   * in a zone with a reverse name, in any other their addresses and the aliases that do not collide, and the name server's
   * address where no record has its name; with the SOA and NS records and the TTL of the settings.
   */
  lemma {:induction false} UpdateReadsBack(
      H: Hash, known: set<string>, st: Settings, s: Managed, zm: ZoneMap, clock: string -> int, t: Managed, zone: string)
    requires InSync(H, known, st, s) && CleanMap(H, known, st, zm) && Separates(H, known)
    requires IsUpdate(s, OutcomesOf(H, st, s, zm, clock), t)
    requires zone in zm && !Missed(s, OutcomesOf(H, st, s, zm, clock), zone) && Writable(st, zone, zm[zone])
    ensures ReadsAs(st, zone, zm[zone], FileAt(t.disk, zone))
  {
    hide InSync, CleanMap, Separates, IsUpdate, OutcomesOf, Missed, Writable, Shows, ReadsAs, FileAt, Mirrors, NoOthers, AllSeen, ConfigFor;
    MirrorExact(H, known, st, s, zm, clock, t);
    ShownReadsAs(H, st, zone, FileAt(t.disk, zone), zm[zone]);
  }
}
