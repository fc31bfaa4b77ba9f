/** What a replica answers from the zone files the generator publishes, read by the rules of section 5.1 of RFC 1035. */
module Replica {
  import opened Wrappers
  import opened Strings
  import opened Decimal
  import opened Records
  import opened RecordOrder
  import opened ZoneText
  import opened Stamps
  import opened ZoneFile
  import opened ZoneReader
  import opened DnsZone
  import opened Plugin
  import opened ZoneDir
  import opened ZoneUrl
  import P = Plugin
  import G = Generator
  import ZoneHistory
  import Collisions
  import StripLabel
  import Protocol = ReloadProtocol
  import opened Fingerprint

  /** The reader of master files used here for the DNS library's. */
  function Reader(): MasterReader { MasterReader((origin: string, content: string) => ReadZone(origin, content)) }

  /** The records of a published file, in order. */
  function FileRecords(cfg: ZoneConfig, serial: nat, records: seq<IPRecord>): seq<RR> {
    [SOARecord(cfg, serial)] + [NSRecordRead(cfg)] + NSAddressRecords(cfg, records) + Meanings(cfg, Sort(records))
  }

  /** The zone a replica holds for a published file. */
  function HeldZone(cfg: ZoneConfig, serial: nat, records: seq<IPRecord>): Zone {
    Zone(EnsureTrailingDot(cfg.origin), GroupByOwner(FileRecords(cfg, serial, records)))
  }

  lemma OriginOfFile(zone: string)
    ensures HasPrefix(DB + zone, DB) && OriginOf(DB + zone) == EnsureTrailingDot(zone)
  {
    assert (DB + zone)[3..] == zone;
  }

  /** Publishing and loading: a replica holds exactly the records that were published. */
  lemma {:induction false} PublishedIsHeld(H: Hash, cfg: ZoneConfig, serial: nat, records: seq<IPRecord>, h: string)
    requires PrintableConfig(cfg) && IsHex64(h) && forall r :: r in records ==> Printable(cfg, r)
    ensures Parse(Reader(), DB + cfg.origin, Published(H, cfg, serial, records, h)) == Some(HeldZone(cfg, serial, records))
  {
    hide Published, PrintableConfig, Printable, GroupByOwner, SOARecord, NSRecordRead, NSAddressRecords, Meanings, Sort, ReadZone,
         EnsureTrailingDot, OriginOf;
    OriginOfFile(cfg.origin);
    PrintedZoneReadsBack(H, cfg, serial, records, h);
  }

  lemma {:induction false} HeldAt(cfg: ZoneConfig, serial: nat, records: seq<IPRecord>, owner: string)
    ensures At(HeldZone(cfg, serial, records), owner) == RecordsAt(FileRecords(cfg, serial, records), owner)
  {
    hide GroupByOwner, RecordsAt, FileRecords;
    GroupAt(FileRecords(cfg, serial, records), owner);
  }

  lemma FirstIsSOA(rrs: seq<RR>, soa: RR)
    requires rrs != [] && rrs[0] == soa && soa.rtype == SOA
    ensures FirstSOA(RecordsAt(rrs, Lower(soa.owner))) == Some(soa)
  {
  }

  /**
   * The serial a replica sees, and so compares to notify its secondaries, is the serial published, for a zone whose
   * name is in lower case: owners are kept in lower case and the zone's own name is not.
   */
  lemma {:induction false} HeldSerial(cfg: ZoneConfig, serial: nat, records: seq<IPRecord>)
    requires serial < 0x1_0000_0000 && Lower(EnsureTrailingDot(cfg.origin)) == EnsureTrailingDot(cfg.origin)
    ensures P.SerialOf(HeldZone(cfg, serial, records)) == Some(serial)
  {
    hide GroupByOwner, Meanings, NSAddressRecords, NSRecordRead, RecordsAt, EnsureTrailingDot;
    var z := HeldZone(cfg, serial, records);
    HeldAt(cfg, serial, records, z.origin);
    FirstIsSOA(FileRecords(cfg, serial, records), SOARecord(cfg, serial));
    SOAData3(cfg, serial);
    ValueDec(serial);
  }

  lemma SOAData3(cfg: ZoneConfig, serial: nat)
    ensures |SOARecord(cfg, serial).rdata| == 7 && SOARecord(cfg, serial).rdata[2] == Dec(serial)
    ensures SOARecord(cfg, serial).owner == EnsureTrailingDot(cfg.origin) && SOARecord(cfg, serial).rtype == SOA
  {
  }

  /** Where something answers a query itself, the answer is every record of the file of that owner and type. */
  lemma {:induction false} DirectAnswer(cfg: ZoneConfig, serial: nat, records: seq<IPRecord>, name: string, qtype: string)
    requires Matched(HeldZone(cfg, serial, records), name, qtype) != []
    ensures Chase(HeldZone(cfg, serial, records), name, qtype, {})
         == Filter((rr: RR) => Matches(rr, qtype), RecordsAt(FileRecords(cfg, serial, records), name))
  {
    hide FileRecords, RecordsAt, HeldZone;
    HeldAt(cfg, serial, records, name);
  }

  lemma {:induction false} MeaningIsInFile(cfg: ZoneConfig, serial: nat, records: seq<IPRecord>, r: IPRecord)
    requires r in records
    ensures Meaning(cfg, r) in FileRecords(cfg, serial, records)
  {
    hide Meaning, NSAddressRecords, SOARecord, NSRecordRead, Sort;
    SortedMeanings(cfg, records);
    assert r in Sort(records);
    var i :| 0 <= i < |Sort(records)| && Sort(records)[i] == r;
    assert Meanings(cfg, Sort(records))[i] == Meaning(cfg, r);
  }

  /** Every published record is in the answer to a query for its own name and type. */
  lemma {:induction false} RecordIsAnswered(cfg: ZoneConfig, serial: nat, records: seq<IPRecord>, r: IPRecord)
    requires r in records
    ensures var rr := Meaning(cfg, r);
            rr in Chase(HeldZone(cfg, serial, records), Lower(rr.owner), rr.rtype, {})
  {
    hide Meaning, FileRecords, HeldZone, Lower;
    var rr := Meaning(cfg, r);
    MeaningIsInFile(cfg, serial, records, r);
    HeldAt(cfg, serial, records, Lower(rr.owner));
    assert rr in RecordsAt(FileRecords(cfg, serial, records), Lower(rr.owner));
    assert rr in Matched(HeldZone(cfg, serial, records), Lower(rr.owner), rr.rtype);
    DirectAnswer(cfg, serial, records, Lower(rr.owner), rr.rtype);
  }

  /**
   * An alias with no address of its own is answered by its published CNAME and then as its target is, exactly when the
   * alias does not come up again on the way from its target.
   */
  lemma {:induction false} AliasIsFollowed(cfg: ZoneConfig, serial: nat, records: seq<IPRecord>, name: string, qtype: string)
    requires Next(HeldZone(cfg, serial, records), name, qtype).Some?
    ensures var z := HeldZone(cfg, serial, records);
            && Followed(z, name, qtype).Some? && Followed(z, name, qtype).value in FileRecords(cfg, serial, records)
            && (Chase(z, name, qtype, {}) == [Followed(z, name, qtype).value] + Chase(z, Next(z, name, qtype).value, qtype, {})
                <==> !OnPath(z, Next(z, name, qtype).value, qtype, name))
  {
    hide FileRecords, HeldZone, Chase, RecordsAt, OnPath;
    AliasEquationExactlyWhen(HeldZone(cfg, serial, records), name, qtype);
    HeldAt(cfg, serial, records, name);
    CnameIsThere(HeldZone(cfg, serial, records), name, qtype);
    InRecordsAt(FileRecords(cfg, serial, records), name);
  }

  lemma CnameIsThere(z: Zone, name: string, qtype: string)
    ensures Followed(z, name, qtype).Some? ==> Followed(z, name, qtype).value in At(z, name)
  {
  }

  lemma InRecordsAt(rrs: seq<RR>, owner: string)
    ensures forall rr :: rr in RecordsAt(rrs, owner) ==> rr in rrs
  {
  }

  // ---- from the generator to the answer ----------------------------------------------------------------------------

  /** Sanitising leaves only records that can be printed, if their addresses can. */
  lemma {:induction false} PreparedIsPrintable(cfg: ZoneConfig, records: seq<IPRecord>)
    requires forall r :: r in records ==> PrintableAddress(cfg, r)
    ensures forall r :: r in G.Prepared(cfg, records) ==> Printable(cfg, r)
  {
    hide PrintableAddress, SafeRecord, Collisions.Pass, Collisions.Eligible;
    var safe := Filter(SafeRecord, records);
    Collisions.PassMembers(safe, cfg.origin, safe);
    forall r | r in G.Prepared(cfg, records) ensures Printable(cfg, r) {
      assert r in safe;
    }
  }

  /** What a replica holds of a zone the generator wrote: exactly the sanitised records it was given. */
  lemma {:induction false} GeneratedIsHeld(H: Hash, m: G.Memory, records: seq<IPRecord>, clock: int)
    requires PrintableConfig(m.config) && forall r :: r in records ==> PrintableAddress(m.config, r)
    requires G.Generated(H, m, records, clock).out.Some?
    ensures var o := G.Generated(H, m, records, clock);
            Parse(Reader(), DB + m.config.origin, o.out.value)
            == Some(HeldZone(m.config, o.memory.serial, G.Prepared(m.config, records)))
  {
    hide Parse, PrintableConfig, PrintableAddress, Printable, Published, HeldZone, FingerprintOf, G.Prepared;
    var o, kept := G.Generated(H, m, records, clock), G.Prepared(m.config, records);
    PreparedIsPrintable(m.config, records);
    G.FingerprintIsHex(H, m.config, kept);
    PublishedIsHeld(H, m.config, o.memory.serial, kept, FingerprintOf(H, m.config, kept));
  }

  function HeldVersion(v: G.Version): Zone { HeldZone(v.config, v.serial, v.records) }

  /**
   * Between two versions of a zone that a replica served one after the other, secondaries are notified exactly when
   * they are different versions.
   */
  lemma {:induction false} NotifiedExactlyWhenRewritten(
      H: Hash, known: set<string>, cfg: ZoneConfig, events: seq<ZoneHistory.Event>, i: nat, j: nat)
    requires CleanConfig(cfg) && ZoneHistory.AllAdmissible(H, known, ZoneHistory.Start(cfg), events) && Separates(H, known)
    requires var h := ZoneHistory.Run(H, ZoneHistory.Start(cfg), events).history;
             && i < |h| && j < |h| && h[i].config.origin == h[j].config.origin
             && Lower(EnsureTrailingDot(h[i].config.origin)) == EnsureTrailingDot(h[i].config.origin)
    ensures var h := ZoneHistory.Run(H, ZoneHistory.Start(cfg), events).history; var o := EnsureTrailingDot(h[i].config.origin);
            NeedsNotify(map[o := HeldVersion(h[i])], map[o := HeldVersion(h[j])], o) <==> i != j
  {
    hide ZoneHistory.AllAdmissible, ZoneHistory.Run, CleanConfig, HeldZone, G.FileOf, P.SerialOf, EnsureTrailingDot, Lower;
    var h := ZoneHistory.Run(H, ZoneHistory.Start(cfg), events).history;
    HeldSerial(h[i].config, h[i].serial, h[i].records);
    HeldSerial(h[j].config, h[j].serial, h[j].records);
    if h[i].serial == h[j].serial { ZoneHistory.SerialIdentifiesVersion(H, known, cfg, events, i, j); }
  }

  /** Of a published zone with a lower-case name secondaries are notified exactly when it was not served with this serial before. */
  lemma {:induction false} NotifiedExactlyWhenNew(
      cfg: ZoneConfig, serial: nat, records: seq<IPRecord>, previous: map<string, Zone>, current: map<string, Zone>)
    requires serial < 0x1_0000_0000 && Lower(EnsureTrailingDot(cfg.origin)) == EnsureTrailingDot(cfg.origin)
    requires var o := EnsureTrailingDot(cfg.origin); o in current && current[o] == HeldZone(cfg, serial, records)
    ensures var o := EnsureTrailingDot(cfg.origin);
            NeedsNotify(previous, current, o) <==> o !in previous || P.SerialOf(previous[o]) != Some(serial)
  {
    hide HeldZone, P.SerialOf, Lower, EnsureTrailingDot;
    HeldSerial(cfg, serial, records);
  }

  // ---- what a clean replica answers from ----------------------------------------------------------------------------

  /**
   * From the start of the sidecar, once a change has been written: a replica that is not dirty serves, of every zone
   * that was published, exactly the published records, where every listed file is answered as itself.
   */
  lemma {:induction false} CleanReplicaServes(
      H: Hash, s: Protocol.System, before: seq<Protocol.Event>, after: seq<Protocol.Event>, a: string,
      listing: seq<string>, i: nat, cfg: ZoneConfig, serial: nat, records: seq<IPRecord>, h: string)
    requires Protocol.Booted(s) && Protocol.IsRun(s, before) && Protocol.Run(s, before).phase == Protocol.Writing(true)
    requires var changed := Protocol.Step(Protocol.Run(s, before), Protocol.EndWrite);
             Protocol.IsRun(changed, after) && Protocol.Run(changed, after).phase.Quiet?
             && a in Protocol.Run(changed, after).replicas && a !in Protocol.Run(changed, after).dirty
    requires var disk := Protocol.Run(Protocol.Step(Protocol.Run(s, before), Protocol.EndWrite), after).disk;
             && (forall n :: n in listing ==> n in disk && Parse(Reader(), n, disk[n]).Some?)
             && (forall n :: n in listing ==> AnsweredAsItself(n)) && i < |listing| && listing[i] == DB + cfg.origin
             && (forall j :: i < j < |listing| ==> OriginOf(listing[j]) != OriginOf(listing[i]))
             && disk[listing[i]] == Published(H, cfg, serial, records, h)
    requires PrintableConfig(cfg) && IsHex64(h) && forall r :: r in records ==> Printable(cfg, r)
    ensures var served := Seen(Protocol.Run(Protocol.Step(Protocol.Run(s, before), Protocol.EndWrite), after).replicas[a].served, listing);
            && (forall n :: n in listing ==> n in served && Parse(Reader(), n, served[n]).Some?)
            && EnsureTrailingDot(cfg.origin) in ParseAll(Reader(), served, listing)
            && ParseAll(Reader(), served, listing)[EnsureTrailingDot(cfg.origin)] == HeldZone(cfg, serial, records)
  {
    hide Protocol.Booted, Protocol.IsRun, Protocol.Run, Published, PrintableConfig, Printable, Parse, HeldZone, OriginOf, EnsureTrailingDot,
         Seen, AnsweredAsItself;
    Protocol.AgreementFromBoot(s, before, after, a);
    var disk := Protocol.Run(Protocol.Step(Protocol.Run(s, before), Protocol.EndWrite), after).disk;
    SeenAsItself(disk, listing);
    ParseAllAt(Reader(), Seen(disk, listing), listing, i);
    PublishedIsHeld(H, cfg, serial, records, h);
    OriginOfFile(cfg.origin);
  }

  lemma SeenAsItself(files: Files, listing: seq<string>)
    requires forall n :: n in listing ==> n in files && AnsweredAsItself(n)
    ensures forall n :: n in listing ==> n in Seen(files, listing) && Seen(files, listing)[n] == files[n]
  {
    hide Requested, Servable;
  }

  // ---- inputs on which the program fails ----------------------------------------------------------------------------

  lemma EmptyLabelSplits()
    ensures TrimSuffix("host..org", ".") == "host..org" && Split("host..org", '.') == ["host", "", "org"]
  {
    hide Split;
    assert "host..org"[8] == 'g';
    SplitCons("", '.', "org");
    SplitCons("host", '.', "" + ['.'] + "org");
    SplitWhole("org");
    assert "host" + ['.'] + ("" + ['.'] + "org") == "host..org";
  }

  lemma SplitWhole(s: string)
    ensures '.' !in s ==> Split(s, '.') == [s]
  {
  }

  lemma EmptyLabelZone()
    ensures StripLabel.ZoneOf("host..org", 2) == Some(".org") && !SafeZoneName("host..org")
  {
    hide Split, TrimSuffix;
    EmptyLabelSplits();
    var labels := ["host", "", "org"];
    assert labels[1..] == ["", "org"] && ["", "org"][1..] == ["org"];
    assert Join(["org"], ".") == "org";
    assert Join(["", "org"], ".") == "" + "." + "org" == ".org";
    assert labels[1] in labels && !SafeLabel("");
  }

  /**
   * One NetBox name with an empty label: at depth two its zone is .org, whose file is listed and not served, and the
   * record itself is dropped as unsafe.
   */
  lemma EmptyLabelUnservable()
    ensures StripLabel.ZoneOf("host..org", 2) == Some(".org") && !SafeZoneName("host..org")
    ensures Flat(".org") && PlainInUrl(".org") && !Servable(DB + ".org")
  {
    hide StripLabel.ZoneOf, SafeZoneName, Contains;
    EmptyLabelZone();
    assert HasPrefix(".org", ".");
    ServableExactlyWhen(".org");
  }

  lemma OneSafeRecord(cfg: ZoneConfig, r: IPRecord)
    requires SafeRecord(r) && !r.IsCNAME()
    ensures G.Prepared(cfg, [r]) == [r] && G.Prepared(cfg, []) == []
  {
    hide SafeRecord;
    assert [r][1..] == [];
    assert Filter(SafeRecord, [r]) == [r];
    assert [r][..0] == [];
    assert Collisions.Pass([r], cfg.origin, [r]) == [r];
  }

  lemma {:induction false} DifferentFiles(H: Hash, cfg: ZoneConfig, serial: nat, a: seq<IPRecord>, h: string, b: seq<IPRecord>, g: string)
    requires PrintableConfig(cfg) && cfg.primaryNSIP == "" && IsHex64(h) && IsHex64(g) && |a| != |b|
    requires (forall r :: r in a ==> Printable(cfg, r)) && (forall r :: r in b ==> Printable(cfg, r))
    ensures Published(H, cfg, serial, a, h) != Published(H, cfg, serial, b, g)
  {
    hide Published, PrintableConfig, Printable, ReadZone, SOARecord, NSRecordRead, Meaning, Sort, EnsureTrailingDot;
    PrintedZoneReadsBack(H, cfg, serial, a, h);
    PrintedZoneReadsBack(H, cfg, serial, b, g);
    SortSorts(a);
    SortSorts(b);
    assert |Sort(a)| == |multiset(Sort(a))| == |a| && |Sort(b)| == |multiset(Sort(b))| == |b|;
    NoNSAddress(cfg, a);
    NoNSAddress(cfg, b);
  }

  lemma NoNSAddress(cfg: ZoneConfig, records: seq<IPRecord>)
    requires cfg.primaryNSIP == ""
    ensures NSAddressRecords(cfg, records) == []
  {
  }

  /** A zone written, removed and written again within one second: one serial, two different files. */
  lemma {:induction false} RecreatedReusesSerial(H: Hash, cfg: ZoneConfig, r: IPRecord, clock: int)
    requires 0 < clock < 0x1_0000_0000 && PrintableConfig(cfg) && cfg.primaryNSIP == ""
    requires SafeRecord(r) && !r.IsCNAME() && PrintableAddress(G.Effective(cfg), r)
    ensures var first := ZoneHistory.Step(H, ZoneHistory.Start(cfg), ZoneHistory.Update([], clock));
            var second := ZoneHistory.Step(H, ZoneHistory.Removed(first), ZoneHistory.Update([r], clock));
            && ZoneHistory.LastSerial(first) == ZoneHistory.LastSerial(second) == clock
            && first.file.Some? && second.file.Some? && first.file != second.file
  {
    hide Published, PrintableConfig, SafeRecord, PrintableAddress, FingerprintOf, G.Prepared, G.Effective, Meaning;
    var c := G.Effective(cfg);
    EffectivePrintable(cfg);
    OneSafeRecord(c, r);
    var first := ZoneHistory.Step(H, ZoneHistory.Start(cfg), ZoneHistory.Update([], clock));
    G.FingerprintIsHex(H, c, []);
    G.FingerprintIsHex(H, c, [r]);
    assert first.history == [G.Version(c, clock, [])];
    ZoneHistory.RecreatedSerial(H, first, [r], clock);
    PrintableOne(c, r);
    DifferentFiles(H, c, clock, [], FingerprintOf(H, c, []), [r], FingerprintOf(H, c, [r]));
  }

  lemma PrintableOne(cfg: ZoneConfig, r: IPRecord)
    requires SafeRecord(r) && PrintableAddress(cfg, r)
    ensures Printable(cfg, r)
  {
  }

  lemma EffectivePrintable(cfg: ZoneConfig)
    requires PrintableConfig(cfg)
    ensures PrintableConfig(G.Effective(cfg)) && G.Effective(cfg).primaryNSIP == cfg.primaryNSIP
  {
  }

  // ---- letter case -----------------------------------------------------------------------------------------------

  lemma {:induction false} LowerTail(s: string, k: nat)
    requires Lower(s) == s && k <= |s|
    ensures Lower(s[k..]) == s[k..]
  {
    forall i | 0 <= i < |s| - k ensures Lower(s[k..])[i] == s[k..][i] {
      assert Lower(s)[k + i] == LowerChar(s[k + i]);
    }
  }

  /**
   * Queries are looked up in lower case and zones are kept under their names as written: a zone answers some query
   * exactly when its name is in lower case.
   */
  lemma {:induction false} ReachableExactlyWhenLower(origins: set<string>, origin: string)
    requires origin in origins
    ensures (exists name :: Lower(name) == name && FindFrom(origins, name) == Some(origin)) <==> Lower(origin) == origin
  {
    hide Lower;
    if name :| Lower(name) == name && FindFrom(origins, name) == Some(origin) {
      FoundIsThere(origins, name);
      if name != origin {
        assert name[|name| - |origin|..] == name[|name| - |origin| - 1..][1..] == ("." + origin)[1..] == origin;
        LowerTail(name, |name| - |origin|);
      }
    }
    if Lower(origin) == origin {
      assert Lower(origin) == origin && FindFrom(origins, origin) == Some(origin);
    }
  }
}
