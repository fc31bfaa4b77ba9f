/** Sanitising records and rendering a zone file (internal/zonegen/generator.go). */
module ZoneText {
  import opened Records
  import opened Strings
  import opened RecordOrder
  import opened Decimal
  import Collisions

  datatype ZoneType = Forward | Reverse

  datatype SOATimers = SOATimers(refresh: nat, retry: nat, expire: nat, minimum: nat)

  datatype ZoneConfig = ZoneConfig(
    origin: string,
    primaryNS: string,
    adminEmail: string,
    ttl: nat,
    ztype: ZoneType,
    soa: SOATimers,
    primaryNSIP: string)

  // ---- names safe to emit -------------------------------------------------------------------------

  predicate IsAlnum(c: char) { 'a' <= c <= 'z' || 'A' <= c <= 'Z' || '0' <= c <= '9' || c == '_' }

  /** One label of safeZoneNameRE, within the length limit. */
  predicate SafeLabel(l: string) {
    && 1 <= |l| <= 63
    && (forall i :: 0 <= i < |l| ==> IsAlnum(l[i]) || l[i] == '-')
    && IsAlnum(l[0]) && IsAlnum(l[|l| - 1])
  }

  predicate SafeZoneName(name: string) {
    && name != "" && |name| <= 253
    && forall l :: l in Split(TrimSuffix(name, "."), '.') ==> SafeLabel(l)
  }

  predicate SafeRecord(r: IPRecord) {
    SafeZoneName(r.dnsName) && (r.IsCNAME() ==> SafeZoneName(r.cnameTarget))
  }

  /** The copy is made only from the first record that has to go. */
  method DropUnsafeNames(records: seq<IPRecord>) returns (kept: seq<IPRecord>)
    ensures kept == Filter(SafeRecord, records)
  {
    hide SafeZoneName, Filter;
    kept := records;
    var copied := false;
    var i := 0;
    while i < |records|
      invariant 0 <= i <= |records|
      invariant !copied ==> kept == records && Filter(SafeRecord, records[..i]) == records[..i]
      invariant copied ==> kept == Filter(SafeRecord, records[..i])
    {
      var r := records[i];
      FilterSnoc(SafeRecord, records, i);
      var bad := !SafeZoneName(r.dnsName);
      if !bad && r.IsCNAME() && !SafeZoneName(r.cnameTarget) {
        bad := true;
      }
      if !bad {
        if copied {
          kept := kept + [r];
        }
      } else {
        if !copied {
          kept := records[..i];
          copied := true;
        }
      }
      i := i + 1;
    }
    assert records[..i] == records;
  }

  // ---- names in a zone ------------------------------------------------------------------------------

  function ShortName(name: string, origin: string): string {
    var fqdn := EnsureTrailingDot(name);
    if fqdn == origin then "@" else TrimSuffix(fqdn, "." + origin)
  }

  // ---- rendering --------------------------------------------------------------------------------------

  /** One number of the SOA record and what it is. */
  function SOALine(number: string, what: string): string { "    " + number + " ; " + what }

  function HeaderLines(cfg: ZoneConfig, serial: nat): seq<string> {
    [ "$ORIGIN " + EnsureTrailingDot(cfg.origin),
      "$TTL " + Dec(cfg.ttl),
      "@ IN SOA " + cfg.primaryNS + " " + cfg.adminEmail + " (",
      SOALine(Dec(serial) + "  ", "serial"),
      SOALine(Padded(cfg.soa.refresh), "refresh"),
      SOALine(Padded(cfg.soa.retry), "retry"),
      SOALine(Padded(cfg.soa.expire), "expire"),
      SOALine(Padded(cfg.soa.minimum), "minimum"),
      ")",
      "",
      "@ IN NS " + cfg.primaryNS,
      "" ]
  }

  function NSName(cfg: ZoneConfig): string { TrimSuffix(cfg.primaryNS, ".") }

  /** The name server's own address is served here: the name is in this zone and no record defines it. */
  predicate ServesNSAddress(cfg: ZoneConfig, records: seq<IPRecord>) {
    && cfg.ztype != Reverse && cfg.primaryNSIP != ""
    && !HasSuffix(ShortName(NSName(cfg), EnsureTrailingDot(cfg.origin)), ".")
    && forall r :: r in records ==> TrimSuffix(r.dnsName, ".") != NSName(cfg)
  }

  function NSAddressType(cfg: ZoneConfig): string { if ':' in cfg.primaryNSIP then "AAAA" else "A" }

  function NSAddressLines(cfg: ZoneConfig, records: seq<IPRecord>): seq<string> {
    if ServesNSAddress(cfg, records) then
      [ ShortName(NSName(cfg), EnsureTrailingDot(cfg.origin)) + " IN " + NSAddressType(cfg) + " " + cfg.primaryNSIP, "" ]
    else []
  }

  function RRType(r: IPRecord): string {
    if r.IsCNAME() then CNAME else if r.family == 6 then "AAAA" else "A"
  }

  function RRValue(r: IPRecord): string {
    if r.IsCNAME() then EnsureTrailingDot(r.cnameTarget) else r.address
  }

  function RecordLine(cfg: ZoneConfig, r: IPRecord): string {
    if cfg.ztype == Reverse then
      (if r.address == "" then "@" else r.address) + " IN PTR " + EnsureTrailingDot(r.dnsName)
    else
      ShortName(r.dnsName, EnsureTrailingDot(cfg.origin))
      + (if r.ttl > 0 then " " + Dec(r.ttl) else "") + " IN " + RRType(r) + " " + RRValue(r)
  }

  function RecordLines(cfg: ZoneConfig, sorted: seq<IPRecord>): seq<string> {
    Map((r: IPRecord) => RecordLine(cfg, r), sorted)
  }

  function ZoneLines(cfg: ZoneConfig, serial: nat, sorted: seq<IPRecord>): seq<string> {
    HeaderLines(cfg, serial) + NSAddressLines(cfg, sorted) + RecordLines(cfg, sorted)
  }

  /** The zone file of a record set, before it is stamped with its fingerprints. */
  function Plain(cfg: ZoneConfig, serial: nat, records: seq<IPRecord>): string {
    Unlines(ZoneLines(cfg, serial, Sort(records)))
  }

  lemma {:induction false} RecordLinesDependOnViews(cfg: ZoneConfig, s: seq<IPRecord>, t: seq<IPRecord>)
    requires Views(s) == Views(t)
    ensures RecordLines(cfg, s) == RecordLines(cfg, t)
  {
    assert |Views(s)| == |s| && |Views(t)| == |t|;
    forall i | 0 <= i < |s| ensures RecordLines(cfg, s)[i] == RecordLines(cfg, t)[i] {
      assert Views(s)[i] == s[i].Visible() && Views(t)[i] == t[i].Visible();
      assert RecordLine(cfg, s[i]) == RecordLine(cfg, t[i]);
    }
  }

  lemma {:induction false} NSAddressDependsOnViews(cfg: ZoneConfig, s: seq<IPRecord>, t: seq<IPRecord>)
    requires Views(s) == Views(t)
    ensures NSAddressLines(cfg, s) == NSAddressLines(cfg, t)
  {
    assert |Views(s)| == |s| && |Views(t)| == |t|;
    forall i | 0 <= i < |s| ensures s[i].dnsName == t[i].dnsName {
      assert Views(s)[i] == s[i].Visible() && Views(t)[i] == t[i].Visible();
    }
  }

  /** The lines depend only on what zone generation can see of the records. */
  lemma {:induction false} LinesDependOnViews(cfg: ZoneConfig, serial: nat, s: seq<IPRecord>, t: seq<IPRecord>)
    requires Views(s) == Views(t)
    ensures ZoneLines(cfg, serial, s) == ZoneLines(cfg, serial, t)
  {
    RecordLinesDependOnViews(cfg, s, t);
    NSAddressDependsOnViews(cfg, s, t);
  }

  /** A zone file does not depend on the order the records came in, nor on the sort used. */
  lemma PlainIgnoresOrder(cfg: ZoneConfig, serial: nat, a: seq<IPRecord>, b: seq<IPRecord>, sorted: seq<IPRecord>)
    requires multiset(Views(a)) == multiset(Views(b)) && IsSorting(sorted, b)
    ensures Plain(cfg, serial, a) == Unlines(ZoneLines(cfg, serial, sorted))
  {
    SortSorts(a);
    SortIgnoresInputOrder(a, b, Sort(a), sorted);
    LinesDependOnViews(cfg, serial, Sort(a), sorted);
  }

  lemma UnlinesSnoc(lines: seq<string>, line: string)
    ensures Unlines(lines + [line]) == Unlines(lines) + line + "\n"
  {
    UnlinesAppend(lines, [line]);
    assert [line][1..] == [];
  }

  lemma {:induction false} OneLine(a: string)
    ensures Unlines([a]) == a + "\n"
  {
    assert [a][1..] == [];
    assert a + "\n" + "" == a + "\n";
  }

  lemma {:induction false} ThreeLines(a: string, b: string, c: string)
    ensures Unlines([a, b, c]) == a + "\n" + b + "\n" + c + "\n"
  {
    OneLine(a);
    UnlinesSnoc([a], b);
    assert [a] + [b] == [a, b];
    UnlinesSnoc([a, b], c);
    assert [a, b] + [c] == [a, b, c];
  }

  method WriteHeader(cfg: ZoneConfig, serial: nat) returns (b: string)
    ensures b == Unlines(HeaderLines(cfg, serial))
  {
    var origin := "$ORIGIN " + EnsureTrailingDot(cfg.origin);
    var ttl := "$TTL " + Dec(cfg.ttl);
    var soa := "@ IN SOA " + cfg.primaryNS + " " + cfg.adminEmail + " (";
    b := origin + "\n" + ttl + "\n" + soa + "\n";
    ThreeLines(origin, ttl, soa);
    var line := SOALine(Dec(serial) + "  ", "serial");
    var refresh := SOALine(Padded(cfg.soa.refresh), "refresh");
    var retry := SOALine(Padded(cfg.soa.retry), "retry");
    b := b + (line + "\n" + refresh + "\n" + retry + "\n");
    ThreeLines(line, refresh, retry);
    UnlinesAppend([origin, ttl, soa], [line, refresh, retry]);
    var expire := SOALine(Padded(cfg.soa.expire), "expire");
    var minimum := SOALine(Padded(cfg.soa.minimum), "minimum");
    b := b + (expire + "\n" + minimum + "\n" + ")" + "\n");
    ThreeLines(expire, minimum, ")");
    UnlinesAppend([origin, ttl, soa] + [line, refresh, retry], [expire, minimum, ")"]);
    var ns := "@ IN NS " + cfg.primaryNS;
    b := b + ("" + "\n" + ns + "\n" + "" + "\n");
    ThreeLines("", ns, "");
    UnlinesAppend([origin, ttl, soa] + [line, refresh, retry] + [expire, minimum, ")"], ["", ns, ""]);
    assert HeaderLines(cfg, serial)
        == [origin, ttl, soa] + [line, refresh, retry] + [expire, minimum, ")"] + ["", ns, ""];
  }

  /** Skipped when the name is out of the zone or a record already defines it. */
  method WritePrimaryNSAddress(cfg: ZoneConfig, records: seq<IPRecord>) returns (b: string)
    requires cfg.ztype != Reverse && cfg.primaryNSIP != ""
    ensures b == Unlines(NSAddressLines(cfg, records))
  {
    hide ShortName, EnsureTrailingDot, TrimSuffix;
    var nsName := TrimSuffix(cfg.primaryNS, ".");
    var short := ShortName(nsName, EnsureTrailingDot(cfg.origin));
    if HasSuffix(short, ".") {
      return "";
    }
    var i := 0;
    while i < |records|
      invariant 0 <= i <= |records|
      invariant forall j :: 0 <= j < i ==> TrimSuffix(records[j].dnsName, ".") != nsName
    {
      if TrimSuffix(records[i].dnsName, ".") == nsName {
        return "";
      }
      i := i + 1;
    }
    assert ServesNSAddress(cfg, records);
    var rtype := if ':' in cfg.primaryNSIP then "AAAA" else "A";
    var line := short + " IN " + rtype + " " + cfg.primaryNSIP;
    b := line + "\n" + "\n";
    OneLine(line);
    UnlinesSnoc([line], "");
    assert [line] + [""] == [line, ""];
  }

  method EmitRecord(cfg: ZoneConfig, r: IPRecord) returns (line: string)
    ensures line == RecordLine(cfg, r)
  {
    if cfg.ztype == Reverse {
      var ptrName := r.address;
      if ptrName == "" {
        ptrName := "@";
      }
      var target := EnsureTrailingDot(r.dnsName);
      line := ptrName + " IN PTR " + target;
    } else {
      var name := ShortName(r.dnsName, EnsureTrailingDot(cfg.origin));
      var rrType, value;
      if r.IsCNAME() {
        rrType := "CNAME";
        value := EnsureTrailingDot(r.cnameTarget);
      } else {
        rrType := "A";
        if r.family == 6 {
          rrType := "AAAA";
        }
        value := r.address;
      }
      if r.ttl > 0 {
        line := name + (" " + Dec(r.ttl)) + " IN " + rrType + " " + value;
      } else {
        line := name + "" + " IN " + rrType + " " + value;
      }
    }
  }

  method EmitRecords(cfg: ZoneConfig, sorted: seq<IPRecord>) returns (b: string)
    ensures b == Unlines(RecordLines(cfg, sorted))
  {
    hide RecordLine, Unlines;
    b := "";
    NoRecordLines(cfg, sorted);
    var i := 0;
    while i < |sorted|
      invariant 0 <= i <= |sorted|
      invariant b == Unlines(RecordLines(cfg, sorted)[..i])
    {
      var line := EmitRecord(cfg, sorted[i]);
      OneMoreRecordLine(cfg, sorted, i);
      b := b + line + "\n";
      i := i + 1;
    }
    assert RecordLines(cfg, sorted)[..i] == RecordLines(cfg, sorted);
  }

  lemma NoRecordLines(cfg: ZoneConfig, sorted: seq<IPRecord>)
    ensures Unlines(RecordLines(cfg, sorted)[..0]) == ""
  {
    assert RecordLines(cfg, sorted)[..0] == [];
  }

  lemma {:induction false} OneMoreRecordLine(cfg: ZoneConfig, sorted: seq<IPRecord>, i: nat)
    requires i < |sorted|
    ensures Unlines(RecordLines(cfg, sorted)[..i + 1]) == Unlines(RecordLines(cfg, sorted)[..i]) + RecordLine(cfg, sorted[i]) + "\n"
  {
    hide RecordLine, Unlines;
    var lines := RecordLines(cfg, sorted);
    UnlinesSnoc(lines[..i], lines[i]);
    PrefixStep(lines, i);
  }

  method Render(cfg: ZoneConfig, serial: nat, records: seq<IPRecord>) returns (content: string)
    ensures content == Plain(cfg, serial, records)
  {
    content := WriteHeader(cfg, serial);
    var ns := "";
    if cfg.ztype != Reverse && cfg.primaryNSIP != "" {
      ns := WritePrimaryNSAddress(cfg, records);
    }
    var sorted := SortSlice(records);
    var lines := EmitRecords(cfg, sorted);
    content := content + ns + lines;
    SameMembers(cfg, records, sorted);
    assert ns == Unlines(NSAddressLines(cfg, sorted));
    UnlinesAppend(HeaderLines(cfg, serial), NSAddressLines(cfg, sorted));
    UnlinesAppend(HeaderLines(cfg, serial) + NSAddressLines(cfg, sorted), RecordLines(cfg, sorted));
    PlainIgnoresOrder(cfg, serial, records, records, sorted);
  }

  lemma SameMembers(cfg: ZoneConfig, a: seq<IPRecord>, b: seq<IPRecord>)
    requires multiset(a) == multiset(b)
    ensures NSAddressLines(cfg, a) == NSAddressLines(cfg, b)
  {
    assert forall r :: r in a <==> r in multiset(a);
    assert forall r :: r in b <==> r in multiset(b);
  }

  // ---- the name server's address and CNAME exclusivity ------------------------------------------------

  function NSRecord(cfg: ZoneConfig): IPRecord {
    IPRecord(NSName(cfg), cfg.primaryNSIP, if ':' in cfg.primaryNSIP then 6 else 4, "", "", "", 0, "", "", "", 0)
  }

  /**
   * The address line written for the name server keeps a CNAME-exclusive zone exclusive exactly when no CNAME of the
   * zone owns that name; a CNAME that spells it in another letter case is not seen by the writer and breaks it.
   */
  lemma NSAddressExclusiveExactlyWhen(cfg: ZoneConfig, records: seq<IPRecord>)
    requires Collisions.Exclusive(records, cfg.origin)
    requires ServesNSAddress(cfg, records)
    ensures Collisions.Exclusive(records + [NSRecord(cfg)], cfg.origin) <==>
              forall r :: r in records && r.IsCNAME() ==> Collisions.Key(r.dnsName) != Collisions.Key(NSName(cfg))
  {
    var ns := NSRecord(cfg);
    var all := records + [ns];
    assert all[|records|] == ns;
    if Collisions.Exclusive(all, cfg.origin) {
      forall r | r in records && r.IsCNAME() ensures Collisions.Key(r.dnsName) != Collisions.Key(NSName(cfg)) {
        var i :| 0 <= i < |records| && records[i] == r;
        assert all[i] == r;
      }
    }
    forall i | 0 <= i < |records| ensures all[i] == records[i] && records[i] in records {}
    forall r | r in all && Collisions.IsAlias(r) ensures r in records {}
  }

  /** It happens: a CNAME at NS1.x in the zone x, whose name server is ns1.x. */
  lemma OtherLetterCaseBreaks(cfg: ZoneConfig, alias: IPRecord)
    requires cfg.origin == "x" && cfg.primaryNS == "ns1.x." && cfg.primaryNSIP != "" && cfg.ztype != Reverse
    requires alias.IsCNAME() && alias.dnsName == "NS1.x" && alias.cnameTarget != ""
    ensures Collisions.Exclusive([alias], cfg.origin) && ServesNSAddress(cfg, [alias])
    ensures !Collisions.Exclusive([alias] + [NSRecord(cfg)], cfg.origin)
  {
    hide Collisions.Key, ShortName, TrimSuffix, EnsureTrailingDot, HasSuffix;
    EndsInX();
    ShortNS();
    LowerNS();
    assert TrimSuffix(alias.dnsName, ".") == "NS1.x" != "ns1.x" == NSName(cfg) by { assert "NS1.x"[0] != "ns1.x"[0]; }
    NSAddressExclusiveExactlyWhen(cfg, [alias]);
    assert alias in [alias];
  }

  lemma EndsInX()
    ensures TrimSuffix("ns1.x.", ".") == "ns1.x" && TrimSuffix("NS1.x", ".") == "NS1.x" && TrimSuffix("x", ".") == "x"
    ensures TrimSuffix("ns1.x", ".") == "ns1.x" && EnsureTrailingDot("x") == "x." && EnsureTrailingDot("ns1.x") == "ns1.x."
  {
    assert "ns1.x."[..5] == "ns1.x" && "ns1.x."[5..] == ".";
    assert "NS1.x"[4..] == "x" && "ns1.x"[4..] == "x" && "x"[0..] == "x";
  }

  lemma ShortNS()
    ensures ShortName("ns1.x", "x.") == "ns1" && !HasSuffix("ns1", ".")
    ensures EnsureTrailingDot("x") == "x."
  {
    EndsInX();
    assert "ns1.x."[3..] == "." + "x." && "ns1.x."[..3] == "ns1";
    assert "ns1"[2..] == "1";
  }

  lemma LowerNS()
    ensures Collisions.Key("NS1.x") == Collisions.Key("ns1.x") != Collisions.Key("x")
  {
    EndsInX();
    assert |Lower("x")| == 1;
    forall i | 0 <= i < 5 ensures Lower("NS1.x")[i] == Lower("ns1.x")[i] {}
  }

  /** Nothing is lost when letter case is consistent: same owner, same spelling. */
  lemma NSAddressSafeWhenCaseMatches(cfg: ZoneConfig, records: seq<IPRecord>)
    requires Collisions.Exclusive(records, cfg.origin)
    requires ServesNSAddress(cfg, records)
    requires forall r :: r in records && Collisions.Key(r.dnsName) == Collisions.Key(NSName(cfg)) ==>
               TrimSuffix(r.dnsName, ".") == NSName(cfg)
    ensures Collisions.Exclusive(records + [NSRecord(cfg)], cfg.origin)
  {
    NSAddressExclusiveExactlyWhen(cfg, records);
  }
}
