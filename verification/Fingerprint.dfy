/**
 * The text a zone's fingerprint is taken over, and what an equal fingerprint says about the zone
 * (fingerprint and hashRecords in internal/zonegen/generator.go).
 */
module Fingerprint {
  import opened Strings
  import opened Decimal
  import opened Records
  import opened RecordOrder
  import opened ZoneText
  import opened ZoneFile
  import opened Stamps

  // ---- what is hashed ----------------------------------------------------------------------------------

  function RecFields(r: IPRecord): seq<string> { [DecInt(r.family), Dec(r.ttl), r.rtype, r.cnameTarget] }

  function RecText(r: IPRecord): string { r.dnsName + "|" + (r.address + "|" + Join(RecFields(r), "|")) }

  /** One line for each record, in the order they are emitted. */
  function RecordsText(sorted: seq<IPRecord>): string { Unlines(Map(RecText, sorted)) }

  function SOAText(soa: SOATimers): string {
    Join([Dec(soa.refresh), Dec(soa.retry), Dec(soa.expire), Dec(soa.minimum)], "/")
  }

  /** The configuration that reaches the file, and the hash of the records. */
  function ConfigLines(cfg: ZoneConfig, recordsHash: string): seq<string> {
    [ "records:" + recordsHash, "ns:" + cfg.primaryNS, "nsip:" + cfg.primaryNSIP, "admin:" + cfg.adminEmail,
      "ttl:" + Dec(cfg.ttl), "soa:" + SOAText(cfg.soa) ]
  }

  function ConfigText(cfg: ZoneConfig, recordsHash: string): string { Unlines(ConfigLines(cfg, recordsHash)) }

  function HashOfRecords(H: Hash, records: seq<IPRecord>): string { H.Of(RecordsText(Sort(records))) }

  function FingerprintOf(H: Hash, cfg: ZoneConfig, records: seq<IPRecord>): string {
    H.Of(ConfigText(cfg, HashOfRecords(H, records)))
  }

  // ---- the two functions --------------------------------------------------------------------------------

  lemma {:induction false} TextDependsOnViews(s: seq<IPRecord>, t: seq<IPRecord>)
    requires Views(s) == Views(t)
    ensures RecordsText(s) == RecordsText(t)
  {
    assert |Views(s)| == |s| && |Views(t)| == |t|;
    forall i | 0 <= i < |s| ensures Map(RecText, s)[i] == Map(RecText, t)[i] {
      assert Views(s)[i] == s[i].Visible() && Views(t)[i] == t[i].Visible();
    }
    assert Map(RecText, s) == Map(RecText, t);
  }

  method HashRecords(H: Hash, records: seq<IPRecord>) returns (digest: string)
    ensures digest == HashOfRecords(H, records)
  {
    hide RecText, RecordLess, Sort, Views, Ordered;
    var sorted := SortSlice(records);
    var h := "";
    ghost var lines := Map(RecText, sorted);
    assert lines[..0] == [];
    var i := 0;
    while i < |sorted|
      invariant 0 <= i <= |sorted|
      invariant h == Unlines(lines[..i])
    {
      UnlinesSnoc(lines[..i], lines[i]);
      assert lines[..i] + [lines[i]] == lines[..i + 1];
      h := h + RecText(sorted[i]) + "\n";
      i := i + 1;
    }
    assert lines[..i] == lines;
    SortSorts(records);
    SortIgnoresInputOrder(records, records, sorted, Sort(records));
    TextDependsOnViews(sorted, Sort(records));
    digest := H.Of(h);
  }

  method ComputeFingerprint(H: Hash, cfg: ZoneConfig, records: seq<IPRecord>) returns (digest: string)
    ensures digest == FingerprintOf(H, cfg, records)
  {
    var rh := HashRecords(H, records);
    digest := H.Of(ConfigText(cfg, rh));
  }

  // ---- the text determines the zone -----------------------------------------------------------------------

  predicate NoBar(s: string) { '|' !in s }

  /** Fields that stay on their line, and only an address may hold the separator. */
  predicate Encodable(r: IPRecord) {
    && NoNewline(r.dnsName) && NoNewline(r.address) && NoNewline(r.rtype) && NoNewline(r.cnameTarget)
    && NoBar(r.dnsName) && NoBar(r.rtype) && NoBar(r.cnameTarget)
  }

  /** The two records print the same line in every zone. */
  predicate SameEmitted(r: IPRecord, s: IPRecord) {
    && r.dnsName == s.dnsName && r.address == s.address && r.family == s.family
    && r.ttl == s.ttl && r.rtype == s.rtype && r.cnameTarget == s.cnameTarget
  }

  lemma {:induction false} SplitAcross(a: string, sep: char, b: string)
    ensures Split(a + [sep] + b, sep) == Split(a, sep) + Split(b, sep)
    decreases |a|
  {
    if sep !in a {
      SplitCons(a, sep, b);
    } else {
      var i := Index(a, sep);
      var x, y := a[..i], a[i + 1..];
      assert a == x + [sep] + y;
      SplitAcross(y, sep, b);
      SplitCons(x, sep, y + [sep] + b);
      Assoc(x + [sep], y, [sep] + b);
      Assoc(x + [sep] + y, [sep], b);
      Assoc(y, [sep], b);
      Assoc([x], Split(y, sep), Split(b, sep));
    }
  }

  lemma {:induction false} RecFieldsHaveNoBar(r: IPRecord)
    requires Encodable(r)
    ensures forall f :: f in RecFields(r) ==> '|' !in f
    ensures forall f :: f in RecFields(r) ==> NoNewline(f)
  {
    forall c | c in DecInt(r.family) ensures c != '|' && c != '\n' {}
    forall c | c in Dec(r.ttl) ensures c != '|' && c != '\n' {}
  }

  lemma {:induction false} RecTextSplits(r: IPRecord)
    requires Encodable(r)
    ensures Split(RecText(r), '|') == [r.dnsName] + Split(r.address, '|') + RecFields(r)
  {
    RecFieldsHaveNoBar(r);
    SplitJoin(RecFields(r), '|');
    SplitAcross(r.address, '|', Join(RecFields(r), "|"));
    SplitCons(r.dnsName, '|', r.address + "|" + Join(RecFields(r), "|"));
    Assoc([r.dnsName], Split(r.address, '|'), RecFields(r));
  }

  lemma {:induction false} MiddleUnique<T>(x: T, m: seq<T>, a: seq<T>, y: T, n: seq<T>, b: seq<T>)
    requires [x] + m + a == [y] + n + b && |a| == |b|
    ensures x == y && m == n && a == b
  {
    var s := [x] + m + a;
    assert x == s[0] && y == s[0];
    assert m == s[1..|s| - |a|] && n == s[1..|s| - |a|];
    assert a == s[|s| - |a|..] && b == s[|s| - |a|..];
  }

  lemma {:induction false} RecTextInjective(r: IPRecord, s: IPRecord)
    requires Encodable(r) && Encodable(s)
    requires RecText(r) == RecText(s)
    ensures SameEmitted(r, s)
  {
    RecTextSplits(r);
    RecTextSplits(s);
    MiddleUnique(r.dnsName, Split(r.address, '|'), RecFields(r), s.dnsName, Split(s.address, '|'), RecFields(s));
    JoinSplit(r.address, '|');
    JoinSplit(s.address, '|');
    FieldsDetermine(r, s);
  }

  lemma {:induction false} FieldsDetermine(r: IPRecord, s: IPRecord)
    requires RecFields(r) == RecFields(s)
    ensures r.family == s.family && r.ttl == s.ttl && r.rtype == s.rtype && r.cnameTarget == s.cnameTarget
  {
    assert RecFields(r)[0] == RecFields(s)[0] && RecFields(r)[1] == RecFields(s)[1];
    assert RecFields(r)[2] == RecFields(s)[2] && RecFields(r)[3] == RecFields(s)[3];
    DecIntInjective(r.family, s.family);
    DecInjective(r.ttl, s.ttl);
  }

  lemma {:induction false} JoinNoNewline(parts: seq<string>, sep: string)
    requires NoNewline(sep) && forall p :: p in parts ==> NoNewline(p)
    ensures NoNewline(Join(parts, sep))
  {
    if |parts| == 1 {
      assert parts[0] in parts;
    } else if |parts| > 1 {
      assert parts[0] in parts;
      JoinNoNewline(parts[1..], sep);
      NoNewlineConcat(parts[0], sep);
      NoNewlineConcat(parts[0] + sep, Join(parts[1..], sep));
    }
  }

  lemma {:induction false} RecTextIsALine(r: IPRecord)
    requires Encodable(r)
    ensures NoNewline(RecText(r))
  {
    RecFieldsHaveNoBar(r);
    JoinNoNewline(RecFields(r), "|");
    var tail := Join(RecFields(r), "|");
    NoNewlineConcat(r.address, "|");
    NoNewlineConcat(r.address + "|", tail);
    NoNewlineConcat(r.dnsName, "|");
    NoNewlineConcat(r.dnsName + "|", r.address + "|" + tail);
  }

  /** The text hashed for a record list determines every field that is printed, position by position. */
  lemma {:induction false} RecordsTextInjective(s: seq<IPRecord>, t: seq<IPRecord>)
    requires (forall r :: r in s ==> Encodable(r)) && (forall r :: r in t ==> Encodable(r))
    requires RecordsText(s) == RecordsText(t)
    ensures |s| == |t| && forall i :: 0 <= i < |s| ==> SameEmitted(s[i], t[i])
  {
    RecLines(s);
    RecLines(t);
    UnlinesInjective(Map(RecText, s), Map(RecText, t));
    forall i | 0 <= i < |s| ensures SameEmitted(s[i], t[i]) {
      assert Map(RecText, s)[i] == RecText(s[i]) && Map(RecText, t)[i] == RecText(t[i]);
      RecTextInjective(s[i], t[i]);
    }
  }

  lemma {:induction false} RecLines(s: seq<IPRecord>)
    requires forall r :: r in s ==> Encodable(r)
    ensures LineList(Map(RecText, s))
  {
    forall l | l in Map(RecText, s) ensures NoNewline(l) {
      var i :| 0 <= i < |s| && Map(RecText, s)[i] == l;
      RecTextIsALine(s[i]);
    }
  }

  lemma {:induction false} SameLine(cfg: ZoneConfig, r: IPRecord, s: IPRecord)
    requires SameEmitted(r, s)
    ensures RecordLine(cfg, r) == RecordLine(cfg, s)
  {
    hide ShortName, EnsureTrailingDot, Dec;
  }

  lemma {:induction false} LinesDependOnEmitted(cfg: ZoneConfig, serial: nat, s: seq<IPRecord>, t: seq<IPRecord>)
    requires |s| == |t| && forall i :: 0 <= i < |s| ==> SameEmitted(s[i], t[i])
    ensures ZoneLines(cfg, serial, s) == ZoneLines(cfg, serial, t)
  {
    hide HeaderLines, RecordLine, ShortName, NSName, ServesNSAddress;
    forall i | 0 <= i < |s| ensures RecordLines(cfg, s)[i] == RecordLines(cfg, t)[i] {
      SameLine(cfg, s[i], t[i]);
    }
    SameNames(cfg, s, t);
    SameNames(cfg, t, s);
  }

  lemma {:induction false} SameNames(cfg: ZoneConfig, s: seq<IPRecord>, t: seq<IPRecord>)
    requires |s| == |t| && forall i :: 0 <= i < |s| ==> SameEmitted(s[i], t[i])
    ensures ServesNSAddress(cfg, s) ==> ServesNSAddress(cfg, t)
  {
    hide ShortName, NSName, EnsureTrailingDot, TrimSuffix;
    if ServesNSAddress(cfg, s) {
      forall r | r in t ensures TrimSuffix(r.dnsName, ".") != NSName(cfg) {
        var i :| 0 <= i < |t| && t[i] == r;
        assert s[i].dnsName == r.dnsName && s[i] in s;
      }
    }
  }

  lemma {:induction false} SOATextInjective(a: SOATimers, b: SOATimers)
    requires SOAText(a) == SOAText(b)
    ensures a == b
    ensures NoNewline(SOAText(a))
  {
    var p := [Dec(a.refresh), Dec(a.retry), Dec(a.expire), Dec(a.minimum)];
    var q := [Dec(b.refresh), Dec(b.retry), Dec(b.expire), Dec(b.minimum)];
    forall n: nat, c | c in Dec(n) ensures c != '/' && c != '\n' {}
    JoinInjective(p, q, '/');
    assert p[0] == q[0] && p[1] == q[1] && p[2] == q[2] && p[3] == q[3];
    DecInjective(a.refresh, b.refresh);
    DecInjective(a.retry, b.retry);
    DecInjective(a.expire, b.expire);
    DecInjective(a.minimum, b.minimum);
    JoinNoNewline(p, "/");
  }

  lemma {:induction false} ConfigLinesAreLines(cfg: ZoneConfig, rh: string)
    requires CleanConfig(cfg) && IsHex64(rh)
    ensures LineList(ConfigLines(cfg, rh))
  {
    HexHasNoNewline("records:", rh);
    NoNewlineConcat("ns:", cfg.primaryNS);
    NoNewlineConcat("nsip:", cfg.primaryNSIP);
    NoNewlineConcat("admin:", cfg.adminEmail);
    DigitsHaveNoNewline(Dec(cfg.ttl));
    NoNewlineConcat("ttl:", Dec(cfg.ttl));
    SOATextInjective(cfg.soa, cfg.soa);
    NoNewlineConcat("soa:", SOAText(cfg.soa));
  }

  lemma {:induction false} AfterPrefix(prefix: string, a: string, b: string)
    requires prefix + a == prefix + b
    ensures a == b
  {
    assert a == (prefix + a)[|prefix|..] && b == (prefix + b)[|prefix|..];
  }

  lemma {:induction false} ConfigLinesDetermine(c: ZoneConfig, d: ZoneConfig, rh: string, rg: string)
    requires ConfigLines(c, rh) == ConfigLines(d, rg)
    ensures c.primaryNS == d.primaryNS && c.primaryNSIP == d.primaryNSIP && c.adminEmail == d.adminEmail
    ensures c.ttl == d.ttl && c.soa == d.soa && rh == rg
  {
    var p, q := ConfigLines(c, rh), ConfigLines(d, rg);
    assert p[0] == q[0] && p[1] == q[1] && p[2] == q[2] && p[3] == q[3] && p[4] == q[4] && p[5] == q[5];
    AfterPrefix("records:", rh, rg);
    AfterPrefix("ns:", c.primaryNS, d.primaryNS);
    AfterPrefix("nsip:", c.primaryNSIP, d.primaryNSIP);
    AfterPrefix("admin:", c.adminEmail, d.adminEmail);
    AfterPrefix("ttl:", Dec(c.ttl), Dec(d.ttl));
    AfterPrefix("soa:", SOAText(c.soa), SOAText(d.soa));
    DecInjective(c.ttl, d.ttl);
    SOATextInjective(c.soa, d.soa);
  }

  lemma {:induction false} ConfigTextInjective(c: ZoneConfig, d: ZoneConfig, rh: string, rg: string)
    requires CleanConfig(c) && CleanConfig(d) && IsHex64(rh) && IsHex64(rg)
    requires c.origin == d.origin && c.ztype == d.ztype
    requires ConfigText(c, rh) == ConfigText(d, rg)
    ensures c == d && rh == rg
  {
    ConfigLinesAreLines(c, rh);
    ConfigLinesAreLines(d, rg);
    UnlinesInjective(ConfigLines(c, rh), ConfigLines(d, rg));
    ConfigLinesDetermine(c, d, rh, rg);
  }

  // ---- equal fingerprints, equal files ----------------------------------------------------------------------

  /** The two texts hashed for a zone. */
  function HashedTexts(H: Hash, cfg: ZoneConfig, records: seq<IPRecord>): set<string> {
    {RecordsText(Sort(records)), ConfigText(cfg, HashOfRecords(H, records))}
  }

  ghost predicate AllEncodable(rs: seq<IPRecord>) { forall r :: r in rs ==> Encodable(r) }

  lemma {:induction false} SortEncodable(rs: seq<IPRecord>)
    requires AllEncodable(rs)
    ensures AllEncodable(Sort(rs))
  {
    SortSorts(rs);
    forall r | r in Sort(rs) ensures Encodable(r) {
      assert r in multiset(Sort(rs));
      assert r in multiset(rs);
    }
  }

  /**
   * Equal fingerprints of one zone mean an equal configuration and the same file at every serial: nothing that is
   * printed is left out of the hash.
   */
  lemma {:induction false} EqualFingerprintEqualFile(
      H: Hash, c: ZoneConfig, a: seq<IPRecord>, d: ZoneConfig, b: seq<IPRecord>, serial: nat)
    requires CleanConfig(c) && CleanConfig(d) && c.origin == d.origin && c.ztype == d.ztype
    requires AllEncodable(a) && AllEncodable(b)
    requires Separates(H, HashedTexts(H, c, a) + HashedTexts(H, d, b))
    requires FingerprintOf(H, c, a) == FingerprintOf(H, d, b)
    ensures c == d && Plain(c, serial, a) == Plain(d, serial, b)
  {
    hide *;
    EqualTexts(H, c, a, d, b);
    SortEncodable(a);
    SortEncodable(b);
    SameFile(c, a, b, serial);
  }

  lemma {:induction false} EqualTexts(H: Hash, c: ZoneConfig, a: seq<IPRecord>, d: ZoneConfig, b: seq<IPRecord>)
    requires CleanConfig(c) && CleanConfig(d) && c.origin == d.origin && c.ztype == d.ztype
    requires Separates(H, HashedTexts(H, c, a) + HashedTexts(H, d, b))
    requires FingerprintOf(H, c, a) == FingerprintOf(H, d, b)
    ensures c == d && RecordsText(Sort(a)) == RecordsText(Sort(b))
  {
    hide Sort, RecordsText, ConfigText, CleanConfig, Separates;
    var texts := HashedTexts(H, c, a) + HashedTexts(H, d, b);
    Separated(H, texts, ConfigText(c, HashOfRecords(H, a)), ConfigText(d, HashOfRecords(H, b)));
    ConfigTextInjective(c, d, HashOfRecords(H, a), HashOfRecords(H, b));
    Separated(H, texts, RecordsText(Sort(a)), RecordsText(Sort(b)));
  }

  lemma {:induction false} SameFile(cfg: ZoneConfig, a: seq<IPRecord>, b: seq<IPRecord>, serial: nat)
    requires AllEncodable(Sort(a)) && AllEncodable(Sort(b))
    requires RecordsText(Sort(a)) == RecordsText(Sort(b))
    ensures Plain(cfg, serial, a) == Plain(cfg, serial, b)
  {
    hide Sort, RecordsText, ZoneLines, Encodable, Unlines, SameEmitted;
    RecordsTextInjective(Sort(a), Sort(b));
    LinesDependOnEmitted(cfg, serial, Sort(a), Sort(b));
  }

  /** The fingerprint does not depend on the order of the records. */
  lemma {:induction false} FingerprintIgnoresOrder(H: Hash, cfg: ZoneConfig, a: seq<IPRecord>, b: seq<IPRecord>)
    requires multiset(Views(a)) == multiset(Views(b))
    ensures FingerprintOf(H, cfg, a) == FingerprintOf(H, cfg, b)
  {
    SortSorts(a);
    SortSorts(b);
    SortIgnoresInputOrder(a, b, Sort(a), Sort(b));
    TextDependsOnViews(Sort(a), Sort(b));
  }

  /**
   * A newline in an address defeats it: one record whose address holds the rest of its line and the start of another
   * has the fingerprint of two records, whatever the hash, while the zone files differ.
   */
  lemma NewlineDefeatsFingerprint(H: Hash, cfg: ZoneConfig)
    requires cfg.ztype == Forward
    ensures var one := Plainest("a", "1|4|0||\nb|2"); var two := [Plainest("a", "1"), Plainest("b", "2")];
            && FingerprintOf(H, cfg, [one]) == FingerprintOf(H, cfg, two)
            && |RecordLines(cfg, [one])| != |RecordLines(cfg, two)|
  {
    hide RecText;
    var x, a, b := Plainest("a", "1|4|0||\nb|2"), Plainest("a", "1"), Plainest("b", "2");
    PlainestSorts();
    OneLine(RecText(x));
    TwoLines(RecText(a), RecText(b));
    assert Map(RecText, [x]) == [RecText(x)] && Map(RecText, [a, b]) == [RecText(a), RecText(b)];
    NewlineMerges();
  }

  lemma PlainestSorts()
    ensures Sort([Plainest("a", "1"), Plainest("b", "2")]) == [Plainest("a", "1"), Plainest("b", "2")]
    ensures forall r: IPRecord :: Sort([r]) == [r]
  {
    var a, b := Plainest("a", "1"), Plainest("b", "2");
    forall r: IPRecord ensures Sort([r]) == [r] {
      assert [r][1..] == [];
      assert Sort([]) == [];
    }
    assert [a, b][1..] == [b];
    assert "a"[0] < "b"[0] && RecordLess(a, b);
  }

  lemma NewlineMerges()
    ensures RecText(Plainest("a", "1|4|0||\nb|2")) + "\n"
         == RecText(Plainest("a", "1")) + "\n" + RecText(Plainest("b", "2")) + "\n"
  {
    hide RecText;
    PlainestText("a", "1|4|0||\nb|2");
    PlainestText("a", "1");
    PlainestText("b", "2");
  }

  function Plainest(name: string, address: string): IPRecord { IPRecord(name, address, 4, "", "", "", 0, "", "", "", 0) }

  lemma PlainestText(name: string, address: string)
    ensures RecText(Plainest(name, address)) == name + "|" + (address + "|" + "4|0||")
  {
    var f := ["4", "0", "", ""];
    assert f[1..] == ["0", "", ""] && f[1..][1..] == ["", ""] && f[1..][1..][1..] == [""];
    assert Join([""], "|") == "" && Join(["", ""], "|") == "|" && Join(["0", "", ""], "|") == "0||";
    assert DecInt(4) == "4" && Dec(0) == "0" by { assert DigitChar(4) == '4' && DigitChar(0) == '0'; }
    assert Join(f, "|") == "4|0||";
  }
}
