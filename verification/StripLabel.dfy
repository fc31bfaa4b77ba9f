/**
 * Removing the data-centre label from names, and grouping records by the last labels of their names
 * (internal/zonediscovery/strip_dc.go and zone_depth.go).
 */
module StripLabel {
  import opened Wrappers
  import opened Strings
  import opened Records
  import opened ReverseNames

  function Labels(name: string): seq<string> { Split(TrimSuffix(name, "."), '.') }

  function DepthOf(domainSuffix: string): nat { |Split(domainSuffix, '.')| }

  predicate EqualFold(a: string, b: string) { Lower(a) == Lower(b) }

  /** The name has a label to spare between its first and the domain suffix. */
  predicate Strips(name: string, domainSuffix: string) {
    var labels, d := Labels(name), DepthOf(domainSuffix);
    |labels| >= d + 2 && EqualFold(Join(labels[|labels| - d..], "."), domainSuffix)
  }

  /** All labels but the one before the last d. */
  function Kept(labels: seq<string>, d: nat): seq<string>
    requires |labels| >= d + 1
  {
    labels[..|labels| - d - 1] + labels[|labels| - d..]
  }

  function StripDCFromName(name: string, domainSuffix: string): string {
    var labels, d := Labels(name), DepthOf(domainSuffix);
    if Strips(name, domainSuffix) then Join(Kept(labels, d), ".") else name
  }

  function StripRecord(r: IPRecord, domainSuffix: string): IPRecord {
    r.(dnsName := StripDCFromName(r.dnsName, domainSuffix),
       cnameTarget := if r.cnameTarget != "" then StripDCFromName(r.cnameTarget, domainSuffix) else "")
  }

  function Stripped(rs: seq<IPRecord>, domainSuffix: string): seq<IPRecord> {
    Map((r: IPRecord) => StripRecord(r, domainSuffix), rs)
  }

  method StripDCLabel(records: seq<IPRecord>, domainSuffix: string) returns (result: seq<IPRecord>)
    ensures result == Stripped(records, domainSuffix)
  {
    if |records| == 0 {
      return records;
    }
    result := [];
    var i := 0;
    while i < |records|
      invariant 0 <= i <= |records| && |result| == i
      invariant forall j :: 0 <= j < i ==> result[j] == StripRecord(records[j], domainSuffix)
    {
      var r := records[i];
      r := r.(dnsName := StripDCFromName(r.dnsName, domainSuffix));
      if r.cnameTarget != "" {
        r := r.(cnameTarget := StripDCFromName(r.cnameTarget, domainSuffix));
      }
      result := result + [r];
      i := i + 1;
    }
  }

  // ---- what stripping does to a name ---------------------------------------------------------------------------

  /** The name, a final dot aside, is a host, one label, and what equals the domain suffix but for letter case. */
  ghost predicate IsUnder(name: string, domainSuffix: string, host: string, dc: string, base: string) {
    TrimSuffix(name, ".") == host + "." + dc + "." + base && '.' !in dc && Lower(base) == Lower(domainSuffix)
  }

  /** `out` is the name without the label before the domain suffix, or the name itself if it has no such label to spare. */
  ghost predicate LosesLabel(name: string, domainSuffix: string, out: string) {
    && (forall host, dc, base :: IsUnder(name, domainSuffix, host, dc, base) ==> out == host + "." + base)
    && ((forall host, dc, base :: !IsUnder(name, domainSuffix, host, dc, base)) ==> out == name)
  }

  lemma {:induction false} SplitConcat(a: string, b: string)
    ensures Split(a + "." + b, '.') == Split(a, '.') + Split(b, '.')
  {
    hide Split, Join;
    var x, y := Split(a, '.'), Split(b, '.');
    NonemptySplit(a);
    NonemptySplit(b);
    JoinSplit(a, '.');
    JoinSplit(b, '.');
    JoinConcat(x, y, ".");
    SplitJoin(x + y, '.');
  }

  lemma NonemptySplit(s: string)
    ensures |Split(s, '.')| >= 1 && forall p :: p in Split(s, '.') ==> '.' !in p
  {
  }

  /** Equal but for letter case: the same dots, and the rest after them alike. */
  lemma {:induction false} FoldDots(a: string, b: string, k: nat)
    requires Lower(a) == Lower(b) && k <= |a|
    ensures |a| == |b| && (forall i :: 0 <= i < |a| ==> (a[i] == '.' <==> b[i] == '.')) && Lower(a[k..]) == Lower(b[k..])
  {
    assert |a| == |Lower(a)| == |b|;
    forall i | 0 <= i < |a| ensures a[i] == '.' <==> b[i] == '.' {
      assert LowerChar(a[i]) == Lower(a)[i] == Lower(b)[i] == LowerChar(b[i]);
    }
    var c, d := a[k..], b[k..];
    forall i | 0 <= i < |c| ensures Lower(c)[i] == Lower(d)[i] { assert Lower(a)[k + i] == Lower(b)[k + i]; }
  }

  lemma {:induction false} FoldSplit(a: string, b: string)
    requires Lower(a) == Lower(b)
    ensures |Split(a, '.')| == |Split(b, '.')|
    decreases |a|
  {
    hide Lower, LowerChar;
    FoldDots(a, b, 0);
    if '.' in a {
      var i := Index(a, '.');
      SameIndex(a, b);
      FoldDots(a, b, i + 1);
      FoldSplit(a[i + 1..], b[i + 1..]);
    } else {
      NoDots(a, b);
    }
  }

  lemma NoDots(a: string, b: string)
    requires '.' !in a && |a| == |b| && forall i :: 0 <= i < |a| ==> (a[i] == '.' <==> b[i] == '.')
    ensures '.' !in b
  {
  }

  lemma {:induction false} SameIndex(a: string, b: string)
    requires |a| == |b| && '.' in a && forall i :: 0 <= i < |a| ==> (a[i] == '.' <==> b[i] == '.')
    ensures '.' in b && Index(a, '.') == Index(b, '.')
  {
    var p :| 0 <= p < |a| && a[p] == '.';
    assert b[p] == '.';
    if a[0] != '.' {
      forall i | 0 <= i < |a[1..]| ensures a[1..][i] == '.' <==> b[1..][i] == '.' { assert a[i + 1] == '.' <==> b[i + 1] == '.'; }
      assert a[1..][p - 1] == '.';
      SameIndex(a[1..], b[1..]);
    }
  }

  lemma {:induction false} UnderIsStripped(name: string, domainSuffix: string, host: string, dc: string, base: string)
    requires IsUnder(name, domainSuffix, host, dc, base)
    ensures StripDCFromName(name, domainSuffix) == host + "." + base
  {
    hide Split, Join, TrimSuffix;
    var x, y, d := Split(host, '.'), Split(base, '.'), DepthOf(domainSuffix);
    SplitConcat(host + "." + dc, base);
    SplitConcat(host, dc);
    OneLabel(dc);
    var labels := Labels(name);
    assert labels == x + [dc] + y;
    FoldSplit(base, domainSuffix);
    NonemptySplit(host);
    NonemptySplit(base);
    assert labels[|labels| - d..] == y && Kept(labels, d) == x + y;
    JoinSplit(base, '.');
    JoinSplit(host, '.');
    JoinConcat(x, y, ".");
  }

  lemma OneLabel(dc: string)
    requires '.' !in dc
    ensures Split(dc, '.') == [dc]
  {
  }

  lemma {:induction false} StrippedIsUnder(name: string, domainSuffix: string)
    requires Strips(name, domainSuffix)
    ensures exists host, dc, base :: IsUnder(name, domainSuffix, host, dc, base)
  {
    hide Split, Join, TrimSuffix;
    var labels, d := Labels(name), DepthOf(domainSuffix);
    NonemptySplit(domainSuffix);
    NonemptySplit(TrimSuffix(name, "."));
    var k := |labels| - d - 1;
    var host, dc, base := Join(labels[..k], "."), labels[k], Join(labels[k + 1..], ".");
    JoinSplit(TrimSuffix(name, "."), '.');
    assert labels == labels[..k] + [dc] + labels[k + 1..];
    JoinConcat(labels[..k] + [dc], labels[k + 1..], ".");
    JoinConcat(labels[..k], [dc], ".");
    JoinOne(dc);
    assert IsUnder(name, domainSuffix, host, dc, base);
  }

  lemma JoinOne(dc: string)
    ensures Join([dc], ".") == dc
  {
  }

  lemma {:induction false} NameLosesLabel(name: string, domainSuffix: string)
    ensures LosesLabel(name, domainSuffix, StripDCFromName(name, domainSuffix))
  {
    hide IsUnder, Strips;
    forall host, dc, base | IsUnder(name, domainSuffix, host, dc, base)
      ensures StripDCFromName(name, domainSuffix) == host + "." + base
    {
      UnderIsStripped(name, domainSuffix, host, dc, base);
    }
    if Strips(name, domainSuffix) { StrippedIsUnder(name, domainSuffix); }
  }

  /** Stripping takes the label before the domain suffix out of the name and of the target of every record, and changes nothing else. */
  lemma {:induction false} StrippingMeans(rs: seq<IPRecord>, domainSuffix: string)
    ensures |Stripped(rs, domainSuffix)| == |rs|
    ensures forall i :: 0 <= i < |rs| ==>
              var out := Stripped(rs, domainSuffix)[i];
              && LosesLabel(rs[i].dnsName, domainSuffix, out.dnsName) && LosesLabel(rs[i].cnameTarget, domainSuffix, out.cnameTarget)
              && out == rs[i].(dnsName := out.dnsName, cnameTarget := out.cnameTarget)
  {
    hide LosesLabel, StripDCFromName;
    forall i | 0 <= i < |rs|
      ensures LosesLabel(rs[i].dnsName, domainSuffix, Stripped(rs, domainSuffix)[i].dnsName)
      ensures LosesLabel(rs[i].cnameTarget, domainSuffix, Stripped(rs, domainSuffix)[i].cnameTarget)
    {
      NameLosesLabel(rs[i].dnsName, domainSuffix);
      NameLosesLabel(rs[i].cnameTarget, domainSuffix);
      StripKeepsEmptiness("", domainSuffix);
    }
  }

  /** The zone of a name is what the name, a final dot aside, is or ends in after a dot, with as many labels as the depth. */
  lemma {:induction false} ZoneOfExactlyWhen(name: string, depth: nat, zone: string)
    requires depth >= 1
    ensures ZoneOf(name, depth) == Some(zone) <==>
              |Split(zone, '.')| == depth && (TrimSuffix(name, ".") == zone || HasSuffix(TrimSuffix(name, "."), "." + zone))
  {
    hide Split, Join, TrimSuffix, HasSuffix;
    var trimmed, labels := TrimSuffix(name, "."), Labels(name);
    NonemptySplit(trimmed);
    NonemptySplit(zone);
    JoinSplit(trimmed, '.');
    JoinSplit(zone, '.');
    if ZoneOf(name, depth) == Some(zone) {
      var k := |labels| - depth;
      SplitJoin(labels[k..], '.');
      if k > 0 {
        assert labels == labels[..k] + labels[k..];
        JoinConcat(labels[..k], labels[k..], ".");
        EndsIn(Join(labels[..k], "."), zone);
      } else {
        assert labels[k..] == labels;
      }
    }
    if |Split(zone, '.')| == depth && HasSuffix(trimmed, "." + zone) {
      var host := BeforeSuffix(trimmed, zone);
      SplitConcat(host, zone);
      assert labels[|labels| - depth..] == Split(zone, '.');
    }
    if trimmed == zone && |labels| == depth { assert labels[|labels| - depth..] == labels; }
  }

  lemma EndsIn(host: string, zone: string)
    ensures HasSuffix(host + "." + zone, "." + zone)
  {
    assert host + "." + zone == host + ("." + zone);
  }

  lemma BeforeSuffix(s: string, zone: string) returns (host: string)
    requires HasSuffix(s, "." + zone)
    ensures s == host + "." + zone
  {
    host := s[..|s| - |zone| - 1];
    assert s == host + ("." + zone);
  }

  // ---- grouping by depth -----------------------------------------------------------------------------------

  /** The last `depth` labels of a name that has that many. */
  function ZoneOf(name: string, depth: nat): Option<string> {
    var labels := Labels(name);
    if |labels| < depth then None else Some(Join(labels[|labels| - depth..], "."))
  }

  function InZone(depth: nat, zone: string, rs: seq<IPRecord>): seq<IPRecord> {
    Filter((r: IPRecord) => ZoneOf(r.dnsName, depth) == Some(zone), rs)
  }

  ghost predicate ByDepth(depth: nat, rs: seq<IPRecord>, zm: ZoneMap) {
    && (forall z :: z in zm <==> InZone(depth, z, rs) != [])
    && (forall z :: z in zm ==> zm[z] == InZone(depth, z, rs))
  }

  lemma {:induction false} ByDepthSnoc(depth: nat, rs: seq<IPRecord>, i: nat, zm: ZoneMap)
    requires i < |rs| && ByDepth(depth, rs[..i], zm)
    ensures var z := ZoneOf(rs[i].dnsName, depth);
            ByDepth(depth, rs[..i + 1], if z.Some? then zm[z.value := AtZone(zm, z.value) + [rs[i]]] else zm)
  {
    hide ZoneOf;
    forall z ensures InZone(depth, z, rs[..i + 1])
      == InZone(depth, z, rs[..i]) + if ZoneOf(rs[i].dnsName, depth) == Some(z) then [rs[i]] else []
    {
      FilterSnoc((r: IPRecord) => ZoneOf(r.dnsName, depth) == Some(z), rs, i);
    }
  }

  /** None for a depth below two, an error of configuration. */
  method DiscoverByDepth(depth: nat, records: seq<IPRecord>) returns (zones: Option<ZoneMap>)
    ensures zones.Some? <==> depth >= 2
    ensures zones.Some? ==> ByDepth(depth, records, zones.value)
  {
    hide ByDepth, Split, Join, TrimSuffix;
    if depth < 2 {
      return None;
    }
    var zm: ZoneMap := map[];
    NoRecords(depth, records);
    var i := 0;
    while i < |records|
      invariant 0 <= i <= |records| && ByDepth(depth, records[..i], zm)
    {
      var r := records[i];
      ByDepthSnoc(depth, records, i, zm);
      i := i + 1;
      var labels := Split(TrimSuffix(r.dnsName, "."), '.');
      if |labels| < depth {
        continue;
      }
      var zone := Join(labels[|labels| - depth..], ".");
      zm := zm[zone := AtZone(zm, zone) + [r]];
    }
    assert records[..i] == records;
    return Some(zm);
  }

  lemma NoRecords(depth: nat, records: seq<IPRecord>)
    ensures ByDepth(depth, records[..0], map[])
  {
  }

  // ---- stripping after discovery and before -------------------------------------------------------------------

  /** Every zone's records stripped: what is done to the zones discovery has found. */
  function StrippedZones(zm: ZoneMap, domainSuffix: string): ZoneMap {
    map z | z in zm :: Stripped(zm[z], domainSuffix)
  }

  /** A domain suffix, written without a trailing dot. */
  predicate PlainSuffix(domainSuffix: string) { domainSuffix != "" && !HasSuffix(domainSuffix, ".") }

  lemma LastLabel(labels: seq<string>)
    requires labels != []
    ensures var s := Join(labels, "."); var last := labels[|labels| - 1];
            |s| >= |last| && s[|s| - |last|..] == last
            && (|labels| > 1 && last == "" ==> HasSuffix(s, "."))
    decreases |labels|
  {
    if |labels| > 1 {
      LastLabel(labels[1..]);
      var rest := Join(labels[1..], ".");
      assert Join(labels, ".") == labels[0] + "." + rest;
    }
  }

  lemma {:induction false} KeptFacts(labels: seq<string>, d: nat, depth: nat)
    requires |labels| >= d + 1 && d >= 1 && depth <= d
    ensures |Kept(labels, d)| == |labels| - 1 && Kept(labels, d)[|labels| - 2] == labels[|labels| - 1]
    ensures Kept(labels, d)[|labels| - 1 - depth..] == labels[|labels| - depth..]
    ensures forall l :: l in Kept(labels, d) ==> l in labels
  {
  }

  /** The labels of a stripped name are the name's, less one. */
  lemma {:induction false} StrippedLabels(name: string, domainSuffix: string)
    requires PlainSuffix(domainSuffix) && Strips(name, domainSuffix)
    ensures Labels(StripDCFromName(name, domainSuffix)) == Kept(Labels(name), DepthOf(domainSuffix))
  {
    hide Kept, Labels, PlainSuffix, Join;
    var labels, d := Labels(name), DepthOf(domainSuffix);
    KeptFacts(labels, d, 0);
    NoFinalDot(labels[|labels| - d..], domainSuffix);
    NoDotsInLabels(name);
    RejoinedLabels(Kept(labels, d));
  }

  lemma NoDotsInLabels(name: string)
    ensures forall l :: l in Labels(name) ==> '.' !in l
  {
  }

  lemma {:induction false} RejoinedLabels(labels: seq<string>)
    requires labels != [] && labels[|labels| - 1] != "" && forall l :: l in labels ==> '.' !in l
    ensures Labels(Join(labels, ".")) == labels
  {
    JoinEndsPlainly(labels);
    SplitJoin(labels, '.');
  }

  /** What equals the suffix, letter case aside, does not end in a dot either. */
  lemma {:induction false} NoFinalDot(tail: seq<string>, domainSuffix: string)
    requires PlainSuffix(domainSuffix) && tail != [] && EqualFold(Join(tail, "."), domainSuffix)
    ensures tail[|tail| - 1] != "" || |tail| == 1
    ensures Join(tail, ".") != "" && !HasSuffix(Join(tail, "."), ".")
    ensures tail[|tail| - 1] != ""
  {
    var s := Join(tail, ".");
    assert |s| == |Lower(s)| == |domainSuffix|;
    assert Lower(s)[|s| - 1] == LowerChar(s[|s| - 1]) == LowerChar(domainSuffix[|s| - 1]);
    LastLabel(tail);
  }

  lemma {:induction false} JoinEndsPlainly(labels: seq<string>)
    requires labels != [] && labels[|labels| - 1] != "" && '.' !in labels[|labels| - 1]
    ensures TrimSuffix(Join(labels, "."), ".") == Join(labels, ".")
  {
    LastLabel(labels);
    var s, last := Join(labels, "."), labels[|labels| - 1];
    assert s[|s| - 1] == s[|s| - |last|..][|last| - 1] == last[|last| - 1];
    assert last[|last| - 1] in last;
  }

  /** A zone no deeper than the domain suffix is not touched by stripping. */
  lemma {:induction false} SameZone(name: string, domainSuffix: string, depth: nat)
    requires PlainSuffix(domainSuffix) && depth <= DepthOf(domainSuffix)
    ensures ZoneOf(StripDCFromName(name, domainSuffix), depth) == ZoneOf(name, depth)
  {
    hide Kept, Labels, Join, StripDCFromName;
    if Strips(name, domainSuffix) {
      StrippedLabels(name, domainSuffix);
      KeptFacts(Labels(name), DepthOf(domainSuffix), depth);
    } else {
      Unstripped(name, domainSuffix);
    }
  }

  lemma Unstripped(name: string, domainSuffix: string)
    requires !Strips(name, domainSuffix)
    ensures StripDCFromName(name, domainSuffix) == name
  {
  }

  lemma {:induction false} FilterMapSwap(f: IPRecord -> IPRecord, before: IPRecord -> bool, after: IPRecord -> bool, rs: seq<IPRecord>)
    requires forall r :: r in rs ==> before(r) == after(f(r))
    ensures Map(f, Filter(before, rs)) == Filter(after, Map(f, rs))
  {
    if rs != [] {
      FilterMapSwap(f, before, after, rs[1..]);
      assert rs[0] in rs;
      assert Map(f, rs)[1..] == Map(f, rs[1..]);
      if before(rs[0]) {
        assert Filter(before, rs) == [rs[0]] + Filter(before, rs[1..]);
        assert Map(f, Filter(before, rs)) == [f(rs[0])] + Map(f, Filter(before, rs[1..]));
      }
    }
  }

  ghost predicate Commutes(depth: nat, domainSuffix: string, rs: seq<IPRecord>) {
    forall before: ZoneMap, after: ZoneMap ::
      ByDepth(depth, rs, before) && ByDepth(depth, Stripped(rs, domainSuffix), after) ==>
        StrippedZones(before, domainSuffix) == after
  }

  lemma {:induction false} CommutesWhenShallow(depth: nat, domainSuffix: string, rs: seq<IPRecord>)
    requires PlainSuffix(domainSuffix) && depth <= DepthOf(domainSuffix)
    ensures Commutes(depth, domainSuffix, rs)
  {
    hide ZoneOf, StripDCFromName;
    var f := (r: IPRecord) => StripRecord(r, domainSuffix);
    forall z ensures Stripped(InZone(depth, z, rs), domainSuffix) == InZone(depth, z, Stripped(rs, domainSuffix)) {
      var keep := (r: IPRecord) => ZoneOf(r.dnsName, depth) == Some(z);
      forall r | r in rs ensures keep(r) == keep(f(r)) { SameZone(r.dnsName, domainSuffix, depth); }
      FilterMapSwap(f, keep, keep, rs);
    }
    forall before: ZoneMap, after: ZoneMap | ByDepth(depth, rs, before) && ByDepth(depth, Stripped(rs, domainSuffix), after)
      ensures StrippedZones(before, domainSuffix) == after
    {
      forall z ensures z in before <==> z in after {
        assert |Stripped(InZone(depth, z, rs), domainSuffix)| == |InZone(depth, z, rs)|;
      }
      assert StrippedZones(before, domainSuffix).Keys == after.Keys;
    }
  }

  // ---- where it does not commute ----------------------------------------------------------------------------------

  function Filler(n: nat): (r: seq<string>)
    ensures |r| == n && forall i :: 0 <= i < n ==> r[i] == "a"
  {
    seq(n, _ => "a")
  }

  function Named(name: string): IPRecord { IPRecord(name, "", 4, "", "", "", 0, "", "", "", 0) }

  /** A name of the given first labels under the domain suffix, and what stripping makes of it. */
  lemma {:induction false} NameUnder(first: seq<string>, domainSuffix: string)
    requires PlainSuffix(domainSuffix) && |first| >= 2 && forall l :: l in first ==> '.' !in l
    ensures var name := Join(first + Split(domainSuffix, '.'), ".");
            && Labels(name) == first + Split(domainSuffix, '.')
            && Labels(StripDCFromName(name, domainSuffix)) == first[..|first| - 1] + Split(domainSuffix, '.')
  {
    hide StripDCFromName, Labels, Join;
    var s := Split(domainSuffix, '.');
    JoinSplit(domainSuffix, '.');
    NoFinalDot(s, domainSuffix);
    RejoinedLabels(first + s);
    var labels := first + s;
    assert labels[|labels| - |s|..] == s;
    var name := Join(labels, ".");
    StrippedLabels(name, domainSuffix);
    KeptUnder(first, s);
  }

  lemma KeptUnder(first: seq<string>, s: seq<string>)
    requires |first| >= 1
    ensures Kept(first + s, |s|) == first[..|first| - 1] + s
  {
  }

  lemma OneRecord(depth: nat, r: IPRecord)
    ensures var z := ZoneOf(r.dnsName, depth); ByDepth(depth, [r], if z.Some? then map[z.value := [r]] else map[])
  {
    hide ZoneOf;
    assert [r][1..] == [];
  }

  /** One zone more than the suffix is deep: the zone's own label is the one stripped. */
  lemma {:induction false} FailsOneDeeper(domainSuffix: string)
    requires PlainSuffix(domainSuffix)
    ensures var name := Join(["a", "b"] + Split(domainSuffix, '.'), ".");
            ZoneOf(StripDCFromName(name, domainSuffix), DepthOf(domainSuffix) + 1) != ZoneOf(name, DepthOf(domainSuffix) + 1)
            && ZoneOf(name, DepthOf(domainSuffix) + 1).Some?
  {
    hide StripDCFromName, Labels;
    var s := Split(domainSuffix, '.');
    var name := Join(["a", "b"] + s, ".");
    NameUnder(["a", "b"], domainSuffix);
    assert (["a", "b"] + s)[1..] == ["b"] + s;
    assert ["a", "b"][..1] + s == ["a"] + s;
    assert (["a"] + s)[0..] == ["a"] + s;
    HeadsDiffer(s);
  }

  lemma HeadsDiffer(s: seq<string>)
    requires s != []
    ensures Join(["a"] + s, ".") != Join(["b"] + s, ".")
  {
    assert Join(["a"] + s, ".")[0] == 'a' && Join(["b"] + s, ".")[0] == 'b';
  }

  /** Deeper still: a name of exactly that many labels has a zone before stripping and none after. */
  lemma {:induction false} FailsMuchDeeper(depth: nat, domainSuffix: string)
    requires PlainSuffix(domainSuffix) && depth >= DepthOf(domainSuffix) + 2
    ensures var name := Join(Filler(depth - DepthOf(domainSuffix)) + Split(domainSuffix, '.'), ".");
            ZoneOf(StripDCFromName(name, domainSuffix), depth).None? && ZoneOf(name, depth).Some?
  {
    hide StripDCFromName, Labels;
    var first := Filler(depth - DepthOf(domainSuffix));
    forall l | l in first ensures '.' !in l { assert l == "a"; }
    NameUnder(first, domainSuffix);
  }

  lemma {:induction false} DifferentZones(depth: nat, domainSuffix: string, name: string)
    requires ZoneOf(name, depth).Some? && ZoneOf(StripDCFromName(name, domainSuffix), depth) != ZoneOf(name, depth)
    ensures !Commutes(depth, domainSuffix, [Named(name)])
  {
    hide ZoneOf, StripDCFromName;
    var r, t := Named(name), Named(StripDCFromName(name, domainSuffix));
    var z := ZoneOf(t.dnsName, depth);
    var before, after := map[ZoneOf(name, depth).value := [r]], if z.Some? then map[z.value := [t]] else map[];
    OneRecord(depth, r);
    OneRecord(depth, t);
    assert Stripped([r], domainSuffix) == [t];
    assert ZoneOf(name, depth).value in StrippedZones(before, domainSuffix) && ZoneOf(name, depth).value !in after;
  }

  /**
   * Stripping after discovery, as the program does, is stripping before it, as its documentation says, for every
   * record set exactly when zones are no deeper than the domain suffix.
   */
  lemma {:induction false} CommutesExactlyWhen(depth: nat, domainSuffix: string)
    requires PlainSuffix(domainSuffix)
    ensures (forall rs :: Commutes(depth, domainSuffix, rs)) <==> depth <= DepthOf(domainSuffix)
  {
    hide Commutes, ZoneOf, StripDCFromName;
    if depth <= DepthOf(domainSuffix) {
      forall rs ensures Commutes(depth, domainSuffix, rs) { CommutesWhenShallow(depth, domainSuffix, rs); }
    } else if depth == DepthOf(domainSuffix) + 1 {
      FailsOneDeeper(domainSuffix);
      DifferentZones(depth, domainSuffix, Join(["a", "b"] + Split(domainSuffix, '.'), "."));
    } else {
      FailsMuchDeeper(depth, domainSuffix);
      DifferentZones(depth, domainSuffix, Join(Filler(depth - DepthOf(domainSuffix)) + Split(domainSuffix, '.'), "."));
    }
  }

  // ---- PTR zones ------------------------------------------------------------------------------------------------------

  lemma {:induction false} StripKeepsEmptiness(name: string, domainSuffix: string)
    ensures StripDCFromName(name, domainSuffix) == "" <==> name == ""
  {
    if name == "" {
      assert Labels("") == [""] && DepthOf(domainSuffix) >= 1;
    } else if Strips(name, domainSuffix) {
      var kept := Kept(Labels(name), DepthOf(domainSuffix));
      assert |kept| >= 2;
      assert Join(kept, ".") == kept[0] + "." + Join(kept[1..], ".");
    }
  }

  lemma {:induction false} PlacementIgnoresStrip(d: Discoverer, r: IPRecord, domainSuffix: string)
    ensures PlaceRecord(d, StripRecord(r, domainSuffix)) == PlaceRecord(d, r)
    ensures PtrOf(d, StripRecord(r, domainSuffix)) == StripRecord(PtrOf(d, r), domainSuffix)
  {
    hide StripDCFromName, Place;
    StripKeepsEmptiness(r.dnsName, domainSuffix);
  }

  lemma {:induction false} MapMap(f: IPRecord -> IPRecord, g: IPRecord -> IPRecord, p: IPRecord -> IPRecord, q: IPRecord -> IPRecord, rs: seq<IPRecord>)
    requires forall r :: g(f(r)) == q(p(r))
    ensures Map(g, Map(f, rs)) == Map(q, Map(p, rs))
  {
  }

  /** PTR zones commute with stripping unconditionally: neither the zone nor the label of a PTR looks at the name. */
  lemma {:induction false} PtrZonesCommute(d: Discoverer, zone: string, rs: seq<IPRecord>, domainSuffix: string)
    ensures Stripped(PtrsIn(d, zone, rs), domainSuffix) == PtrsIn(d, zone, Stripped(rs, domainSuffix))
  {
    hide PlaceRecord, PtrOf, StripRecord;
    var f := (r: IPRecord) => StripRecord(r, domainSuffix);
    var keep, ptr := (r: IPRecord) => PlacedIn(d, zone, r), (r: IPRecord) => PtrOf(d, r);
    forall r ensures keep(r) == keep(f(r)) && ptr(f(r)) == f(ptr(r)) { PlacementIgnoresStrip(d, r, domainSuffix); }
    FilterMapSwap(f, keep, keep, rs);
    MapMap(ptr, f, f, ptr, Filter(keep, rs));
  }

  /** Stripping keeps the number of records of every zone. */
  lemma StrippedCounts(zm: ZoneMap, domainSuffix: string)
    ensures StrippedZones(zm, domainSuffix).Keys == zm.Keys
    ensures forall z :: z in zm ==> |StrippedZones(zm, domainSuffix)[z]| == |zm[z]|
  {
  }
}
