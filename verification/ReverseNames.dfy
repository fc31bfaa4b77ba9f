/** Reverse names: the deepest configured zone an address falls in, and its label there (internal/zonediscovery/reverse.go). */
module ReverseNames {
  import opened Wrappers
  import opened Strings
  import opened Decimal
  import opened Records

  const V4_SUFFIX := ".in-addr.arpa"
  const V6_SUFFIX := ".ip6.arpa"

  /** A parsed address: four octets, or sixteen bytes. */
  datatype Addr = V4(octets: seq<nat>) | V6(bytes: seq<nat>)

  predicate WellFormed(a: Addr) {
    match a
    case V4(o) => |o| == 4 && forall i :: 0 <= i < 4 ==> o[i] < 256
    case V6(b) => |b| == 16 && forall i :: 0 <= i < 16 ==> b[i] < 256
  }

  type IP = a: Addr | WellFormed(a) witness V4([0, 0, 0, 0])

  function Suffix(a: IP): string { if a.V4? then V4_SUFFIX else V6_SUFFIX }

  // ---- the full reverse name -------------------------------------------------------------------------

  /** %x of four bits */
  function Hex(n: nat): (s: string)
    requires n < 16
    ensures |s| == 1 && s[0] != '.'
  {
    if n < 10 then [('0' as int + n) as char] else [('a' as int + n - 10) as char]
  }

  lemma HexInjective(m: nat, n: nat)
    requires m < 16 && n < 16 && Hex(m) == Hex(n)
    ensures m == n
  {
    assert Hex(m)[0] == Hex(n)[0];
  }

  predicate Bytes(bytes: seq<nat>) { forall i :: 0 <= i < |bytes| ==> bytes[i] < 256 }

  /** The i-th nibble, high before low in each byte. */
  function Nibble(bytes: seq<nat>, i: nat): (s: string)
    requires Bytes(bytes) && i < 2 * |bytes|
    ensures |s| == 1 && s[0] != '.'
  {
    if i % 2 == 0 then Hex(bytes[i / 2] / 16) else Hex(bytes[i / 2] % 16)
  }

  function NibblesOf(bytes: seq<nat>): (r: seq<string>)
    requires Bytes(bytes)
    ensures |r| == 2 * |bytes| && forall i :: 0 <= i < 2 * |bytes| ==> r[i] == Nibble(bytes, i)
  {
    seq(2 * |bytes|, i requires 0 <= i < 2 * |bytes| => Nibble(bytes, i))
  }

  function Reversed<T>(s: seq<T>): (r: seq<T>)
    ensures |r| == |s|
    ensures forall i :: 0 <= i < |s| ==> r[i] == s[|s| - 1 - i]
  {
    if s == [] then [] else Reversed(s[1..]) + [s[0]]
  }

  /** Section 3.5 of RFC 1035 and section 2.5 of RFC 3596: least significant octet or nibble first. */
  function FullLabels(a: IP): (r: seq<string>)
    ensures |r| == if a.V4? then 4 else 32
    ensures forall l :: l in r ==> '.' !in l
  {
    match a
    case V4(o) => [Dec(o[3]), Dec(o[2]), Dec(o[1]), Dec(o[0])]
    case V6(b) => V6Labels(b)
  }

  function V6Labels(bytes: seq<nat>): (r: seq<string>)
    requires Bytes(bytes)
    ensures r == Reversed(NibblesOf(bytes)) && forall l :: l in r ==> '.' !in l
  {
    NibbleLabels(bytes);
    Reversed(NibblesOf(bytes))
  }

  lemma NibbleLabels(bytes: seq<nat>)
    requires Bytes(bytes)
    ensures forall l :: l in Reversed(NibblesOf(bytes)) ==> |l| == 1 && l[0] != '.'
  {
    forall l | l in Reversed(NibblesOf(bytes)) ensures |l| == 1 && l[0] != '.' {
      var i :| 0 <= i < 2 * |bytes| && Reversed(NibblesOf(bytes))[i] == l;
      assert l == NibblesOf(bytes)[2 * |bytes| - 1 - i] == Nibble(bytes, 2 * |bytes| - 1 - i);
    }
  }

  function FullName(a: IP): string { Join(FullLabels(a), ".") + Suffix(a) }

  lemma {:induction false} NibblesInjective(a: seq<nat>, b: seq<nat>)
    requires |a| == |b| && Bytes(a) && Bytes(b)
    requires NibblesOf(a) == NibblesOf(b)
    ensures a == b
  {
    forall i | 0 <= i < |a| ensures a[i] == b[i] {
      assert NibblesOf(a)[2 * i] == Nibble(a, 2 * i) && NibblesOf(a)[2 * i + 1] == Nibble(a, 2 * i + 1);
      assert NibblesOf(b)[2 * i] == Nibble(b, 2 * i) && NibblesOf(b)[2 * i + 1] == Nibble(b, 2 * i + 1);
      HexInjective(a[i] / 16, b[i] / 16);
      HexInjective(a[i] % 16, b[i] % 16);
      assert a[i] == 16 * (a[i] / 16) + a[i] % 16 && b[i] == 16 * (b[i] / 16) + b[i] % 16;
    }
  }

  lemma {:induction false} ReversedInjective<T>(s: seq<T>, t: seq<T>)
    requires Reversed(s) == Reversed(t)
    ensures s == t
  {
    assert |s| == |Reversed(s)| == |t|;
    forall i | 0 <= i < |s| ensures s[i] == t[i] {
      assert Reversed(s)[|s| - 1 - i] == s[i] && Reversed(t)[|s| - 1 - i] == t[i];
    }
  }

  /** Different addresses have different reverse names. */
  lemma {:induction false} FullLabelsInjective(a: IP, b: IP)
    requires a.V4? == b.V4? && FullLabels(a) == FullLabels(b)
    ensures a == b
  {
    match a
    case V4(o) =>
      var p := b.octets;
      assert FullLabels(a)[0] == FullLabels(b)[0] && FullLabels(a)[1] == FullLabels(b)[1];
      assert FullLabels(a)[2] == FullLabels(b)[2] && FullLabels(a)[3] == FullLabels(b)[3];
      DecInjective(o[0], p[0]);
      DecInjective(o[1], p[1]);
      DecInjective(o[2], p[2]);
      DecInjective(o[3], p[3]);
      assert o == [o[0], o[1], o[2], o[3]] && p == [p[0], p[1], p[2], p[3]];
    case V6(bytes) =>
      ReversedInjective(NibblesOf(bytes), NibblesOf(b.bytes));
      NibblesInjective(bytes, b.bytes);
  }

  // ---- the deepest zone ----------------------------------------------------------------------------------

  function ZoneLabels(zone: string, suffix: string): seq<string> { Split(TrimSuffix(zone, suffix), '.') }

  /** The configured zone is a suffix of the full name, label by label. */
  predicate Matches(full: seq<string>, suffix: string, zone: string) {
    && TrimSuffix(zone, suffix) != ""
    && var labels := ZoneLabels(zone, suffix);
       |labels| <= |full| && labels == full[|full| - |labels|..]
  }

  function Depth(zone: string, suffix: string): nat { |ZoneLabels(zone, suffix)| }

  /** The first of the deepest matching zones. */
  function Deepest(full: seq<string>, suffix: string, zones: seq<string>): Option<string> {
    if zones == [] then None
    else
      var z, best := zones[|zones| - 1], Deepest(full, suffix, zones[..|zones| - 1]);
      if Matches(full, suffix, z) && (best.None? || Depth(z, suffix) > Depth(best.value, suffix)) then Some(z) else best
  }

  lemma {:induction false} DeepestIsDeepest(full: seq<string>, suffix: string, zones: seq<string>)
    ensures var best := Deepest(full, suffix, zones);
            && (best.Some? <==> exists z :: z in zones && Matches(full, suffix, z))
            && (best.Some? ==> best.value in zones && Matches(full, suffix, best.value))
            && (best.Some? ==> forall z :: z in zones && Matches(full, suffix, z) ==> Depth(z, suffix) <= Depth(best.value, suffix))
  {
    hide Matches, Depth;
    if zones != [] {
      var k := |zones| - 1;
      DeepestIsDeepest(full, suffix, zones[..k]);
      assert forall z :: z in zones <==> z in zones[..k] || z == zones[k];
    }
  }

  function Label(full: seq<string>, suffix: string, zone: string): string
    requires Matches(full, suffix, zone)
  {
    Join(full[..|full| - Depth(zone, suffix)], ".")
  }

  /** The name a label stands for in its zone; an empty label is the zone itself, printed as @. */
  function Expanded(ptrName: string, zone: string): string { if ptrName == "" then zone else ptrName + "." + zone }

  lemma {:induction false} JoinNonempty(parts: seq<string>)
    requires parts != [] && forall p :: p in parts ==> p != ""
    ensures Join(parts, ".") != ""
  {
    assert parts[0] in parts;
  }

  /** Expanding the label in the chosen zone rebuilds the full reverse name. */
  lemma {:induction false} LabelRebuildsName(full: seq<string>, suffix: string, zone: string)
    requires Matches(full, suffix, zone) && HasSuffix(zone, suffix) && forall l :: l in full ==> l != ""
    ensures Expanded(Label(full, suffix, zone), zone) == Join(full, ".") + suffix
  {
    var stem := TrimSuffix(zone, suffix);
    var labels := ZoneLabels(zone, suffix);
    JoinSplit(stem, '.');
    assert zone == Join(labels, ".") + suffix;
    var first := full[..|full| - |labels|];
    assert full == first + labels;
    forall p | p in first ensures p != "" { assert p in full; }
    if first == [] {
      assert full == labels;
    } else {
      JoinNonempty(first);
      JoinConcat(first, labels, ".");
      Assoc(Join(first, ".") + ".", Join(labels, "."), suffix);
    }
  }

  lemma {:induction false} FullLabelsNonempty(a: IP)
    ensures forall l :: l in FullLabels(a) ==> l != ""
  {
    if a.V6? { NibbleLabels(a.bytes); }
  }

  // ---- the two methods --------------------------------------------------------------------------------------

  /** What reversing one address gives; the IPv6 loop indexes out of range on a zone deeper than the address. */
  datatype Placed = NoZone | In(zone: string, ptrName: string) | Panic

  function PlaceV4(a: IP, zones: seq<string>): Placed
    requires a.V4?
  {
    var best := Deepest(FullLabels(a), V4_SUFFIX, zones);
    if best.None? then NoZone
    else
      DeepestIsDeepest(FullLabels(a), V4_SUFFIX, zones);
      In(best.value, Label(FullLabels(a), V4_SUFFIX, best.value))
  }

  predicate Overlong(zone: string) { TrimSuffix(zone, V6_SUFFIX) != "" && |ZoneLabels(zone, V6_SUFFIX)| > 32 }

  function PlaceV6(a: IP, zones: seq<string>): Placed
    requires a.V6?
  {
    if exists z :: z in zones && Overlong(z) then Panic
    else
      var best := Deepest(FullLabels(a), V6_SUFFIX, zones);
      if best.None? then NoZone
      else
        DeepestIsDeepest(FullLabels(a), V6_SUFFIX, zones);
        In(best.value, Label(FullLabels(a), V6_SUFFIX, best.value))
  }

  lemma DeepestStep(full: seq<string>, suffix: string, zones: seq<string>, i: nat)
    requires i < |zones|
    ensures Deepest(full, suffix, zones[..i + 1])
         == var z, best := zones[i], Deepest(full, suffix, zones[..i]);
            if Matches(full, suffix, z) && (best.None? || Depth(z, suffix) > Depth(best.value, suffix)) then Some(z) else best
  {
    assert zones[..i + 1][..i] == zones[..i];
  }

  /** Octet by octet from the most significant; a zone of more than four labels matches nothing. */
  method MatchesOctets(octets: seq<string>, labels: seq<string>) returns (matches: bool)
    requires |octets| == 4
    ensures matches <==> |labels| <= 4 && labels == Reversed(octets)[4 - |labels|..]
  {
    hide Reversed;
    if |labels| <= 4 { LastReversed(octets, labels); }
    var depth := |labels|;
    var i := 0;
    while i < depth
      invariant 0 <= i <= depth && (i > 0 ==> i <= 4)
      invariant forall k :: 0 <= k < i ==> octets[k] == labels[depth - 1 - k]
    {
      if i >= 4 || labels[depth - 1 - i] != octets[i] {
        return false;
      }
      i := i + 1;
    }
    return true;
  }

  lemma V4Full(a: IP)
    requires a.V4?
    ensures var o := a.octets;
            FullLabels(a) == [Dec(o[3]), Dec(o[2]), Dec(o[1]), Dec(o[0])] == Reversed([Dec(o[0]), Dec(o[1]), Dec(o[2]), Dec(o[3])])
  {
    hide Dec;
  }

  method ReverseIPv4(a: IP, zones: seq<string>) returns (placed: Placed)
    requires a.V4?
    ensures placed == PlaceV4(a, zones)
  {
    hide Matches, Deepest, FullLabels, Reversed, Split, TrimSuffix, Join, Dec;
    var octets := [Dec(a.octets[0]), Dec(a.octets[1]), Dec(a.octets[2]), Dec(a.octets[3])];
    var fullReverse := [octets[3], octets[2], octets[1], octets[0]];
    V4Full(a);
    var matchedZone, zoneDepth := "", 0;
    var i := 0;
    NoneDeepest(fullReverse, V4_SUFFIX, zones);
    while i < |zones|
      invariant 0 <= i <= |zones|
      invariant Deepest(fullReverse, V4_SUFFIX, zones[..i]) == if matchedZone == "" then None else Some(matchedZone)
      invariant zoneDepth == if matchedZone == "" then 0 else Depth(matchedZone, V4_SUFFIX)
    {
      DeepestStep(fullReverse, V4_SUFFIX, zones, i);
      MatchMeans(fullReverse, V4_SUFFIX, zones[i]);
      var zoneParts := TrimSuffix(zones[i], V4_SUFFIX);
      if zoneParts != "" {
        var zoneOctets := Split(zoneParts, '.');
        var matches := MatchesOctets(octets, zoneOctets);
        if matches && |zoneOctets| > zoneDepth {
          matchedZone, zoneDepth := zones[i], |zoneOctets|;
        }
      }
      i := i + 1;
    }
    assert zones[..i] == zones;
    if matchedZone == "" {
      return NoZone;
    }
    DeepestIsDeepest(fullReverse, V4_SUFFIX, zones);
    MatchMeans(fullReverse, V4_SUFFIX, matchedZone);
    return In(matchedZone, Join(fullReverse[..4 - zoneDepth], "."));
  }

  lemma NoneDeepest(full: seq<string>, suffix: string, zones: seq<string>)
    ensures Deepest(full, suffix, zones[..0]) == None
  {
  }

  lemma MatchMeans(full: seq<string>, suffix: string, zone: string)
    ensures Matches(full, suffix, zone) <==>
              TrimSuffix(zone, suffix) != "" && Depth(zone, suffix) <= |full|
              && ZoneLabels(zone, suffix) == full[|full| - Depth(zone, suffix)..]
    ensures Matches(full, suffix, zone) ==> zone != "" && 1 <= Depth(zone, suffix) <= |full|
  {
  }

  method Nibbles(bytes: seq<nat>) returns (nibbles: array<string>)
    requires |bytes| == 16 && Bytes(bytes)
    ensures fresh(nibbles) && nibbles[..] == NibblesOf(bytes)
  {
    nibbles := new string[32];
    var k := 0;
    while k < 16
      invariant 0 <= k <= 16
      invariant forall j :: 0 <= j < 2 * k ==> nibbles[j] == Nibble(bytes, j)
    {
      nibbles[2 * k] := Hex(bytes[k] / 16);
      nibbles[2 * k + 1] := Hex(bytes[k] % 16);
      assert nibbles[2 * k] == Nibble(bytes, 2 * k) && nibbles[2 * k + 1] == Nibble(bytes, 2 * k + 1);
      k := k + 1;
    }
  }

  /** The nibbles in PTR order, reversed in place. */
  method ReverseInPlace(nibbles: array<string>)
    requires nibbles.Length == 32
    modifies nibbles
    ensures nibbles[..] == Reversed(old(nibbles[..]))
  {
    ghost var was := nibbles[..];
    var i, j := 0, 31;
    while i < j
      invariant 0 <= i <= 16 && j == 31 - i
      invariant forall m :: 0 <= m < i ==> nibbles[m] == was[31 - m]
      invariant forall m :: j < m < 32 ==> nibbles[m] == was[31 - m]
      invariant forall m :: i <= m <= j ==> nibbles[m] == was[m]
    {
      nibbles[i], nibbles[j] := nibbles[j], nibbles[i];
      i, j := i + 1, j - 1;
    }
  }

  /** Nibble by nibble; None for the index out of range of a zone with more labels than the address has nibbles. */
  method MatchesNibbles(nibbles: seq<string>, labels: seq<string>) returns (matches: Option<bool>)
    requires |nibbles| == 32 && |labels| >= 1
    ensures matches.None? <==> |labels| > 32
    ensures matches.Some? ==> (matches.value <==> labels == nibbles[32 - |labels|..])
  {
    var depth := |labels|;
    var i := 0;
    while i < depth
      invariant 0 <= i <= depth && (i > 0 ==> depth <= 32)
      invariant forall k :: 0 <= k < i ==> labels[k] == nibbles[32 - depth + k]
    {
      if i >= 32 {
        return Some(false);
      }
      if 32 - depth + i < 0 {
        return None;
      }
      if labels[i] != nibbles[32 - depth + i] {
        assert nibbles[32 - depth..][i] == nibbles[32 - depth + i];
        return Some(false);
      }
      i := i + 1;
    }
    return Some(true);
  }

  method PTRNibbles(bytes: seq<nat>) returns (nibbles: seq<string>)
    requires |bytes| == 16 && Bytes(bytes)
    ensures nibbles == Reversed(NibblesOf(bytes))
  {
    var buffer := Nibbles(bytes);
    ReverseInPlace(buffer);
    return buffer[..];
  }

  lemma V6Full(a: IP)
    requires a.V6?
    ensures FullLabels(a) == Reversed(NibblesOf(a.bytes))
  {
  }

  method ReverseIPv6(a: IP, zones: seq<string>) returns (placed: Placed)
    requires a.V6?
    ensures placed == PlaceV6(a, zones)
  {
    hide Matches, Deepest, FullLabels, Split, TrimSuffix;
    V6Full(a);
    var nibbles := PTRNibbles(a.bytes);
    ghost var full := FullLabels(a);
    var matchedZone, zoneDepth := "", 0;
    var i := 0;
    NoneDeepest(full, V6_SUFFIX, zones);
    while i < |zones|
      invariant 0 <= i <= |zones| 
      invariant forall k :: 0 <= k < i ==> !Overlong(zones[k])
      invariant Deepest(full, V6_SUFFIX, zones[..i]) == if matchedZone == "" then None else Some(matchedZone)
      invariant zoneDepth == if matchedZone == "" then 0 else Depth(matchedZone, V6_SUFFIX)
    {
      DeepestStep(full, V6_SUFFIX, zones, i);
      MatchMeans(full, V6_SUFFIX, zones[i]);
      var zoneParts := TrimSuffix(zones[i], V6_SUFFIX);
      if zoneParts != "" {
        var zoneNibbles := Split(zoneParts, '.');
        var matches := MatchesNibbles(nibbles, zoneNibbles);
        if matches.None? {
          assert Overlong(zones[i]);
          return Panic;
        }
        if matches.value && |zoneNibbles| > zoneDepth {
          matchedZone, zoneDepth := zones[i], |zoneNibbles|;
        }
      }
      i := i + 1;
    }
    assert zones[..i] == zones;
    if matchedZone == "" {
      return NoZone;
    }
    DeepestIsDeepest(full, V6_SUFFIX, zones);
    MatchMeans(full, V6_SUFFIX, matchedZone);
    return In(matchedZone, Join(nibbles[..32 - zoneDepth], "."));
  }

  // ---- what a placement means ------------------------------------------------------------------------------------

  function Place(a: IP, zones4: seq<string>, zones6: seq<string>): Placed {
    if a.V4? then PlaceV4(a, zones4) else PlaceV6(a, zones6)
  }

  function ZonesFor(a: IP, zones4: seq<string>, zones6: seq<string>): seq<string> { if a.V4? then zones4 else zones6 }

  ghost predicate ReverseZones(zones: seq<string>, suffix: string) { forall z :: z in zones ==> HasSuffix(z, suffix) }

  /**
   * An address is placed iff some configured zone is a suffix of its reverse name; the zone is then the deepest such
   * one, and its label there expands to the full reverse name.
   */
  lemma {:induction false} PlacedInDeepestZone(a: IP, zones4: seq<string>, zones6: seq<string>)
    requires ReverseZones(zones4, V4_SUFFIX) && ReverseZones(zones6, V6_SUFFIX)
    requires !Place(a, zones4, zones6).Panic?
    ensures var zones, p := ZonesFor(a, zones4, zones6), Place(a, zones4, zones6);
            && (p.In? <==> exists z :: z in zones && Matches(FullLabels(a), Suffix(a), z))
            && (p.In? ==> p.zone in zones && Matches(FullLabels(a), Suffix(a), p.zone))
            && (p.In? ==> forall z :: z in zones && Matches(FullLabels(a), Suffix(a), z) ==>
                            Depth(z, Suffix(a)) <= Depth(p.zone, Suffix(a)))
            && (p.In? ==> Expanded(p.ptrName, p.zone) == FullName(a))
  {
    hide Matches, Depth, FullLabels, Deepest;
    DeepestIsDeepest(FullLabels(a), Suffix(a), ZonesFor(a, zones4, zones6));
    FullLabelsNonempty(a);
    var p := Place(a, zones4, zones6);
    if p.In? { LabelRebuildsName(FullLabels(a), Suffix(a), p.zone); }
  }

  /** The IPv6 loop runs off the end of the address exactly when some configured zone has more than 32 labels. */
  lemma PanicsExactlyWhen(a: IP, zones4: seq<string>, zones6: seq<string>)
    ensures Place(a, zones4, zones6).Panic? <==> a.V6? && exists z :: z in zones6 && Overlong(z)
  {
  }

  function Ones(n: nat): (r: seq<string>)
    ensures |r| == n && forall i :: 0 <= i < n ==> r[i] == "1"
  {
    seq(n, _ => "1")
  }

  /** One zone of 33 labels among the configured ones, and every IPv6 address panics. */
  lemma {:induction false} OneLabelTooMany(a: IP, zones4: seq<string>, zones6: seq<string>)
    requires a.V6? && Join(Ones(33), ".") + V6_SUFFIX in zones6
    ensures Place(a, zones4, zones6).Panic?
  {
    hide PlaceV4, FullLabels, Deepest, Label;
    OnesOverlong();
  }

  lemma {:induction false} OnesOverlong()
    ensures Overlong(Join(Ones(33), ".") + V6_SUFFIX)
  {
    hide Ones, Join, Split, TrimSuffix;
    var ones := Ones(33);
    forall l | l in ones ensures '.' !in l && l != "" { assert l == "1"; }
    SplitJoin(ones, '.');
    JoinNonempty(ones);
    TrimOff(Join(ones, "."), V6_SUFFIX);
  }

  // ---- the names, number by number ------------------------------------------------------------------------------

  const HEX := "0123456789abcdef"

  /** The numbers of an address, most significant first: its octets, or its nibbles. */
  function Numbers(a: IP): (ns: seq<nat>)
    ensures |ns| == if a.V4? then 4 else 32
    ensures forall n :: n in ns ==> Fits(a.V4?, n)
  {
    if a.V4? then a.octets
    else seq(32, i requires 0 <= i < 32 => if i % 2 == 0 then a.bytes[i / 2] / 16 else a.bytes[i / 2] % 16)
  }

  predicate Fits(v4: bool, n: nat) { n < if v4 then 256 else 16 }

  /** How a number is written: in decimal, or as one hexadecimal digit. */
  function Digits(v4: bool, n: nat): string
    requires Fits(v4, n)
  {
    if v4 then Dec(n) else HEX[n..n + 1]
  }

  /** Numbers written the other way round, with dots between them. */
  function Backwards(v4: bool, ns: seq<nat>): string
    requires forall n :: n in ns ==> Fits(v4, n)
  {
    if |ns| == 0 then ""
    else if |ns| == 1 then Digits(v4, ns[0])
    else
      var k := |ns| - 1;
      Digits(v4, ns[k]) + "." + Backwards(v4, ns[..k])
  }

  function Texts(v4: bool, ns: seq<nat>): (ts: seq<string>)
    requires forall n :: n in ns ==> Fits(v4, n)
    ensures |ts| == |ns| && forall i :: 0 <= i < |ns| ==> ts[i] == Digits(v4, ns[i])
  {
    seq(|ns|, i requires 0 <= i < |ns| => Digits(v4, ns[i]))
  }

  lemma {:induction false} BackwardsJoins(v4: bool, ns: seq<nat>)
    requires forall n :: n in ns ==> Fits(v4, n)
    ensures Backwards(v4, ns) == Join(Reversed(Texts(v4, ns)), ".")
  {
    hide Digits;
    var all := Reversed(Texts(v4, ns));
    if |ns| > 1 {
      var k := |ns| - 1;
      BackwardsJoins(v4, ns[..k]);
      assert all[1..] == Reversed(Texts(v4, ns[..k])) && all[0] == Digits(v4, ns[k]);
    } else if |ns| == 1 {
      assert all == [Digits(v4, ns[0])];
    }
  }

  lemma {:induction false} HexIsDigit(n: nat)
    requires n < 16
    ensures Hex(n) == HEX[n..n + 1]
  {
  }

  lemma {:induction false} DigitsText(v4: bool, n: nat)
    requires Fits(v4, n)
    ensures '.' !in Digits(v4, n) && Digits(v4, n) != ""
    ensures forall m :: Fits(v4, m) && Digits(v4, m) == Digits(v4, n) ==> m == n
  {
    if v4 {
      forall m | Fits(v4, m) && Digits(v4, m) == Digits(v4, n) ensures m == n { DecInjective(m, n); }
    } else {
      HexIsDigit(n);
      forall m | Fits(v4, m) && Digits(v4, m) == Digits(v4, n) ensures m == n {
        HexIsDigit(m);
        HexInjective(m, n);
      }
    }
  }

  lemma {:induction false} FullLabelsAre(a: IP)
    ensures FullLabels(a) == Reversed(Texts(a.V4?, Numbers(a)))
  {
    if a.V6? {
      V6Full(a);
      var ns, ts := NibblesOf(a.bytes), Texts(false, Numbers(a));
      forall i | 0 <= i < 32 ensures ns[i] == ts[i] {
        assert ns[i] == Nibble(a.bytes, i);
        HexIsDigit(a.bytes[i / 2] / 16);
        HexIsDigit(a.bytes[i / 2] % 16);
      }
      assert ns == ts;
    }
  }

  function Arpa(a: IP): string { if a.V4? then ".in-addr.arpa" else ".ip6.arpa" }

  /** The zone named after the first k numbers of an address. */
  function NetworkZone(a: IP, k: nat): string
    requires k <= |Numbers(a)|
  {
    Backwards(a.V4?, Numbers(a)[..k]) + Arpa(a)
  }

  /** A configured zone matches an address exactly when it is named after its first numbers, as many as the zone has labels. */
  lemma {:induction false} MatchesNetwork(a: IP, zone: string)
    requires HasSuffix(zone, Arpa(a)) && Matches(FullLabels(a), Suffix(a), zone)
    ensures var k := Depth(zone, Suffix(a));
            && 1 <= k <= |Numbers(a)| && zone == NetworkZone(a, k)
            && Label(FullLabels(a), Suffix(a), zone) == Backwards(a.V4?, Numbers(a)[k..])
  {
    hide Numbers, FullLabels, Digits, Split, Reversed, Matches, Backwards, TrimSuffix, HasSuffix, Join, Fits;
    var full, k, ns := FullLabels(a), Depth(zone, Suffix(a)), Numbers(a);
    FullLabelsAre(a);
    MatchMeans(full, Suffix(a), zone);
    ReversedParts(a.V4?, ns, k);
    BackwardsJoins(a.V4?, ns[..k]);
    BackwardsJoins(a.V4?, ns[k..]);
    JoinSplit(TrimSuffix(zone, Suffix(a)), '.');
    StemAndSuffix(zone, Suffix(a));
  }

  lemma StemAndSuffix(zone: string, suffix: string)
    requires HasSuffix(zone, suffix)
    ensures zone == TrimSuffix(zone, suffix) + suffix
  {
  }

  lemma {:induction false} ReversedConcat<T>(a: seq<T>, b: seq<T>)
    ensures Reversed(a + b) == Reversed(b) + Reversed(a)
  {
    if a == [] {
      assert a + b == b;
    } else {
      ReversedConcat(a[1..], b);
      assert (a + b)[1..] == a[1..] + b && (a + b)[0] == a[0];
    }
  }

  lemma ReversedSplit<T>(s: seq<T>, k: nat)
    requires k <= |s|
    ensures Reversed(s)[|s| - k..] == Reversed(s[..k]) && Reversed(s)[..|s| - k] == Reversed(s[k..])
  {
    ReversedConcat(s[..k], s[k..]);
    assert s[..k] + s[k..] == s;
    var x, y := Reversed(s[k..]), Reversed(s[..k]);
    assert (x + y)[..|x|] == x && (x + y)[|x|..] == y;
  }

  lemma ReversedParts(v4: bool, ns: seq<nat>, k: nat)
    requires k <= |ns| && forall n :: n in ns ==> Fits(v4, n)
    ensures var full := Reversed(Texts(v4, ns));
            && full[|full| - k..] == Reversed(Texts(v4, ns[..k]))
            && full[..|full| - k] == Reversed(Texts(v4, ns[k..]))
  {
    hide Digits, Reversed;
    ReversedSplit(Texts(v4, ns), k);
    assert Texts(v4, ns)[..k] == Texts(v4, ns[..k]) && Texts(v4, ns)[k..] == Texts(v4, ns[k..]);
    assert |Reversed(Texts(v4, ns))| == |ns|;
  }

  lemma {:induction false} PartLabels(v4: bool, ns: seq<nat>)
    requires ns != [] && forall n :: n in ns ==> Fits(v4, n)
    ensures Split(Backwards(v4, ns), '.') == Reversed(Texts(v4, ns)) && Backwards(v4, ns) != ""
  {
    hide Digits, Split, Join;
    var parts := Reversed(Texts(v4, ns));
    BackwardsJoins(v4, ns);
    forall l | l in parts ensures '.' !in l && l != "" {
      var i :| 0 <= i < |parts| && parts[i] == l;
      DigitsText(v4, ns[|ns| - 1 - i]);
    }
    SplitJoin(parts, '.');
    JoinNonempty(parts);
  }

  /** The zone named after the first k numbers of b matches a exactly when a and b agree on those. */
  lemma {:induction false} NetworkMatches(a: IP, b: IP, k: nat)
    requires a.V4? == b.V4? && 1 <= k <= |Numbers(a)|
    ensures Matches(FullLabels(a), Suffix(a), NetworkZone(b, k)) <==> Numbers(a)[..k] == Numbers(b)[..k]
    ensures Depth(NetworkZone(b, k), Suffix(a)) == k && HasSuffix(NetworkZone(b, k), Arpa(a))
  {
    hide Numbers, FullLabels, Digits, Split;
    var full, ns, ms, v4 := FullLabels(a), Numbers(a), Numbers(b), a.V4?;
    FullLabelsAre(a);
    TrimOff(Backwards(v4, ms[..k]), Arpa(b));
    PartLabels(v4, ms[..k]);
    ReversedParts(v4, ns, k);
    MatchMeans(full, Suffix(a), NetworkZone(b, k));
    if Reversed(Texts(v4, ns[..k])) == Reversed(Texts(v4, ms[..k])) { SameTexts(v4, ns[..k], ms[..k]); }
  }

  lemma {:induction false} SameTexts(v4: bool, ns: seq<nat>, ms: seq<nat>)
    requires (forall n :: n in ns ==> Fits(v4, n)) && (forall n :: n in ms ==> Fits(v4, n))
    requires Reversed(Texts(v4, ns)) == Reversed(Texts(v4, ms))
    ensures ns == ms
  {
    hide Digits;
    ReversedInjective(Texts(v4, ns), Texts(v4, ms));
    assert |ns| == |Texts(v4, ns)| == |ms|;
    forall i | 0 <= i < |ns| ensures ns[i] == ms[i] {
      assert Texts(v4, ns)[i] == Texts(v4, ms)[i];
      DigitsText(v4, ns[i]);
    }
  }

  /**
   * Which zone an address falls in, number by number: of the configured zones named after its first numbers the one named
   * after the most, under the remaining numbers written the other way round; none if none is so named.
   */
  lemma {:induction false} PlacedByNumbers(a: IP, zones4: seq<string>, zones6: seq<string>)
    requires ReverseZones(zones4, V4_SUFFIX) && ReverseZones(zones6, V6_SUFFIX) && !Place(a, zones4, zones6).Panic?
    ensures var zones, p := ZonesFor(a, zones4, zones6), Place(a, zones4, zones6);
            if p.In? then
              exists k :: 1 <= k <= |Numbers(a)| && p == In(NetworkZone(a, k), Backwards(a.V4?, Numbers(a)[k..])) && p.zone in zones
                          && forall j :: k < j <= |Numbers(a)| ==> NetworkZone(a, j) !in zones
            else forall j :: 1 <= j <= |Numbers(a)| ==> NetworkZone(a, j) !in zones
  {
    hide Numbers, FullLabels, Matches, Depth, NetworkZone, Backwards, Deepest, Label;
    var zones, p, full := ZonesFor(a, zones4, zones6), Place(a, zones4, zones6), FullLabels(a);
    DeepestIsDeepest(full, Suffix(a), zones);
    forall j | 1 <= j <= |Numbers(a)|
      ensures Matches(full, Suffix(a), NetworkZone(a, j)) && Depth(NetworkZone(a, j), Suffix(a)) == j
    {
      NetworkMatches(a, a, j);
    }
    if p.In? { MatchesNetwork(a, p.zone); }
  }

  // ---- reading a reverse name -----------------------------------------------------------------------------------

  function ReadNumber(v4: bool, l: string): Option<nat> {
    if v4 then ParseUint32(l) else if |l| == 1 && l[0] in HEX then Some(Index(HEX, l[0])) else None
  }

  /** The numbers of the labels, from the right. */
  function ReadNumbers(v4: bool, ls: seq<string>): Option<seq<nat>> {
    if ls == [] then Some([])
    else
      var k := |ls| - 1;
      var first, rest := ReadNumber(v4, ls[k]), ReadNumbers(v4, ls[..k]);
      if first.Some? && rest.Some? then Some([first.value] + rest.value) else None
  }

  function Pairs(ns: seq<nat>): seq<nat> { seq(|ns| / 2, i requires 0 <= i < |ns| / 2 => 16 * ns[2 * i] + ns[2 * i + 1]) }

  /** The address a reverse name stands for, by section 3.5 of RFC 1035 and section 2.5 of RFC 3596. */
  function ReadReverse(name: string): Option<Addr> {
    if HasSuffix(name, ".in-addr.arpa") then
      var ns := ReadNumbers(true, Split(TrimSuffix(name, ".in-addr.arpa"), '.'));
      if ns.Some? && |ns.value| == 4 then Some(V4(ns.value)) else None
    else if HasSuffix(name, ".ip6.arpa") then
      var ns := ReadNumbers(false, Split(TrimSuffix(name, ".ip6.arpa"), '.'));
      if ns.Some? && |ns.value| == 32 then Some(V6(Pairs(ns.value))) else None
    else None
  }

  lemma {:induction false} ReadsDigits(v4: bool, n: nat)
    requires Fits(v4, n)
    ensures ReadNumber(v4, Digits(v4, n)) == Some(n)
  {
    if v4 { ValueDec(n); } else { HexPosition(n); }
  }

  lemma HexPosition(n: nat)
    requires n < 16
    ensures HEX[n] in HEX && Index(HEX, HEX[n]) == n
  {
    IndexHere(HEX, n);
  }

  lemma {:induction false} IndexHere(s: string, n: nat)
    requires n < |s| && forall i :: 0 <= i < n ==> s[i] != s[n]
    ensures Index(s, s[n]) == n
  {
    if n > 0 {
      assert s[1..][n - 1] == s[n];
      IndexHere(s[1..], n - 1);
    }
  }

  lemma FirstIsLast(v4: bool, ns: seq<nat>)
    requires ns != [] && forall n :: n in ns ==> Fits(v4, n)
    ensures var ls := Reversed(Texts(v4, ns));
            |ls| == |ns| && ls[|ns| - 1] == Digits(v4, ns[0]) && ls[..|ns| - 1] == Reversed(Texts(v4, ns[1..]))
  {
    hide Digits, Reversed;
    ReversedParts(v4, ns, 1);
  }

  lemma {:induction false} NumbersReadBack(v4: bool, ns: seq<nat>)
    requires forall n :: n in ns ==> Fits(v4, n)
    ensures ReadNumbers(v4, Reversed(Texts(v4, ns))) == Some(ns)
  {
    hide Digits, ReadNumber, Reversed, Texts;
    if ns != [] {
      ReadsDigits(v4, ns[0]);
      NumbersReadBack(v4, ns[1..]);
      FirstIsLast(v4, ns);
      assert [ns[0]] + ns[1..] == ns;
    } else {
      assert Reversed(Texts(v4, ns)) == [];
    }
  }

  lemma PairIsByte(a: IP, i: nat)
    requires a.V6? && i < 16
    ensures 16 * Numbers(a)[2 * i] + Numbers(a)[2 * i + 1] == a.bytes[i]
  {
    assert 2 * i / 2 == i && (2 * i + 1) / 2 == i && 2 * i % 2 == 0 && (2 * i + 1) % 2 == 1;
  }

  lemma PairsAreBytes(a: IP)
    requires a.V6?
    ensures Pairs(Numbers(a)) == a.bytes
  {
    hide Numbers;
    forall i | 0 <= i < 16 ensures Pairs(Numbers(a))[i] == a.bytes[i] { PairIsByte(a, i); }
  }

  /** The reverse name of an address stands for that address. */
  lemma {:induction false} ReverseNameReadsBack(a: IP)
    ensures ReadReverse(FullName(a)) == Some(a)
  {
    hide Numbers, FullLabels, Digits, Split, ReadNumber, ReadNumbers, HasSuffix, TrimSuffix, Pairs, Reversed, Backwards;
    var ns, v4 := Numbers(a), a.V4?;
    FullLabelsAre(a);
    BackwardsJoins(v4, ns);
    PartLabels(v4, ns);
    TrimOff(Backwards(v4, ns), Arpa(a));
    EndsWith(Backwards(v4, ns), Arpa(a));
    OneSuffix(FullName(a));
    NumbersReadBack(v4, ns);
    if a.V4? { OctetsAreNumbers(a); } else { PairsAreBytes(a); }
  }

  lemma OctetsAreNumbers(a: IP)
    requires a.V4?
    ensures Numbers(a) == a.octets
  {
  }

  lemma EndsWith(stem: string, suffix: string)
    ensures HasSuffix(stem + suffix, suffix)
  {
  }

  // ---- the examples of the documentation ------------------------------------------------------------------------

  const EXAMPLE_V4 := "172.16.in-addr.arpa"

  lemma ExampleLabels()
    ensures ZoneLabels(EXAMPLE_V4, V4_SUFFIX) == ["172", "16"] && TrimSuffix(EXAMPLE_V4, V4_SUFFIX) == "172.16"
  {
    var stem := "172.16";
    assert EXAMPLE_V4 == stem + V4_SUFFIX;
    assert TrimSuffix(EXAMPLE_V4, V4_SUFFIX) == stem;
    assert stem == "172" + ['.'] + "16";
    SplitCons("172", '.', "16");
  }

  lemma SmallNumbers()
    ensures Dec(16) == "16" && Dec(172) == "172"
  {
    assert DigitChar(1) == '1' && DigitChar(6) == '6' && DigitChar(7) == '7' && DigitChar(2) == '2';
    assert Dec(1) == "1" && Dec(17) == "17";
  }

  /** The example 172.16.in-addr.arpa covers 16.172.0.0/16, and not the network it is meant for. */
  lemma {:induction false} ExampleCovers(a: IP)
    requires a.V4?
    ensures Matches(FullLabels(a), V4_SUFFIX, EXAMPLE_V4) <==> a.octets[0] == 16 && a.octets[1] == 172
  {
    ExampleLabels();
    SmallNumbers();
    var full, o := FullLabels(a), a.octets;
    assert full[2..] == [Dec(o[1]), Dec(o[0])];
    if Dec(o[0]) == "16" { DecInjective(o[0], 16); }
    if Dec(o[1]) == "172" { DecInjective(o[1], 172); }
    assert [Dec(o[1]), Dec(o[0])] == ["172", "16"] <==> Dec(o[1]) == "172" && Dec(o[0]) == "16" by {
      assert [Dec(o[1]), Dec(o[0])][0] == Dec(o[1]) && [Dec(o[1]), Dec(o[0])][1] == Dec(o[0]);
      assert ["172", "16"][0] == "172" && ["172", "16"][1] == "16";
    }
  }

  const EXAMPLE_NIBBLES := ["b", "8", "0", "d", "0", "1", "2", "0"]
  const EXAMPLE_V6 := Join(EXAMPLE_NIBBLES, ".") + V6_SUFFIX

  lemma TrimOff(stem: string, suffix: string)
    ensures TrimSuffix(stem + suffix, suffix) == stem
  {
  }

  lemma {:induction false} ExampleNibbles()
    ensures ZoneLabels(EXAMPLE_V6, V6_SUFFIX) == EXAMPLE_NIBBLES && TrimSuffix(EXAMPLE_V6, V6_SUFFIX) != ""
  {
    hide Join;
    forall l | l in EXAMPLE_NIBBLES ensures '.' !in l && l != "" {}
    TrimOff(Join(EXAMPLE_NIBBLES, "."), V6_SUFFIX);
    SplitJoin(EXAMPLE_NIBBLES, '.');
    JoinNonempty(EXAMPLE_NIBBLES);
  }

  lemma {:induction false} ExampleMatches(a: IP)
    requires a.V6?
    ensures Matches(FullLabels(a), V6_SUFFIX, EXAMPLE_V6) <==> forall k :: 0 <= k < 8 ==> NibblesOf(a.bytes)[k] == EXAMPLE_NIBBLES[7 - k]
  {
    hide NibblesOf, ZoneLabels, TrimSuffix;
    ExampleNibbles();
    V6Full(a);
    LastReversed(NibblesOf(a.bytes), EXAMPLE_NIBBLES);
  }

  lemma LastReversed(s: seq<string>, last: seq<string>)
    requires |s| >= |last|
    ensures Reversed(s)[|s| - |last|..] == last <==> forall k :: 0 <= k < |last| ==> s[k] == last[|last| - 1 - k]
  {
    var tail := Reversed(s)[|s| - |last|..];
    forall i | 0 <= i < |last| ensures tail[i] == s[|last| - 1 - i] {}
    if tail == last {
      forall k | 0 <= k < |last| ensures s[k] == last[|last| - 1 - k] { assert tail[|last| - 1 - k] == s[k]; }
    }
    if forall k :: 0 <= k < |last| ==> s[k] == last[|last| - 1 - k] {
      forall i | 0 <= i < |last| ensures tail[i] == last[i] { assert s[|last| - 1 - i] == last[i]; }
    }
  }

  lemma ByteOf(bytes: seq<nat>, i: nat, high: nat, low: nat)
    requires Bytes(bytes) && i < |bytes| && high < 16 && low < 16
    ensures NibblesOf(bytes)[2 * i] == Hex(high) && NibblesOf(bytes)[2 * i + 1] == Hex(low) <==> bytes[i] == 16 * high + low
  {
    assert NibblesOf(bytes)[2 * i] == Nibble(bytes, 2 * i) && NibblesOf(bytes)[2 * i + 1] == Nibble(bytes, 2 * i + 1);
    if Hex(bytes[i] / 16) == Hex(high) { HexInjective(bytes[i] / 16, high); }
    if Hex(bytes[i] % 16) == Hex(low) { HexInjective(bytes[i] % 16, low); }
  }

  lemma ExampleHex()
    ensures Hex(0) == "0" && Hex(1) == "1" && Hex(2) == "2" && Hex(8) == "8" && Hex(11) == "b" && Hex(13) == "d"
  {
  }

  /** The example b.8.0.d.0.1.2.0.ip6.arpa covers 210:d08b::/32, and not the network 2001:db8::/32 it is meant for. */
  lemma {:induction false} ExampleCoversV6(a: IP)
    requires a.V6?
    ensures Matches(FullLabels(a), V6_SUFFIX, EXAMPLE_V6) <==>
              a.bytes[0] == 0x02 && a.bytes[1] == 0x10 && a.bytes[2] == 0xd0 && a.bytes[3] == 0x8b
  {
    hide NibblesOf, Matches, Hex;
    ExampleMatches(a);
    EightNibbles(NibblesOf(a.bytes));
    FourBytes(a.bytes);
  }

  lemma {:induction false} FourBytes(bytes: seq<nat>)
    requires Bytes(bytes) && |bytes| == 16
    ensures var ns := NibblesOf(bytes);
            ns[0] == "0" && ns[1] == "2" && ns[2] == "1" && ns[3] == "0" && ns[4] == "d" && ns[5] == "0" && ns[6] == "8" && ns[7] == "b"
            <==> bytes[0] == 0x02 && bytes[1] == 0x10 && bytes[2] == 0xd0 && bytes[3] == 0x8b
  {
    hide NibblesOf, Hex, Nibble, Bytes;
    ExampleHex();
    ByteOf(bytes, 0, 0, 2);
    ByteOf(bytes, 1, 1, 0);
    ByteOf(bytes, 2, 13, 0);
    ByteOf(bytes, 3, 8, 11);
  }

  lemma EightNibbles(ns: seq<string>)
    requires |ns| >= 8
    ensures (forall k :: 0 <= k < 8 ==> ns[k] == EXAMPLE_NIBBLES[7 - k]) <==>
              ns[0] == "0" && ns[1] == "2" && ns[2] == "1" && ns[3] == "0" && ns[4] == "d" && ns[5] == "0" && ns[6] == "8" && ns[7] == "b"
  {
  }

  lemma {:induction false} JoinedLabelsInjective(a: IP, b: IP)
    requires a.V4? == b.V4? && Join(FullLabels(a), ".") == Join(FullLabels(b), ".")
    ensures a == b
  {
    hide FullLabels;
    JoinInjective(FullLabels(a), FullLabels(b), '.');
    FullLabelsInjective(a, b);
  }

  lemma SuffixCut(x: string, y: string, suffix: string)
    requires x + suffix == y + suffix
    ensures x == y
  {
    assert x == (x + suffix)[..|x|] && y == (y + suffix)[..|y|];
  }

  /** Within a zone two labels are equal iff the addresses are. */
  lemma {:induction false} LabelIdentifiesAddress(a: IP, b: IP, zones4: seq<string>, zones6: seq<string>)
    requires ReverseZones(zones4, V4_SUFFIX) && ReverseZones(zones6, V6_SUFFIX)
    requires Place(a, zones4, zones6).In? && Place(b, zones4, zones6).In?
    requires Place(a, zones4, zones6).zone == Place(b, zones4, zones6).zone
    ensures Place(a, zones4, zones6).ptrName == Place(b, zones4, zones6).ptrName <==> a == b
  {
    var p, q := Place(a, zones4, zones6), Place(b, zones4, zones6);
    PlacedInDeepestZone(a, zones4, zones6);
    PlacedInDeepestZone(b, zones4, zones6);
    SuffixTellsFamily(a, b, p.zone);
    if p.ptrName == q.ptrName {
      assert FullName(a) == FullName(b);
      SuffixCut(Join(FullLabels(a), "."), Join(FullLabels(b), "."), Suffix(a));
      JoinedLabelsInjective(a, b);
    }
  }

  lemma SuffixTellsFamily(a: IP, b: IP, zone: string)
    requires HasSuffix(zone, Suffix(a)) && HasSuffix(zone, Suffix(b))
    ensures a.V4? == b.V4?
  {
    if a.V4? != b.V4? {
      OneSuffix(zone);
    }
  }

  lemma OneSuffix(zone: string)
    ensures !(HasSuffix(zone, V4_SUFFIX) && HasSuffix(zone, V6_SUFFIX))
  {
    if HasSuffix(zone, V4_SUFFIX) {
      assert zone[|zone| - 13..][4] == V4_SUFFIX[4] == 'a';
      if |zone| >= 9 { assert zone[|zone| - 9..][0] == zone[|zone| - 9] == 'a'; }
    }
  }

  // ---- grouping records ------------------------------------------------------------------------------------------

  /** The configured zones; `parse` is net.ParseIP. */
  datatype Discoverer = Discoverer(zones4: seq<string>, zones6: seq<string>, parse: string -> Option<IP>)

  /** A record without a name, an alias, or one whose address is not of its family, has no PTR. */
  function PlaceRecord(d: Discoverer, r: IPRecord): Placed {
    if r.dnsName == "" || r.IsCNAME() || d.parse(r.address).None? then NoZone
    else
      var a := d.parse(r.address).value;
      if (r.family == 4 && a.V4?) || (r.family == 6 && a.V6?) then Place(a, d.zones4, d.zones6) else NoZone
  }

  predicate PlacedIn(d: Discoverer, zone: string, r: IPRecord) {
    PlaceRecord(d, r).In? && PlaceRecord(d, r).zone == zone
  }

  /** The PTR record of a record: its target keeps the name, its address becomes the label. */
  function PtrOf(d: Discoverer, r: IPRecord): IPRecord {
    var ptrName := if PlaceRecord(d, r).In? then PlaceRecord(d, r).ptrName else "";
    IPRecord(r.dnsName, ptrName, r.family, r.deviceName, r.interfaceName, r.vrf, 0, "", "", "", 0)
  }

  function PtrsIn(d: Discoverer, zone: string, records: seq<IPRecord>): seq<IPRecord> {
    Map((r: IPRecord) => PtrOf(d, r), Filter((r: IPRecord) => PlacedIn(d, zone, r), records))
  }

  ghost predicate Grouped(d: Discoverer, records: seq<IPRecord>, zones: ZoneMap) {
    && (forall z :: z in zones <==> PtrsIn(d, z, records) != [])
    && (forall z :: z in zones ==> zones[z] == PtrsIn(d, z, records))
  }

  lemma {:induction false} PtrsSnoc(d: Discoverer, zone: string, records: seq<IPRecord>, i: nat)
    requires i < |records|
    ensures PtrsIn(d, zone, records[..i + 1])
         == PtrsIn(d, zone, records[..i]) + if PlacedIn(d, zone, records[i]) then [PtrOf(d, records[i])] else []
  {
    var keep, f := (r: IPRecord) => PlacedIn(d, zone, r), (r: IPRecord) => PtrOf(d, r);
    FilterSnoc(keep, records, i);
    MapAppend(f, Filter(keep, records[..i]), [records[i]]);
    assert Map(f, [records[i]]) == [PtrOf(d, records[i])];
    assert PtrsIn(d, zone, records[..i]) + [] == PtrsIn(d, zone, records[..i]);
  }

  lemma {:induction false} GroupedSnoc(d: Discoverer, records: seq<IPRecord>, i: nat, zones: ZoneMap)
    requires i < |records| && Grouped(d, records[..i], zones)
    ensures var p := PlaceRecord(d, records[i]);
            Grouped(d, records[..i + 1],
                    if p.In? then zones[p.zone := AtZone(zones, p.zone) + [PtrOf(d, records[i])]] else zones)
  {
    hide PtrsIn, PtrOf, PlaceRecord;
    forall z ensures PtrsIn(d, z, records[..i + 1])
      == PtrsIn(d, z, records[..i]) + if PlacedIn(d, z, records[i]) then [PtrOf(d, records[i])] else []
    {
      PtrsSnoc(d, z, records, i);
    }
  }

  /** None for the panic of an IPv6 record under a zone with too many labels. */
  method Discover(d: Discoverer, records: seq<IPRecord>) returns (zones: Option<ZoneMap>)
    ensures zones.None? <==> exists r :: r in records && PlaceRecord(d, r).Panic?
    ensures zones.Some? ==> Grouped(d, records, zones.value)
  {
    hide Grouped, Place;
    var zm: ZoneMap := map[];
    NothingGrouped(d, records);
    var i := 0;
    while i < |records|
      invariant 0 <= i <= |records|
      invariant Grouped(d, records[..i], zm)
      invariant forall k :: 0 <= k < i ==> !PlaceRecord(d, records[k]).Panic?
    {
      var rec := records[i];
      GroupedSnoc(d, records, i, zm);
      i := i + 1;
      if rec.dnsName == "" || rec.IsCNAME() {
        continue;
      }
      var parsed := d.parse(rec.address);
      if parsed.None? {
        continue;
      }
      var placed := NoZone;
      if rec.family == 4 && parsed.value.V4? {
        placed := ReverseIPv4(parsed.value, d.zones4);
        PlaceOf(parsed.value, d);
      } else if rec.family == 6 && parsed.value.V6? {
        placed := ReverseIPv6(parsed.value, d.zones6);
        PlaceOf(parsed.value, d);
      }
      if placed.Panic? {
        assert rec in records && PlaceRecord(d, rec).Panic?;
        return None;
      }
      if placed.In? {
        var ptr := IPRecord(rec.dnsName, placed.ptrName, rec.family, rec.deviceName, rec.interfaceName, rec.vrf, 0, "", "", "", 0);
        zm := zm[placed.zone := AtZone(zm, placed.zone) + [ptr]];
      }
    }
    assert records[..i] == records;
    return Some(zm);
  }

  lemma PlaceOf(a: IP, d: Discoverer)
    ensures Place(a, d.zones4, d.zones6) == if a.V4? then PlaceV4(a, d.zones4) else PlaceV6(a, d.zones6)
  {
  }

  lemma NothingGrouped(d: Discoverer, records: seq<IPRecord>)
    ensures Grouped(d, records[..0], map[])
  {
  }

  /** The zones found do not depend on the order of the records, nor their contents except for order. */
  lemma {:induction false} PtrsIgnoreOrder(d: Discoverer, zone: string, a: seq<IPRecord>, b: seq<IPRecord>)
    requires multiset(a) == multiset(b)
    ensures multiset(PtrsIn(d, zone, a)) == multiset(PtrsIn(d, zone, b))
  {
    var keep, f := (r: IPRecord) => PlacedIn(d, zone, r), (r: IPRecord) => PtrOf(d, r);
    FilterPermutation(keep, a, b);
    MapPermutation(f, Filter(keep, a), Filter(keep, b));
  }

  /**
   * The PTR of a record in a zone, field by field: the record has a name, is no alias, has an address of its family, and the
   * zone is the configured one named after the most of the address's first numbers.
   */
  ghost predicate IsPtr(d: Discoverer, zone: string, r: IPRecord, p: IPRecord) {
    && r.dnsName != "" && r.rtype != "CNAME" && d.parse(r.address).Some?
    && var a := d.parse(r.address).value;
       && (if a.V4? then r.family == 4 else r.family == 6)
       && exists k: nat :: IsNetwork(a, ZonesFor(a, d.zones4, d.zones6), zone, k)
                           && p == IPRecord(r.dnsName, Backwards(a.V4?, Numbers(a)[k..]), r.family, r.deviceName, r.interfaceName, r.vrf,
                                            0, "", "", "", 0)
  }

  ghost predicate IsNetwork(a: IP, zones: seq<string>, zone: string, k: nat) {
    && 1 <= k <= |Numbers(a)| && zone == NetworkZone(a, k) && zone in zones
    && forall j :: k < j <= |Numbers(a)| ==> NetworkZone(a, j) !in zones
  }

  lemma {:induction false} PtrExactlyWhen(d: Discoverer, zone: string, r: IPRecord, p: IPRecord)
    requires ReverseZones(d.zones4, V4_SUFFIX) && ReverseZones(d.zones6, V6_SUFFIX) && !PlaceRecord(d, r).Panic?
    ensures PlacedIn(d, zone, r) && p == PtrOf(d, r) <==> IsPtr(d, zone, r, p)
  {
    hide Numbers, NetworkZone, Backwards, Place, ReverseZones;
    if r.dnsName != "" && !r.IsCNAME() && d.parse(r.address).Some? {
      var a := d.parse(r.address).value;
      if (r.family == 4 && a.V4?) || (r.family == 6 && a.V6?) {
        var zones := ZonesFor(a, d.zones4, d.zones6);
        PlacedByNumbers(a, d.zones4, d.zones6);
        if Place(a, d.zones4, d.zones6).In? {
          var k: nat :| 1 <= k <= |Numbers(a)|
                   && Place(a, d.zones4, d.zones6) == In(NetworkZone(a, k), Backwards(a.V4?, Numbers(a)[k..]))
                   && NetworkZone(a, k) in zones && forall j :: k < j <= |Numbers(a)| ==> NetworkZone(a, j) !in zones;
          assert IsNetwork(a, zones, NetworkZone(a, k), k);
          forall j: nat | IsNetwork(a, zones, zone, j) ensures j == k {}
        }
      }
    }
  }
}
