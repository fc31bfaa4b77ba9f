/**
 * Fetching zone files into a replica and swapping them in (coredns/plugins/netboxreload/fetch.go and plugin.go), from the
 * server of internal/zoneserver/server.go.
 */
module Plugin {
  import opened Wrappers
  import opened Strings
  import opened Sorting
  import opened ZoneDir
  import opened ZoneUrl
  import opened Records
  import opened Stamps
  import opened DnsZone
  import Decimal

  // ---- the server ------------------------------------------------------------------------------------------

  function Etag(H: Hash, content: string): string { "\"" + H.Of(content) + "\"" }

  /** A name the file handler answers for; the listing names every zone file, these or not. */
  predicate Servable(name: string) { HasPrefix(name, DB) && !Contains(name, "/") && !Contains(name, "..") }

  function ZoneFileNames(files: Files): set<string> { set f | f in files && Listed(f) }

  datatype Response = Response(status: nat, etag: string, body: string)

  /** The content's hash is the validator, compared for equality. */
  function Respond(H: Hash, files: Files, name: string, ifNoneMatch: string): Response {
    if !Servable(name) || name !in files then Response(404, "", "")
    else if ifNoneMatch != "" && ifNoneMatch == Etag(H, files[name]) then Response(304, Etag(H, files[name]), "")
    else Response(200, Etag(H, files[name]), files[name])
  }

  method ListZoneFiles(files: Files) returns (names: seq<string>)
    ensures IsListing(names, files)
  {
    names := SortedKeys(ZoneFileNames(files));
  }

  ghost predicate IsListing(names: seq<string>, files: Files) {
    SortedStrings(names) && Enumerates(names, ZoneFileNames(files))
  }

  // ---- parsing ------------------------------------------------------------------------------------------------

  /** The DNS library's reader of master files: the records of a text, given the origin. */
  datatype MasterReader = MasterReader(read: (string, string) -> Option<seq<RR>>)

  function OriginOf(filename: string): string { EnsureTrailingDot(TrimPrefix(filename, DB)) }

  function RecordsAt(rrs: seq<RR>, owner: string): seq<RR> { Filter((rr: RR) => Lower(rr.owner) == owner, rrs) }

  /** Records grouped by lower-case owner, in order. */
  function GroupByOwner(rrs: seq<RR>): map<string, seq<RR>> {
    map o | o in (set rr | rr in rrs :: Lower(rr.owner)) :: RecordsAt(rrs, o)
  }

  function Parse(reader: MasterReader, filename: string, content: string): Option<Zone> {
    var rrs := reader.read(OriginOf(filename), content);
    if !HasPrefix(filename, DB) || rrs.None? then None else Some(Zone(OriginOf(filename), GroupByOwner(rrs.value)))
  }

  lemma {:induction false} GroupAt(rrs: seq<RR>, o: string)
    ensures o in GroupByOwner(rrs) <==> RecordsAt(rrs, o) != []
    ensures o in GroupByOwner(rrs) ==> GroupByOwner(rrs)[o] == RecordsAt(rrs, o)
  {
    hide Lower;
    if RecordsAt(rrs, o) != [] { assert RecordsAt(rrs, o)[0] in rrs; }
    if rr :| rr in rrs && Lower(rr.owner) == o { assert rr in RecordsAt(rrs, o); }
  }

  lemma {:induction false} GroupSnoc(rrs: seq<RR>, i: nat)
    requires i < |rrs|
    ensures var o, before := Lower(rrs[i].owner), GroupByOwner(rrs[..i]);
            GroupByOwner(rrs[..i + 1]) == before[o := (if o in before then before[o] else []) + [rrs[i]]]
  {
    hide Lower, GroupByOwner;
    var o, before, after := Lower(rrs[i].owner), GroupByOwner(rrs[..i]), GroupByOwner(rrs[..i + 1]);
    forall p ensures (p in after <==> p in before || p == o)
      && (p in after ==> after[p] == if o == p then (if p in before then before[p] else []) + [rrs[i]] else before[p])
    {
      FilterSnoc((rr: RR) => Lower(rr.owner) == p, rrs, i);
      GroupAt(rrs[..i], p);
      GroupAt(rrs[..i + 1], p);
    }
    assert after.Keys == before.Keys + {o};
  }

  method ParseZoneContent(reader: MasterReader, filename: string, content: string) returns (z: Option<Zone>)
    ensures z == Parse(reader, filename, content)
  {
    hide GroupByOwner, OriginOf;
    if !HasPrefix(filename, DB) {
      return None;
    }
    var origin := OriginOf(filename);
    var rrs := reader.read(origin, content);
    if rrs.None? {
      return None;
    }
    var records: map<string, seq<RR>> := map[];
    NoGroups(rrs.value);
    var i := 0;
    while i < |rrs.value|
      invariant 0 <= i <= |rrs.value| && records == GroupByOwner(rrs.value[..i])
    {
      GroupSnoc(rrs.value, i);
      var name := Lower(rrs.value[i].owner);
      records := records[name := (if name in records then records[name] else []) + [rrs.value[i]]];
      i := i + 1;
    }
    assert rrs.value[..i] == rrs.value;
    return Some(Zone(origin, records));
  }

  lemma NoGroups(rrs: seq<RR>)
    ensures GroupByOwner(rrs[..0]) == map[]
  {
  }

  // ---- the cache -------------------------------------------------------------------------------------------------

  /** A zone as parsed once: reuse is told from a new parse by identity. */
  class LoadedZone {
    const zone: Zone

    constructor (zone: Zone)
      ensures this.zone == zone
    {
      this.zone := zone;
    }
  }

  datatype CachedZone = CachedZone(validator: string, z: LoadedZone)

  type Cache = map<string, CachedZone>

  /** The entry was parsed from a content that its validator names. */
  ghost predicate Honest(H: Hash, reader: MasterReader, known: set<string>, name: string, c: CachedZone) {
    exists content :: content in known && c.validator == Etag(H, content) && Parse(reader, name, content) == Some(c.z.zone)
  }

  ghost predicate HonestCache(H: Hash, reader: MasterReader, known: set<string>, cache: Cache) {
    forall name :: name in cache ==> Honest(H, reader, known, name, cache[name])
  }

  /** What a network fetch can meet: no listing, or files whose request fails. */
  datatype Network = Network(listing: bool, failing: set<string>)

  /** The content the server answers the request for a file with. */
  function Answered(files: Files, name: string): Option<string> {
    var asked := Requested(name);
    if asked.Some? && Servable(asked.value) && asked.value in files then Some(files[asked.value]) else None
  }

  /** The listed files as the requests for them are answered. */
  function Seen(files: Files, listing: seq<string>): Files {
    map n | n in listing && Answered(files, n).Some? :: Answered(files, n).value
  }

  predicate Fetchable(reader: MasterReader, files: Files, net: Network, name: string) {
    && name !in net.failing && Answered(files, name).Some?
    && Parse(reader, name, Answered(files, name).value).Some?
  }

  lemma {:induction false} SameEtag(H: Hash, known: set<string>, a: string, b: string)
    requires Separates(H, known) && a in known && b in known && Etag(H, a) == Etag(H, b)
    ensures a == b
  {
    assert H.Of(a) == Etag(H, a)[1..|Etag(H, a)| - 1];
    assert H.Of(b) == Etag(H, b)[1..|Etag(H, b)| - 1];
  }

  /** A conditional fetch answers what an unconditional one would. */
  lemma {:induction false} NotModifiedMeansSame(
      H: Hash, reader: MasterReader, known: set<string>, files: Files, name: string, asked: string, prev: CachedZone)
    requires Separates(H, known) && files.Values <= known && Honest(H, reader, known, name, prev)
    requires Respond(H, files, asked, prev.validator).status == 304
    ensures asked in files && Servable(asked) && Parse(reader, name, files[asked]) == Some(prev.z.zone)
    ensures prev.validator == Etag(H, files[asked])
  {
    hide Etag, Parse, Separates;
    var content :| content in known && prev.validator == Etag(H, content) && Parse(reader, name, content) == Some(prev.z.zone);
    SameEtag(H, known, content, files[asked]);
  }

  lemma EtagNotEmpty(H: Hash, content: string)
    ensures Etag(H, content) != ""
  {
  }

  method FetchZoneFile(H: Hash, reader: MasterReader, ghost known: set<string>, files: Files, net: Network, name: string, prev: Option<CachedZone>)
    returns (c: Option<CachedZone>)
    requires Separates(H, known) && files.Values <= known
    requires prev.Some? ==> Honest(H, reader, known, name, prev.value)
    ensures c.Some? <==> Fetchable(reader, files, net, name)
    ensures c.Some? ==> Parse(reader, name, Answered(files, name).value) == Some(c.value.z.zone) && Honest(H, reader, known, name, c.value)
    ensures c.Some? ==> c.value.validator == Etag(H, Answered(files, name).value)
    ensures c.Some? ==> if prev.Some? && prev.value.validator == c.value.validator then c.value.z == prev.value.z else fresh(c.value.z)
  {
    EtagNotEmpty(H, if Answered(files, name).Some? then Answered(files, name).value else "");
    hide Etag, Parse, Separates, Servable, Requested;
    var asked := Requested(name);
    if asked.None? || name in net.failing {
      return None;
    }
    var resp := Respond(H, files, asked.value, if prev.Some? then prev.value.validator else "");
    if resp.status == 304 {
      NotModifiedMeansSame(H, reader, known, files, name, asked.value, prev.value);
      return prev;
    }
    if resp.status != 200 {
      return None;
    }
    var parsed := ParseZoneContent(reader, name, resp.body);
    if parsed.None? {
      return None;
    }
    var z := new LoadedZone(parsed.value);
    return Some(CachedZone(resp.etag, z));
  }

  /** Zones by origin: of two files with one origin the later listed wins. */
  function Collect(names: seq<string>, cache: Cache): map<string, LoadedZone>
    requires forall n :: n in names ==> n in cache
  {
    if names == [] then map[]
    else
      var k := |names| - 1;
      assert names[k] in names;
      Collect(names[..k], cache)[cache[names[k]].z.zone.origin := cache[names[k]].z]
  }

  /** What a replica with an empty cache would serve: every listed file parsed. */
  function ParseAll(reader: MasterReader, files: Files, names: seq<string>): map<string, Zone>
    requires forall n :: n in names ==> n in files && Parse(reader, n, files[n]).Some?
  {
    if names == [] then map[]
    else
      var k := |names| - 1;
      assert names[k] in names;
      ParseAll(reader, files, names[..k])[OriginOf(names[k]) := Parse(reader, names[k], files[names[k]]).value]
  }

  function Values(zones: map<string, LoadedZone>): map<string, Zone> { map o | o in zones :: zones[o].zone }

  lemma {:induction false} CollectParses(reader: MasterReader, files: Files, names: seq<string>, cache: Cache)
    requires forall n :: n in names ==> n in cache && n in files && Parse(reader, n, files[n]) == Some(cache[n].z.zone)
    ensures Values(Collect(names, cache)) == ParseAll(reader, files, names)
  {
    hide OriginOf, GroupByOwner;
    if names != [] {
      var k := |names| - 1;
      CollectParses(reader, files, names[..k], cache);
      assert names[k] in names;
    }
  }

  /** A listed file whose origin no later file shares is what its origin is served from. */
  lemma {:induction false} ParseAllAt(reader: MasterReader, files: Files, names: seq<string>, i: nat)
    requires forall n :: n in names ==> n in files && Parse(reader, n, files[n]).Some?
    requires i < |names| && forall j :: i < j < |names| ==> OriginOf(names[j]) != OriginOf(names[i])
    ensures var zones := ParseAll(reader, files, names);
            OriginOf(names[i]) in zones && zones[OriginOf(names[i])] == Parse(reader, names[i], files[names[i]]).value
    decreases |names|
  {
    hide OriginOf, Parse;
    var k := |names| - 1;
    assert names[k] in names && names[i] in names;
    if i < k { ParseAllAt(reader, files, names[..k], i); }
  }

  lemma {:induction false} CollectSame(names: seq<string>, a: Cache, b: Cache)
    requires forall n :: n in names ==> n in a && n in b && a[n].z == b[n].z
    ensures Collect(names, a) == Collect(names, b)
  {
    if names != [] {
      var k := |names| - 1;
      CollectSame(names[..k], a, b);
      assert names[k] in names;
    }
  }

  /** A set has one sorted listing. */
  lemma {:induction false} ListingUnique(a: seq<string>, b: seq<string>)
    requires SortedStrings(a) && SortedStrings(b) && forall x :: x in a <==> x in b
    ensures a == b
    decreases |a|
  {
    if a == [] || b == [] {
      if a != [] { HasMember(a); }
      if b != [] { HasMember(b); }
    } else {
      LeastFirst(a, b);
      LeastFirst(b, a);
      LessTotal(a[0], b[0]);
      forall x ensures x in a[1..] <==> x in b[1..] {
        InTail(a, x);
        InTail(b, x);
      }
      ListingUnique(a[1..], b[1..]);
    }
  }

  lemma HasMember(a: seq<string>)
    requires a != []
    ensures exists x :: x in a
  {
    assert a[0] in a;
  }

  lemma LeastFirst(a: seq<string>, b: seq<string>)
    requires SortedStrings(a) && a != [] && b != [] && b[0] in a
    ensures !Less(b[0], a[0])
  {
    var i :| 0 <= i < |a| && a[i] == b[0];
    LessTotal(a[0], a[i]);
  }

  lemma InTail(a: seq<string>, x: string)
    requires SortedStrings(a) && a != []
    ensures x in a[1..] <==> x in a && x != a[0]
  {
    if x in a[1..] {
      var i :| 0 <= i < |a[1..]| && a[1..][i] == x;
      LessTotal(a[0], a[i + 1]);
    }
    if x in a && x != a[0] {
      var i :| 0 <= i < |a| && a[i] == x;
      assert a[1..][i - 1] == x;
    }
  }

  // ---- the plugin ---------------------------------------------------------------------------------------------------

  class Plugin {
    var fileCache: Cache
    var zones: map<string, LoadedZone>
    ghost var names: seq<string>

    /** The served zones are those of the cached files. */
    ghost predicate Valid()
      reads this
    {
      && SortedStrings(names) && Enumerates(names, fileCache.Keys)
      && (forall n :: n in names ==> n in fileCache)
      && zones == Collect(names, fileCache)
    }

    ghost function Served(): map<string, Zone>
      reads this
    {
      Values(zones)
    }

    constructor ()
      ensures Valid() && fileCache == map[] && Served() == map[]
    {
      fileCache, zones, names := map[], map[], [];
    }

    /**
     * Fetch every listed file and swap the zones in, if all of it succeeds; otherwise nothing is touched. Whatever the
     * cache, the replica then serves what it would with an empty one.
     */
    method ReloadZones(H: Hash, reader: MasterReader, ghost known: set<string>, files: Files, net: Network)
      returns (ok: bool, changed: bool, ghost listing: seq<string>)
      requires Valid() && HonestCache(H, reader, known, fileCache)
      requires Separates(H, known) && files.Values <= known
      modifies this
      ensures Valid() && HonestCache(H, reader, known, fileCache)
      ensures IsListing(listing, files)
      ensures ok <==> net.listing && forall n :: n in listing ==> Fetchable(reader, files, net, n)
      ensures !ok ==> zones == old(zones) && fileCache == old(fileCache) && !changed
      ensures var seen := Seen(files, listing);
              ok ==> (forall n :: n in listing ==> n in seen && Parse(reader, n, seen[n]).Some?) && Served() == ParseAll(reader, seen, listing)
      ensures ok && !changed ==> zones == old(zones)
      ensures ok ==> forall n :: n in fileCache <==> n in listing
      ensures var seen := Seen(files, listing);
              ok ==> (changed <==> !(old(fileCache).Keys == fileCache.Keys
                                     && forall n :: n in listing ==> old(fileCache)[n].validator == Etag(H, seen[n])))
    {
      hide Separates, HonestCache, Parse, IsListing, Fetchable, Collect, Answered, Etag, SortedStrings, Enumerates, ParseAll, Values,
           Seen;
      ok, changed := false, false;
      var list := ListZoneFiles(files);
      listing := list;
      if !net.listing {
        return;
      }
      SortedListing(list, files);
      var newZones, newCache, fetched := FetchZones(H, reader, known, files, net, list, fileCache);
      if !fetched {
        return;
      }
      FetchedParse(reader, files, list, net);
      ListingCovers(list, files, newCache.Keys);
      Validators(H, files, list, newCache);
      CollectParses(reader, Seen(files, list), list, newCache);
      changed := Differs(newCache, fileCache);
      if !changed {
        SameCollection(names, list, fileCache, newCache);
      }
      fileCache, names := newCache, list;
      if changed {
        zones := newZones;
      }
      ok := true;
    }

    /** A transfer of a served zone by its name, dotted or not; None for a zone this replica is not authoritative for. */
    method TransferZone(H: Hash, reader: MasterReader, ghost known: set<string>, name: string, serial: nat)
      returns (batches: Option<seq<seq<RR>>>)
      requires Valid() && HonestCache(H, reader, known, fileCache)
      ensures batches.Some? <==> EnsureTrailingDot(name) in Served()
      ensures batches.Some? ==> IsTransfer(Served()[EnsureTrailingDot(name)], serial, batches.value)
    {
      hide IsTransfer, HonestCache, Keyed, Collect;
      if EnsureTrailingDot(name) !in zones {
        return None;
      }
      CollectedAreKeyed(H, reader, known, names, fileCache);
      var sent := Transfer(zones[EnsureTrailingDot(name)].zone, serial);
      return Some(sent);
    }
  }

  lemma FetchedParse(reader: MasterReader, files: Files, list: seq<string>, net: Network)
    ensures forall n :: Fetchable(reader, files, net, n) ==>
              Answered(files, n).Some? && Parse(reader, n, Answered(files, n).value).Some?
  {
  }

  lemma Validators(H: Hash, files: Files, list: seq<string>, cache: Cache)
    requires forall n :: n in list ==> n in cache && Answered(files, n).Some? && cache[n].validator == Etag(H, Answered(files, n).value)
    ensures forall n :: n in list ==>
              && n in Seen(files, list) && Seen(files, list)[n] == Answered(files, n).value
              && cache[n].validator == Etag(H, Seen(files, list)[n])
  {
    hide Answered, Etag;
  }

  lemma ListingCovers(list: seq<string>, files: Files, keys: set<string>)
    requires IsListing(list, files) && forall n :: n in keys <==> n in list
    ensures SortedStrings(list) && Enumerates(list, keys) && forall n :: n in list ==> HasPrefix(n, DB)
  {
  }

  lemma SameCollection(names: seq<string>, list: seq<string>, a: Cache, b: Cache)
    requires SortedStrings(names) && Enumerates(names, a.Keys) && SortedStrings(list) && Enumerates(list, b.Keys)
    requires a.Keys == b.Keys && forall n :: n in b ==> b[n].z == a[n].z
    ensures forall n :: n in names ==> n in a
    ensures forall n :: n in list ==> n in b
    ensures Collect(names, a) == Collect(list, b)
  {
    hide SortedStrings, Collect;
    Members(names, a.Keys);
    Members(list, b.Keys);
    ListingUnique(names, list);
    CollectSame(names, a, b);
  }

  lemma NoneCollected()
    ensures Collect([], map[]) == map[]
  {
  }

  lemma SortedListing(list: seq<string>, files: Files)
    requires IsListing(list, files)
    ensures SortedStrings(list)
  {
  }

  lemma CollectMore(names: seq<string>, cache: Cache, name: string, c: CachedZone)
    requires (forall n :: n in names ==> n in cache) && name !in names
    ensures forall n :: n in names + [name] ==> n in cache[name := c]
    ensures Collect(names + [name], cache[name := c]) == Collect(names, cache)[c.z.zone.origin := c.z]
  {
    assert (names + [name])[..|names|] == names;
    CollectSame(names, cache, cache[name := c]);
  }

  lemma NotListedYet(list: seq<string>, i: nat)
    requires SortedStrings(list) && i < |list|
    ensures list[i] !in list[..i] && list[..i + 1] == list[..i] + [list[i]]
  {
    if list[i] in list[..i] {
      var j :| 0 <= j < i && list[j] == list[i];
      LessTotal(list[j], list[i]);
    }
  }

  /** An entry was added, removed or parsed anew; entries are compared by identity, and missing ones by counting. */
  method Differs(newCache: Cache, oldCache: Cache) returns (changed: bool)
    ensures !changed <==> newCache.Keys == oldCache.Keys && forall n :: n in newCache ==> newCache[n].z == oldCache[n].z
  {
    changed := |newCache| != |oldCache|;
    var todo := newCache.Keys;
    if changed {
      return;
    }
    while todo != {}
      invariant todo <= newCache.Keys
      invariant forall n :: n in newCache.Keys - todo ==> n in oldCache && oldCache[n].z == newCache[n].z
      decreases |todo|
    {
      var name :| name in todo;
      if name !in oldCache || oldCache[name].z != newCache[name].z {
        return true;
      }
      todo := todo - {name};
    }
    SameSize(newCache.Keys, oldCache.Keys);
  }

  lemma SameSize<T>(a: set<T>, b: set<T>)
    requires a <= b && |a| == |b|
    ensures a == b
  {
    assert a + (b - a) == b;
    assert |a| + |b - a| == |b|;
  }

  method FetchZones(H: Hash, reader: MasterReader, ghost known: set<string>, files: Files, net: Network, list: seq<string>, prev: Cache)
    returns (zones: map<string, LoadedZone>, cache: Cache, ok: bool)
    requires Separates(H, known) && files.Values <= known && HonestCache(H, reader, known, prev)
    requires SortedStrings(list)
    ensures ok <==> forall n :: n in list ==> Fetchable(reader, files, net, n)
    ensures ok ==> HonestCache(H, reader, known, cache) && (forall n :: n in cache <==> n in list)
    ensures ok ==> forall n :: n in list ==> Answered(files, n).Some? && Parse(reader, n, Answered(files, n).value) == Some(cache[n].z.zone)
    ensures ok ==> zones == Collect(list, cache)
    ensures ok ==> forall n :: n in list ==> cache[n].validator == Etag(H, Answered(files, n).value)
    ensures ok ==> forall n :: n in list && n in prev ==> (cache[n].z == prev[n].z <==> prev[n].validator == cache[n].validator)
  {
    hide Separates, Parse, Honest, Fetchable, SortedStrings, Collect, Answered, Etag;
    FetchedParse(reader, files, list, net);
    assert list[..0] == [];
    NoneCollected();
    zones, cache, ok := map[], map[], false;
    var i := 0;
    while i < |list|
      invariant 0 <= i <= |list|
      invariant forall n :: n in list[..i] ==> Fetchable(reader, files, net, n)
      invariant HonestCache(H, reader, known, cache) && (forall n :: n in cache <==> n in list[..i])
      invariant forall n :: n in list[..i] ==> Answered(files, n).Some? && Parse(reader, n, Answered(files, n).value) == Some(cache[n].z.zone)
      invariant zones == Collect(list[..i], cache)
      invariant forall n :: n in list[..i] ==> cache[n].validator == Etag(H, Answered(files, n).value)
      invariant forall n :: n in list[..i] && n in prev ==> (cache[n].z == prev[n].z <==> prev[n].validator == cache[n].validator)
    {
      var name := list[i];
      NotListedYet(list, i);
      var c := FetchZoneFile(H, reader, known, files, net, name, if name in prev then Some(prev[name]) else None);
      if c.None? {
        return;
      }
      CollectMore(list[..i], cache, name, c.value);
      zones := zones[c.value.z.zone.origin := c.value.z];
      cache := cache[name := c.value];
      i := i + 1;
    }
    assert list[..i] == list;
    ok := true;
  }

  // ---- names no replica can fetch ---------------------------------------------------------------------------------

  lemma DotDot(zone: string)
    ensures Contains("." + zone, "..") <==> HasPrefix(zone, ".") || Contains(zone, "..")
  {
    assert ("." + zone)[1..] == zone;
    if HasPrefix("." + zone, "..") { assert zone[0] == ("." + zone)[..2][1]; }
    if HasPrefix(zone, ".") { assert ("." + zone)[..2] == ".."; }
  }

  lemma PrefixHead(s: string, sub: string)
    requires s != "" && sub != ""
    ensures HasPrefix(s, sub) ==> s[0] == sub[0]
  {
    if HasPrefix(s, sub) { assert s[..|sub|][0] == s[0]; }
  }

  lemma SkipOne(c: char, s: string, sub: string)
    requires sub != "" && c != sub[0]
    ensures Contains([c] + s, sub) <==> Contains(s, sub)
  {
    assert ([c] + s)[1..] == s;
    PrefixHead([c] + s, sub);
  }

  lemma AfterDB(zone: string, sub: string)
    requires sub == ".." || sub == "/"
    ensures Contains(DB + zone, sub) <==> Contains("." + zone, sub)
  {
    hide Contains;
    assert DB + zone == ['d'] + (['b'] + ("." + zone));
    SkipOne('d', ['b'] + ("." + zone), sub);
    SkipOne('b', "." + zone, sub);
  }

  /**
   * The server lists every zone file but answers only for names without a slash or two dots together, so a zone name
   * with an empty label makes a file that is listed and never served.
   */
  lemma ServableExactlyWhen(zone: string)
    ensures Servable(DB + zone) <==> !HasPrefix(zone, ".") && !Contains(zone, "..") && !Contains(zone, "/")
  {
    hide Contains;
    assert HasPrefix(DB + zone, DB);
    AfterDB(zone, "..");
    AfterDB(zone, "/");
    DotDot(zone);
    SkipOne('.', zone, "/");
  }

  /** The request for a file is for the file itself, and the server answers it. */
  predicate AnsweredAsItself(name: string) { Requested(name) == Some(name) && Servable(name) }

  /**
   * Every listed file is asked for by its own name and answered exactly when no listed zone name begins with a dot, has two
   * together, or holds a character with a meaning in a URL. What a replica then sees is the directory itself.
   */
  lemma {:induction false} ListingServableExactlyWhen(files: Files, listing: seq<string>)
    requires IsListing(listing, files)
    ensures (forall n :: n in listing ==> AnsweredAsItself(n)) <==>
              forall z :: FileName(z) in files && Flat(z) ==> !HasPrefix(z, ".") && !Contains(z, "..") && PlainInUrl(z)
    ensures (forall n :: n in listing ==> AnsweredAsItself(n)) ==>
              Seen(files, listing) == map n | n in listing && n in files :: files[n]
  {
    hide Servable, Contains, HasPrefix, FileName, Flat, PlainInUrl, Requested, Listed;
    InListing(files, listing);
    forall z | Flat(z) ensures AnsweredAsItself(FileName(z)) <==> !HasPrefix(z, ".") && !Contains(z, "..") && PlainInUrl(z) {
      ServableExactlyWhen(z);
      NoSlash(z);
      ListedName(z);
      AsksForItselfExactlyWhen(FileName(z));
      PlainFile(z);
    }
  }

  lemma PlainFile(zone: string)
    ensures PlainInUrl(FileName(zone)) <==> PlainInUrl(zone)
  {
    assert forall c :: c in FileName(zone) <==> c in DB || c in zone;
  }

  lemma ListedName(zone: string)
    ensures FileName(zone) == DB + zone
  {
  }

  lemma InListing(files: Files, listing: seq<string>)
    requires IsListing(listing, files)
    ensures forall n :: n in listing ==> n in files && Listed(n) && FileName(ZoneOfFile(n)) == n && Flat(ZoneOfFile(n))
    ensures forall z :: FileName(z) in files && Flat(z) ==> FileName(z) in listing
  {
    hide FileName, Listed, Flat, ZoneOfFile, IsZonePath;
    NamesAreFiles();
  }

  lemma {:induction false} NoSlash(zone: string)
    requires Flat(zone)
    ensures !Contains(zone, "/")
  {
    if zone != "" {
      assert forall c :: c in zone[1..] ==> c in zone;
      NoSlash(zone[1..]);
      PrefixHead(zone, "/");
      assert zone[0] in zone;
    }
  }

  /** A name with a leading dot or two together, and no reload succeeds on any replica, whatever the network and the cache. */
  lemma UnservableFileBlocksReload(reader: MasterReader, files: Files, net: Network, listing: seq<string>, zone: string)
    requires IsListing(listing, files) && FileName(zone) in files && Flat(zone)
    requires PlainInUrl(zone) && (HasPrefix(zone, ".") || Contains(zone, ".."))
    ensures !(forall n :: n in listing ==> Fetchable(reader, files, net, n))
  {
    hide Contains, Requested, PlainInUrl, Parse;
    ServableExactlyWhen(zone);
    InListing(files, listing);
    PlainFile(zone);
    AsksForItselfExactlyWhen(FileName(zone));
    assert !Fetchable(reader, files, net, FileName(zone));
  }

  /**
   * A zone name with a question mark or a hash is fetched under the name before it: the replica parses the other zone's file
   * for it, or, where there is none, no reload succeeds.
   */
  lemma {:induction false} CutNameServesAnother(
      reader: MasterReader, files: Files, net: Network, listing: seq<string>, a: string, sep: char, b: string)
    requires sep == '?' || sep == '#'
    requires PlainInUrl(a) && PlainInUrl(b) && ' ' !in b && Flat(a) && !HasPrefix(a, ".") && !Contains(a, "..")
    requires var name := FileName(a + [sep] + b); IsListing(listing, files) && name in listing
    ensures var name := FileName(a + [sep] + b);
            if FileName(a) in files then name in Seen(files, listing) && Seen(files, listing)[name] == files[FileName(a)]
            else !(forall n :: n in listing ==> Fetchable(reader, files, net, n))
  {
    hide Contains, Requested, PlainInUrl, Parse, Servable;
    var name := FileName(a + [sep] + b);
    ServableExactlyWhen(a);
    NoSlash(a);
    PlainFile(a);
    AsksForPrefix(FileName(a), b);
    assert name == FileName(a) + [sep] + b;
    assert Requested(name) == Some(FileName(a));
    if FileName(a) !in files { assert !Fetchable(reader, files, net, name); }
  }

  // ---- the zone of a query ----------------------------------------------------------------------------------------

  /** Walking up the labels of a name. */
  function FindFrom(origins: set<string>, n: string): (o: Option<string>)
    ensures o.Some? ==> o.value in origins
    decreases |n|
  {
    if n in origins then Some(n)
    else if '.' !in n || Index(n, '.') == |n| - 1 then None
    else FindFrom(origins, n[Index(n, '.') + 1..])
  }

  method FindZone(zones: map<string, LoadedZone>, name: string) returns (z: Option<LoadedZone>)
    ensures var o := FindFrom(zones.Keys, name);
            z == if o.Some? then Some(zones[o.value]) else None
  {
    FoundIsThere(zones.Keys, name);
    var n := name;
    while true
      invariant FindFrom(zones.Keys, n) == FindFrom(zones.Keys, name)
      decreases |n|
    {
      if n in zones {
        return Some(zones[n]);
      }
      if '.' !in n || Index(n, '.') == |n| - 1 {
        return None;
      }
      n := n[Index(n, '.') + 1..];
    }
  }

  lemma {:induction false} FoundIsThere(origins: set<string>, n: string)
    ensures FindFrom(origins, n).Some? ==> FindFrom(origins, n).value in origins && InZone(n, FindFrom(origins, n).value)
    decreases |n|
  {
    if n !in origins && '.' in n && Index(n, '.') != |n| - 1 {
      var rest := n[Index(n, '.') + 1..];
      FoundIsThere(origins, rest);
      if FindFrom(origins, rest).Some? {
        var o := FindFrom(origins, rest).value;
        DeeperInZone(n, Index(n, '.'), o);
      }
    }
  }

  /** The name is the origin or below it. */
  predicate InZone(name: string, origin: string) { name == origin || HasSuffix(name, "." + origin) }

  lemma DeeperInZone(n: string, i: nat, origin: string)
    requires i < |n| && n[i] == '.' && InZone(n[i + 1..], origin)
    ensures InZone(n, origin)
  {
    var rest := n[i + 1..];
    if rest == origin {
      assert n[i..] == "." + origin;
    } else {
      assert n[|n| - |origin| - 1..] == rest[|rest| - |origin| - 1..];
    }
  }

  lemma {:induction false} IndexLeast(s: string, c: char, p: nat)
    requires p < |s| && s[p] == c
    ensures Index(s, c) <= p
  {
    if s[0] != c { IndexLeast(s[1..], c, p - 1); }
  }

  /** A query is answered from the deepest zone it is in, and from none only if it is in none. */
  lemma {:induction false} FindsDeepest(origins: set<string>, name: string, origin: string)
    requires origin in origins && origin != "" && InZone(name, origin)
    ensures FindFrom(origins, name).Some?
    ensures InZone(name, FindFrom(origins, name).value) && |FindFrom(origins, name).value| >= |origin|
    decreases |name|
  {
    FoundIsThere(origins, name);
    if name !in origins {
      var p := |name| - |origin| - 1;
      assert name[p..] == "." + origin;
      assert name[p] == '.' && name[p + 1..] == origin;
      var i := Index(name, '.');
      IndexLeast(name, '.', p);
      var rest := name[i + 1..];
      if i == p {
        assert rest == origin;
      } else {
        assert rest[|rest| - |origin| - 1..] == name[p..];
      }
      FindsDeepest(origins, rest, origin);
    }
  }

  // ---- zone transfer -----------------------------------------------------------------------------------------------

  const SOA := "SOA"

  function FirstSOA(rrs: seq<RR>): (soa: Option<RR>)
    ensures soa.Some? ==> soa.value in rrs && soa.value.rtype == SOA
    ensures soa.None? ==> forall rr :: rr in rrs ==> rr.rtype != SOA
  {
    if rrs == [] then None else if rrs[0].rtype == SOA then Some(rrs[0]) else FirstSOA(rrs[1..])
  }

  /** The serial of the zone, if there is an SOA record at its apex. */
  function SerialOf(z: Zone): Option<nat> {
    var soa := FirstSOA(At(z, z.origin));
    if soa.Some? && |soa.value.rdata| >= 3 then Decimal.ParseUint32(soa.value.rdata[2]) else None
  }

  function Flatten(batches: seq<seq<RR>>): seq<RR> {
    if batches == [] then [] else Flatten(batches[..|batches| - 1]) + batches[|batches| - 1]
  }

  predicate NotSOA(rr: RR) { rr.rtype != SOA }

  /** Every record is kept under its own lower-case owner. */
  ghost predicate Keyed(z: Zone) { forall o, rr :: o in z.records && rr in z.records[o] ==> Lower(rr.owner) == o }

  /** How often a record is in the zone, SOA records aside. */
  function Held(z: Zone, rr: RR): nat { if NotSOA(rr) then multiset(At(z, Lower(rr.owner)))[rr] else 0 }

  lemma {:induction false} FlattenSnoc(batches: seq<seq<RR>>, b: seq<RR>)
    ensures Flatten(batches + [b]) == Flatten(batches) + b
  {
    assert (batches + [b])[..|batches|] == batches;
  }

  /**
   * AXFR: the SOA record, every other record of the zone exactly as often as the zone holds it, and the SOA record
   * again; only the SOA record to a client that has the serial, nothing from a zone without one.
   */
  ghost predicate IsTransfer(z: Zone, serial: nat, batches: seq<seq<RR>>) {
    var soa := FirstSOA(At(z, z.origin));
    if soa.None? then batches == []
    else if serial != 0 && SerialOf(z) == Some(serial) then batches == [[soa.value]]
    else
      && |batches| >= 2 && batches[0] == [soa.value] && batches[|batches| - 1] == [soa.value]
      && (forall rr :: multiset(Flatten(batches[1..|batches| - 1]))[rr] == Held(z, rr))
      && (forall b :: b in batches ==> b != [])
  }

  method Transfer(z: Zone, serial: nat) returns (batches: seq<seq<RR>>)
    requires Keyed(z)
    ensures IsTransfer(z, serial, batches)
  {
    var soa := FirstSOA(At(z, z.origin));
    if soa.None? {
      return [];
    }
    if serial != 0 && SerialOf(z) == Some(serial) {
      return [[soa.value]];
    }
    var middle := SendRecords(z);
    batches := [[soa.value]] + middle + [[soa.value]];
    assert batches[1..|batches| - 1] == middle;
  }

  ghost predicate Sent(z: Zone, done: set<string>, batches: seq<seq<RR>>) {
    && (forall rr :: multiset(Flatten(batches))[rr] == if Lower(rr.owner) in done then Held(z, rr) else 0)
    && (forall b :: b in batches ==> b != [])
  }

  lemma {:induction false} OneRecordSent(z: Zone, done: set<string>, owner: string, batch: seq<RR>, rr: RR)
    requires Keyed(z) && owner in z.records && owner !in done && batch == Filter(NotSOA, z.records[owner])
    ensures (if Lower(rr.owner) in done then Held(z, rr) else 0) + multiset(batch)[rr]
         == if Lower(rr.owner) in done + {owner} then Held(z, rr) else 0
  {
    hide Lower, Filter;
    FilterMultiset(NotSOA, z.records[owner], rr);
    if Lower(rr.owner) != owner {
      assert rr !in z.records[owner];
    }
  }

  lemma {:induction false} OneMoreSent(z: Zone, done: set<string>, batches: seq<seq<RR>>, owner: string)
    requires Keyed(z) && Sent(z, done, batches) && owner in z.records && owner !in done
    ensures var batch := Filter(NotSOA, z.records[owner]);
            Sent(z, done + {owner}, if batch == [] then batches else batches + [batch])
  {
    hide Lower, Filter, Held, Keyed, Flatten;
    var batch := Filter(NotSOA, z.records[owner]);
    FlattenSnoc(batches, batch);
    var out := if batch == [] then batches else batches + [batch];
    assert batch == [] ==> Flatten(batches) + batch == Flatten(batches);
    forall rr ensures multiset(Flatten(out))[rr] == if Lower(rr.owner) in done + {owner} then Held(z, rr) else 0 {
      CountAppend(Flatten(batches), batch, rr);
      OneRecordSent(z, done, owner, batch, rr);
    }
  }

  lemma CountAppend(a: seq<RR>, b: seq<RR>, rr: RR)
    ensures multiset(a + b)[rr] == multiset(a)[rr] + multiset(b)[rr]
  {
  }

  method SendRecords(z: Zone) returns (batches: seq<seq<RR>>)
    requires Keyed(z)
    ensures forall rr :: multiset(Flatten(batches))[rr] == Held(z, rr)
    ensures forall b :: b in batches ==> b != []
  {
    hide Sent, Held, Keyed;
    batches := [];
    var todo := z.records.Keys;
    ghost var done: set<string> := {};
    NoneSent(z);
    while todo != {}
      invariant todo + done == z.records.Keys && todo !! done && Sent(z, done, batches)
      decreases |todo|
    {
      var owner :| owner in todo;
      OneMoreSent(z, done, batches, owner);
      var batch := NonSOA(z.records[owner]);
      if |batch| > 0 {
        batches := batches + [batch];
      }
      todo, done := todo - {owner}, done + {owner};
    }
    assert done == z.records.Keys;
    AllSent(z, batches);
  }

  method NonSOA(rrset: seq<RR>) returns (batch: seq<RR>)
    ensures batch == Filter(NotSOA, rrset)
  {
    batch := [];
    var i := 0;
    while i < |rrset|
      invariant 0 <= i <= |rrset| && batch == Filter(NotSOA, rrset[..i])
    {
      FilterSnoc(NotSOA, rrset, i);
      if rrset[i].rtype != SOA {
        batch := batch + [rrset[i]];
      }
      i := i + 1;
    }
    assert rrset[..i] == rrset;
  }

  lemma NoneSent(z: Zone)
    ensures Sent(z, {}, [])
  {
  }

  lemma AllSent(z: Zone, batches: seq<seq<RR>>)
    requires Sent(z, z.records.Keys, batches)
    ensures forall rr :: multiset(Flatten(batches))[rr] == Held(z, rr)
    ensures forall b :: b in batches ==> b != []
  {
  }

  /** A parsed zone keeps its records under their owners. */
  lemma ParsedIsKeyed(reader: MasterReader, filename: string, content: string)
    ensures Parse(reader, filename, content).Some? ==> Keyed(Parse(reader, filename, content).value)
  {
    hide Lower, OriginOf;
  }

  /** So does every zone of a cache filled by parsing, and every zone served from it. */
  lemma {:induction false} CollectedAreKeyed(H: Hash, reader: MasterReader, known: set<string>, names: seq<string>, cache: Cache)
    requires HonestCache(H, reader, known, cache) && forall n :: n in names ==> n in cache
    ensures forall o :: o in Collect(names, cache) ==> Keyed(Collect(names, cache)[o].zone)
  {
    hide Keyed, Parse, Etag;
    if names != [] {
      var k := |names| - 1;
      CollectedAreKeyed(H, reader, known, names[..k], cache);
      assert names[k] in names;
      var content :| content in known && Parse(reader, names[k], content) == Some(cache[names[k]].z.zone);
      ParsedIsKeyed(reader, names[k], content);
    }
  }

  // ---- notification ---------------------------------------------------------------------------------------------------

  /** A secondary is told of a zone that has a serial, unless the zone was served before with the same one. */
  predicate NeedsNotify(previous: map<string, Zone>, current: map<string, Zone>, origin: string) {
    origin in current && SerialOf(current[origin]).Some?
    && (origin in previous ==> SerialOf(previous[origin]) != SerialOf(current[origin]))
  }

  method SerialChangedZones(previous: map<string, Zone>, current: map<string, Zone>) returns (changed: seq<string>)
    ensures SortedStrings(changed) && forall o :: o in changed <==> NeedsNotify(previous, current, o)
  {
    hide SerialOf;
    var found: set<string> := {};
    var todo := current.Keys;
    while todo != {}
      invariant todo <= current.Keys
      invariant forall o :: o in found <==> o in current.Keys - todo && NeedsNotify(previous, current, o)
      decreases |todo|
    {
      var origin :| origin in todo;
      todo := todo - {origin};
      var now := SerialOf(current[origin]);
      if now.None? {
        continue;
      }
      if origin !in previous {
        found := found + {origin};
        continue;
      }
      var before := SerialOf(previous[origin]);
      if before.None? || before != now {
        found := found + {origin};
      }
    }
    changed := SortedKeys(found);
  }
}
