/** The order zone emission and hashing share (recordLess in internal/zonegen/generator.go). */
module RecordOrder {
  import opened Records
  import Strings

  predicate RecordLess(a: IPRecord, b: IPRecord) {
    if a.dnsName != b.dnsName then Strings.Less(a.dnsName, b.dnsName)
    else if a.address != b.address then Strings.Less(a.address, b.address)
    else if a.family != b.family then a.family < b.family
    else if a.rtype != b.rtype then Strings.Less(a.rtype, b.rtype)
    else if a.cnameTarget != b.cnameTarget then Strings.Less(a.cnameTarget, b.cnameTarget)
    else if a.deviceName != b.deviceName then Strings.Less(a.deviceName, b.deviceName)
    else if a.interfaceName != b.interfaceName then Strings.Less(a.interfaceName, b.interfaceName)
    else if a.vrf != b.vrf then Strings.Less(a.vrf, b.vrf)
    else a.ttl < b.ttl
  }

  /** The order is total on what zone generation sees: only records alike in every visible field are unordered. */
  lemma OrderIsTotal(a: IPRecord, b: IPRecord)
    ensures a.Visible() == b.Visible() <==> !RecordLess(a, b) && !RecordLess(b, a)
    ensures !(RecordLess(a, b) && RecordLess(b, a))
  {
    Strings.LessTotal(a.dnsName, b.dnsName);
    Strings.LessTotal(a.address, b.address);
    Strings.LessTotal(a.rtype, b.rtype);
    Strings.LessTotal(a.cnameTarget, b.cnameTarget);
    Strings.LessTotal(a.deviceName, b.deviceName);
    Strings.LessTotal(a.interfaceName, b.interfaceName);
    Strings.LessTotal(a.vrf, b.vrf);
  }

  lemma LessOrSame(a: string, b: string, c: string)
    ensures Strings.Less(a, b) && Strings.Less(b, c) ==> Strings.Less(a, c)
    ensures a == b <==> !Strings.Less(a, b) && !Strings.Less(b, a)
    ensures !(Strings.Less(a, b) && Strings.Less(b, a))
  {
    Strings.LessTotal(a, b);
    if Strings.Less(a, b) && Strings.Less(b, c) { Strings.LessTransitive(a, b, c); }
  }

  lemma OrderIsTransitive(a: IPRecord, b: IPRecord, c: IPRecord)
    requires RecordLess(a, b) && RecordLess(b, c)
    ensures RecordLess(a, c)
  {
    LessOrSame(a.dnsName, b.dnsName, c.dnsName);
    LessOrSame(a.address, b.address, c.address);
    LessOrSame(a.rtype, b.rtype, c.rtype);
    LessOrSame(a.cnameTarget, b.cnameTarget, c.cnameTarget);
    LessOrSame(a.deviceName, b.deviceName, c.deviceName);
    LessOrSame(a.interfaceName, b.interfaceName, c.interfaceName);
    LessOrSame(a.vrf, b.vrf, c.vrf);
    LessOrSame(b.dnsName, c.dnsName, a.dnsName);
    LessOrSame(b.address, c.address, a.address);
    LessOrSame(b.rtype, c.rtype, a.rtype);
    LessOrSame(b.cnameTarget, c.cnameTarget, a.cnameTarget);
    LessOrSame(b.deviceName, c.deviceName, a.deviceName);
    LessOrSame(b.interfaceName, c.interfaceName, a.interfaceName);
    LessOrSame(b.vrf, c.vrf, a.vrf);
  }

  ghost predicate Ordered(rs: seq<IPRecord>) {
    forall i, j :: 0 <= i < j < |rs| ==> !RecordLess(rs[j], rs[i])
  }

  ghost predicate IsSorting(sorted: seq<IPRecord>, rs: seq<IPRecord>) {
    multiset(sorted) == multiset(rs) && Ordered(sorted)
  }

  /** A sorted zone goes by name, and within a name by address. */
  lemma {:induction false} SortedByName(sorted: seq<IPRecord>, i: nat, j: nat)
    requires Ordered(sorted) && i < j < |sorted|
    ensures sorted[i].dnsName == sorted[j].dnsName || Strings.Less(sorted[i].dnsName, sorted[j].dnsName)
    ensures sorted[i].dnsName == sorted[j].dnsName ==>
              sorted[i].address == sorted[j].address || Strings.Less(sorted[i].address, sorted[j].address)
  {
    Strings.LessTotal(sorted[i].dnsName, sorted[j].dnsName);
    Strings.LessTotal(sorted[i].address, sorted[j].address);
  }

  function VisibleOf(r: IPRecord): IPRecord { r.Visible() }

  function Views(rs: seq<IPRecord>): seq<IPRecord> { Map(VisibleOf, rs) }

  lemma ViewsIgnoreOrder(a: seq<IPRecord>, b: seq<IPRecord>)
    requires multiset(a) == multiset(b)
    ensures multiset(Views(a)) == multiset(Views(b))
  {
    MapPermutation(VisibleOf, a, b);
  }

  function Insert(r: IPRecord, sorted: seq<IPRecord>): seq<IPRecord> {
    if sorted == [] || RecordLess(r, sorted[0]) then [r] + sorted
    else [sorted[0]] + Insert(r, sorted[1..])
  }

  /** One way to sort; any other is as good (SortingsLookAlike). */
  function Sort(rs: seq<IPRecord>): seq<IPRecord> {
    if rs == [] then [] else Insert(rs[0], Sort(rs[1..]))
  }

  lemma {:induction false} InsertContents(r: IPRecord, sorted: seq<IPRecord>)
    ensures multiset(Insert(r, sorted)) == multiset{r} + multiset(sorted)
  {
    if sorted != [] && !RecordLess(r, sorted[0]) {
      InsertContents(r, sorted[1..]);
      assert sorted == [sorted[0]] + sorted[1..];
    }
  }

  lemma NotLessTransitive(a: IPRecord, b: IPRecord, c: IPRecord)
    requires !RecordLess(b, a) && !RecordLess(c, b)
    ensures !RecordLess(c, a)
  {
    if RecordLess(c, a) {
      OrderIsTotal(a, b);
      OrderIsTotal(b, c);
      OrderIsTotal(a, c);
      if RecordLess(a, b) {
        OrderIsTransitive(c, a, b);
      }
    }
  }

  lemma {:induction false} InsertOrdered(r: IPRecord, sorted: seq<IPRecord>)
    requires Ordered(sorted)
    ensures Ordered(Insert(r, sorted))
  {
    if sorted == [] {
    } else if RecordLess(r, sorted[0]) {
      OrderIsTotal(r, sorted[0]);
      forall j | 0 <= j < |sorted| ensures !RecordLess(sorted[j], r) {
        if j > 0 { NotLessTransitive(r, sorted[0], sorted[j]); }
      }
    } else {
      InsertOrdered(r, sorted[1..]);
      InsertContents(r, sorted[1..]);
      var rest := Insert(r, sorted[1..]);
      forall j | 0 <= j < |rest| ensures !RecordLess(rest[j], sorted[0]) {
        assert rest[j] in multiset(rest);
        if rest[j] != r {
          assert rest[j] in sorted[1..];
        }
      }
    }
  }

  lemma {:induction false} SortSorts(rs: seq<IPRecord>)
    ensures IsSorting(Sort(rs), rs)
  {
    if rs != [] {
      SortSorts(rs[1..]);
      InsertContents(rs[0], Sort(rs[1..]));
      InsertOrdered(rs[0], Sort(rs[1..]));
      assert rs == [rs[0]] + rs[1..];
    }
  }

  lemma HeadIsLeast(s: seq<IPRecord>, r: IPRecord)
    requires Ordered(s) && s != [] && r.Visible() in multiset(Views(s))
    ensures !RecordLess(r, s[0])
  {
    var i :| 0 <= i < |s| && Views(s)[i] == r.Visible();
    NotLessThanItself(s[0]);
    assert !RecordLess(s[i], s[0]);
    AlikeAreLessAlike(s[i], r, s[0]);
  }

  lemma NotLessThanItself(r: IPRecord)
    ensures !RecordLess(r, r)
  {
    OrderIsTotal(r, r);
  }

  lemma AlikeAreLessAlike(a: IPRecord, b: IPRecord, c: IPRecord)
    requires a.Visible() == b.Visible()
    ensures RecordLess(a, c) <==> RecordLess(b, c)
  {
    hide Strings.Less;
  }

  lemma ViewsCons(s: seq<IPRecord>)
    requires s != []
    ensures Views(s) == [s[0].Visible()] + Views(s[1..])
    ensures multiset(Views(s)) == multiset{s[0].Visible()} + multiset(Views(s[1..]))
    ensures Ordered(s) ==> Ordered(s[1..])
  {
  }

  lemma SameHead(s: seq<IPRecord>, t: seq<IPRecord>)
    requires Ordered(s) && Ordered(t) && s != [] && t != []
    requires multiset(Views(s)) == multiset(Views(t))
    ensures s[0].Visible() == t[0].Visible()
  {
    assert Views(s)[0] in multiset(Views(s)) && Views(t)[0] in multiset(Views(t));
    HeadIsLeast(s, t[0]);
    HeadIsLeast(t, s[0]);
    OrderIsTotal(s[0], t[0]);
  }

  /** Two orderings of records that look alike look alike, position by position. */
  lemma {:induction false} SortingsLookAlike(s: seq<IPRecord>, t: seq<IPRecord>)
    requires Ordered(s) && Ordered(t)
    requires multiset(Views(s)) == multiset(Views(t))
    ensures Views(s) == Views(t)
  {
    assert |s| == |t| by {
      assert |s| == |multiset(Views(s))| && |t| == |multiset(Views(t))|;
    }
    if s != [] {
      SameHead(s, t);
      ViewsCons(s);
      ViewsCons(t);
      assert multiset(Views(s[1..])) == multiset(Views(s)) - multiset{s[0].Visible()};
      assert multiset(Views(t[1..])) == multiset(Views(t)) - multiset{s[0].Visible()};
      SortingsLookAlike(s[1..], t[1..]);
    }
  }

  /** Whatever the input order and whichever sort is used, the sorted records look the same. */
  lemma SortIgnoresInputOrder(a: seq<IPRecord>, b: seq<IPRecord>, s: seq<IPRecord>, t: seq<IPRecord>)
    requires multiset(Views(a)) == multiset(Views(b))
    requires IsSorting(s, a) && IsSorting(t, b)
    ensures Views(s) == Views(t)
  {
    MapPermutation(VisibleOf, s, a);
    MapPermutation(VisibleOf, t, b);
    SortingsLookAlike(s, t);
  }

  /** sort.Slice(sorted, recordLess) on a copy of the records: some sorted arrangement, not a stable one. */
  method SortSlice(rs: seq<IPRecord>) returns (sorted: seq<IPRecord>)
    ensures IsSorting(sorted, rs)
  {
    sorted := [];
    var i := 0;
    while i < |rs|
      invariant 0 <= i <= |rs|
      invariant IsSorting(sorted, rs[..i])
    {
      InsertContents(rs[i], sorted);
      InsertOrdered(rs[i], sorted);
      assert rs[..i + 1] == rs[..i] + [rs[i]];
      sorted := Insert(rs[i], sorted);
      i := i + 1;
    }
    assert rs[..i] == rs;
  }
}
