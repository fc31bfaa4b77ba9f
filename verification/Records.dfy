/** The record type shared by every component (internal/netboxclient/client.go). */
module Records {
  const CNAME := "CNAME"
  const SOURCE_WEBHOOK := "webhook"

  /** One address or alias. `rtype` is "" for an address record; `source` and `appliedAt` belong to the dynamic store. */
  datatype IPRecord = IPRecord(
    dnsName: string,
    address: string,
    family: int,
    deviceName: string,
    interfaceName: string,
    vrf: string,
    ttl: nat,
    rtype: string,
    cnameTarget: string,
    source: string,
    appliedAt: int)
  {
    predicate IsCNAME() { rtype == CNAME }

    /** The fields zone generation can see. */
    function Visible(): IPRecord { this.(source := "", appliedAt := 0) }
  }

  /** A resource record: its owner, and its data word by word. */
  datatype RR = RR(owner: string, ttl: nat, rtype: string, rdata: seq<string>)

  type ZoneMap = map<string, seq<IPRecord>>

  function AtZone(zones: ZoneMap, z: string): seq<IPRecord> { if z in zones then zones[z] else [] }

  function Filter<T(!new)>(keep: T -> bool, rs: seq<T>): (r: seq<T>)
    ensures |r| <= |rs|
    ensures forall x :: x in r <==> x in rs && keep(x)
  {
    if rs == [] then []
    else
      var rest := Filter(keep, rs[1..]);
      assert forall x :: x in rs <==> x == rs[0] || x in rs[1..];
      if keep(rs[0]) then [rs[0]] + rest else rest
  }

  function Map<T, U>(f: T -> U, rs: seq<T>): (r: seq<U>)
    ensures |r| == |rs|
    ensures forall i :: 0 <= i < |rs| ==> r[i] == f(rs[i])
  {
    if rs == [] then [] else [f(rs[0])] + Map(f, rs[1..])
  }

  lemma {:induction false} FilterAppend<T(!new)>(keep: T -> bool, a: seq<T>, b: seq<T>)
    ensures Filter(keep, a + b) == Filter(keep, a) + Filter(keep, b)
  {
    if a == [] {
      assert a + b == b;
    } else {
      assert (a + b)[1..] == a[1..] + b;
      FilterAppend(keep, a[1..], b);
    }
  }

  /** One more element filtered. */
  lemma {:induction false} FilterSnoc<T(!new)>(keep: T -> bool, s: seq<T>, i: nat)
    requires i < |s|
    ensures Filter(keep, s[..i + 1]) == if keep(s[i]) then Filter(keep, s[..i]) + [s[i]] else Filter(keep, s[..i])
  {
    FilterAppend(keep, s[..i], [s[i]]);
    assert s[..i + 1] == s[..i] + [s[i]];
    assert Filter(keep, [s[i]]) == if keep(s[i]) then [s[i]] else [];
  }

  lemma {:induction false} FilterMultiset<T(!new)>(keep: T -> bool, rs: seq<T>, x: T)
    ensures multiset(Filter(keep, rs))[x] == if keep(x) then multiset(rs)[x] else 0
  {
    if rs != [] {
      FilterMultiset(keep, rs[1..], x);
      assert rs == [rs[0]] + rs[1..];
      if keep(rs[0]) { assert Filter(keep, rs) == [rs[0]] + Filter(keep, rs[1..]); }
    }
  }

  /** Filtering commutes with permuting. */
  lemma FilterPermutation<T(!new)>(keep: T -> bool, a: seq<T>, b: seq<T>)
    requires multiset(a) == multiset(b)
    ensures multiset(Filter(keep, a)) == multiset(Filter(keep, b))
  {
    forall x ensures multiset(Filter(keep, a))[x] == multiset(Filter(keep, b))[x] {
      FilterMultiset(keep, a, x);
      FilterMultiset(keep, b, x);
    }
  }

  lemma RemoveAt<T>(s: seq<T>, i: nat)
    requires i < |s|
    ensures multiset(s[..i] + s[i + 1..]) == multiset(s) - multiset{s[i]}
  {
    assert s == s[..i] + [s[i]] + s[i + 1..];
  }

  lemma MapSlice<T, U>(f: T -> U, s: seq<T>, i: nat, j: nat)
    requires i <= j <= |s|
    ensures Map(f, s)[i..j] == Map(f, s[i..j])
  {
  }

  lemma {:induction false} MapRemoveAt<T, U>(f: T -> U, s: seq<T>, i: nat)
    requires i < |s|
    ensures multiset(Map(f, s)) == multiset{f(s[i])} + multiset(Map(f, s[..i] + s[i + 1..]))
  {
    var before, after := Map(f, s[..i]), Map(f, s[i + 1..]);
    assert Map(f, s) == before + [f(s[i])] + after by {
      MapSlice(f, s, 0, i);
      MapSlice(f, s, i + 1, |s|);
    }
    assert Map(f, s[..i] + s[i + 1..]) == before + after by {
      MapAppend(f, s[..i], s[i + 1..]);
    }
    assert multiset(before + [f(s[i])] + after) == multiset(before) + multiset{f(s[i])} + multiset(after);
    assert multiset(before + after) == multiset(before) + multiset(after);
  }

  /** Mapping a permutation gives a permutation. */
  lemma {:induction false} MapPermutation<T, U>(f: T -> U, a: seq<T>, b: seq<T>)
    requires multiset(a) == multiset(b)
    ensures multiset(Map(f, a)) == multiset(Map(f, b))
    decreases |a|
  {
    if a == [] {
      assert |multiset(a)| == 0 == |multiset(b)|;
      assert b == [];
    } else {
      assert a[0] in multiset(b);
      var i :| 0 <= i < |b| && b[i] == a[0];
      var rest := b[..i] + b[i + 1..];
      RemoveAt(b, i);
      RemoveAt(a, 0);
      assert a[..0] + a[1..] == a[1..];
      MapPermutation(f, a[1..], rest);
      MapRemoveAt(f, b, i);
      MapRemoveAt(f, a, 0);
    }
  }

  lemma {:induction false} MapAppend<T, U>(f: T -> U, a: seq<T>, b: seq<T>)
    ensures Map(f, a + b) == Map(f, a) + Map(f, b)
  {
    if a == [] {
      assert a + b == b;
    } else {
      assert (a + b)[1..] == a[1..] + b;
      MapAppend(f, a[1..], b);
    }
  }
}
