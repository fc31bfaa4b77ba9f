/** A parsed zone, and the answer to a query in it (coredns/plugins/netboxreload/zones.go). */
module DnsZone {
  import opened Wrappers
  import opened Strings
  import opened Records

  /** Records by lower-case owner. */
  datatype Zone = Zone(origin: string, records: map<string, seq<RR>>)

  const ANY := "ANY"

  function At(z: Zone, name: string): seq<RR> { if name in z.records then z.records[name] else [] }

  predicate IsCname(rr: RR) { rr.rtype == CNAME && |rr.rdata| == 1 }

  function Target(rr: RR): string
    requires IsCname(rr)
  {
    Lower(EnsureTrailingDot(rr.rdata[0]))
  }

  predicate Matches(rr: RR, qtype: string) { rr.rtype == qtype || qtype == ANY }

  /** What answers the query at one owner. */
  function Matched(z: Zone, name: string, qtype: string): seq<RR> { Filter((rr: RR) => Matches(rr, qtype), At(z, name)) }

  /** The last CNAME among records that do not answer the query themselves. */
  function LastCname(rrs: seq<RR>, qtype: string): (c: Option<RR>)
    ensures c.Some? ==> c.value in rrs && IsCname(c.value) && !Matches(c.value, qtype)
  {
    if rrs == [] then None
    else
      var rr := rrs[|rrs| - 1];
      if !Matches(rr, qtype) && IsCname(rr) then Some(rr) else LastCname(rrs[..|rrs| - 1], qtype)
  }

  /** The CNAME to follow at a name: only where nothing answers the query. */
  function Followed(z: Zone, name: string, qtype: string): (c: Option<RR>)
    ensures c.Some? ==> IsCname(c.value) && name in z.records
  {
    if Matched(z, name, qtype) != [] || qtype == CNAME || qtype == ANY then None else LastCname(At(z, name), qtype)
  }

  function Next(z: Zone, name: string, qtype: string): Option<string> {
    var c := Followed(z, name, qtype);
    if c.None? then None else Some(Target(c.value))
  }

  /** The answer from a name on, the visited ones excluded. */
  function Chase(z: Zone, name: string, qtype: string, visited: set<string>): seq<RR>
    decreases |z.records.Keys - visited|
  {
    if name in visited then []
    else
      var c := Followed(z, name, qtype);
      if c.None? then Matched(z, name, qtype)
      else
        assert z.records.Keys - (visited + {name}) == z.records.Keys - visited - {name};
        [c.value] + Chase(z, Target(c.value), qtype, visited + {name})
  }

  lemma {:induction false} LastCnameSnoc(rrs: seq<RR>, i: nat, qtype: string)
    requires i < |rrs|
    ensures LastCname(rrs[..i + 1], qtype)
         == if !Matches(rrs[i], qtype) && IsCname(rrs[i]) then Some(rrs[i]) else LastCname(rrs[..i], qtype)
  {
    assert rrs[..i + 1][..i] == rrs[..i];
  }

  /** One owner: what answers there, and the CNAME seen. */
  method Scan(z: Zone, cur: string, qtype: string) returns (found: seq<RR>, cname: Option<RR>)
    ensures found == Matched(z, cur, qtype) && cname == LastCname(At(z, cur), qtype)
  {
    hide LastCname;
    var rrs := At(z, cur);
    ghost var keep := (rr: RR) => Matches(rr, qtype);
    found, cname := [], None;
    NoCname(rrs, qtype);
    var i := 0;
    while i < |rrs|
      invariant 0 <= i <= |rrs| && found == Filter(keep, rrs[..i]) && cname == LastCname(rrs[..i], qtype)
    {
      var rr := rrs[i];
      FilterSnoc(keep, rrs, i);
      LastCnameSnoc(rrs, i, qtype);
      if rr.rtype == qtype || qtype == ANY {
        found := found + [rr];
      } else if IsCname(rr) {
        cname := Some(rr);
      }
      i := i + 1;
    }
    assert rrs[..i] == rrs;
  }

  lemma NoCname(rrs: seq<RR>, qtype: string)
    ensures LastCname(rrs[..0], qtype) == None
  {
  }

  /** The chase ends on every zone: each turn of the loop visits an owner not visited before. */
  method Answer(z: Zone, name: string, qtype: string) returns (out: seq<RR>)
    ensures out == Chase(z, name, qtype, {})
  {
    hide Matched, LastCname, Target;
    out := [];
    var visited: set<string> := {};
    var cur := name;
    assert out + Chase(z, cur, qtype, visited) == Chase(z, name, qtype, {});
    while cur !in visited
      invariant visited <= z.records.Keys
      invariant out + Chase(z, cur, qtype, visited) == Chase(z, name, qtype, {})
      decreases |z.records.Keys - visited|
    {
      var found, cname := Scan(z, cur, qtype);
      if found != [] || cname.None? || qtype == CNAME || qtype == ANY {
        assert Chase(z, cur, qtype, visited) == found;
        return out + found;
      }
      assert z.records.Keys - (visited + {cur}) == z.records.Keys - visited - {cur};
      assert Chase(z, cur, qtype, visited) == [cname.value] + Chase(z, Target(cname.value), qtype, visited + {cur});
      Assoc(out, [cname.value], Chase(z, Target(cname.value), qtype, visited + {cur}));
      visited := visited + {cur};
      out := out + [cname.value];
      cur := Target(cname.value);
    }
    assert out + [] == out;
  }

  // ---- the path -----------------------------------------------------------------------------------------------

  /** Owners followed one after the other, none of them twice. */
  ghost predicate IsPath(z: Zone, qtype: string, path: seq<string>, visited: set<string>) {
    && path != []
    && (forall i :: 0 <= i < |path| ==> path[i] !in visited)
    && (forall i, j :: 0 <= i < j < |path| ==> path[i] != path[j])
    && (forall i :: 0 <= i < |path| - 1 ==> Next(z, path[i], qtype) == Some(path[i + 1]))
  }

  function Cnames(z: Zone, qtype: string, path: seq<string>): seq<RR>
    requires forall i :: 0 <= i < |path| ==> Followed(z, path[i], qtype).Some?
  {
    if path == [] then [] else [Followed(z, path[0], qtype).value] + Cnames(z, qtype, path[1..])
  }

  /** The CNAMEs along the path, then what answers the query at its end; or, when the path runs into itself, CNAMEs only. */
  ghost predicate AnswersAlong(z: Zone, qtype: string, path: seq<string>, visited: set<string>, out: seq<RR>) {
    && IsPath(z, qtype, path, visited)
    && var last := path[|path| - 1];
       if Next(z, last, qtype).None? then
         && (forall i :: 0 <= i < |path| - 1 ==> Followed(z, path[i], qtype).Some?)
         && out == Cnames(z, qtype, path[..|path| - 1]) + Matched(z, last, qtype)
       else
         && Next(z, last, qtype).value in visited + (set n | n in path)
         && (forall i :: 0 <= i < |path| ==> Followed(z, path[i], qtype).Some?)
         && out == Cnames(z, qtype, path)
  }

  lemma CnamesCons(z: Zone, qtype: string, name: string, path: seq<string>)
    requires forall i :: 0 <= i < |path| ==> Followed(z, path[i], qtype).Some?
    requires Followed(z, name, qtype).Some?
    ensures forall i :: 0 <= i < |[name] + path| ==> Followed(z, ([name] + path)[i], qtype).Some?
    ensures Cnames(z, qtype, [name] + path) == [Followed(z, name, qtype).value] + Cnames(z, qtype, path)
  {
    hide Followed;
    assert ([name] + path)[1..] == path;
  }

  lemma PathCons(z: Zone, qtype: string, name: string, path: seq<string>, visited: set<string>)
    requires IsPath(z, qtype, path, visited + {name}) && name !in visited && Next(z, name, qtype) == Some(path[0])
    ensures IsPath(z, qtype, [name] + path, visited)
  {
    hide Next;
    var all := [name] + path;
    forall i | 0 <= i < |all| - 1 ensures Next(z, all[i], qtype) == Some(all[i + 1]) {
      if i > 0 { assert all[i] == path[i - 1] && all[i + 1] == path[i]; }
    }
  }

  lemma {:induction false} AlongCons(z: Zone, qtype: string, name: string, path: seq<string>, visited: set<string>, out: seq<RR>)
    requires path != [] && AnswersAlong(z, qtype, path, visited + {name}, out)
    requires name !in visited && Next(z, name, qtype) == Some(path[0])
    ensures AnswersAlong(z, qtype, [name] + path, visited, [Followed(z, name, qtype).value] + out)
  {
    hide Matched, Followed, Cnames, Next, IsPath;
    var all, last := [name] + path, path[|path| - 1];
    NextFollows(z, name, qtype);
    PathCons(z, qtype, name, path, visited);
    assert all[|all| - 1] == last;
    var c := Followed(z, name, qtype).value;
    if Next(z, last, qtype).None? {
      var before := path[..|path| - 1];
      assert all[..|all| - 1] == [name] + before;
      CnamesCons(z, qtype, name, before);
      Assoc([c], Cnames(z, qtype, before), Matched(z, last, qtype));
    } else {
      CnamesCons(z, qtype, name, path);
      assert visited + {name} + (set n | n in path) <= visited + (set n | n in all) by {
        assert name in all;
        forall n | n in path ensures n in all {}
      }
    }
  }

  lemma NextFollows(z: Zone, name: string, qtype: string)
    ensures Next(z, name, qtype).Some? <==> Followed(z, name, qtype).Some?
  {
  }

  /** The path the chase takes. */
  ghost function PathOf(z: Zone, name: string, qtype: string, visited: set<string>): seq<string>
    decreases |z.records.Keys - visited|
  {
    if name in visited then []
    else if Next(z, name, qtype).None? then [name]
    else
      assert name in z.records;
      assert z.records.Keys - (visited + {name}) == z.records.Keys - visited - {name};
      [name] + PathOf(z, Next(z, name, qtype).value, qtype, visited + {name})
  }

  /** The answer is the CNAMEs along one path of owners, none visited twice, and the matching records at its end. */
  lemma {:induction false} ChaseFollowsPath(z: Zone, name: string, qtype: string, visited: set<string>)
    requires name !in visited
    ensures var path := PathOf(z, name, qtype, visited);
            path != [] && path[0] == name && AnswersAlong(z, qtype, path, visited, Chase(z, name, qtype, visited))
    decreases |z.records.Keys - visited|
  {
    hide Matched, LastCname, Target, AnswersAlong;
    NextFollows(z, name, qtype);
    if Next(z, name, qtype).None? {
      EndOfPath(z, name, qtype, visited);
    } else {
      var t := Next(z, name, qtype).value;
      assert z.records.Keys - (visited + {name}) == z.records.Keys - visited - {name};
      if t in visited + {name} {
        LoopedPath(z, name, qtype, visited);
        assert [name] + [] == [name];
        var c := Followed(z, name, qtype).value;
        assert [c] + [] == [c];
      } else {
        ChaseFollowsPath(z, t, qtype, visited + {name});
        AlongCons(z, qtype, name, PathOf(z, t, qtype, visited + {name}), visited, Chase(z, t, qtype, visited + {name}));
      }
    }
  }

  lemma EndOfPath(z: Zone, name: string, qtype: string, visited: set<string>)
    requires name !in visited && Next(z, name, qtype).None?
    ensures AnswersAlong(z, qtype, [name], visited, Matched(z, name, qtype))
  {
    assert [name][..0] == [];
    assert [] + Matched(z, name, qtype) == Matched(z, name, qtype);
  }

  lemma LoopedPath(z: Zone, name: string, qtype: string, visited: set<string>)
    requires name !in visited && Next(z, name, qtype).Some? && Next(z, name, qtype).value in visited + {name}
    ensures Followed(z, name, qtype).Some? && AnswersAlong(z, qtype, [name], visited, [Followed(z, name, qtype).value])
  {
    assert [name][1..] == [];
    assert name in [name];
  }

  /**
   * What an answer holds: a record of the type asked for, all of them for ANY, or a CNAME; and where the owner asked for has
   * records of the type, exactly those, as often as it has them.
   */
  lemma {:induction false} AnswersTheQuestion(z: Zone, name: string, qtype: string, rr: RR)
    ensures rr in Chase(z, name, qtype, {}) ==> qtype == "ANY" || rr.rtype == qtype || (rr.rtype == "CNAME" && qtype != "CNAME")
    ensures (exists x :: x in At(z, name) && (qtype == "ANY" || x.rtype == qtype)) ==>
              multiset(Chase(z, name, qtype, {}))[rr] == if qtype == "ANY" || rr.rtype == qtype then multiset(At(z, name))[rr] else 0
  {
    OfTheType(z, name, qtype, {}, rr);
    FilterMultiset((x: RR) => Matches(x, qtype), At(z, name), rr);
    hide Filter;
    if x :| x in At(z, name) && (qtype == "ANY" || x.rtype == qtype) {
      assert x in Matched(z, name, qtype);
      assert Followed(z, name, qtype).None?;
    }
  }

  lemma {:induction false} OfTheType(z: Zone, name: string, qtype: string, visited: set<string>, rr: RR)
    ensures rr in Chase(z, name, qtype, visited) ==> qtype == "ANY" || rr.rtype == qtype || (rr.rtype == "CNAME" && qtype != "CNAME")
    decreases |z.records.Keys - visited|
  {
    if name !in visited {
      var c := Followed(z, name, qtype);
      if c.Some? {
        assert z.records.Keys - (visited + {name}) == z.records.Keys - visited - {name};
        OfTheType(z, Target(c.value), qtype, visited + {name}, rr);
      }
    }
  }

  /** A CNAME is followed, to its target in lower case, only where the owner has no record of the type asked for. */
  lemma {:induction false} FollowsExactlyWhen(z: Zone, name: string, qtype: string, next: string)
    ensures Next(z, name, qtype) == Some(next) ==>
              exists rr :: rr in At(z, name) && rr.rtype == "CNAME" && |rr.rdata| == 1 && next == Lower(EnsureTrailingDot(rr.rdata[0]))
    ensures Next(z, name, qtype).Some? <==>
              && qtype != "CNAME" && qtype != "ANY" && (forall rr :: rr in At(z, name) ==> rr.rtype != qtype)
              && exists rr :: rr in At(z, name) && rr.rtype == "CNAME" && |rr.rdata| == 1
  {
    LastCnameThere(At(z, name), qtype);
    if Matched(z, name, qtype) != [] { assert Matched(z, name, qtype)[0] in Matched(z, name, qtype); }
    hide Filter, LastCname, Lower;
  }

  lemma {:induction false} LastCnameThere(rrs: seq<RR>, qtype: string)
    ensures LastCname(rrs, qtype).Some? <==> exists rr :: rr in rrs && !Matches(rr, qtype) && IsCname(rr)
  {
    if rrs != [] {
      LastCnameThere(rrs[..|rrs| - 1], qtype);
      assert forall rr :: rr in rrs <==> rr in rrs[..|rrs| - 1] || rr == rrs[|rrs| - 1];
    }
  }

  // ---- the equation of section 4.3.2 of RFC 1034 -------------------------------------------------------------------

  /** The k-th name after a name. */
  function Iter(z: Zone, name: string, qtype: string, k: nat): Option<string>
    decreases k
  {
    if k == 0 then Some(name)
    else
      var n := Next(z, name, qtype);
      if n.None? then None else Iter(z, n.value, qtype, k - 1)
  }

  ghost predicate OnPath(z: Zone, from: string, qtype: string, name: string) {
    exists k: nat :: Iter(z, from, qtype, k) == Some(name)
  }

  lemma {:induction false} IterAdd(z: Zone, name: string, qtype: string, a: nat, b: nat)
    requires Iter(z, name, qtype, a).Some?
    decreases a
    ensures Iter(z, name, qtype, a + b) == Iter(z, Iter(z, name, qtype, a).value, qtype, b)
  {
    hide Next;
    if a > 0 { IterAdd(z, Next(z, name, qtype).value, qtype, a - 1, b); }
  }

  /** A name that is not ahead may be marked visited or not. */
  lemma {:induction false} UnvisitedAhead(z: Zone, from: string, qtype: string, visited: set<string>, name: string)
    requires forall k: nat :: Iter(z, from, qtype, k) != Some(name)
    ensures Chase(z, from, qtype, visited + {name}) == Chase(z, from, qtype, visited)
    decreases |z.records.Keys - visited|
  {
    hide Matched, LastCname, Target;
    assert Iter(z, from, qtype, 0) == Some(from);
    NextFollows(z, from, qtype);
    if from !in visited && Next(z, from, qtype).Some? {
      var t := Next(z, from, qtype).value;
      forall k: nat ensures Iter(z, t, qtype, k) != Some(name) { assert Iter(z, from, qtype, k + 1) == Iter(z, t, qtype, k); }
      assert z.records.Keys - (visited + {from}) == z.records.Keys - visited - {from};
      UnvisitedAhead(z, t, qtype, visited + {from}, name);
      assert visited + {from} + {name} == visited + {name} + {from};
    }
  }

  /** A name that is ahead cuts the chase short when it is marked visited. */
  lemma {:induction false} VisitedAhead(z: Zone, from: string, qtype: string, visited: set<string>, name: string, k: nat)
    requires Iter(z, from, qtype, k) == Some(name) && Next(z, name, qtype).Some? && name !in visited
    requires forall j: nat :: j < k ==> Iter(z, from, qtype, j) != Some(name)
    requires forall j: nat :: j < k ==> Iter(z, from, qtype, j).Some? && Iter(z, from, qtype, j).value !in visited
    ensures |Chase(z, from, qtype, visited + {name})| < |Chase(z, from, qtype, visited)|
    decreases k
  {
    hide Matched, LastCname, Target;
    NextFollows(z, from, qtype);
    if k > 0 {
      assert Iter(z, from, qtype, 0) == Some(from);
      var t := Next(z, from, qtype).value;
      forall j: nat | j < k - 1
        ensures Iter(z, t, qtype, j) != Some(name) && Iter(z, t, qtype, j).Some? && Iter(z, t, qtype, j).value !in visited + {from}
      {
        assert Iter(z, from, qtype, j + 1) == Iter(z, t, qtype, j);
        if Iter(z, from, qtype, j + 1) == Some(from) {
          IterAdd(z, from, qtype, j + 1, k - (j + 1));
        }
      }
      VisitedAhead(z, t, qtype, visited + {from}, name, k - 1);
      assert visited + {from} + {name} == visited + {name} + {from};
    }
  }

  lemma FirstTime(z: Zone, from: string, qtype: string, name: string, k: nat) returns (first: nat)
    requires Iter(z, from, qtype, k) == Some(name)
    ensures Iter(z, from, qtype, first) == Some(name) && forall j: nat :: j < first ==> Iter(z, from, qtype, j) != Some(name)
  {
    hide Iter;
    first := 0;
    while Iter(z, from, qtype, first) != Some(name)
      invariant first <= k && forall j: nat :: j < first ==> Iter(z, from, qtype, j) != Some(name)
      decreases k - first
    {
      first := first + 1;
    }
  }

  lemma {:induction false} IterPrefix(z: Zone, from: string, qtype: string, k: nat, j: nat)
    requires Iter(z, from, qtype, k).Some? && j <= k
    ensures Iter(z, from, qtype, j).Some?
    decreases j
  {
    if j > 0 { IterPrefix(z, Next(z, from, qtype).value, qtype, k - 1, j - 1); }
  }

  /**
   * The answer at an alias is its CNAME followed by the answer at the target, exactly when the alias does not come up
   * again on the way from its target; a loop through the alias leaves out the second visit.
   */
  lemma {:induction false} AliasEquationExactlyWhen(z: Zone, name: string, qtype: string)
    requires Next(z, name, qtype).Some?
    ensures Followed(z, name, qtype).Some?
    ensures var target := Next(z, name, qtype).value;
            Chase(z, name, qtype, {}) == [Followed(z, name, qtype).value] + Chase(z, target, qtype, {})
            <==> !OnPath(z, target, qtype, name)
  {
    hide Matched, LastCname, Target;
    NextFollows(z, name, qtype);
    var c, t := Followed(z, name, qtype).value, Next(z, name, qtype).value;
    assert {} + {name} == {name};
    assert Chase(z, name, qtype, {}) == [c] + Chase(z, t, qtype, {name});
    if k: nat :| Iter(z, t, qtype, k) == Some(name) {
      var first := FirstTime(z, t, qtype, name, k);
      forall j: nat | j < first ensures Iter(z, t, qtype, j).Some? { IterPrefix(z, t, qtype, first, j); }
      VisitedAhead(z, t, qtype, {}, name, first);
    } else {
      UnvisitedAhead(z, t, qtype, {}, name);
    }
  }

  /** No alias of the zone leads back to itself. */
  ghost predicate Acyclic(z: Zone, qtype: string) {
    forall name :: Next(z, name, qtype).Some? ==> !OnPath(z, Next(z, name, qtype).value, qtype, name)
  }

  ghost predicate AliasEquation(z: Zone, name: string, qtype: string) {
    && Followed(z, name, qtype).Some? && Next(z, name, qtype).Some?
    && Chase(z, name, qtype, {}) == [Followed(z, name, qtype).value] + Chase(z, Next(z, name, qtype).value, qtype, {})
  }

  /** Every alias of a zone is answered by its CNAME and then as its target is, exactly when the zone has no loop. */
  lemma {:induction false} AcyclicAnswers(z: Zone, qtype: string)
    ensures Acyclic(z, qtype) <==> forall name :: Next(z, name, qtype).Some? ==> AliasEquation(z, name, qtype)
  {
    hide Chase, OnPath, Followed, Next;
    forall name | Next(z, name, qtype).Some?
      ensures AliasEquation(z, name, qtype) <==> !OnPath(z, Next(z, name, qtype).value, qtype, name)
    {
      AliasEquationExactlyWhen(z, name, qtype);
    }
  }
}
