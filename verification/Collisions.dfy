/** CNAME exclusivity within a zone (resolveCNAMECollisions in internal/zonegen/collisions.go). */
module Collisions {
  import opened Records
  import opened Strings

  /** Owner names are compared without trailing dot and without regard to case. */
  function Key(name: string): string { Lower(TrimSuffix(name, ".")) }

  predicate IsData(r: IPRecord) { !r.IsCNAME() }

  predicate IsAlias(r: IPRecord) { r.IsCNAME() }

  predicate HasData(rs: seq<IPRecord>, owner: string) {
    exists r :: r in rs && IsData(r) && Key(r.dnsName) == owner
  }

  /** All the CNAMEs claimed at the owner name one target. */
  predicate Agree(rs: seq<IPRecord>, owner: string, target: string) {
    forall r :: r in rs && IsAlias(r) && Key(r.dnsName) == owner ==> Key(r.cnameTarget) == target
  }

  /** A CNAME that may be published at its owner. */
  predicate Eligible(rs: seq<IPRecord>, zone: string, r: IPRecord) {
    && IsAlias(r)
    && r.cnameTarget != ""
    && Key(r.dnsName) != Key(zone)
    && !HasData(rs, Key(r.dnsName))
    && Agree(rs, Key(r.dnsName), Key(r.cnameTarget))
  }

  predicate Claimed(out: seq<IPRecord>, owner: string) {
    exists r :: r in out && IsAlias(r) && Key(r.dnsName) == owner
  }

  /** The second pass over the records `todo`, judged against the whole record set `rs`. */
  function Pass(rs: seq<IPRecord>, zone: string, todo: seq<IPRecord>): seq<IPRecord> {
    if todo == [] then []
    else
      var out, r := Pass(rs, zone, todo[..|todo| - 1]), todo[|todo| - 1];
      if IsData(r) || (Eligible(rs, zone, r) && !Claimed(out, Key(r.dnsName))) then out + [r] else out
  }

  function Resolve(rs: seq<IPRecord>, zone: string): seq<IPRecord> { Pass(rs, zone, rs) }

  // ---- the two loops ------------------------------------------------------------------------------

  lemma SeveralTargets(s: set<string>, x: string)
    requires x in s
    ensures |s| > 1 <==> exists y :: y in s && y != x
  {
    assert |s - {x}| == |s| - 1;
    if |s| > 1 {
      var y :| y in s - {x};
      assert y in s && y != x;
    }
    if y :| y in s && y != x {
      assert y in s - {x};
    }
  }

  /** hasData holds the owners of the address records. */
  ghost predicate DataTable(hasData: set<string>, rs: seq<IPRecord>) {
    forall n :: n in hasData <==> HasData(rs, n)
  }

  ghost predicate ClaimsTarget(rs: seq<IPRecord>, owner: string, target: string) {
    exists r :: r in rs && IsAlias(r) && Key(r.dnsName) == owner && Key(r.cnameTarget) == target
  }

  function At(targets: map<string, set<string>>, n: string): set<string> {
    if n in targets then targets[n] else {}
  }

  /** targets holds, for each owner of a CNAME, the distinct targets claimed there. */
  ghost predicate TargetTable(targets: map<string, set<string>>, rs: seq<IPRecord>) {
    && (forall n :: n in targets <==> Claimed(rs, n))
    && (forall n, t :: t in At(targets, n) <==> ClaimsTarget(rs, n, t))
  }

  lemma DataTableStep(hasData: set<string>, rs: seq<IPRecord>, r: IPRecord)
    requires DataTable(hasData, rs)
    ensures DataTable(if IsData(r) then hasData + {Key(r.dnsName)} else hasData, rs + [r])
  {
    forall n ensures HasData(rs + [r], n) <==> HasData(rs, n) || (IsData(r) && Key(r.dnsName) == n) {
      assert r in rs + [r];
    }
  }

  lemma ClaimsStep(rs: seq<IPRecord>, r: IPRecord, n: string, t: string)
    ensures Claimed(rs + [r], n) <==> Claimed(rs, n) || (IsAlias(r) && Key(r.dnsName) == n)
    ensures ClaimsTarget(rs + [r], n, t) <==>
              ClaimsTarget(rs, n, t) || (IsAlias(r) && Key(r.dnsName) == n && Key(r.cnameTarget) == t)
  {
    assert r in rs + [r];
  }

  lemma TargetTableStep(targets: map<string, set<string>>, rs: seq<IPRecord>, r: IPRecord)
    requires TargetTable(targets, rs)
    ensures IsData(r) ==> TargetTable(targets, rs + [r])
    ensures IsAlias(r) ==>
      var n := Key(r.dnsName);
      TargetTable(targets[n := At(targets, n) + {Key(r.cnameTarget)}], rs + [r])
  {
    var own := Key(r.dnsName);
    var next := if IsData(r) then targets else targets[own := At(targets, own) + {Key(r.cnameTarget)}];
    forall n ensures n in next <==> Claimed(rs + [r], n) {
      ClaimsStep(rs, r, n, "");
    }
    forall n, t ensures t in At(next, n) <==> ClaimsTarget(rs + [r], n, t) {
      ClaimsStep(rs, r, n, t);
    }
  }

  /** The tables decide eligibility. */
  lemma TablesDecide(hasData: set<string>, targets: map<string, set<string>>, rs: seq<IPRecord>, zone: string, r: IPRecord)
    requires DataTable(hasData, rs) && TargetTable(targets, rs)
    requires r in rs && IsAlias(r)
    ensures var n := Key(r.dnsName);
      && n in targets
      && (Eligible(rs, zone, r) <==>
            r.cnameTarget != "" && n != Key(zone) && n !in hasData && |targets[n]| <= 1)
  {
    var n := Key(r.dnsName);
    assert Claimed(rs, n);
    assert ClaimsTarget(rs, n, Key(r.cnameTarget));
    assert At(targets, n) == targets[n];
    SeveralTargets(targets[n], Key(r.cnameTarget));
    assert Agree(rs, n, Key(r.cnameTarget)) <==> forall t :: ClaimsTarget(rs, n, t) ==> t == Key(r.cnameTarget) by {
      if Agree(rs, n, Key(r.cnameTarget)) {
      } else {
        var x :| x in rs && IsAlias(x) && Key(x.dnsName) == n && Key(x.cnameTarget) != Key(r.cnameTarget);
        assert ClaimsTarget(rs, n, Key(x.cnameTarget));
      }
    }
  }

  lemma PassStep(rs: seq<IPRecord>, zone: string, i: nat)
    requires i < |rs|
    ensures Pass(rs, zone, rs[..i + 1]) ==
      var out := Pass(rs, zone, rs[..i]);
      if IsData(rs[i]) || (Eligible(rs, zone, rs[i]) && !Claimed(out, Key(rs[i].dnsName))) then out + [rs[i]] else out
  {
    assert rs[..i + 1][..i] == rs[..i];
  }

  /** emitted holds the owners of the CNAMEs already in the output. */
  ghost predicate EmittedTable(emitted: set<string>, out: seq<IPRecord>) {
    forall n :: n in emitted <==> Claimed(out, n)
  }

  lemma EmittedTableStep(emitted: set<string>, out: seq<IPRecord>, r: IPRecord)
    requires EmittedTable(emitted, out)
    ensures IsData(r) ==> EmittedTable(emitted, out + [r])
    ensures IsAlias(r) ==> EmittedTable(emitted + {Key(r.dnsName)}, out + [r])
    ensures Key(r.dnsName) in emitted <==> Claimed(out, Key(r.dnsName))
  {
    forall n ensures Claimed(out + [r], n) <==> Claimed(out, n) || (IsAlias(r) && Key(r.dnsName) == n) {
      ClaimsStep(out, r, n, "");
    }
  }

  method CollectClaims(records: seq<IPRecord>) returns (hasData: set<string>, targets: map<string, set<string>>)
    ensures DataTable(hasData, records) && TargetTable(targets, records)
  {
    hasData, targets := {}, map[];
    var i := 0;
    while i < |records|
      invariant 0 <= i <= |records|
      invariant DataTable(hasData, records[..i])
      invariant TargetTable(targets, records[..i])
    {
      var r := records[i];
      assert records[..i + 1] == records[..i] + [r];
      DataTableStep(hasData, records[..i], r);
      TargetTableStep(targets, records[..i], r);
      var n := Key(r.dnsName);
      if r.IsCNAME() {
        targets := targets[n := At(targets, n) + {Key(r.cnameTarget)}];
      } else {
        hasData := hasData + {n};
      }
      i := i + 1;
    }
    assert records[..i] == records;
  }

  lemma NothingEmitted(rs: seq<IPRecord>, zone: string)
    ensures Pass(rs, zone, rs[..0]) == [] && EmittedTable({}, [])
  {
    hide Key, Eligible;
  }

  method ResolveCNAMECollisions(records: seq<IPRecord>, zone: string) returns (out: seq<IPRecord>)
    ensures out == Resolve(records, zone)
  {
    hide Pass, Eligible, Claimed, EmittedTable, DataTable, TargetTable, Key;
    NothingEmitted(records, zone);
    var hasData, targets := CollectClaims(records);
    out := [];
    var emitted: set<string> := {};
    var i := 0;
    while i < |records|
      invariant 0 <= i <= |records|
      invariant out == Pass(records, zone, records[..i])
      invariant EmittedTable(emitted, out)
    {
      var r := records[i];
      PassStep(records, zone, i);
      EmittedTableStep(emitted, out, r);
      if !r.IsCNAME() {
        out := out + [r];
      } else {
        var n := Key(r.dnsName);
        TablesDecide(hasData, targets, records, zone, r);
        if r.cnameTarget == "" {
        } else if n == Key(zone) {
        } else if n in hasData {
        } else if |targets[n]| > 1 {
        } else if n in emitted {
        } else {
          emitted := emitted + {n};
          out := out + [r];
        }
      }
      i := i + 1;
    }
    assert records[..i] == records;
  }

  // ---- what the filtered set guarantees ---------------------------------------------------------------

  /** Section 3.6.2 of RFC 1034: a CNAME is alone at its owner, and none is at the apex or without a target. */
  ghost predicate Exclusive(rs: seq<IPRecord>, zone: string) {
    && (forall i, j :: 0 <= i < |rs| && 0 <= j < |rs| && i != j && IsAlias(rs[i]) ==>
          Key(rs[i].dnsName) != Key(rs[j].dnsName))
    && (forall r :: r in rs && IsAlias(r) ==> r.cnameTarget != "" && Key(r.dnsName) != Key(zone))
  }

  lemma {:induction false} PassMembers(rs: seq<IPRecord>, zone: string, todo: seq<IPRecord>)
    ensures forall r :: r in Pass(rs, zone, todo) ==> r in todo && (IsData(r) || Eligible(rs, zone, r))
    ensures forall r :: r in todo && IsData(r) ==> r in Pass(rs, zone, todo)
    ensures forall r :: r in todo && Eligible(rs, zone, r) ==> Claimed(Pass(rs, zone, todo), Key(r.dnsName))
  {
    if todo != [] {
      var k := |todo| - 1;
      PassMembers(rs, zone, todo[..k]);
      assert todo == todo[..k] + [todo[k]];
      var before, after := Pass(rs, zone, todo[..k]), Pass(rs, zone, todo);
      forall n | Claimed(before, n) ensures Claimed(after, n) {
        var r :| r in before && IsAlias(r) && Key(r.dnsName) == n;
        assert r in after;
      }
      forall r | r in todo && Eligible(rs, zone, r) ensures Claimed(after, Key(r.dnsName)) {
        if r == todo[k] && !Claimed(before, Key(r.dnsName)) {
          assert r in after;
        }
      }
    }
  }

  lemma {:induction false} PassExclusive(rs: seq<IPRecord>, zone: string, todo: seq<IPRecord>)
    requires forall r :: r in todo ==> r in rs
    ensures Exclusive(Pass(rs, zone, todo), zone)
  {
    if todo != [] {
      var k := |todo| - 1;
      var before, r := Pass(rs, zone, todo[..k]), todo[k];
      PassExclusive(rs, zone, todo[..k]);
      PassMembers(rs, zone, todo[..k]);
      var after := Pass(rs, zone, todo);
      if after == before + [r] {
        forall i | 0 <= i < |before|
          ensures IsAlias(before[i]) || IsAlias(r) ==> Key(before[i].dnsName) != Key(r.dnsName)
        {
          assert before[i] in before && before[i] in rs && r in rs;
        }
      }
    }
  }

  lemma ResolveIsExclusive(rs: seq<IPRecord>, zone: string)
    ensures Exclusive(Resolve(rs, zone), zone)
  {
    PassExclusive(rs, zone, rs);
  }

  /** Every address record survives, in order. */
  lemma {:induction false} DataSurvives(rs: seq<IPRecord>, zone: string, todo: seq<IPRecord>)
    ensures Filter(IsData, Pass(rs, zone, todo)) == Filter(IsData, todo)
  {
    if todo != [] {
      var k := |todo| - 1;
      DataSurvives(rs, zone, todo[..k]);
      assert todo == todo[..k] + [todo[k]];
      FilterAppend(IsData, todo[..k], [todo[k]]);
      FilterAppend(IsData, Pass(rs, zone, todo[..k]), [todo[k]]);
    }
  }

  /** The first CNAME at an owner off the apex, without data and whose claims agree on a target, is the one kept. */
  lemma {:induction false} FirstClaimKept(rs: seq<IPRecord>, zone: string, todo: seq<IPRecord>, i: nat)
    requires i < |todo| && Eligible(rs, zone, todo[i])
    requires forall j :: 0 <= j < i && IsAlias(todo[j]) && Key(todo[j].dnsName) == Key(todo[i].dnsName) ==>
               todo[j].cnameTarget == ""
    ensures todo[i] in Pass(rs, zone, todo)
    decreases |todo|
  {
    hide Key, HasData, Agree;
    var k := |todo| - 1;
    if i < k {
      FirstClaimKept(rs, zone, todo[..k], i);
    } else {
      NotYetClaimed(rs, zone, todo[..k], Key(todo[i].dnsName));
    }
  }

  lemma {:induction false} NotYetClaimed(rs: seq<IPRecord>, zone: string, todo: seq<IPRecord>, owner: string)
    requires forall j :: 0 <= j < |todo| && IsAlias(todo[j]) && Key(todo[j].dnsName) == owner ==> todo[j].cnameTarget == ""
    ensures !Claimed(Pass(rs, zone, todo), owner)
  {
    hide Key, HasData, Agree, Pass;
    PassMembers(rs, zone, todo);
  }

  ghost predicate FirstEligible(rs: seq<IPRecord>, zone: string, owner: string, i: int) {
    && 0 <= i < |rs| && Key(rs[i].dnsName) == owner && Eligible(rs, zone, rs[i])
    && (forall j :: 0 <= j < i && Key(rs[j].dnsName) == owner ==> !Eligible(rs, zone, rs[j]))
  }

  /**
   * Membership, both ways: an address record is published iff it was given, and an owner holds a CNAME iff some
   * claim there is eligible; the CNAME is then the first eligible claim.
   */
  lemma ResolveIsMaximal(rs: seq<IPRecord>, zone: string, owner: string)
    ensures forall r :: IsData(r) ==> (r in Resolve(rs, zone) <==> r in rs)
    ensures Claimed(Resolve(rs, zone), owner) <==>
              exists r :: r in rs && Eligible(rs, zone, r) && Key(r.dnsName) == owner
    ensures forall i :: FirstEligible(rs, zone, owner, i) ==> rs[i] in Resolve(rs, zone)
  {
    PassMembers(rs, zone, rs);
    forall i | FirstEligible(rs, zone, owner, i) ensures rs[i] in Resolve(rs, zone)
    {
      forall j | 0 <= j < i && IsAlias(rs[j]) && Key(rs[j].dnsName) == owner ensures rs[j].cnameTarget == "" {
        assert rs[j] in rs && Key(rs[j].cnameTarget) == Key(rs[i].cnameTarget);
        assert !Eligible(rs, zone, rs[j]);
      }
      FirstClaimKept(rs, zone, rs, i);
    }
  }

  /** Two spellings of one name: letter case and a final dot aside. */
  predicate SameName(a: string, b: string) { Lower(TrimSuffix(a, ".")) == Lower(TrimSuffix(b, ".")) }

  /** The i-th record is an alias with a target, off the apex, at an owner without data whose aliases all name one target. */
  ghost predicate Sound(rs: seq<IPRecord>, zone: string, i: nat)
    requires i < |rs|
  {
    && rs[i].rtype == "CNAME" && rs[i].cnameTarget != "" && !SameName(rs[i].dnsName, zone)
    && (forall x :: x in rs && SameName(x.dnsName, rs[i].dnsName) ==> x.rtype == "CNAME" && SameName(x.cnameTarget, rs[i].cnameTarget))
  }

  lemma {:induction false} SoundIsEligible(rs: seq<IPRecord>, zone: string, i: nat)
    requires i < |rs|
    ensures Sound(rs, zone, i) <==> Eligible(rs, zone, rs[i])
  {
    hide Lower;
    assert rs[i] in rs;
    if Eligible(rs, zone, rs[i]) {
      forall x | x in rs && SameName(x.dnsName, rs[i].dnsName) ensures x.rtype == "CNAME" && SameName(x.cnameTarget, rs[i].cnameTarget) {
        assert Key(x.dnsName) == Key(rs[i].dnsName);
      }
    }
  }

  /** A CNAME is published exactly when it is the first sound one given for its owner. */
  lemma {:induction false} AliasKeptExactlyWhen(rs: seq<IPRecord>, zone: string, c: IPRecord)
    requires c.rtype == "CNAME"
    ensures c in Resolve(rs, zone) <==>
              exists i: nat :: i < |rs| && rs[i] == c && Sound(rs, zone, i)
                && forall j: nat :: j < i && SameName(rs[j].dnsName, c.dnsName) ==> !Sound(rs, zone, j)
  {
    hide Pass, Eligible, Sound, Lower;
    forall i: nat | i < |rs| ensures Sound(rs, zone, i) <==> Eligible(rs, zone, rs[i]) { SoundIsEligible(rs, zone, i); }
    var out := Resolve(rs, zone);
    ResolveIsMaximal(rs, zone, Key(c.dnsName));
    if c in out {
      PassMembers(rs, zone, rs);
      var k :| 0 <= k < |rs| && rs[k] == c;
      var i := FirstAt(rs, zone, Key(c.dnsName), k);
      ResolveIsExclusive(rs, zone);
      var a :| 0 <= a < |out| && out[a] == c;
      var b :| 0 <= b < |out| && out[b] == rs[i];
      assert Key(out[a].dnsName) == Key(out[b].dnsName);
    }
    if i: nat :| i < |rs| && rs[i] == c && Sound(rs, zone, i) && forall j: nat :: j < i && SameName(rs[j].dnsName, c.dnsName) ==> !Sound(rs, zone, j) {
      assert FirstEligible(rs, zone, Key(c.dnsName), i);
    }
  }

  lemma {:induction false} FirstAt(rs: seq<IPRecord>, zone: string, owner: string, k: nat) returns (i: nat)
    requires k < |rs| && Eligible(rs, zone, rs[k]) && Key(rs[k].dnsName) == owner
    ensures FirstEligible(rs, zone, owner, i)
    decreases k
  {
    hide Eligible, Key;
    if j: nat :| j < k && Key(rs[j].dnsName) == owner && Eligible(rs, zone, rs[j]) {
      i := FirstAt(rs, zone, owner, j);
    } else {
      i := k;
    }
  }

  /** An already exclusive set is left alone. */
  lemma {:induction false} ExclusiveAlias(rs: seq<IPRecord>, zone: string, k: nat)
    requires Exclusive(rs, zone) && k < |rs| && IsAlias(rs[k])
    ensures Eligible(rs, zone, rs[k]) && !Claimed(rs[..k], Key(rs[k].dnsName))
  {
    hide Key;
    forall x | x in rs && Key(x.dnsName) == Key(rs[k].dnsName) ensures x == rs[k] {
      var i :| 0 <= i < |rs| && rs[i] == x;
      assert i == k;
    }
    forall x | x in rs[..k] ensures Key(x.dnsName) != Key(rs[k].dnsName) {
      var i :| 0 <= i < k && rs[i] == x;
    }
  }

  lemma {:induction false} ExclusiveIsFixed(rs: seq<IPRecord>, zone: string, k: nat)
    requires Exclusive(rs, zone) && k <= |rs|
    ensures Pass(rs, zone, rs[..k]) == rs[..k]
  {
    hide Exclusive, Key, Eligible, Claimed;
    if k > 0 {
      ExclusiveIsFixed(rs, zone, k - 1);
      assert rs[..k][..k - 1] == rs[..k - 1] && rs[..k] == rs[..k - 1] + [rs[k - 1]];
      if IsAlias(rs[k - 1]) { ExclusiveAlias(rs, zone, k - 1); }
    }
  }

  lemma ResolveIsIdempotent(rs: seq<IPRecord>, zone: string)
    ensures Resolve(Resolve(rs, zone), zone) == Resolve(rs, zone)
  {
    var out := Resolve(rs, zone);
    ResolveIsExclusive(rs, zone);
    ExclusiveIsFixed(out, zone, |out|);
    assert out[..|out|] == out;
  }

  // ---- input order --------------------------------------------------------------------------------------

  lemma PassSnoc(rs: seq<IPRecord>, zone: string, todo: seq<IPRecord>, r: IPRecord)
    ensures var out := Pass(rs, zone, todo);
            Pass(rs, zone, todo + [r]) ==
            if IsData(r) || (Eligible(rs, zone, r) && !Claimed(out, Key(r.dnsName))) then out + [r] else out
  {
    hide Eligible, Claimed, Key;
    assert (todo + [r])[..|todo|] == todo;
  }

  lemma AliasSnoc(rs: seq<IPRecord>, r: IPRecord)
    ensures Filter(IsAlias, rs + [r]) == if IsAlias(r) then Filter(IsAlias, rs) + [r] else Filter(IsAlias, rs)
  {
    assert [r][1..] == [];
    FilterAppend(IsAlias, rs, [r]);
    assert Filter(IsAlias, rs) + [] == Filter(IsAlias, rs);
  }

  lemma ClaimedByAliases(rs: seq<IPRecord>, owner: string)
    ensures Claimed(rs, owner) <==> Claimed(Filter(IsAlias, rs), owner)
  {
    hide Key;
  }

  lemma {:induction false} AliasesAlone(rs: seq<IPRecord>, zone: string, todo: seq<IPRecord>)
    ensures Filter(IsAlias, Pass(rs, zone, todo)) == Pass(rs, zone, Filter(IsAlias, todo))
  {
    if todo != [] {
      hide Pass, Eligible, Claimed, Key, Filter;
      var k := |todo| - 1;
      var before, r := Pass(rs, zone, todo[..k]), todo[k];
      AliasesAlone(rs, zone, todo[..k]);
      assert todo == todo[..k] + [r];
      AliasSnoc(todo[..k], r);
      AliasSnoc(before, r);
      PassSnoc(rs, zone, todo[..k], r);
      PassSnoc(rs, zone, Filter(IsAlias, todo[..k]), r);
      ClaimedByAliases(before, Key(r.dnsName));
    }
  }

  lemma {:induction false} PassSameJudgement(a: seq<IPRecord>, b: seq<IPRecord>, zone: string, todo: seq<IPRecord>)
    requires forall r :: r in a <==> r in b
    ensures Pass(a, zone, todo) == Pass(b, zone, todo)
  {
    if todo != [] {
      PassSameJudgement(a, b, zone, todo[..|todo| - 1]);
      var r := todo[|todo| - 1];
      assert Eligible(a, zone, r) == Eligible(b, zone, r);
    }
  }

  lemma {:induction false} DataOrAlias(rs: seq<IPRecord>)
    ensures multiset(rs) == multiset(Filter(IsData, rs)) + multiset(Filter(IsAlias, rs))
  {
    forall r ensures multiset(rs)[r] == multiset(Filter(IsData, rs))[r] + multiset(Filter(IsAlias, rs))[r] {
      FilterMultiset(IsData, rs, r);
      FilterMultiset(IsAlias, rs, r);
    }
  }

  /** Reordering the records, CNAMEs keeping their relative order, publishes the same records. */
  lemma ResolveIgnoresAddressOrder(a: seq<IPRecord>, b: seq<IPRecord>, zone: string)
    requires multiset(a) == multiset(b)
    requires Filter(IsAlias, a) == Filter(IsAlias, b)
    ensures multiset(Resolve(a, zone)) == multiset(Resolve(b, zone))
  {
    assert forall r :: (r in a <==> r in multiset(a)) && (r in b <==> r in multiset(b));
    DataSurvives(a, zone, a);
    DataSurvives(b, zone, b);
    FilterPermutation(IsData, a, b);
    AliasesAlone(a, zone, a);
    AliasesAlone(b, zone, b);
    PassSameJudgement(a, b, zone, Filter(IsAlias, a));
    DataOrAlias(Resolve(a, zone));
    DataOrAlias(Resolve(b, zone));
  }

  /** The relative order of CNAMEs matters: of two spellings of one alias, the first given is the one published. */
  lemma FirstSpellingWins(r: IPRecord, s: IPRecord, zone: string)
    requires IsAlias(r) && IsAlias(s) && r != s
    requires Key(r.dnsName) == Key(s.dnsName) != Key(zone)
    requires Key(r.cnameTarget) == Key(s.cnameTarget) && r.cnameTarget != "" && s.cnameTarget != ""
    ensures r in Resolve([r, s], zone) && s !in Resolve([r, s], zone)
    ensures s in Resolve([s, r], zone) && r !in Resolve([s, r], zone)
  {
    OnlyFirstSpelling(r, s, zone);
    OnlyFirstSpelling(s, r, zone);
  }

  lemma OnlyFirstSpelling(r: IPRecord, s: IPRecord, zone: string)
    requires IsAlias(r) && IsAlias(s) && r != s
    requires Key(r.dnsName) == Key(s.dnsName) != Key(zone)
    requires Key(r.cnameTarget) == Key(s.cnameTarget) && r.cnameTarget != "" && s.cnameTarget != ""
    ensures r in Resolve([r, s], zone) && s !in Resolve([r, s], zone)
  {
    var rs := [r, s];
    assert FirstEligible(rs, zone, Key(r.dnsName), 0);
    ResolveIsMaximal(rs, zone, Key(r.dnsName));
    ResolveIsExclusive(rs, zone);
  }
}
