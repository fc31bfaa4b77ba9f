/** Refusing to publish a set that shrank too much (internal/shrinkguard/shrinkguard.go). Fractions are exact. */
module ShrinkGuard {
  import opened Strings
  import opened Sorting

  datatype Config = Config(enabled: bool, globalDropFraction: real, globalMinRecords: int, zoneDropFraction: real, zoneMinRecords: int)

  /** A published or candidate record set, counted. */
  datatype Baseline = Baseline(total: int, zones: map<string, int>, zonesOnDisk: bool)

  datatype Scope = NoScope | ScopeEmpty | ScopeGlobal | ScopeZone

  datatype Verdict = Verdict(refuse: bool, scope: Scope, zone: string, prev: int, now: int, dropped: int, dropFraction: real)

  const ACCEPT := Verdict(false, NoScope, "", 0, 0, 0, 0.0)

  // ---- counting ------------------------------------------------------------------------------------------

  function Count(zones: map<string, int>, zone: string): int { if zone in zones then zones[zone] else 0 }

  ghost function Sum(zones: map<string, int>): int
    decreases |zones|
  {
    if zones == map[] then 0
    else
      var z :| z in zones;
      zones[z] + Sum(zones - {z})
  }

  /** The sum does not depend on the order the zones are taken in. */
  lemma {:induction false} SumRemove(zones: map<string, int>, zone: string)
    requires zone in zones
    ensures Sum(zones) == zones[zone] + Sum(zones - {zone})
    decreases |zones|
  {
    var z :| z in zones && Sum(zones) == zones[z] + Sum(zones - {z});
    if z != zone {
      SumRemove(zones - {z}, zone);
      SumRemove(zones - {zone}, z);
      assert zones - {z} - {zone} == zones - {zone} - {z};
    }
  }

  ghost predicate Counts(zones: map<string, int>) { forall z :: z in zones ==> zones[z] >= 0 }

  /** A baseline whose total is the sum of its zones. */
  ghost predicate Counted(b: Baseline) { Counts(b.zones) && b.total == Sum(b.zones) }

  method FromZoneCounts(zones: map<string, int>) returns (b: Baseline)
    ensures b.zones == zones && b.total == Sum(zones) && !b.zonesOnDisk
  {
    hide Sum;
    SumEmpty();
    var total, out: map<string, int> := 0, map[];
    var todo := zones;
    while todo != map[]
      invariant forall z :: z in zones <==> z in todo || z in out
      invariant (forall z :: z in todo ==> todo[z] == zones[z]) && (forall z :: z in out ==> out[z] == zones[z])
      invariant total + Sum(todo) == Sum(zones)
      decreases |todo|
    {
      var z :| z in todo;
      SumRemove(todo, z);
      total := total + zones[z];
      out := out[z := zones[z]];
      todo := todo - {z};
    }
    assert out == zones;
    b := Baseline(total, out, false);
  }

  // ---- the rules --------------------------------------------------------------------------------------------

  predicate Trips(dropped: int, was: int, fraction: real, minRecords: int) {
    fraction > 0.0 && dropped > 0 && was > 0 && dropped > minRecords && dropped as real / was as real > fraction
  }

  function EmptyResult(prev: Baseline, nowTotal: int): Verdict {
    if nowTotal > 0 then ACCEPT
    else if prev.total > 0 then Verdict(true, ScopeEmpty, "", prev.total, 0, prev.total, 1.0)
    else if prev.zonesOnDisk then Verdict(true, ScopeEmpty, "", 0, 0, 0, 0.0)
    else ACCEPT
  }

  predicate GlobalTrips(cfg: Config, prev: Baseline, now: Baseline) {
    Trips(prev.total - now.total, prev.total, cfg.globalDropFraction, cfg.globalMinRecords)
  }

  function Dropped(prev: Baseline, now: Baseline, zone: string): int { Count(prev.zones, zone) - Count(now.zones, zone) }

  predicate ZoneTrips(cfg: Config, prev: Baseline, now: Baseline, zone: string) {
    zone in prev.zones && Trips(Dropped(prev, now, zone), Count(prev.zones, zone), cfg.zoneDropFraction, cfg.zoneMinRecords)
  }

  /** When a candidate is refused, rule by rule. */
  ghost predicate Refused(cfg: Config, prev: Baseline, now: Baseline) {
    || (now.total <= 0 && (prev.total > 0 || prev.zonesOnDisk))
    || (prev.total != 0 && cfg.enabled && (GlobalTrips(cfg, prev, now) || exists z :: ZoneTrips(cfg, prev, now, z)))
  }

  /** The zone with the largest drop among those that trip, the least name among equals. */
  ghost predicate IsWorst(cfg: Config, prev: Baseline, now: Baseline, zone: string) {
    && ZoneTrips(cfg, prev, now, zone)
    && forall z :: ZoneTrips(cfg, prev, now, z) && z != zone ==>
         Dropped(prev, now, z) < Dropped(prev, now, zone)
         || (Dropped(prev, now, z) == Dropped(prev, now, zone) && Less(zone, z))
  }

  function DropVerdict(scope: Scope, zone: string, was: int, now: int): Verdict
    requires was != 0
  {
    Verdict(true, scope, zone, was, now, was - now, (was - now) as real / was as real)
  }

  /** What a verdict has to be. */
  ghost predicate IsVerdict(cfg: Config, prev: Baseline, now: Baseline, v: Verdict) {
    && (v.refuse <==> Refused(cfg, prev, now))
    && (!v.refuse ==> v == ACCEPT)
    && (v.refuse ==>
          if EmptyResult(prev, now.total).refuse then v == EmptyResult(prev, now.total)
          else if GlobalTrips(cfg, prev, now) then v == DropVerdict(ScopeGlobal, "", prev.total, now.total)
          else
            && IsWorst(cfg, prev, now, v.zone)
            && v == DropVerdict(ScopeZone, v.zone, Count(prev.zones, v.zone), Count(now.zones, v.zone)))
  }

  method Evaluate(cfg: Config, prev: Baseline, now: Baseline) returns (v: Verdict)
    ensures IsVerdict(cfg, prev, now, v)
  {
    v := EmptyResult(prev, now.total);
    if v.refuse {
      return;
    }
    if prev.total == 0 || !cfg.enabled {
      return ACCEPT;
    }
    var dropped := prev.total - now.total;
    if Trips(dropped, prev.total, cfg.globalDropFraction, cfg.globalMinRecords) {
      return Verdict(true, ScopeGlobal, "", prev.total, now.total, dropped, dropped as real / prev.total as real);
    }
    var zones := SortedKeys(prev.zones.Keys);
    v := WorstZone(cfg, prev, now, zones);
    Members(zones, prev.zones.Keys);
  }

  /** The worst of the zones looked at so far. */
  ghost predicate WorstOf(cfg: Config, prev: Baseline, now: Baseline, zones: seq<string>, worst: Verdict) {
    if forall z :: z in zones ==> !ZoneTrips(cfg, prev, now, z) then worst == ACCEPT
    else
      && worst.zone in zones && ZoneTrips(cfg, prev, now, worst.zone)
      && worst == DropVerdict(ScopeZone, worst.zone, Count(prev.zones, worst.zone), Count(now.zones, worst.zone))
      && forall z :: z in zones && z != worst.zone && ZoneTrips(cfg, prev, now, z) ==>
           Dropped(prev, now, z) < worst.dropped || (Dropped(prev, now, z) == worst.dropped && Less(worst.zone, z))
  }

  lemma {:induction false} OneMoreZone(cfg: Config, prev: Baseline, now: Baseline, zones: seq<string>, i: nat, worst: Verdict)
    requires i < |zones| && SortedStrings(zones) && zones[i] in prev.zones
    requires WorstOf(cfg, prev, now, zones[..i], worst)
    ensures var z := zones[i];
            WorstOf(cfg, prev, now, zones[..i + 1],
                    if ZoneTrips(cfg, prev, now, z) && Dropped(prev, now, z) > worst.dropped
                    then DropVerdict(ScopeZone, z, Count(prev.zones, z), Count(now.zones, z)) else worst)
  {
    hide Trips;
    PrefixStep(zones, i);
    TripsMeans(cfg, prev, now, zones[i]);
    assert forall z :: z in zones[..i + 1] <==> z in zones[..i] || z == zones[i];
    forall z | z in zones[..i] ensures Less(z, zones[i]) {
      var j :| 0 <= j < i && zones[j] == z;
    }
  }

  lemma TripsMeans(cfg: Config, prev: Baseline, now: Baseline, zone: string)
    ensures ZoneTrips(cfg, prev, now, zone) ==> Dropped(prev, now, zone) > 0 && Count(prev.zones, zone) > 0
  {
  }

  method WorstZone(cfg: Config, prev: Baseline, now: Baseline, zones: seq<string>) returns (worst: Verdict)
    requires SortedStrings(zones) && Enumerates(zones, prev.zones.Keys)
    ensures WorstOf(cfg, prev, now, zones, worst)
  {
    hide WorstOf, SortedStrings, Enumerates;
    Members(zones, prev.zones.Keys);
    worst := ACCEPT;
    var i := 0;
    NoneWorst(cfg, prev, now, zones);
    while i < |zones|
      invariant 0 <= i <= |zones|
      invariant WorstOf(cfg, prev, now, zones[..i], worst)
    {
      var zone := zones[i];
      OneMoreZone(cfg, prev, now, zones, i, worst);
      i := i + 1;
      var was := prev.zones[zone];
      var left := Count(now.zones, zone);
      var dropped := was - left;
      if !Trips(dropped, was, cfg.zoneDropFraction, cfg.zoneMinRecords) {
        continue;
      }
      if dropped > worst.dropped {
        worst := Verdict(true, ScopeZone, zone, was, left, dropped, dropped as real / was as real);
      }
    }
    assert zones[..i] == zones;
  }

  lemma NoneWorst(cfg: Config, prev: Baseline, now: Baseline, zones: seq<string>)
    ensures WorstOf(cfg, prev, now, zones[..0], ACCEPT)
  {
  }

  // ---- what the rules say ---------------------------------------------------------------------------------------------

  lemma ShareExceeds(dropped: int, was: int, fraction: real)
    requires was > 0
    ensures dropped as real / was as real > fraction <==> dropped as real > fraction * was as real
  {
    var q := dropped as real / was as real;
    assert q * was as real == dropped as real;
    if q > fraction { assert q * was as real > fraction * was as real; }
    if q <= fraction { assert q * was as real <= fraction * was as real; }
  }

  lemma {:induction false} TripsExactlyWhen(dropped: int, was: int, fraction: real, minRecords: int)
    ensures Trips(dropped, was, fraction, minRecords) <==>
              fraction > 0.0 && was > 0 && dropped > 0 && dropped > minRecords && dropped as real > fraction * was as real
  {
    if was > 0 { ShareExceeds(dropped, was, fraction); }
  }

  /**
   * Refusal rule by rule, for counts that are not negative. Nothing at all is never published over something. Otherwise a
   * set is refused exactly when the guard is on, something was published, and the total or the count of some zone published
   * before fell by more than both the floor and the share allowed; a share that is not positive switches its rule off.
   */
  lemma {:induction false} RefusedExactlyWhen(cfg: Config, prev: Baseline, now: Baseline)
    requires Counts(prev.zones) && Counts(now.zones) && prev.total >= 0 && now.total >= 0
    ensures Refused(cfg, prev, now) <==>
              || (now.total == 0 && (prev.total > 0 || prev.zonesOnDisk))
              || (cfg.enabled && prev.total > 0
                  && (|| (var fall := prev.total - now.total;
                          cfg.globalDropFraction > 0.0 && fall > 0 && fall > cfg.globalMinRecords
                          && fall as real > cfg.globalDropFraction * prev.total as real)
                      || exists z :: z in prev.zones &&
                           var fall := prev.zones[z] - if z in now.zones then now.zones[z] else 0;
                           cfg.zoneDropFraction > 0.0 && fall > 0 && fall > cfg.zoneMinRecords
                           && fall as real > cfg.zoneDropFraction * prev.zones[z] as real))
  {
    hide Trips;
    TripsExactlyWhen(prev.total - now.total, prev.total, cfg.globalDropFraction, cfg.globalMinRecords);
    forall z | z in prev.zones
      ensures var fall := prev.zones[z] - if z in now.zones then now.zones[z] else 0;
              ZoneTrips(cfg, prev, now, z) <==>
                cfg.zoneDropFraction > 0.0 && fall > 0 && fall > cfg.zoneMinRecords
                && fall as real > cfg.zoneDropFraction * prev.zones[z] as real
    {
      TripsExactlyWhen(Dropped(prev, now, z), Count(prev.zones, z), cfg.zoneDropFraction, cfg.zoneMinRecords);
    }
  }

  /** How many records of a zone are gone. */
  function Fall(prev: map<string, int>, now: map<string, int>, zone: string): int
    requires zone in prev
  {
    prev[zone] - if zone in now then now[zone] else 0
  }

  /** What a refusal quotes: the counts before and after of what was refused, and their difference. */
  lemma {:induction false} VerdictQuotes(cfg: Config, prev: Baseline, now: Baseline, v: Verdict)
    requires IsVerdict(cfg, prev, now, v) && v.refuse
    requires Counts(prev.zones) && Counts(now.zones) && prev.total >= 0 && now.total >= 0
    ensures v.dropped == v.prev - v.now && (v.prev > 0 ==> v.dropFraction * v.prev as real == v.dropped as real)
    ensures match v.scope
            case NoScope => false
            case ScopeEmpty => now.total == 0 && v.prev == prev.total && v.now == 0 && v.zone == ""
            case ScopeGlobal => now.total > 0 && v.prev == prev.total && v.now == now.total && v.zone == ""
            case ScopeZone =>
              now.total > 0 && v.zone in prev.zones && v.prev == prev.zones[v.zone] && v.dropped == Fall(prev.zones, now.zones, v.zone)
  {
    hide Less, GlobalTrips, ZoneTrips, Refused, IsWorst, DropVerdict, EmptyResult;
    EmptyQuotes(cfg, prev, now);
    GlobalIsThere(cfg, prev, now);
    if EmptyResult(prev, now.total).refuse {
      if v.prev > 0 { assert 1.0 * v.prev as real == v.dropped as real; }
    } else if GlobalTrips(cfg, prev, now) {
      DropQuotes(ScopeGlobal, "", prev.total, now.total);
    } else {
      WorstIsThere(cfg, prev, now, v.zone);
      DropQuotes(ScopeZone, v.zone, prev.zones[v.zone], Count(now.zones, v.zone));
    }
  }

  /** No other zone that fell beyond floor and share fell further than the one named, or as far with a lesser name. */
  lemma {:induction false} NamedZoneFellMost(cfg: Config, prev: Baseline, now: Baseline, v: Verdict, zone: string)
    requires IsVerdict(cfg, prev, now, v) && v.refuse && v.scope.ScopeZone? && Counts(prev.zones) && Counts(now.zones)
    requires zone in prev.zones && zone != v.zone
    ensures var fall := Fall(prev.zones, now.zones, zone);
            || fall <= cfg.zoneMinRecords || fall <= 0 || fall as real <= cfg.zoneDropFraction * prev.zones[zone] as real
            || fall < v.dropped || (fall == v.dropped && Less(v.zone, zone))
  {
    hide Less, GlobalTrips, ZoneTrips, Refused, IsWorst;
    WorstIsThere(cfg, prev, now, v.zone);
    FellLess(cfg, prev, now, v.zone, zone);
  }

  lemma EmptyQuotes(cfg: Config, prev: Baseline, now: Baseline)
    requires prev.total >= 0 && now.total >= 0
    ensures var v := EmptyResult(prev, now.total);
            v.refuse ==> now.total == 0 && v == Verdict(true, ScopeEmpty, "", prev.total, 0, prev.total, v.dropFraction)
                         && (prev.total > 0 ==> v.dropFraction == 1.0)
    ensures Refused(cfg, prev, now) && !EmptyResult(prev, now.total).refuse ==> now.total > 0
  {
    hide GlobalTrips, ZoneTrips;
  }

  lemma DropQuotes(scope: Scope, zone: string, was: int, now: int)
    requires was > 0
    ensures var v := DropVerdict(scope, zone, was, now);
            && v == Verdict(true, scope, zone, was, now, was - now, v.dropFraction)
            && v.dropFraction * was as real == v.dropped as real
  {
    ShareTimes(was - now, was);
  }

  lemma WorstIsThere(cfg: Config, prev: Baseline, now: Baseline, zone: string)
    requires IsWorst(cfg, prev, now, zone)
    ensures zone in prev.zones && Count(prev.zones, zone) == prev.zones[zone] > 0
    ensures Dropped(prev, now, zone) == Fall(prev.zones, now.zones, zone) == prev.zones[zone] - Count(now.zones, zone)
    ensures cfg.zoneDropFraction > 0.0
  {
  }

  lemma GlobalIsThere(cfg: Config, prev: Baseline, now: Baseline)
    ensures GlobalTrips(cfg, prev, now) ==> prev.total > 0
  {
  }

  lemma {:induction false} FellLess(cfg: Config, prev: Baseline, now: Baseline, worst: string, zone: string)
    requires IsWorst(cfg, prev, now, worst) && zone in prev.zones && zone != worst && Counts(prev.zones) && Counts(now.zones)
    requires cfg.zoneDropFraction > 0.0
    ensures var fall := Fall(prev.zones, now.zones, zone);
            || fall <= cfg.zoneMinRecords || fall <= 0 || fall as real <= cfg.zoneDropFraction * prev.zones[zone] as real
            || fall < Dropped(prev, now, worst) || (fall == Dropped(prev, now, worst) && Less(worst, zone))
  {
    hide Trips, Less;
    TripsExactlyWhen(Dropped(prev, now, zone), Count(prev.zones, zone), cfg.zoneDropFraction, cfg.zoneMinRecords);
  }

  lemma ShareTimes(dropped: int, was: int)
    requires was > 0
    ensures dropped as real / was as real * was as real == dropped as real
  {
  }

  // ---- what the guard guarantees ----------------------------------------------------------------------------------

  /** The verdict is one and the same whatever order a map lists its zones in. */
  lemma VerdictIsUnique(cfg: Config, prev: Baseline, now: Baseline, v: Verdict, w: Verdict)
    requires IsVerdict(cfg, prev, now, v) && IsVerdict(cfg, prev, now, w)
    ensures v == w
  {
    hide Trips;
    LessTotal(v.zone, w.zone);
  }

  lemma {:induction false} CountRemove(m: map<string, int>, zone: string)
    ensures Sum(m) == Count(m, zone) + Sum(m - {zone}) && |m - {zone}| <= |m|
    ensures forall y :: Count(m - {zone}, y) == if y == zone then 0 else Count(m, y)
    ensures Counts(m) ==> Counts(m - {zone}) && Count(m, zone) >= 0
    ensures zone in m ==> |m - {zone}| < |m|
  {
    if zone in m {
      SumRemove(m, zone);
      assert m.Keys == (m - {zone}).Keys + {zone};
    } else {
      assert m - {zone} == m;
    }
  }

  lemma SumEmpty()
    ensures Sum(map[]) == 0
  {
  }

  lemma SomeKey(a: map<string, int>, b: map<string, int>) returns (z: string)
    requires a != map[] || b != map[]
    ensures z in a || z in b
  {
    if a != map[] {
      z :| z in a;
    } else {
      z :| z in b;
    }
  }

  lemma {:induction false} SumMonotone(a: map<string, int>, b: map<string, int>)
    requires Counts(a) && Counts(b) && forall z :: Count(a, z) <= Count(b, z)
    ensures 0 <= Sum(a) <= Sum(b)
    decreases |a| + |b|
  {
    hide Count, Counts, Sum;
    if a == map[] && b == map[] {
      SumEmpty();
    } else {
      var z := SomeKey(a, b);
      CountRemove(a, z);
      CountRemove(b, z);
      assert Count(a, z) <= Count(b, z);
      SumMonotone(a - {z}, b - {z});
    }
  }

  lemma FurtherDropTrips(now: int, less: int, was: int, fraction: real, minRecords: int)
    requires less <= now && Trips(was - now, was, fraction, minRecords)
    ensures Trips(was - less, was, fraction, minRecords)
  {
    assert (was - less) as real / was as real >= (was - now) as real / was as real;
  }

  /** Refusal is anti-monotone: a candidate with no more records in any zone than a refused one is refused too. */
  lemma RefusalIsAntiMonotone(cfg: Config, prev: Baseline, now: Baseline, less: Baseline)
    requires Counted(now) && Counted(less) && forall z :: Count(less.zones, z) <= Count(now.zones, z)
    requires Refused(cfg, prev, now)
    ensures Refused(cfg, prev, less)
  {
    hide Trips;
    SumMonotone(less.zones, now.zones);
    if GlobalTrips(cfg, prev, now) {
      FurtherDropTrips(now.total, less.total, prev.total, cfg.globalDropFraction, cfg.globalMinRecords);
    }
    forall z | ZoneTrips(cfg, prev, now, z) ensures ZoneTrips(cfg, prev, less, z) {
      FurtherDropTrips(Count(now.zones, z), Count(less.zones, z), Count(prev.zones, z), cfg.zoneDropFraction, cfg.zoneMinRecords);
    }
  }

  /** Consecutive published sets, each accepted over the one before it without consent. */
  ghost predicate AcceptedRun(cfg: Config, run: seq<Baseline>) {
    && (forall i :: 0 <= i < |run| ==> Counted(run[i]))
    && (forall i :: 0 <= i < |run| - 1 ==> !Refused(cfg, run[i], run[i + 1]))
  }

  function Power(x: real, k: nat): (p: real)
    ensures x >= 0.0 ==> p >= 0.0
  {
    if k == 0 then 1.0 else x * Power(x, k - 1)
  }

  /** Without consent, a set that was not empty never becomes empty. */
  lemma {:induction false} RunNeverEmpties(cfg: Config, run: seq<Baseline>, k: nat)
    requires AcceptedRun(cfg, run) && k < |run| && run[0].total > 0
    ensures run[k].total > 0
  {
    if k > 0 {
      RunNeverEmpties(cfg, run, k - 1);
      assert !Refused(cfg, run[k - 1], run[k]);
    }
  }

  lemma OneStepBound(cfg: Config, prev: Baseline, now: Baseline)
    requires cfg.enabled && cfg.globalDropFraction > 0.0 && prev.total > 0
    requires cfg.globalMinRecords as real <= cfg.globalDropFraction * prev.total as real
    requires !Refused(cfg, prev, now)
    ensures now.total as real >= (1.0 - cfg.globalDropFraction) * prev.total as real
  {
    var dropped, f := prev.total - now.total, cfg.globalDropFraction;
    assert !GlobalTrips(cfg, prev, now);
    if dropped > cfg.globalMinRecords && dropped > 0 {
      assert dropped as real / prev.total as real <= f;
      assert dropped as real <= f * prev.total as real;
    }
  }

  lemma ScaleBound(a: real, b: real, x: real, p: real, start: real)
    requires a >= x * b && b >= p * start && x >= 0.0
    ensures a >= x * p * start
  {
    assert x * b >= x * (p * start);
  }

  /**
   * The slowest leak the global rule lets through: while the total is at or above minRecords / fraction, k accepted
   * polls leave at least (1 - fraction)^k of it.
   */
  lemma {:induction false} RunBound(cfg: Config, run: seq<Baseline>, k: nat)
    requires AcceptedRun(cfg, run) && k < |run| && run[0].total > 0
    requires cfg.enabled && 0.0 < cfg.globalDropFraction <= 1.0
    requires forall i :: 0 <= i < k ==> cfg.globalMinRecords as real <= cfg.globalDropFraction * run[i].total as real
    ensures run[k].total as real >= Power(1.0 - cfg.globalDropFraction, k) * run[0].total as real
  {
    if k > 0 {
      RunBound(cfg, run, k - 1);
      RunNeverEmpties(cfg, run, k - 1);
      OneStepBound(cfg, run[k - 1], run[k]);
      ScaleBound(run[k].total as real, run[k - 1].total as real, 1.0 - cfg.globalDropFraction,
                 Power(1.0 - cfg.globalDropFraction, k - 1), run[0].total as real);
    }
  }

  // ---- consent ------------------------------------------------------------------------------------------------------

  /** Single-use operator consent. */
  class Override {
    var armed: bool

    constructor ()
      ensures !armed
    {
      armed := false;
    }

    method Arm()
      modifies this
      ensures armed
    {
      armed := true;
    }

    method ConsumeIfArmed() returns (was: bool)
      modifies this
      ensures was == old(armed) && !armed
    {
      was := armed;
      armed := false;
    }
  }
}
