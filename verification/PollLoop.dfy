/**
 * The sidecar's poll loop with its two guards: what it publishes, over whole runs of ticks, forced polls, merge
 * signals and webhook polls (run, fetchNetbox, mergeAllowed, readyToServe, webhookPollAllowed in cmd/sidecar/main.go).
 */
module PollLoop {
  import opened Wrappers
  import opened Records
  import opened ShrinkGuard
  import opened ZoneDir
  import StripLabel

  datatype Settings = Settings(guard: Config, strip: bool, domainSuffix: string, webhookPollMinInterval: int)

  /** What NetBox and discovery answer: an error, or how many raw records there were and the zones found in them. */
  datatype FetchResult = FetchFailed | Fetched(raw: nat, zones: Option<ZoneMap>)

  /** What writing the zones did: the files there afterwards, whether it was without error and whether any changed. */
  datatype MergeResult = MergeResult(files: Files, ok: bool, changed: bool)

  /** A fetch that was accepted: how many raw records it had, its counts, and whether consent was honoured for it. */
  datatype Acceptance = Acceptance(raw: nat, baseline: Baseline, honoured: bool)

  /** What the replicas are told: to reload, all of them, or only those that still owe one. */
  datatype PushKind = Reload | Reconcile

  /** A push, and the files there at that moment. */
  datatype Push = Push(kind: PushKind, files: Files)

  /**
   * What a run has done: consents given, fetches accepted, times of webhook polls, pushes made before readiness, and
   * all pushes in order.
   */
  datatype Tally = Tally(arms: nat, accepted: seq<Acceptance>, webhookPolls: seq<int>, unreadyPushes: nat, pushes: seq<Push>)

  /** `files` are the zone files as a listing of the directory shows them. */
  datatype State = State(
    baseline: Baseline,
    fetched: bool,
    zones: ZoneMap,
    lastWebhookPoll: Option<int>,
    files: Files,
    armed: bool,
    ready: bool,
    firstSuccess: bool,
    tally: Tally)

  // ---- the small decisions ---------------------------------------------------------------------------------

  function MergeAllowed(fetched: bool, hasExistingZones: bool): bool { fetched || !hasExistingZones }

  function ReadyToServe(publishedThisProcess: bool, hasExistingZones: bool): bool { publishedThisProcess || hasExistingZones }

  /** The zero time is longer ago than any cooldown. */
  function WebhookPollAllowed(last: Option<int>, now: int, min: int): bool { last.None? || now - last.value >= min }

  function CountsOf(zones: ZoneMap): map<string, int> { map z | z in zones :: |zones[z]| }

  ghost function BaselineOf(zones: ZoneMap): Baseline { Baseline(Sum(CountsOf(zones)), CountsOf(zones), false) }

  function Published(st: Settings, zones: ZoneMap): ZoneMap {
    if st.strip then StripLabel.StrippedZones(zones, st.domainSuffix) else zones
  }

  // ---- one fetch -----------------------------------------------------------------------------------------------

  predicate RawEmptyRefused(s: State, f: FetchResult) { f.Fetched? && EmptyResult(s.baseline, f.raw).refuse }

  /** The fetch reaches the guard, or its empty-result rule: consent is spent, honoured or not. */
  predicate SpendsConsent(s: State, f: FetchResult) { f.Fetched? && (RawEmptyRefused(s, f) || f.zones.Some?) }

  ghost predicate GuardRefuses(st: Settings, s: State, f: FetchResult)
    requires f.Fetched? && f.zones.Some?
  {
    Refused(st.guard, s.baseline, BaselineOf(f.zones.value))
  }

  ghost predicate Accepted(st: Settings, s: State, f: FetchResult) {
    f.Fetched? && !RawEmptyRefused(s, f) && f.zones.Some? && (GuardRefuses(st, s, f) ==> s.armed)
  }

  ghost predicate Honours(st: Settings, s: State, f: FetchResult) {
    Accepted(st, s, f) && GuardRefuses(st, s, f)
  }

  /** The state after a fetch: an accepted one replaces the baseline and the zones, a refused one neither. */
  ghost function AfterFetch(st: Settings, s: State, f: FetchResult): State {
    var spent := s.(armed := if SpendsConsent(s, f) then false else s.armed);
    if Accepted(st, s, f) then
      spent.(baseline := BaselineOf(f.zones.value), fetched := true, zones := Published(st, f.zones.value),
             tally := s.tally.(accepted := s.tally.accepted + [Acceptance(f.raw, BaselineOf(f.zones.value), Honours(st, s, f))]))
    else spent
  }

  // ---- one merge -------------------------------------------------------------------------------------------------

  function MergeRuns(s: State): bool { MergeAllowed(s.fetched, s.files != map[]) }

  function MergeSucceeds(s: State, r: MergeResult): bool { MergeRuns(s) && r.ok }

  function AfterMerge(s: State, r: MergeResult): State { if MergeRuns(s) then s.(files := r.files) else s }

  /** A push to the replicas, and whether this process is not ready yet. */
  function AfterPush(s: State, kind: PushKind): State {
    s.(tally := s.tally.(
        pushes := s.tally.pushes + [Push(kind, s.files)],
        unreadyPushes := if s.ready then s.tally.unreadyPushes else s.tally.unreadyPushes + 1))
  }

  function MarkedReady(s: State): State { if s.firstSuccess then s else s.(firstSuccess := true, ready := true) }

  // ---- the events ---------------------------------------------------------------------------------------------------

  datatype Event =
    | Tick(fetch: FetchResult, merge: MergeResult)
    | ForcePoll(fetch: FetchResult, merge: MergeResult)
    | MergeSignal(merge: MergeResult)
    | WebhookPoll(now: int, fetch: FetchResult, merge: MergeResult)
    | Arm

  /** The first poll and a tick: readiness comes before the push. A tick that changes nothing only reconciles. */
  ghost function AfterCycle(st: Settings, s: State, f: FetchResult, r: MergeResult, push: Option<PushKind>): State {
    var polled := AfterFetch(st, s, f);
    var merged := AfterMerge(polled, r);
    if !MergeSucceeds(polled, r) then merged
    else if push.Some? then AfterPush(MarkedReady(merged), push.value)
    else MarkedReady(merged)
  }

  function FirstPoll(r: MergeResult): Option<PushKind> { if r.changed then Some(Reload) else None }

  function OfTick(r: MergeResult): Option<PushKind> { Some(if r.changed then Reload else Reconcile) }

  /** A forced poll or a webhook poll: a push on change, and no word on readiness. */
  ghost function AfterPoll(st: Settings, s: State, f: FetchResult, r: MergeResult): State {
    var polled := AfterFetch(st, s, f);
    AfterMergeOnly(polled, r)
  }

  function AfterMergeOnly(s: State, r: MergeResult): State {
    var merged := AfterMerge(s, r);
    if MergeSucceeds(s, r) && r.changed then AfterPush(merged, Reload) else merged
  }

  ghost function Step(st: Settings, s: State, e: Event): State {
    match e
    case Tick(f, r) => AfterCycle(st, s, f, r, OfTick(r))
    case ForcePoll(f, r) => AfterPoll(st, s, f, r)
    case MergeSignal(r) => AfterMergeOnly(s, r)
    case WebhookPoll(now, f, r) =>
      if !WebhookPollAllowed(s.lastWebhookPoll, now, st.webhookPollMinInterval) then s
      else AfterPoll(st, s.(lastWebhookPoll := Some(now), tally := s.tally.(webhookPolls := s.tally.webhookPolls + [now])), f, r)
    case Arm => s.(armed := true, tally := s.tally.(arms := s.tally.arms + 1))
  }

  /**
   * A process as it starts, before its first fetch: it is ready if zones of a previous run are there. Consent may have
   * been given already, since the service that takes it is up before the loop.
   */
  function Boot(files: Files, arms: nat): State {
    State(Baseline(0, map[], files != map[]), false, map[], None, files, arms > 0, ReadyToServe(false, files != map[]), false,
          Tally(arms, [], [], 0, []))
  }

  ghost function Run(st: Settings, s: State, events: seq<Event>): State
    decreases |events|
  {
    if events == [] then s else Run(st, Step(st, s, events[0]), events[1..])
  }

  /** A whole run: consents given before the first fetch is judged, the first poll, then the events. */
  ghost function Process(st: Settings, files: Files, arms: nat, f: FetchResult, r: MergeResult, events: seq<Event>): State {
    Run(st, AfterCycle(st, Boot(files, arms), f, r, FirstPoll(r)), events)
  }

  // ---- the loop itself -----------------------------------------------------------------------------------------------

  class PollLoop {
    const settings: Settings
    const consent: Override
    var lastBaseline: Baseline
    var fetchSucceededOnce: bool
    var lastNetboxZones: ZoneMap
    var lastWebhookPoll: Option<int>
    var files: Files
    var ready: bool
    var firstSuccess: bool
    ghost var tally: Tally

    ghost function Now(): State
      reads this, consent
    {
      State(lastBaseline, fetchSucceededOnce, lastNetboxZones, lastWebhookPoll, files, consent.armed, ready, firstSuccess, tally)
    }

    constructor (settings: Settings, files: Files)
      ensures this.settings == settings && fresh(consent) && Now() == Boot(files, 0)
    {
      this.settings, this.files := settings, files;
      consent := new Override();
      lastBaseline := Baseline(0, map[], files != map[]);
      fetchSucceededOnce, firstSuccess := false, false;
      lastNetboxZones, lastWebhookPoll := map[], None;
      ready := ReadyToServe(false, files != map[]);
      tally := Tally(0, [], [], 0, []);
    }

    /** None when the fetch fails or is refused. */
    method FetchNetbox(f: FetchResult) returns (accepted: Option<(ZoneMap, Baseline)>)
      modifies consent
      ensures accepted.Some? <==> old(Accepted(settings, Now(), f))
      ensures accepted.Some? ==> accepted.value == (f.zones.value, BaselineOf(f.zones.value))
      ensures consent.armed == if old(SpendsConsent(Now(), f)) then false else old(consent.armed)
    {
      if f.FetchFailed? {
        return None;
      }
      var empty := EmptyResult(lastBaseline, f.raw);
      if empty.refuse {
        var discarded := consent.ConsumeIfArmed();
        return None;
      }
      if f.zones.None? {
        return None;
      }
      var candidate := FromZoneCounts(CountsOf(f.zones.value));
      var verdict := Evaluate(settings.guard, lastBaseline, candidate);
      var consumed := consent.ConsumeIfArmed();
      if consumed && verdict.refuse {
        verdict := ACCEPT;
      }
      if verdict.refuse {
        return None;
      }
      return Some((f.zones.value, candidate));
    }

    method DoFetchNetbox(f: FetchResult) returns (zones: Option<ZoneMap>)
      modifies this, consent
      ensures zones.Some? <==> old(Accepted(settings, Now(), f))
      ensures zones.Some? ==> zones.value == AfterFetch(settings, old(Now()), f).zones
      ensures Now() == AfterFetch(settings, old(Now()), f).(zones := old(lastNetboxZones))
    {
      hide Refused, BaselineOf, EmptyResult;
      ghost var honoured := Honours(settings, Now(), f);
      var accepted := FetchNetbox(f);
      if accepted.None? {
        return None;
      }
      lastBaseline := accepted.value.1;
      fetchSucceededOnce := true;
      tally := tally.(accepted := tally.accepted + [Acceptance(f.raw, lastBaseline, honoured)]);
      var zm := accepted.value.0;
      if settings.strip {
        zm := StripZones(zm, settings.domainSuffix);
      }
      return Some(zm);
    }

    /** `r` is what writing the zones does, if it is allowed. */
    method GuardedMergeAndWrite(r: MergeResult) returns (ok: bool)
      modifies this
      ensures Now() == AfterMerge(old(Now()), r) && ok == old(MergeSucceeds(Now(), r))
    {
      if !MergeAllowed(fetchSucceededOnce, files != map[]) {
        return false;
      }
      files := r.files;
      return r.ok;
    }

    /** The replicas are told. */
    ghost method Tell(kind: PushKind)
      modifies this
      ensures Now() == AfterPush(old(Now()), kind)
    {
      tally := tally.(
        pushes := tally.pushes + [Push(kind, files)],
        unreadyPushes := if ready then tally.unreadyPushes else tally.unreadyPushes + 1);
    }

    /** A fetch whose zones, if accepted, become the ones to merge. */
    method Poll(f: FetchResult)
      modifies this, consent
      ensures Now() == AfterFetch(settings, old(Now()), f)
    {
      hide AfterFetch, Accepted;
      KeepsZones(settings, Now(), f);
      var zones := DoFetchNetbox(f);
      if zones.Some? {
        lastNetboxZones := zones.value;
      }
    }

    method MarkReadyOnce()
      modifies this
      ensures Now() == MarkedReady(old(Now()))
    {
      if !firstSuccess {
        firstSuccess, ready := true, true;
      }
    }

    /** The first poll, before the loop. */
    method Start(f: FetchResult, r: MergeResult)
      modifies this, consent
      ensures Now() == AfterCycle(settings, old(Now()), f, r, FirstPoll(r))
    {
      hide AfterFetch, Accepted;
      Poll(f);
      var ok := GuardedMergeAndWrite(r);
      if ok {
        MarkReadyOnce();
        if r.changed {
          Tell(Reload);
        }
      }
    }

    /** The operator consents. */
    method OnArm()
      modifies this, consent
      ensures Now() == Step(settings, old(Now()), Arm)
    {
      consent.Arm();
      tally := tally.(arms := tally.arms + 1);
    }

    method OnTick(f: FetchResult, r: MergeResult)
      modifies this, consent
      ensures Now() == Step(settings, old(Now()), Tick(f, r))
    {
      hide AfterFetch, Accepted;
      Poll(f);
      var ok := GuardedMergeAndWrite(r);
      if ok {
        MarkReadyOnce();
        if r.changed {
          Tell(Reload);
        } else {
          Tell(Reconcile);
        }
      }
    }

    method PollAndMerge(f: FetchResult, r: MergeResult)
      modifies this, consent
      ensures Now() == AfterPoll(settings, old(Now()), f, r)
    {
      hide AfterFetch, Accepted;
      Poll(f);
      var ok := GuardedMergeAndWrite(r);
      if ok && r.changed {
        Tell(Reload);
      }
    }

    method OnMergeSignal(r: MergeResult)
      modifies this
      ensures Now() == Step(settings, old(Now()), MergeSignal(r))
    {
      var ok := GuardedMergeAndWrite(r);
      if ok && r.changed {
        Tell(Reload);
      }
    }

    method OnWebhookPollSignal(now: int, f: FetchResult, r: MergeResult)
      modifies this, consent
      ensures Now() == Step(settings, old(Now()), WebhookPoll(now, f, r))
    {
      if !WebhookPollAllowed(lastWebhookPoll, now, settings.webhookPollMinInterval) {
        return;
      }
      lastWebhookPoll := Some(now);
      tally := tally.(webhookPolls := tally.webhookPolls + [now]);
      PollAndMerge(f, r);
    }
  }

  lemma KeepsZones(st: Settings, s: State, f: FetchResult)
    ensures !Accepted(st, s, f) ==> AfterFetch(st, s, f).zones == s.zones
  {
    hide Refused, BaselineOf;
  }

  method StripZones(zm: ZoneMap, domainSuffix: string) returns (out: ZoneMap)
    ensures out == StripLabel.StrippedZones(zm, domainSuffix)
  {
    hide StripLabel.Stripped;
    out := zm;
    var todo := zm.Keys;
    while todo != {}
      invariant todo <= zm.Keys == out.Keys
      invariant forall z :: z in zm ==> out[z] == if z in todo then zm[z] else StripLabel.Stripped(zm[z], domainSuffix)
      decreases |todo|
    {
      var zone :| zone in todo;
      var recs := StripLabel.StripDCLabel(out[zone], domainSuffix);
      out := out[zone := recs];
      todo := todo - {zone};
    }
  }

  // ---- what every event keeps --------------------------------------------------------------------------------------------

  lemma CountsSurviveStripping(st: Settings, zones: ZoneMap)
    ensures CountsOf(Published(st, zones)) == CountsOf(zones)
  {
    StripLabel.StrippedCounts(zones, st.domainSuffix);
  }

  /** Before any fetch is accepted nothing is counted and no zone known; afterwards the counts are those of the zones. */
  ghost predicate BaselineFits(zonesAtStart: bool, s: State) {
    if s.fetched then s.baseline == BaselineOf(s.zones)
    else s.baseline == Baseline(0, map[], zonesAtStart) && s.zones == map[]
  }

  function LastAccepted(zonesAtStart: bool, accepted: seq<Acceptance>): Baseline {
    if accepted == [] then Baseline(0, map[], zonesAtStart) else accepted[|accepted| - 1].baseline
  }

  /** What justifies an acceptance after those before it. */
  ghost predicate Justified(st: Settings, prev: Baseline, a: Acceptance) {
    && (a.honoured || !Refused(st.guard, prev, a.baseline))
    && (a.raw == 0 ==> prev.total <= 0 && !prev.zonesOnDisk)
    && Counted(a.baseline)
  }

  ghost predicate AllJustified(st: Settings, zonesAtStart: bool, accepted: seq<Acceptance>) {
    forall i :: 0 <= i < |accepted| ==> Justified(st, LastAccepted(zonesAtStart, accepted[..i]), accepted[i])
  }

  function Honoured(accepted: seq<Acceptance>): nat {
    if accepted == [] then 0
    else Honoured(accepted[..|accepted| - 1]) + if accepted[|accepted| - 1].honoured then 1 else 0
  }

  ghost predicate Guarded(st: Settings, zonesAtStart: bool, s: State) {
    && BaselineFits(zonesAtStart, s)
    && s.baseline == LastAccepted(zonesAtStart, s.tally.accepted)
    && AllJustified(st, zonesAtStart, s.tally.accepted)
    && Honoured(s.tally.accepted) + (if s.armed then 1 else 0) <= s.tally.arms
  }

  lemma {:induction false} AcceptanceJustified(st: Settings, zonesAtStart: bool, accepted: seq<Acceptance>, a: Acceptance)
    requires AllJustified(st, zonesAtStart, accepted)
    requires Justified(st, LastAccepted(zonesAtStart, accepted), a)
    ensures AllJustified(st, zonesAtStart, accepted + [a])
    ensures Honoured(accepted + [a]) == Honoured(accepted) + if a.honoured then 1 else 0
  {
    hide Justified;
    var all := accepted + [a];
    assert all[..|accepted|] == accepted;
    forall i | 0 <= i < |all| ensures Justified(st, LastAccepted(zonesAtStart, all[..i]), all[i]) {
      if i < |accepted| { assert all[..i] == accepted[..i]; }
    }
  }

  lemma {:induction false} FetchKeepsGuarded(st: Settings, zonesAtStart: bool, s: State, f: FetchResult)
    requires Guarded(st, zonesAtStart, s)
    ensures Guarded(st, zonesAtStart, AfterFetch(st, s, f))
  {
    hide Refused, AllJustified, BaselineOf, Honoured, Published;
    if Accepted(st, s, f) {
      BaselineIsCounted(f.zones.value);
      AcceptanceJustified(st, zonesAtStart, s.tally.accepted, Acceptance(f.raw, BaselineOf(f.zones.value), Honours(st, s, f)));
      CountsSurviveStripping(st, f.zones.value);
      SameCounts(f.zones.value, Published(st, f.zones.value));
    }
  }

  lemma BaselineIsCounted(zones: ZoneMap)
    ensures Counted(BaselineOf(zones))
  {
  }

  lemma SameCounts(a: ZoneMap, b: ZoneMap)
    requires CountsOf(a) == CountsOf(b)
    ensures BaselineOf(a) == BaselineOf(b)
  {
  }

  /** t is the state a fetch left, but for what merging and pushing touch. */
  ghost predicate OnlyMerged(polled: State, r: MergeResult, t: State) {
    && t.baseline == polled.baseline && t.fetched == polled.fetched && t.zones == polled.zones
    && t.armed == polled.armed && t.lastWebhookPoll == polled.lastWebhookPoll
    && t.tally.arms == polled.tally.arms && t.tally.accepted == polled.tally.accepted
    && t.tally.webhookPolls == polled.tally.webhookPolls
    && (t.files == if MergeRuns(polled) then r.files else polled.files)
  }

  /** What the merge half of an event leaves alone. */
  lemma MergeKeeps(st: Settings, s: State, f: FetchResult, r: MergeResult, push: Option<PushKind>)
    ensures OnlyMerged(AfterFetch(st, s, f), r, AfterCycle(st, s, f, r, push))
    ensures OnlyMerged(AfterFetch(st, s, f), r, AfterPoll(st, s, f, r))
    ensures AfterFetch(st, s, f).files == s.files
  {
    hide AfterFetch;
    FetchKeepsFiles(st, s, f);
  }

  lemma FetchKeepsFiles(st: Settings, s: State, f: FetchResult)
    ensures AfterFetch(st, s, f).files == s.files
    ensures AfterFetch(st, s, f).ready == s.ready && AfterFetch(st, s, f).firstSuccess == s.firstSuccess
    ensures AfterFetch(st, s, f).tally.unreadyPushes == s.tally.unreadyPushes
    ensures AfterFetch(st, s, f).tally.webhookPolls == s.tally.webhookPolls && AfterFetch(st, s, f).lastWebhookPoll == s.lastWebhookPoll
  {
    hide Refused, BaselineOf;
  }

  lemma {:induction false} StepKeepsGuarded(st: Settings, zonesAtStart: bool, s: State, e: Event)
    requires Guarded(st, zonesAtStart, s)
    ensures Guarded(st, zonesAtStart, Step(st, s, e))
  {
    hide AfterFetch, AllJustified, BaselineOf, AfterCycle, AfterPoll;
    match e
    case Tick(f, r) =>
      FetchKeepsGuarded(st, zonesAtStart, s, f);
      MergeKeeps(st, s, f, r, OfTick(r));
    case ForcePoll(f, r) =>
      FetchKeepsGuarded(st, zonesAtStart, s, f);
      MergeKeeps(st, s, f, r, OfTick(r));
    case WebhookPoll(now, f, r) =>
      var t := s.(lastWebhookPoll := Some(now), tally := s.tally.(webhookPolls := s.tally.webhookPolls + [now]));
      FetchKeepsGuarded(st, zonesAtStart, t, f);
      MergeKeeps(st, t, f, r, OfTick(r));
    case MergeSignal(r) =>
    case Arm =>
  }

  lemma {:induction false} RunKeepsGuarded(st: Settings, zonesAtStart: bool, s: State, events: seq<Event>)
    requires Guarded(st, zonesAtStart, s)
    ensures Guarded(st, zonesAtStart, Run(st, s, events))
    decreases |events|
  {
    hide Guarded, Step;
    if events != [] {
      StepKeepsGuarded(st, zonesAtStart, s, events[0]);
      RunKeepsGuarded(st, zonesAtStart, Step(st, s, events[0]), events[1..]);
    }
  }

  /**
   * Guarded publication: over any run, every accepted fetch passed the guard against the one accepted before it or
   * spent a consent; no more consents are honoured than were given; an empty NetBox answer is never accepted over a
   * baseline or over zones found at the start; and the baseline always counts the zones that are published.
   */
  lemma GuardedPublication(st: Settings, files: Files, arms: nat, f: FetchResult, r: MergeResult, events: seq<Event>)
    ensures var s := Process(st, files, arms, f, r, events);
            && AllJustified(st, files != map[], s.tally.accepted)
            && Honoured(s.tally.accepted) <= s.tally.arms
            && s.baseline == LastAccepted(files != map[], s.tally.accepted)
            && BaselineFits(files != map[], s)
  {
    hide AfterFetch, AllJustified, BaselineOf, AfterCycle, AfterPoll, Run, LastAccepted, Honoured;
    var s := Boot(files, arms);
    BootGuarded(st, files, arms);
    FetchKeepsGuarded(st, files != map[], s, f);
    MergeKeeps(st, s, f, r, FirstPoll(r));
    RunKeepsGuarded(st, files != map[], AfterCycle(st, s, f, r, FirstPoll(r)), events);
  }

  lemma BootGuarded(st: Settings, files: Files, arms: nat)
    ensures Guarded(st, files != map[], Boot(files, arms))
  {
  }

  // ---- files -------------------------------------------------------------------------------------------------------------

  /**
   * Zone files that are there before the first accepted fetch stay exactly as they are until it: those of a previous
   * run, and also those that a first merge without NetBox data published from the dynamic store, which close the gate
   * on every later one.
   */
  lemma {:induction false} FilesFrozenUntilFetch(st: Settings, s: State, events: seq<Event>)
    requires !s.fetched && s.files != map[]
    ensures !Run(st, s, events).fetched ==> Run(st, s, events).files == s.files
    decreases |events|
  {
    hide AfterFetch, AfterCycle, AfterPoll;
    if events != [] {
      StepFrozen(st, s, events[0]);
      var t := Step(st, s, events[0]);
      if t.fetched {
        FetchedForGood(st, t, events[1..]);
      } else {
        FilesFrozenUntilFetch(st, t, events[1..]);
      }
    }
  }

  lemma FetchFetches(st: Settings, s: State, f: FetchResult)
    ensures s.fetched ==> AfterFetch(st, s, f).fetched
  {
    hide Refused, BaselineOf;
  }

  lemma {:induction false} StepFrozen(st: Settings, s: State, e: Event)
    requires !s.fetched && s.files != map[]
    ensures !Step(st, s, e).fetched ==> Step(st, s, e).files == s.files
  {
    hide AfterFetch, AfterCycle, AfterPoll;
    match e
    case Tick(f, r) =>
      MergeKeeps(st, s, f, r, OfTick(r));
      FetchKeepsFiles(st, s, f);
    case ForcePoll(f, r) =>
      MergeKeeps(st, s, f, r, OfTick(r));
      FetchKeepsFiles(st, s, f);
    case WebhookPoll(now, f, r) =>
      var t := s.(lastWebhookPoll := Some(now), tally := s.tally.(webhookPolls := s.tally.webhookPolls + [now]));
      MergeKeeps(st, t, f, r, OfTick(r));
      FetchKeepsFiles(st, t, f);
    case MergeSignal(r) =>
    case Arm =>
  }

  lemma {:induction false} FetchedForGood(st: Settings, s: State, events: seq<Event>)
    requires s.fetched
    ensures Run(st, s, events).fetched
    decreases |events|
  {
    hide AfterFetch, AfterCycle, AfterPoll;
    if events != [] {
      match events[0] {
        case Tick(f, r) =>
          FetchFetches(st, s, f);
          MergeKeeps(st, s, f, r, OfTick(r));
        case ForcePoll(f, r) =>
          FetchFetches(st, s, f);
          MergeKeeps(st, s, f, r, OfTick(r));
        case WebhookPoll(now, f, r) =>
          var t := s.(lastWebhookPoll := Some(now), tally := s.tally.(webhookPolls := s.tally.webhookPolls + [now]));
          FetchFetches(st, t, f);
          MergeKeeps(st, t, f, r, OfTick(r));
        case MergeSignal(r) =>
        case Arm =>
      }
      FetchedForGood(st, Step(st, s, events[0]), events[1..]);
    }
  }

  /** The zone files found at the start are untouched until the first accepted fetch. */
  lemma CachedZonesUntouched(st: Settings, files: Files, arms: nat, f: FetchResult, r: MergeResult, events: seq<Event>)
    requires files != map[]
    ensures var s := Process(st, files, arms, f, r, events); !s.fetched ==> s.files == files
  {
    hide AfterFetch, AfterCycle, Run;
    var s := Boot(files, arms);
    var first := AfterCycle(st, s, f, r, FirstPoll(r));
    MergeKeeps(st, s, f, r, FirstPoll(r));
    FetchKeepsFiles(st, s, f);
    if first.fetched {
      FetchedForGood(st, first, events);
    } else {
      FilesFrozenUntilFetch(st, first, events);
    }
  }

  // ---- what consent can do ---------------------------------------------------------------------------------------------------

  /**
   * A set with no zone records at all can replace one that had some, or the zones found at the start, exactly when there is
   * consent, NetBox did return records, and none of them made it into a zone; the guard's own comment calls an empty set
   * not overridable, and says that the zones found must not be wiped either.
   */
  lemma EmptiedExactlyWhen(st: Settings, s: State, f: FetchResult)
    requires s.baseline.total > 0 || s.baseline.zonesOnDisk
    ensures Accepted(st, s, f) && AfterFetch(st, s, f).baseline.total <= 0 <==>
              f.Fetched? && f.raw > 0 && f.zones.Some? && Sum(CountsOf(f.zones.value)) <= 0 && s.armed
  {
  }

  lemma OneRecordCounted(zone: string, r: IPRecord)
    ensures BaselineOf(map[zone := [r]]) == Baseline(1, map[zone := 1], false) && BaselineOf(map[]) == Baseline(0, map[], false)
  {
    var zones: ZoneMap := map[zone := [r]];
    assert CountsOf(zones) == map[zone := 1];
    CountRemove(map[zone := 1], zone);
    assert map[zone := 1] - {zone} == map[];
    SumEmpty();
    assert CountsOf(map[]) == map[];
  }

  /** It happens: a first set with one record, consent, then a poll that finds records and no zone for them. */
  lemma ConsentEmpties(st: Settings, zone: string, r: IPRecord, wrote: MergeResult)
    ensures var events := [Arm, Tick(Fetched(1, Some(map[])), wrote)];
            var s := Process(st, map[], 0, Fetched(1, Some(map[zone := [r]])), wrote, events);
            |s.tally.accepted| == 2 && s.tally.accepted[0].baseline.total == 1 && s.tally.accepted[1].baseline.total == 0
            && s.tally.accepted[1].honoured && s.zones == map[]
  {
    hide StripLabel.Stripped, AfterMerge, MergeSucceeds, MergeRuns, Trips, BaselineOf;
    var f, g := Fetched(1, Some(map[zone := [r]])), Fetched(1, Some(map[]));
    var boot := Boot(map[], 0);
    OneRecordCounted(zone, r);
    assert Accepted(st, boot, f) && !Honours(st, boot, f);
    var first := AfterCycle(st, boot, f, wrote, FirstPoll(wrote));
    MergeKeeps(st, boot, f, wrote, FirstPoll(wrote));
    var armed := Step(st, first, Arm);
    assert Accepted(st, armed, g) && Honours(st, armed, g);
    MergeKeeps(st, armed, g, wrote, OfTick(wrote));
    var last := Step(st, armed, Tick(g, wrote));
    var events := [Arm, Tick(g, wrote)];
    assert events[1..] == [Tick(g, wrote)] && events[1..][1..] == [];
    assert Run(st, last, []) == last;
    assert Run(st, armed, [Tick(g, wrote)]) == last;
    assert Published(st, map[]) == map[];
  }

  /**
   * It happens to the zones of a previous run too, when consent comes after a first fetch that failed or before one that
   * does not: records and no zone for them, and the merge is free to empty the directory.
   */
  lemma ConsentWipesCachedZones(st: Settings, files: Files, r: MergeResult)
    requires files != map[]
    ensures var wipe, none := MergeResult(map[], true, true), Fetched(1, Some(map[]));
            && Process(st, files, 0, FetchFailed, r, [Arm, Tick(none, wipe)]).files == map[]
            && Process(st, files, 1, none, wipe, []).files == map[]
  {
    hide StripLabel.Stripped, Trips, BaselineOf;
    var wipe, none := MergeResult(map[], true, true), Fetched(1, Some(map[]));
    var first := AfterCycle(st, Boot(files, 0), FetchFailed, r, FirstPoll(r));
    MergeKeeps(st, Boot(files, 0), FetchFailed, r, FirstPoll(r));
    var armed := Step(st, first, Arm);
    assert Accepted(st, armed, none);
    MergeKeeps(st, armed, none, wipe, OfTick(wipe));
    var events := [Arm, Tick(none, wipe)];
    assert events[1..] == [Tick(none, wipe)] && events[1..][1..] == [];
    var last := Step(st, armed, Tick(none, wipe));
    assert Run(st, last, []) == last;
    assert Run(st, armed, [Tick(none, wipe)]) == last;
    assert Accepted(st, Boot(files, 1), none);
    MergeKeeps(st, Boot(files, 1), none, wipe, FirstPoll(wipe));
  }

  function Baselines(accepted: seq<Acceptance>): seq<Baseline> { seq(|accepted|, i requires 0 <= i < |accepted| => accepted[i].baseline) }

  lemma {:induction false} HonouredNone(accepted: seq<Acceptance>, j: nat)
    requires Honoured(accepted) == 0 && j < |accepted|
    ensures !accepted[j].honoured
    decreases |accepted|
  {
    if j < |accepted| - 1 { HonouredNone(accepted[..|accepted| - 1], j); }
  }

  lemma {:induction false} JustifiedAt(st: Settings, zonesAtStart: bool, accepted: seq<Acceptance>, i: nat)
    requires AllJustified(st, zonesAtStart, accepted) && Honoured(accepted) == 0 && i < |accepted|
    ensures Counted(accepted[i].baseline)
    ensures i == 0 ==> !Refused(st.guard, Baseline(0, map[], zonesAtStart), accepted[0].baseline)
    ensures i > 0 ==> !Refused(st.guard, accepted[i - 1].baseline, accepted[i].baseline)
  {
    hide Refused, Counted;
    assert Justified(st, LastAccepted(zonesAtStart, accepted[..i]), accepted[i]);
    HonouredNone(accepted, i);
    if i > 0 { assert accepted[..i][|accepted[..i]| - 1] == accepted[i - 1]; }
  }

  /** The sets accepted in a run without consent are accepted each over the one before. */
  lemma {:induction false} UnarmedRunIsGuarded(st: Settings, files: Files, arms: nat, f: FetchResult, r: MergeResult, events: seq<Event>)
    requires Process(st, files, arms, f, r, events).tally.arms == 0
    ensures AcceptedRun(st.guard, Baselines(Process(st, files, arms, f, r, events).tally.accepted))
  {
    hide Process, AllJustified, Honoured, BaselineFits, Refused, Counted;
    GuardedPublication(st, files, arms, f, r, events);
    var accepted := Process(st, files, arms, f, r, events).tally.accepted;
    forall i | 0 <= i < |accepted|
      ensures Counted(accepted[i].baseline) && (i > 0 ==> !Refused(st.guard, accepted[i - 1].baseline, accepted[i].baseline))
    {
      JustifiedAt(st, files != map[], accepted, i);
    }
  }

  /**
   * So over a first set with records, or zones found at the start, they are never empty, and the total shrinks no faster
   * than the guard lets it.
   */
  lemma {:induction false} UnarmedRunBound(st: Settings, files: Files, arms: nat, f: FetchResult, r: MergeResult, events: seq<Event>, k: nat)
    requires var s := Process(st, files, arms, f, r, events);
             s.tally.arms == 0 && k < |s.tally.accepted| && (s.tally.accepted[0].baseline.total > 0 || files != map[])
    ensures var accepted, g := Process(st, files, arms, f, r, events).tally.accepted, st.guard.globalDropFraction;
            && accepted[k].baseline.total > 0
            && (st.guard.enabled && 0.0 < g <= 1.0
                && (forall i :: 0 <= i < k ==> st.guard.globalMinRecords as real <= g * accepted[i].baseline.total as real)
                ==> accepted[k].baseline.total as real >= Power(1.0 - g, k) * accepted[0].baseline.total as real)
  {
    hide Process, AcceptedRun, AllJustified, BaselineFits, Honoured;
    GuardedPublication(st, files, arms, f, r, events);
    JustifiedAt(st, files != map[], Process(st, files, arms, f, r, events).tally.accepted, 0);
    UnarmedRunIsGuarded(st, files, arms, f, r, events);
    var accepted, g := Process(st, files, arms, f, r, events).tally.accepted, st.guard.globalDropFraction;
    RunNeverEmpties(st.guard, Baselines(accepted), k);
    if st.guard.enabled && 0.0 < g <= 1.0
       && (forall i :: 0 <= i < k ==> st.guard.globalMinRecords as real <= g * accepted[i].baseline.total as real)
    {
      RunBound(st.guard, Baselines(accepted), k);
    }
  }

  // ---- pushes ------------------------------------------------------------------------------------------------------------------

  /** What writing the zones does in an event. */
  function MergeOf(e: Event): MergeResult
    requires !e.Arm?
  {
    match e
    case Tick(_, r) => r
    case ForcePoll(_, r) => r
    case MergeSignal(r) => r
    case WebhookPoll(_, _, r) => r
  }

  lemma FetchKeepsPushes(st: Settings, s: State, f: FetchResult)
    ensures AfterFetch(st, s, f).tally.pushes == s.tally.pushes && AfterFetch(st, s, f).files == s.files
  {
    hide Refused, BaselineOf;
  }

  /** The pushes and files an event leaves, when it is not turned away before its merge. */
  ghost predicate MergedAndPushed(s: State, tick: bool, r: MergeResult, t: State) {
    if t.fetched || s.files == map[] then
      && t.files == r.files
      && t.tally.pushes == s.tally.pushes +
           if !r.ok then [] else if r.changed then [Push(Reload, r.files)] else if tick then [Push(Reconcile, r.files)] else []
    else t.files == s.files && t.tally.pushes == s.tally.pushes
  }

  /**
   * One event: consent, and a webhook poll inside its cooldown, push nothing. Any other event merges if a fetch has been
   * accepted by then or there is no zone file; a merge without error that changed something is followed by a reload of all
   * replicas, with the files it left; after one that changed nothing a tick alone has those reached that still owe a reload.
   */
  lemma {:induction false} PushesExactlyWhen(st: Settings, s: State, e: Event)
    ensures var t := Step(st, s, e);
            if e.Arm? || (e.WebhookPoll? && s.lastWebhookPoll.Some? && e.now - s.lastWebhookPoll.value < st.webhookPollMinInterval)
            then t.files == s.files && t.tally.pushes == s.tally.pushes
            else MergedAndPushed(s, e.Tick?, MergeOf(e), t)
  {
    hide AfterFetch;
    if !e.Arm? && !e.MergeSignal? {
      FetchKeepsPushes(st, s, e.fetch);
      if e.WebhookPoll? {
        FetchKeepsPushes(st, s.(lastWebhookPoll := Some(e.now), tally := s.tally.(webhookPolls := s.tally.webhookPolls + [e.now])), e.fetch);
      }
    }
  }

  /** The first poll pushes a change and nothing else. */
  lemma {:induction false} FirstPollPushes(st: Settings, s: State, f: FetchResult, r: MergeResult)
    ensures MergedAndPushed(s, false, r, AfterCycle(st, s, f, r, FirstPoll(r)))
  {
    hide AfterFetch;
    FetchKeepsPushes(st, s, f);
  }

  /** A merge without error that reports every change of the files. */
  predicate Reports(before: Files, r: MergeResult) { r.ok && (r.changed || r.files == before) }

  /** Every merge of the run is like that. */
  ghost predicate AllReported(st: Settings, s: State, events: seq<Event>)
    decreases |events|
  {
    events == [] || ((events[0].Arm? || Reports(s.files, MergeOf(events[0]))) && AllReported(st, Step(st, s, events[0]), events[1..]))
  }

  /** The replicas were last told of the files that are there, or never told, and then nothing has changed. */
  predicate LastTold(atStart: Files, s: State) {
    s.files == if s.tally.pushes == [] then atStart else s.tally.pushes[|s.tally.pushes| - 1].files
  }

  lemma {:induction false} RunTells(st: Settings, atStart: Files, s: State, events: seq<Event>)
    requires LastTold(atStart, s) && AllReported(st, s, events)
    ensures LastTold(atStart, Run(st, s, events))
    decreases |events|
  {
    hide Step;
    if events != [] {
      PushesExactlyWhen(st, s, events[0]);
      RunTells(st, atStart, Step(st, s, events[0]), events[1..]);
    }
  }

  /**
   * Over a whole run whose merges do not fail, in whatever order ticks, forced polls, merge signals, webhook polls and
   * consents come: what the replicas were last told of is exactly the files that are there.
   */
  lemma {:induction false} ReplicasAreTold(st: Settings, files: Files, arms: nat, f: FetchResult, r: MergeResult, events: seq<Event>)
    requires Reports(files, r) && AllReported(st, AfterCycle(st, Boot(files, arms), f, r, FirstPoll(r)), events)
    ensures LastTold(files, Process(st, files, arms, f, r, events))
  {
    hide AfterFetch, AfterCycle, Run;
    FirstPollPushes(st, Boot(files, arms), f, r);
    RunTells(st, files, AfterCycle(st, Boot(files, arms), f, r, FirstPoll(r)), events);
  }

  /** No push is taken back: what was told in a part of a run is told in the whole of it. */
  lemma {:induction false} PushesOnlyGrow(st: Settings, s: State, events: seq<Event>)
    ensures s.tally.pushes <= Run(st, s, events).tally.pushes
    decreases |events|
  {
    hide Step;
    if events != [] {
      PushesExactlyWhen(st, s, events[0]);
      PushesOnlyGrow(st, Step(st, s, events[0]), events[1..]);
    }
  }

  lemma {:induction false} RunSplit(st: Settings, s: State, a: seq<Event>, b: seq<Event>)
    ensures Run(st, s, a + b) == Run(st, Run(st, s, a), b)
    decreases |a|
  {
    hide Step;
    if a == [] {
      assert a + b == b;
    } else {
      assert (a + b)[1..] == a[1..] + b;
      RunSplit(st, Step(st, s, a[0]), a[1..], b);
    }
  }

  /**
   * Over any run, whatever came before and comes after: an event that is not turned away and whose merge changes something
   * without error is the next one the replicas are told of, to reload, with exactly the files that merge left.
   */
  lemma {:induction false} ChangeIsPushed(st: Settings, s: State, events: seq<Event>, i: nat)
    requires i < |events| && !events[i].Arm? && MergeOf(events[i]).ok && MergeOf(events[i]).changed
    requires var e, before := events[i], Run(st, s, events[..i]);
             && (e.WebhookPoll? && before.lastWebhookPoll.Some? ==> e.now - before.lastWebhookPoll.value >= st.webhookPollMinInterval)
             && (Step(st, before, e).fetched || before.files == map[])
    ensures var told, all := |Run(st, s, events[..i]).tally.pushes|, Run(st, s, events).tally.pushes;
            told < |all| && all[told] == Push(Reload, MergeOf(events[i]).files)
  {
    hide Step;
    var before := Run(st, s, events[..i]);
    PushesExactlyWhen(st, before, events[i]);
    assert events == events[..i] + ([events[i]] + events[i + 1..]);
    RunSplit(st, s, events[..i], [events[i]] + events[i + 1..]);
    assert ([events[i]] + events[i + 1..])[1..] == events[i + 1..];
    PushesOnlyGrow(st, Step(st, before, events[i]), events[i + 1..]);
  }

  // ---- the zones of an accepted fetch ------------------------------------------------------------------------------------------

  /**
   * After an accepted fetch the zones to merge are those found, record by record: as they are when stripping is off, and
   * with the label before the domain suffix taken out of name and target when it is on. Otherwise they are what they were.
   */
  lemma {:induction false} AcceptedZones(st: Settings, s: State, f: FetchResult, zone: string)
    ensures var t := AfterFetch(st, s, f);
            if !Accepted(st, s, f) then t.zones == s.zones
            else
              && t.zones.Keys == f.zones.value.Keys
              && (zone in t.zones ==>
                    var was, now := f.zones.value[zone], t.zones[zone];
                    && |now| == |was|
                    && forall i :: 0 <= i < |was| ==>
                         if !st.strip then now[i] == was[i]
                         else
                           && StripLabel.LosesLabel(was[i].dnsName, st.domainSuffix, now[i].dnsName)
                           && StripLabel.LosesLabel(was[i].cnameTarget, st.domainSuffix, now[i].cnameTarget)
                           && now[i] == was[i].(dnsName := now[i].dnsName, cnameTarget := now[i].cnameTarget))
  {
    hide Refused, BaselineOf, StripLabel.LosesLabel, StripLabel.Stripped;
    if Accepted(st, s, f) && zone in f.zones.value { StripLabel.StrippingMeans(f.zones.value[zone], st.domainSuffix); }
  }

  /** The baseline an accepted fetch leaves counts the records of every zone found, and their sum. */
  lemma {:induction false} AcceptedCounts(st: Settings, s: State, f: FetchResult)
    requires Accepted(st, s, f)
    ensures var b, zones := AfterFetch(st, s, f).baseline, f.zones.value;
            && b.zones.Keys == zones.Keys && (forall z :: z in zones ==> b.zones[z] == |zones[z]|)
            && b.total == Sum(b.zones) && !b.zonesOnDisk
  {
    hide Refused, Published;
  }

  // ---- webhook polls ----------------------------------------------------------------------------------------------------------

  /** Webhook-triggered polls keep their distance. */
  ghost predicate Spaced(st: Settings, s: State) {
    && (s.lastWebhookPoll == if s.tally.webhookPolls == [] then None else Some(s.tally.webhookPolls[|s.tally.webhookPolls| - 1]))
    && (forall i :: 0 <= i < |s.tally.webhookPolls| - 1 ==>
          s.tally.webhookPolls[i + 1] - s.tally.webhookPolls[i] >= st.webhookPollMinInterval)
  }

  lemma {:induction false} WebhookPollsSpaced(st: Settings, s: State, events: seq<Event>)
    requires Spaced(st, s)
    ensures Spaced(st, Run(st, s, events))
    decreases |events|
  {
    hide AfterFetch, AfterCycle, AfterPoll;
    if events != [] {
      match events[0] {
        case Tick(f, r) =>
          FetchKeepsFiles(st, s, f);
          MergeKeeps(st, s, f, r, OfTick(r));
        case ForcePoll(f, r) =>
          FetchKeepsFiles(st, s, f);
          MergeKeeps(st, s, f, r, OfTick(r));
        case WebhookPoll(now, f, r) =>
          var t := s.(lastWebhookPoll := Some(now), tally := s.tally.(webhookPolls := s.tally.webhookPolls + [now]));
          FetchKeepsFiles(st, t, f);
          MergeKeeps(st, t, f, r, OfTick(r));
        case MergeSignal(r) =>
        case Arm =>
      }
      WebhookPollsSpaced(st, Step(st, s, events[0]), events[1..]);
    }
  }

  // ---- readiness ---------------------------------------------------------------------------------------------------------------

  lemma SameFetch(st: Settings, s: State, t: State, f: FetchResult)
    requires t == s.(lastWebhookPoll := t.lastWebhookPoll, tally := t.tally)
    ensures AfterFetch(st, t, f).fetched == AfterFetch(st, s, f).fetched
  {
    hide Refused, BaselineOf;
  }

  // ---- readiness over a run ---------------------------------------------------------------------------------------------------

  /** An event other than a tick, handled in this state, pushes to the replicas. */
  ghost predicate Pushes(st: Settings, s: State, e: Event) {
    match e
    case ForcePoll(f, r) => MergeSucceeds(AfterFetch(st, s, f), r) && r.changed
    case MergeSignal(r) => MergeSucceeds(s, r) && r.changed
    case WebhookPoll(now, f, r) =>
      && WebhookPollAllowed(s.lastWebhookPoll, now, st.webhookPollMinInterval)
      && MergeSucceeds(AfterFetch(st, s, f), r) && r.changed
    case _ => false
  }

  /** A tick whose merge succeeds, which makes the process ready if it was not. */
  ghost predicate MergingTick(st: Settings, s: State, e: Event) { e.Tick? && MergeSucceeds(AfterFetch(st, s, e.fetch), e.merge) }

  ghost predicate FirstPush(st: Settings, s: State, events: seq<Event>, i: nat) {
    && i < |events| && Pushes(st, Run(st, s, events[..i]), events[i])
    && forall j: nat :: j < i ==> !MergingTick(st, Run(st, s, events[..j]), events[j])
  }

  /**
   * The replicas fetch through a service that routes only to ready pods, so readiness must come before a push. A tick
   * always has it so; any other event pushes from an unready process whenever its merge succeeds and changes a file.
   */
  lemma UnreadyPushExactlyWhen(st: Settings, s: State, e: Event)
    requires s.firstSuccess ==> s.ready
    ensures var t := Step(st, s, e);
            && (t.firstSuccess ==> t.ready)
            && t.ready == (s.ready || MergingTick(st, s, e))
            && t.tally.unreadyPushes == s.tally.unreadyPushes + if !s.ready && Pushes(st, s, e) then 1 else 0
  {
    hide AfterFetch;
    if e.Tick? || e.ForcePoll? || e.WebhookPoll? {
      FetchKeepsFiles(st, s, e.fetch);
      if e.WebhookPoll? {
        var t := s.(lastWebhookPoll := Some(e.now), tally := s.tally.(webhookPolls := s.tally.webhookPolls + [e.now]));
        FetchKeepsFiles(st, t, e.fetch);
        SameFetch(st, s, t, e.fetch);
      }
    }
  }

  lemma {:induction false} ReadyNeverUnready(st: Settings, s: State, events: seq<Event>)
    requires s.ready
    ensures Run(st, s, events).tally.unreadyPushes == s.tally.unreadyPushes
    decreases |events|
  {
    hide Step;
    if events != [] {
      UnreadyPushExactlyWhen(st, s, events[0]);
      ReadyNeverUnready(st, Step(st, s, events[0]), events[1..]);
    }
  }

  lemma RunPrefix(st: Settings, s: State, events: seq<Event>, i: nat)
    requires events != [] && 0 < i <= |events|
    ensures Run(st, s, events[..i]) == Run(st, Step(st, s, events[0]), events[1..][..i - 1])
  {
    hide Step;
    assert events[..i][1..] == events[1..][..i - 1];
  }

  lemma {:induction false} FirstPushCons(st: Settings, s: State, events: seq<Event>)
    requires events != []
    ensures (exists i: nat :: FirstPush(st, s, events, i)) <==>
              Pushes(st, s, events[0])
              || (!MergingTick(st, s, events[0]) && exists i: nat :: FirstPush(st, Step(st, s, events[0]), events[1..], i))
  {
    hide Step, Pushes, MergingTick;
    var t, rest := Step(st, s, events[0]), events[1..];
    assert Run(st, s, events[..0]) == s by { assert events[..0] == []; }
    if i: nat :| FirstPush(st, s, events, i) {
      if i > 0 {
        RunPrefix(st, s, events, i);
        forall j: nat | j < i - 1 ensures !MergingTick(st, Run(st, t, rest[..j]), rest[j]) { RunPrefix(st, s, events, j + 1); }
        assert FirstPush(st, t, rest, i - 1);
        assert !MergingTick(st, Run(st, s, events[..0]), events[0]);
      }
    }
    if Pushes(st, s, events[0]) { assert FirstPush(st, s, events, 0); }
    if !MergingTick(st, s, events[0]) && exists i: nat :: FirstPush(st, t, rest, i) {
      var i: nat :| FirstPush(st, t, rest, i);
      RunPrefix(st, s, events, i + 1);
      forall j: nat | j < i + 1 ensures !MergingTick(st, Run(st, s, events[..j]), events[j]) {
        if j > 0 { RunPrefix(st, s, events, j); }
      }
      assert FirstPush(st, s, events, i + 1);
    }
  }

  lemma {:induction false} RunPushesUnready(st: Settings, s: State, events: seq<Event>)
    requires !s.ready && !s.firstSuccess
    ensures Run(st, s, events).tally.unreadyPushes >= s.tally.unreadyPushes
    ensures Run(st, s, events).tally.unreadyPushes > s.tally.unreadyPushes <==> exists i: nat :: FirstPush(st, s, events, i)
    decreases |events|
  {
    hide Step, Pushes, MergingTick, FirstPush;
    if events == [] {
      NoFirstPush(st, s);
    } else {
      var t := Step(st, s, events[0]);
      UnreadyPushExactlyWhen(st, s, events[0]);
      FirstPushCons(st, s, events);
      TickDoesNotPush(st, s, events[0]);
      if t.ready {
        ReadyNeverUnready(st, t, events[1..]);
      } else {
        RunPushesUnready(st, t, events[1..]);
      }
    }
  }

  lemma NoFirstPush(st: Settings, s: State)
    ensures forall i: nat :: !FirstPush(st, s, [], i)
  {
  }

  lemma TickDoesNotPush(st: Settings, s: State, e: Event)
    ensures !(MergingTick(st, s, e) && Pushes(st, s, e))
  {
  }

  /**
   * Over a whole run some push finds the process unready exactly when no zone file was there at the start, the first
   * merge did not succeed, and an event other than a tick merges successfully with a change before any tick does.
   */
  lemma {:induction false} UnreadyPushOverRun(st: Settings, files: Files, arms: nat, f: FetchResult, r: MergeResult, events: seq<Event>)
    ensures Process(st, files, arms, f, r, events).tally.unreadyPushes > 0 <==>
              && files == map[]
              && !MergeSucceeds(AfterFetch(st, Boot(files, arms), f), r)
              && exists i: nat :: FirstPush(st, AfterCycle(st, Boot(files, arms), f, r, FirstPoll(r)), events, i)
  {
    hide AfterFetch, FirstPush, Run;
    var s := Boot(files, arms);
    FetchKeepsFiles(st, s, f);
    var first := AfterCycle(st, s, f, r, FirstPoll(r));
    if first.ready {
      ReadyNeverUnready(st, first, events);
    } else {
      RunPushesUnready(st, first, events);
    }
  }

  /** Over a whole run, webhook-triggered polls keep their distance. */
  lemma WebhookPollsSpacedFromBoot(st: Settings, files: Files, arms: nat, f: FetchResult, r: MergeResult, events: seq<Event>, i: nat)
    requires i + 1 < |Process(st, files, arms, f, r, events).tally.webhookPolls|
    ensures var polls := Process(st, files, arms, f, r, events).tally.webhookPolls;
            polls[i + 1] - polls[i] >= st.webhookPollMinInterval
  {
    hide AfterFetch, Run, AfterCycle;
    var s := Boot(files, arms);
    FetchKeepsFiles(st, s, f);
    MergeKeeps(st, s, f, r, FirstPoll(r));
    WebhookPollsSpaced(st, AfterCycle(st, s, f, r, FirstPoll(r)), events);
  }

  /** It happens: the first merge fails to write, and a forced poll then succeeds before the next tick. */
  lemma ForcedPollPushesUnready(st: Settings, zones: ZoneMap, written: Files)
    ensures var s := Process(st, map[], 0, Fetched(1, Some(zones)), MergeResult(map[], false, false),
                             [ForcePoll(FetchFailed, MergeResult(written, true, true))]);
            s.tally.unreadyPushes == 1 && !s.ready && s.files == written
  {
    var f, failed := Fetched(1, Some(zones)), MergeResult(map[], false, false);
    var s := Boot(map[], 0);
    assert Accepted(st, s, f);
    var first := AfterCycle(st, s, f, failed, None);
    var e := ForcePoll(FetchFailed, MergeResult(written, true, true));
    assert [e][1..] == [];
    assert Run(st, first, [e]) == Run(st, Step(st, first, e), []) == Step(st, first, e);
  }
}
