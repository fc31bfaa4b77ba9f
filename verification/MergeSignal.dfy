/**
 * Handlers that change the dynamic store and then signal, and the loop that takes the signal and reads the store zone by
 * zone: the size-one channel loses no wakeup, once the gate on the merges is open for good
 * (internal/netboxwebhook/handler.go, cmd/sidecar/main.go).
 */
module MergeSignal {
  import opened Records

  /** The loop: waiting, about to list the store's zones, or reading them one by one. */
  datatype Phase = Waiting | Listing | Reading(todo: set<string>, seen: ZoneMap)

  /**
   * `token` is the one place of the channel, `between` counts the handlers that have written and not yet signalled,
   * `published` is the store as the last merge saw it. `fetched`: a fetch has been accepted; `zonesOnDisk`: a listing
   * shows zone files.
   */
  datatype System = System(
    store: ZoneMap, token: bool, between: nat, phase: Phase, published: ZoneMap, fetched: bool, zonesOnDisk: bool)

  datatype Event =
    | Write(store: ZoneMap)
    | WriteAgain(store: ZoneMap)
    | Send
    | Take
    | Poll(store: ZoneMap, accepted: bool)
    | List
    | Read(zone: string)
    | Finish(onDisk: bool)

  /** The gate on the merges. */
  predicate GateOpen(s: System) { s.fetched || !s.zonesOnDisk }

  /** A merge is called for: it reads the store, or the gate refuses it. */
  function Merging(s: System): System { s.(phase := if GateOpen(s) then Listing else Waiting) }

  predicate Enabled(s: System, e: Event) {
    match e
    case Write(_) => true
    case WriteAgain(_) => s.between > 0
    case Send => s.between > 0
    case Take => s.phase.Waiting? && s.token
    case Poll(_, _) => s.phase.Waiting?
    case List => s.phase.Listing?
    case Read(zone) => s.phase.Reading? && zone in s.phase.todo
    case Finish(_) => s.phase.Reading? && s.phase.todo == {}
  }

  /**
   * A delivery may write twice and signal once; a send into a full channel is dropped. A poll merges too, and one whose
   * fetch is accepted reconciles the store first.
   */
  function Step(s: System, e: Event): System
    requires Enabled(s, e)
  {
    match e
    case Write(store) => s.(store := store, between := s.between + 1)
    case WriteAgain(store) => s.(store := store)
    case Send => s.(token := true, between := s.between - 1)
    case Take => Merging(s.(token := false))
    case Poll(store, accepted) => Merging(if accepted then s.(store := store, fetched := true) else s)
    case List => s.(phase := Reading(s.store.Keys, map[]))
    case Read(zone) => s.(phase := Reading(s.phase.todo - {zone}, s.phase.seen[zone := AtZone(s.store, zone)]))
    case Finish(onDisk) => s.(phase := Waiting, published := s.phase.seen, zonesOnDisk := onDisk)
  }

  ghost predicate IsRun(s: System, events: seq<Event>)
    decreases |events|
  {
    events == [] || (Enabled(s, events[0]) && IsRun(Step(s, events[0]), events[1..]))
  }

  ghost function Run(s: System, events: seq<Event>): System
    requires IsRun(s, events)
    decreases |events|
  {
    if events == [] then s else Run(Step(s, events[0]), events[1..])
  }

  /** Both hold the zone, with the same records, or neither does. */
  ghost predicate Agree(a: ZoneMap, b: ZoneMap, z: string) { (z in a <==> z in b) && (z in a ==> a[z] == b[z]) }

  lemma AgreeEverywhere(a: ZoneMap, b: ZoneMap)
    requires forall z :: Agree(a, b, z)
    ensures a == b
  {
    forall z ensures (z in a <==> z in b) && (z in a ==> a[z] == b[z]) { assert Agree(a, b, z); }
  }

  /** A merge is still to come for what happened so far. */
  predicate Called(s: System) { s.token || s.between > 0 }

  ghost predicate NoWakeupLost(s: System) {
    Called(s) ||
    match s.phase
    case Waiting => forall z :: Agree(s.published, s.store, z)
    case Listing => true
    case Reading(todo, seen) =>
      && (forall z :: z !in todo ==> Agree(seen, s.store, z))
      && (forall z :: z in todo ==> z in s.store)
  }

  /** A token taken while the gate is closed, with no other handler left to call and the store not yet published. */
  predicate LossyTake(s: System, e: Event) { e.Take? && !GateOpen(s) && s.between == 0 && s.published != s.store }

  ghost predicate NoLossyTake(s: System, events: seq<Event>)
    requires IsRun(s, events)
    decreases |events|
  {
    events == [] || (!LossyTake(s, events[0]) && NoLossyTake(Step(s, events[0]), events[1..]))
  }

  ghost predicate NeverLost(s: System, events: seq<Event>)
    requires IsRun(s, events)
    decreases |events|
  {
    NoWakeupLost(s) && (events == [] || NeverLost(Step(s, events[0]), events[1..]))
  }

  lemma {:induction false} StepLosesExactlyWhen(s: System, e: Event)
    requires NoWakeupLost(s) && Enabled(s, e)
    ensures NoWakeupLost(Step(s, e)) <==> !LossyTake(s, e)
  {
    if e.Take? && !GateOpen(s) && (forall z :: Agree(s.published, s.store, z)) { AgreeEverywhere(s.published, s.store); }
  }

  lemma StaleIsCalled(s: System)
    requires NoWakeupLost(s) && s.published != s.store
    ensures Called(s) || !s.phase.Waiting?
  {
    if !Called(s) && s.phase.Waiting? { AgreeEverywhere(s.published, s.store); }
  }

  /**
   * In every interleaving of handlers and loop no wakeup is ever lost exactly when no token is taken in vain; then a store
   * the last merge has not seen as it is means that a token is pending, a handler is about to send one, or the loop is
   * still reading.
   */
  lemma {:induction false} StaleMeansCalled(s: System, events: seq<Event>)
    requires NoWakeupLost(s) && IsRun(s, events)
    ensures NeverLost(s, events) <==> NoLossyTake(s, events)
    ensures var t := Run(s, events);
            NoLossyTake(s, events) ==> NoWakeupLost(t) && (t.published != t.store ==> Called(t) || !t.phase.Waiting?)
    decreases |events|
  {
    hide NoWakeupLost, Called, LossyTake, Enabled, Step;
    if events != [] {
      StepLosesExactlyWhen(s, events[0]);
      if NoWakeupLost(Step(s, events[0])) {
        StaleMeansCalled(Step(s, events[0]), events[1..]);
      } else {
        assert !NeverLost(Step(s, events[0]), events[1..]);
      }
    } else if s.published != s.store {
      StaleIsCalled(s);
    }
  }

  /** A loop about to list the store has lost nothing, whatever was published. */
  lemma ListingLosesNothing(s: System)
    requires s.phase.Listing?
    ensures NoWakeupLost(s)
  {
  }

  lemma {:induction false} OpenForGood(s: System, events: seq<Event>)
    requires s.fetched && IsRun(s, events)
    ensures NoLossyTake(s, events)
    decreases |events|
  {
    if events != [] { OpenForGood(Step(s, events[0]), events[1..]); }
  }

  /**
   * Once a fetch is accepted, from whatever state the loop is in, nothing is lost in any continuation: a store the last
   * merge has not seen means that a merge is called for or going on.
   */
  lemma {:induction false} StaleMeansCalledOnceFetched(s: System, store: ZoneMap, events: seq<Event>)
    requires s.phase.Waiting? && IsRun(Step(s, Poll(store, true)), events)
    ensures NeverLost(Step(s, Poll(store, true)), events)
    ensures var t := Run(Step(s, Poll(store, true)), events); t.published != t.store ==> Called(t) || !t.phase.Waiting?
  {
    var t := Step(s, Poll(store, true));
    ListingLosesNothing(t);
    OpenForGood(t, events);
    StaleMeansCalled(t, events);
  }

  /** So when everything is at rest after an accepted fetch, the last merge has seen exactly the store. */
  lemma QuietMeansPublished(s: System, store: ZoneMap, events: seq<Event>)
    requires s.phase.Waiting? && IsRun(Step(s, Poll(store, true)), events)
    requires var t := Run(Step(s, Poll(store, true)), events); t.phase.Waiting? && !t.token && t.between == 0
    ensures var t := Run(Step(s, Poll(store, true)), events); t.published == t.store
  {
    StaleMeansCalledOnceFetched(s, store, events);
  }

  /**
   * The program starts with a poll, whose fetch may fail. Without zone files its merge goes ahead, and from there on nothing
   * is lost exactly as long as no token is taken in vain.
   */
  lemma {:induction false} StaleMeansCalledFromStart(s: System, poll: Event, events: seq<Event>)
    requires s.phase.Waiting? && !s.zonesOnDisk && poll.Poll? && IsRun(Step(s, poll), events)
    ensures NeverLost(Step(s, poll), events) <==> NoLossyTake(Step(s, poll), events)
    ensures var t := Run(Step(s, poll), events);
            NoLossyTake(Step(s, poll), events) && t.published != t.store ==> Called(t) || !t.phase.Waiting?
  {
    ListingLosesNothing(Step(s, poll));
    StaleMeansCalled(Step(s, poll), events);
  }

  // ---- while the gate is closed --------------------------------------------------------------------------------

  /** A token taken while the gate is closed loses its wakeup exactly when no other handler will call and the store is not published. */
  lemma {:induction false} GatedTakeLosesExactlyWhen(s: System)
    requires NoWakeupLost(s) && Enabled(s, Take) && !GateOpen(s)
    ensures NoWakeupLost(Step(s, Take)) <==> s.between > 0 || s.published == s.store
  {
    StepLosesExactlyWhen(s, Take);
  }

  /** Nothing is published, then, until a fetch is accepted, whatever the handlers do. */
  lemma {:induction false} FrozenUntilFetched(s: System, events: seq<Event>)
    requires s.phase.Waiting? && !GateOpen(s) && IsRun(s, events)
    requires forall e :: e in events ==> !(e.Poll? && e.accepted)
    ensures var t := Run(s, events); t.phase.Waiting? && !GateOpen(t) && t.published == s.published
    decreases |events|
  {
    if events != [] {
      assert events[0] in events;
      FrozenUntilFetched(Step(s, events[0]), events[1..]);
    }
  }

  /** A restart beside zone files with NetBox down: the first delivery is not published, and nothing calls for it. */
  lemma {:induction false} CachedZonesLose(was: ZoneMap, now: ZoneMap)
    requires was != now
    ensures var start := System(was, false, 0, Waiting, was, false, true);
            var events := [Poll(was, false), Write(now), Send, Take];
            IsRun(start, events) && Run(start, events) == System(now, false, 0, Waiting, was, false, true)
    ensures !NoWakeupLost(System(now, false, 0, Waiting, was, false, true))
  {
    var start := System(was, false, 0, Waiting, was, false, true);
    var stopped := System(now, false, 0, Waiting, was, false, true);
    RunFour(start, Poll(was, false), Write(now), Send, Take);
    if NoWakeupLost(stopped) { AgreeEverywhere(was, now); }
  }

  lemma RunFour(s: System, a: Event, b: Event, c: Event, d: Event)
    requires Enabled(s, a) && Enabled(Step(s, a), b) && Enabled(Step(Step(s, a), b), c) && Enabled(Step(Step(Step(s, a), b), c), d)
    ensures IsRun(s, [a, b, c, d]) && Run(s, [a, b, c, d]) == Step(Step(Step(Step(s, a), b), c), d)
  {
    hide Enabled, Step;
    var t := Step(Step(Step(s, a), b), c);
    RunCons(t, d, []);
    RunCons(Step(Step(s, a), b), c, [d]);
    RunCons(Step(s, a), b, [c, d]);
    RunCons(s, a, [b, c, d]);
    assert [d] + [] == [d] && [c] + [d] == [c, d] && [b] + [c, d] == [b, c, d] && [a] + [b, c, d] == [a, b, c, d];
  }

  /** A fresh install with NetBox down: the first merge publishes a dynamic zone, closes the gate, and the next delivery is lost. */
  lemma {:induction false} FreshInstallLoses(zone: string, was: seq<IPRecord>, now: seq<IPRecord>)
    requires was != now
    ensures var start := System(map[zone := was], false, 0, Waiting, map[], false, false);
            var first := [Poll(start.store, false), List, Read(zone), Finish(true)];
            var more := [Write(map[zone := now]), Send, Take];
            && IsRun(start, first) && IsRun(Run(start, first), more)
            && var t := Run(Run(start, first), more);
               t.phase.Waiting? && !Called(t) && t.published != t.store && !NoWakeupLost(t)
  {
    var start := System(map[zone := was], false, 0, Waiting, map[], false, false);
    FirstMerge(start, zone, was, false);
    var s := System(map[zone := was], false, 0, Waiting, map[zone := was], false, true);
    var t := System(map[zone := now], false, 0, Waiting, map[zone := was], false, true);
    assert Step(Step(Step(s, Write(t.store)), Send), Take) == t;
    RunThree(s, Write(t.store), Send, Take);
    assert s.store[zone] != t.store[zone];
    assert !Agree(t.published, t.store, zone);
  }

  lemma RunThree(s: System, a: Event, b: Event, c: Event)
    requires Enabled(s, a) && Enabled(Step(s, a), b) && Enabled(Step(Step(s, a), b), c)
    ensures IsRun(s, [a, b, c]) && Run(s, [a, b, c]) == Step(Step(Step(s, a), b), c)
  {
    hide Enabled, Step;
    RunCons(Step(Step(s, a), b), c, []);
    RunCons(Step(s, a), b, [c]);
    RunCons(s, a, [b, c]);
    assert [c] + [] == [c] && [b] + [c] == [b, c] && [a] + [b, c] == [a, b, c];
  }

  /** The first merge of a store with one zone. */
  lemma {:induction false} FirstMerge(start: System, zone: string, records: seq<IPRecord>, accepted: bool)
    requires start == System(map[zone := records], false, 0, Waiting, map[], false, false)
    ensures var reading := start.(phase := Reading({}, map[zone := records]), fetched := accepted);
            && IsRun(start, [Poll(start.store, accepted), List, Read(zone)])
            && Run(start, [Poll(start.store, accepted), List, Read(zone)]) == reading
            && IsRun(start, [Poll(start.store, accepted), List, Read(zone), Finish(true)])
            && Run(start, [Poll(start.store, accepted), List, Read(zone), Finish(true)])
               == reading.(phase := Waiting, published := map[zone := records], zonesOnDisk := true)
  {
    var polled := Step(start, Poll(start.store, accepted));
    var listed := Step(polled, List);
    assert listed.phase.todo - {zone} == {} && map[][zone := records] == map[zone := records];
    assert Step(listed, Read(zone)) == start.(phase := Reading({}, map[zone := records]), fetched := accepted);
    RunThree(start, Poll(start.store, accepted), List, Read(zone));
    RunFour(start, Poll(start.store, accepted), List, Read(zone), Finish(true));
  }

  // ---- what the loop will publish --------------------------------------------------------------------------------

  /** What is published once the loop has finished what it is doing, if nobody writes meanwhile. */
  function WillPublish(s: System): ZoneMap {
    match s.phase
    case Waiting => s.published
    case Listing => s.store
    case Reading(todo, seen) => map z | z in seen.Keys + todo :: if z in todo then AtZone(s.store, z) else seen[z]
  }

  /** The loop's own steps until it waits. */
  predicate LoopStep(e: Event) { e.List? || e.Read? || e.Finish? }

  lemma RunCons(s: System, e: Event, rest: seq<Event>)
    requires Enabled(s, e) && IsRun(Step(s, e), rest)
    ensures IsRun(s, [e] + rest) && Run(s, [e] + rest) == Run(Step(s, e), rest)
  {
    hide Step, Enabled;
    assert ([e] + rest)[1..] == rest;
  }

  lemma ReadPublishesSame(s: System, zone: string)
    requires Enabled(s, Read(zone))
    ensures WillPublish(Step(s, Read(zone))) == WillPublish(s)
    ensures |s.phase.todo - {zone}| < |s.phase.todo|
  {
    var next := Step(s, Read(zone));
    var a, b := WillPublish(next), WillPublish(s);
    forall z ensures Agree(a, b, z) {}
    AgreeEverywhere(a, b);
    assert s.phase.todo == s.phase.todo - {zone} + {zone};
  }

  lemma ListPublishesStore(s: System)
    requires s.phase.Listing?
    ensures WillPublish(Step(s, List)) == s.store
  {
  }

  lemma FinishPublishesSeen(s: System)
    requires s.phase.Reading? && s.phase.todo == {}
    ensures WillPublish(s) == s.phase.seen
  {
  }

  lemma NextLoopStep(s: System, onDisk: bool) returns (e: Event)
    requires !s.phase.Waiting?
    ensures LoopStep(e) && Enabled(s, e)
    ensures WillPublish(Step(s, e)) == WillPublish(s)
    ensures Step(s, e) == if e.Finish? then s.(phase := Waiting, published := WillPublish(s), zonesOnDisk := onDisk)
                          else s.(phase := Step(s, e).phase)
    ensures e.Finish? ==> Step(s, e).phase.Waiting?
    ensures !e.Finish? ==> Step(s, e).phase.Reading? && (s.phase.Reading? ==> |Step(s, e).phase.todo| < |s.phase.todo|)
  {
    if s.phase.Listing? {
      e := List;
      ListPublishesStore(s);
    } else if s.phase.todo == {} {
      e := Finish(onDisk);
      FinishPublishesSeen(s);
    } else {
      var z :| z in s.phase.todo;
      e := Read(z);
      ReadPublishesSame(s, z);
    }
  }

  /** An undisturbed loop finishes and publishes what it has read and the rest of the store. */
  lemma {:induction false} LoopFinishes(s: System, onDisk: bool) returns (events: seq<Event>)
    ensures IsRun(s, events) && (forall e :: e in events ==> LoopStep(e))
    ensures Run(s, events) == s.(phase := Waiting, published := WillPublish(s),
                                 zonesOnDisk := if s.phase.Waiting? then s.zonesOnDisk else onDisk)
    decreases !s.phase.Waiting?, s.phase.Listing?, if s.phase.Reading? then |s.phase.todo| else 0
  {
    hide Step, Enabled;
    if s.phase.Waiting? {
      WaitingPublishes(s);
      events := [];
    } else {
      var e := NextLoopStep(s, onDisk);
      var rest := LoopFinishes(Step(s, e), onDisk);
      RunCons(s, e, rest);
      events := [e] + rest;
    }
  }

  /** An accepted poll, left alone, publishes the store as it reconciled it. */
  lemma {:induction false} AcceptedPollPublishes(s: System, store: ZoneMap, onDisk: bool) returns (events: seq<Event>)
    requires s.phase.Waiting?
    ensures IsRun(s, [Poll(store, true)] + events) && (forall e :: e in events ==> LoopStep(e))
    ensures var t := Run(s, [Poll(store, true)] + events);
            t.phase.Waiting? && t.published == store && t.store == store && t.fetched && t.token == s.token && t.between == s.between
  {
    var polled := Step(s, Poll(store, true));
    events := LoopFinishes(polled, onDisk);
    RunCons(s, Poll(store, true), events);
  }

  lemma WaitingPublishes(s: System)
    requires s.phase.Waiting?
    ensures WillPublish(s) == s.published
  {
  }

  /** No wakeup is lost exactly when a merge is still called for or the loop is on its way to publish the store. */
  lemma {:induction false} NoWakeupLostMeans(s: System)
    requires Apart(s)
    ensures NoWakeupLost(s) <==> Called(s) || WillPublish(s) == s.store
  {
    if NoWakeupLost(s) && !Called(s) {
      forall z ensures Agree(WillPublish(s), s.store, z) {
        if s.phase.Waiting? {
          assert Agree(s.published, s.store, z);
        } else if s.phase.Reading? {
          assert z !in s.phase.todo ==> Agree(s.phase.seen, s.store, z);
        }
      }
      AgreeEverywhere(WillPublish(s), s.store);
    }
    if WillPublish(s) == s.store && s.phase.Reading? {
      forall z | z !in s.phase.todo ensures Agree(s.phase.seen, s.store, z) {
        assert z in WillPublish(s) <==> z in s.phase.seen;
      }
      forall z | z in s.phase.todo ensures z in s.store { assert z in WillPublish(s); }
    }
  }

  ghost predicate Apart(s: System) { s.phase.Reading? ==> s.phase.seen.Keys !! s.phase.todo }

  /** A zone already read is not read again, in any run. */
  lemma {:induction false} RunsStayApart(s: System, events: seq<Event>)
    requires Apart(s) && IsRun(s, events)
    ensures Apart(Run(s, events))
    decreases |events|
  {
    if events != [] { RunsStayApart(Step(s, events[0]), events[1..]); }
  }

  // ---- what would lose one -----------------------------------------------------------------------------------

  /** The reading done, the merge fails: nothing counts as published and the token is gone. */
  function FailedFinish(s: System, onDisk: bool): System
    requires Enabled(s, Finish(onDisk))
  {
    s.(phase := Waiting, zonesOnDisk := onDisk)
  }

  /** A handler whose second write fails returns an error and does not signal its first. */
  function ErrorInsteadOfSend(s: System): System
    requires Enabled(s, Send)
  {
    s.(between := s.between - 1)
  }

  /**
   * A merge that fails loses the wakeup it was called by exactly when nothing else is pending and what it read was
   * not already published.
   */
  lemma FailedMergeLosesExactlyWhen(s: System, onDisk: bool)
    requires NoWakeupLost(s) && Enabled(s, Finish(onDisk))
    ensures NoWakeupLost(FailedFinish(s, onDisk)) <==> Called(s) || s.published == s.phase.seen
  {
    if !Called(s) {
      forall z ensures Agree(s.phase.seen, s.store, z) {}
      AgreeEverywhere(s.phase.seen, s.store);
      NoWakeupLostMeans(FailedFinish(s, onDisk));
    }
  }

  /** It happens to the first merge of a program that starts with a dynamic zone. */
  lemma FirstMergeFailsLoses(zone: string, records: seq<IPRecord>)
    ensures var start := System(map[zone := records], false, 0, Waiting, map[], false, false);
            var events := [Poll(start.store, true), List, Read(zone)];
            && IsRun(start, events) && Enabled(Run(start, events), Finish(false))
            && NoWakeupLost(Run(start, events)) && !NoWakeupLost(FailedFinish(Run(start, events), false))
  {
    var start := System(map[zone := records], false, 0, Waiting, map[], false, false);
    FirstMerge(start, zone, records, true);
    var s := start.(phase := Reading({}, map[zone := records]), fetched := true);
    assert zone in s.phase.seen && zone !in s.published;
    FailedMergeLosesExactlyWhen(s, false);
  }

  lemma ErrorLoses(s: System)
    requires Enabled(s, Send) && Apart(s)
    ensures NoWakeupLost(ErrorInsteadOfSend(s)) <==> s.token || s.between > 1 || WillPublish(s) == s.store
  {
    NoWakeupLostMeans(ErrorInsteadOfSend(s));
    assert WillPublish(ErrorInsteadOfSend(s)) == WillPublish(s);
  }

  /**
   * After any run of the program, a handler that ends in an error after a write loses it, whatever the loop is doing,
   * exactly when no token and no other handler is left to call and the loop is not already on its way to publish the
   * store: as when it waits, or when it had read the zone before the write.
   */
  lemma {:induction false} ErrorLosesExactlyWhen(start: System, events: seq<Event>)
    requires start.phase.Waiting? && IsRun(start, events) && Enabled(Run(start, events), Send)
    ensures var s := Run(start, events);
            NoWakeupLost(ErrorInsteadOfSend(s)) <==> s.token || s.between > 1 || WillPublish(s) == s.store
  {
    hide NoWakeupLost, WillPublish;
    RunsStayApart(start, events);
    ErrorLoses(Run(start, events));
  }

  /** It happens while the loop reads: the zone has been read, a handler changes it and fails before it signals. */
  lemma {:induction false} ErrorWhileReadingLoses(zone: string, was: seq<IPRecord>, now: seq<IPRecord>)
    requires was != now
    ensures var start := System(map[zone := was], false, 0, Waiting, map[], false, false);
            var events := [Poll(start.store, true), List, Read(zone)];
            && IsRun(start, events)
            && var t := ErrorInsteadOfSend(Step(Run(start, events), Write(map[zone := now])));
               !NoWakeupLost(t) && Enabled(t, Finish(true))
               && !Called(Step(t, Finish(true))) && Step(t, Finish(true)).published != Step(t, Finish(true)).store
  {
    var start := System(map[zone := was], false, 0, Waiting, map[], false, false);
    FirstMerge(start, zone, was, true);
    var s := start.(phase := Reading({}, map[zone := was]), fetched := true);
    var t := ErrorInsteadOfSend(Step(s, Write(map[zone := now])));
    assert map[zone := was][zone] != map[zone := now][zone];
    assert !Agree(t.phase.seen, t.store, zone);
  }
}
