/**
 * The sidecar writes zone files, marks its targets dirty and pushes; the replicas fetch when pushed and on their own,
 * one fetch at a time. Every step may interleave with every other (internal/reloader/reloader.go, cmd/sidecar/main.go,
 * coredns/plugins/netboxreload/plugin.go). What a replica serves is here the files it read; Plugin.ReloadZones turns
 * them into zones.
 */
module ReloadProtocol {
  import opened Wrappers
  import opened ZoneDir

  /**
   * A fetch under way, by a call of the sidecar or by the replica's own poll: the files listed and those read so far.
   * `stale` notes that the disk was written after it began.
   */
  datatype Op = Idle | Fetching(call: Option<nat>, listing: set<string>, got: Files, stale: bool)

  /** `queue` holds calls received and waiting for the mutex, `done` those that ended well. */
  datatype Replica = Replica(served: Files, op: Op, queue: set<nat>, done: set<nat>)

  /** The sidecar's loop: writing zone files, with some written already or none, or past marking its targets. */
  datatype Phase = Quiet | Writing(touched: bool)

  /** `disk` holds the zone files a listing shows, `calls` the pushes the sidecar is waiting for. */
  datatype System = System(
    disk: Files,
    phase: Phase,
    dirty: set<string>,
    calls: map<string, nat>,
    nextCall: nat,
    replicas: map<string, Replica>)

  datatype Event =
    | BeginWrite
    | WriteFiles(disk: Files)
    | EndWrite
    | Call(addr: string)
    | GiveUp(addr: string)
    | Ack(addr: string)
    | BeginPoll(addr: string)
    | BeginPush(addr: string, call: nat)
    | Read(addr: string, name: string)
    | End(addr: string)
    | Abort(addr: string)

  /** A new write waits for the pushes of the last; a fetch waits for the mutex. A read of a file that is gone fails. */
  predicate Enabled(s: System, e: Event) {
    match e
    case BeginWrite => s.phase.Quiet? && s.calls == map[]
    case WriteFiles(_) => s.phase.Writing?
    case EndWrite => s.phase.Writing?
    case Call(a) => s.phase.Quiet? && a in s.dirty && a in s.replicas && a !in s.calls
    case GiveUp(a) => a in s.calls
    case Ack(a) => a in s.calls && a in s.replicas && s.calls[a] in s.replicas[a].done
    case BeginPoll(a) => a in s.replicas && s.replicas[a].op.Idle?
    case BeginPush(a, id) => a in s.replicas && s.replicas[a].op.Idle? && id in s.replicas[a].queue
    case Read(a, name) =>
      && a in s.replicas && s.replicas[a].op.Fetching? && name in s.replicas[a].op.listing
      && name !in s.replicas[a].op.got && name in s.disk
    case End(a) => a in s.replicas && s.replicas[a].op.Fetching? && s.replicas[a].op.got.Keys == s.replicas[a].op.listing
    case Abort(a) => a in s.replicas && s.replicas[a].op.Fetching?
  }

  function Put(s: System, a: string, r: Replica): System { s.(replicas := s.replicas[a := r]) }

  function Outdated(r: Replica): Replica { if r.op.Fetching? then r.(op := r.op.(stale := true)) else r }

  function Step(s: System, e: Event): System
    requires Enabled(s, e)
  {
    match e
    case BeginWrite => s.(phase := Writing(false))
    case WriteFiles(disk) => s.(disk := disk, phase := Writing(true), replicas := map a | a in s.replicas :: Outdated(s.replicas[a]))
    case EndWrite => if s.phase.touched then s.(phase := Quiet, dirty := s.replicas.Keys) else s.(phase := Quiet)
    case Call(a) =>
      var r := s.replicas[a];
      Put(s, a, r.(queue := r.queue + {s.nextCall})).(calls := s.calls[a := s.nextCall], nextCall := s.nextCall + 1)
    case GiveUp(a) => s.(calls := s.calls - {a})
    case Ack(a) => s.(calls := s.calls - {a}, dirty := s.dirty - {a})
    case BeginPoll(a) => Put(s, a, s.replicas[a].(op := Fetching(None, s.disk.Keys, map[], false)))
    case BeginPush(a, id) =>
      var r := s.replicas[a];
      Put(s, a, r.(op := Fetching(Some(id), s.disk.Keys, map[], false), queue := r.queue - {id}))
    case Read(a, name) =>
      var r := s.replicas[a];
      Put(s, a, r.(op := r.op.(got := r.op.got[name := s.disk[name]])))
    case End(a) =>
      var r := s.replicas[a];
      Put(s, a, r.(served := r.op.got, op := Idle, done := if r.op.call.Some? then r.done + {r.op.call.value} else r.done))
    case Abort(a) => Put(s, a, s.replicas[a].(op := Idle))
  }

  // ---- what every step keeps ----------------------------------------------------------------------------------

  /** A fetch begun since the last write has read what is on disk. */
  predicate OpFits(disk: Files, op: Op) {
    op.Fetching? && !op.stale ==>
      op.listing == disk.Keys && forall n :: n in op.got ==> n in disk && op.got[n] == disk[n]
  }

  /** The replica serves the disk, and a fetch under way will not make it serve anything else. */
  predicate Good(disk: Files, r: Replica) { r.served == disk && (r.op.Fetching? ==> !r.op.stale) }

  /** Calls the replica knows of were made. */
  ghost predicate Numbered(s: System, r: Replica) {
    && (forall id :: id in r.queue || id in r.done ==> id < s.nextCall)
    && (r.op.Fetching? && r.op.call.Some? ==> r.op.call.value < s.nextCall)
  }

  /** A call being waited for was made after the last write: its fetch is not stale, and once it is done the replica is good. */
  ghost predicate CallGood(disk: Files, id: nat, r: Replica) {
    && (r.op.Fetching? && r.op.call == Some(id) ==> !r.op.stale)
    && (id in r.done ==> Good(disk, r))
  }

  ghost predicate ReplicaFits(s: System, a: string)
    requires a in s.replicas
  {
    && OpFits(s.disk, s.replicas[a].op)
    && Numbered(s, s.replicas[a])
    && (a in s.calls ==> s.calls[a] < s.nextCall && CallGood(s.disk, s.calls[a], s.replicas[a]))
    && (s.phase != Writing(true) && a !in s.dirty ==> Good(s.disk, s.replicas[a]))
  }

  ghost predicate Consistent(s: System) {
    && s.calls.Keys <= s.dirty <= s.replicas.Keys
    && (s.calls != map[] ==> s.phase.Quiet?)
    && (forall a :: a in s.replicas ==> ReplicaFits(s, a))
  }

  /** An event at one replica leaves the others as they were. */
  lemma {:induction false} OthersFit(s: System, a: string, r: Replica, b: string)
    requires Consistent(s) && a in s.replicas && b in s.replicas && b != a
    ensures ReplicaFits(Put(s, a, r), b)
  {
  }

  lemma {:induction false} ReplicaStepFits(s: System, e: Event, a: string)
    requires Consistent(s) && Enabled(s, e) && a in s.replicas
    requires e == BeginPoll(a) || e == End(a) || e == Abort(a) || (e.BeginPush? && e.addr == a) || (e.Read? && e.addr == a)
    ensures Step(s, e).replicas.Keys == s.replicas.Keys && ReplicaFits(Step(s, e), a)
  {
    var r := s.replicas[a];
    assert ReplicaFits(s, a);
    if e.End? {
      assert !r.op.stale ==> r.op.got == s.disk;
    }
  }

  lemma {:induction false} ReplicaStepConsistent(s: System, e: Event, a: string)
    requires Consistent(s) && Enabled(s, e) && a in s.replicas
    requires e == BeginPoll(a) || e == End(a) || e == Abort(a) || (e.BeginPush? && e.addr == a) || (e.Read? && e.addr == a)
    ensures Consistent(Step(s, e))
  {
    hide ReplicaFits;
    ReplicaStepFits(s, e, a);
    var t := Step(s, e);
    forall b | b in t.replicas ensures ReplicaFits(t, b) {
      if b != a { OthersFit(s, a, t.replicas[a], b); }
    }
  }

  lemma {:induction false} WriteConsistent(s: System, disk: Files)
    requires Consistent(s) && s.phase.Writing?
    ensures Consistent(Step(s, WriteFiles(disk)))
  {
    assert s.calls == map[];
    var t := Step(s, WriteFiles(disk));
    forall a | a in t.replicas ensures ReplicaFits(t, a) { assert ReplicaFits(s, a); }
  }

  lemma {:induction false} CallConsistent(s: System, a: string)
    requires Consistent(s) && Enabled(s, Call(a))
    ensures Consistent(Step(s, Call(a)))
  {
    var t := Step(s, Call(a));
    forall b | b in t.replicas ensures ReplicaFits(t, b) { assert ReplicaFits(s, b); }
  }

  lemma {:induction false} SidecarStepConsistent(s: System, e: Event)
    requires Consistent(s) && Enabled(s, e) && (e.BeginWrite? || e.EndWrite? || e.GiveUp? || e.Ack?)
    ensures Consistent(Step(s, e))
  {
    var t := Step(s, e);
    forall a | a in t.replicas ensures ReplicaFits(t, a) { assert ReplicaFits(s, a); }
  }

  lemma {:induction false} StepConsistent(s: System, e: Event)
    requires Consistent(s) && Enabled(s, e)
    ensures Consistent(Step(s, e))
  {
    hide Consistent, Step;
    match e
    case WriteFiles(disk) => WriteConsistent(s, disk);
    case Call(a) => CallConsistent(s, a);
    case BeginPoll(a) => ReplicaStepConsistent(s, e, a);
    case BeginPush(a, _) => ReplicaStepConsistent(s, e, a);
    case Read(a, _) => ReplicaStepConsistent(s, e, a);
    case End(a) => ReplicaStepConsistent(s, e, a);
    case Abort(a) => ReplicaStepConsistent(s, e, a);
    case _ => SidecarStepConsistent(s, e);
  }

  ghost predicate IsRun(s: System, events: seq<Event>)
    decreases |events|
  {
    events == [] || (Enabled(s, events[0]) && IsRun(Step(s, events[0]), events[1..]))
  }

  ghost function Run(s: System, events: seq<Event>): System
    requires IsRun(s, events)
    decreases |events|
  {
    if events == [] then s else Run(Step(s, events[0]), events[1..])
  }

  lemma {:induction false} RunConsistent(s: System, events: seq<Event>)
    requires Consistent(s) && IsRun(s, events)
    ensures Consistent(Run(s, events))
    decreases |events|
  {
    hide Consistent, Step, Enabled;
    if events != [] {
      StepConsistent(s, events[0]);
      RunConsistent(Step(s, events[0]), events[1..]);
    }
  }

  /**
   * Replica agreement: in every interleaving, whenever the loop is not in the middle of writing, every address that is
   * not dirty serves exactly the files that are on disk.
   */
  lemma {:induction false} ReplicasAgree(s: System, events: seq<Event>, a: string)
    requires Consistent(s) && IsRun(s, events)
    requires var t := Run(s, events); t.phase.Quiet? && a in t.replicas && a !in t.dirty
    ensures var t := Run(s, events); t.replicas[a].served == t.disk
  {
    RunConsistent(s, events);
    var t := Run(s, events);
    assert ReplicaFits(t, a);
  }

  // ---- from the start of the sidecar -------------------------------------------------------------------------------

  /** What holds whatever the replicas serve: calls are numbered, made only outside a write, and to dirty addresses. */
  ghost predicate WellNumbered(s: System) {
    && (forall a :: a in s.replicas ==> Numbered(s, s.replicas[a]) && OpFits(s.disk, s.replicas[a].op))
    && s.calls.Keys <= s.dirty <= s.replicas.Keys
    && (s.calls != map[] ==> s.phase.Quiet?)
  }

  /** A sidecar as it starts: nothing dirty, nothing called, over replicas that serve whatever they do. */
  ghost predicate Booted(s: System) { s.phase.Quiet? && s.dirty == {} && s.calls == map[] && WellNumbered(s) }

  lemma {:induction false} StepWellNumbered(s: System, e: Event)
    requires WellNumbered(s) && Enabled(s, e)
    ensures WellNumbered(Step(s, e))
  {
  }

  lemma {:induction false} RunWellNumbered(s: System, events: seq<Event>)
    requires WellNumbered(s) && IsRun(s, events)
    ensures WellNumbered(Run(s, events))
    decreases |events|
  {
    hide WellNumbered, Step, Enabled;
    if events != [] {
      StepWellNumbered(s, events[0]);
      RunWellNumbered(Step(s, events[0]), events[1..]);
    }
  }

  /** Whatever the replicas served before, the first change the sidecar finishes writing establishes the invariant. */
  lemma {:induction false} FirstChangeEstablishes(s: System)
    requires WellNumbered(s) && s.phase == Writing(true)
    ensures Consistent(Step(s, EndWrite))
  {
  }

  /**
   * From the start of the sidecar, over replicas that serve anything at all: once a change of the files has been
   * written, in every continuation every address that is not dirty serves the disk whenever the loop is not writing.
   */
  lemma {:induction false} AgreementFromBoot(s: System, before: seq<Event>, after: seq<Event>, a: string)
    requires Booted(s) && IsRun(s, before) && Run(s, before).phase == Writing(true)
    requires var changed := Step(Run(s, before), EndWrite);
             IsRun(changed, after) && Run(changed, after).phase.Quiet?
             && a in Run(changed, after).replicas && a !in Run(changed, after).dirty
    ensures var t := Run(Step(Run(s, before), EndWrite), after); t.replicas[a].served == t.disk
  {
    hide Consistent, WellNumbered, IsRun, Run;
    RunWellNumbered(s, before);
    FirstChangeEstablishes(Run(s, before));
    ReplicasAgree(Step(Run(s, before), EndWrite), after, a);
  }

  /** Before that, agreement is what the replicas happened to serve: at the start it holds exactly if they all serve the disk. */
  lemma {:induction false} BootedConsistentExactlyWhen(s: System)
    requires Booted(s)
    ensures Consistent(s) <==> forall a :: a in s.replicas ==> Good(s.disk, s.replicas[a])
  {
    if Consistent(s) {
      forall a | a in s.replicas ensures Good(s.disk, s.replicas[a]) { assert ReplicaFits(s, a); }
    }
  }

  // ---- where agreement is lost -----------------------------------------------------------------------------------

  /** A restarted sidecar starts with no address dirty. */
  function SidecarRestarted(s: System): System { s.(dirty := {}, calls := map[], phase := Quiet) }

  /** A restart keeps agreement exactly when every replica is good already: what was still owed is forgotten. */
  lemma {:induction false} RestartKeepsExactlyWhen(s: System)
    requires WellNumbered(s)
    ensures Booted(SidecarRestarted(s))
    ensures Consistent(SidecarRestarted(s)) <==> forall a :: a in s.replicas ==> Good(s.disk, s.replicas[a])
  {
    hide Consistent, Good;
    BootedConsistentExactlyWhen(SidecarRestarted(s));
  }

  lemma RunOneMore(s: System, events: seq<Event>, e: Event)
    requires IsRun(s, events) && Enabled(Run(s, events), e)
    ensures IsRun(s, events + [e]) && Run(s, events + [e]) == Step(Run(s, events), e)
  {
    hide Step, Enabled;
    RunOne(Run(s, events), e);
    RunThen(s, events, [e]);
  }

  /** A sidecar and one replica that serves what is on disk. */
  function Settled(a: string, disk: Files): System {
    System(disk, Quiet, {}, map[], 0, map[a := Replica(disk, Idle, {}, {})])
  }

  lemma WriteRuns(a: string, was: Files, now: Files)
    ensures var s := Settled(a, was); var written := System(now, Writing(true), {}, map[], 0, s.replicas);
            && Consistent(s) && Consistent(written)
            && IsRun(s, [BeginWrite, WriteFiles(now)]) && Run(s, [BeginWrite, WriteFiles(now)]) == written
            && IsRun(s, [BeginWrite, WriteFiles(now), EndWrite])
            && Run(s, [BeginWrite, WriteFiles(now), EndWrite]) == written.(phase := Quiet, dirty := {a})
  {
    var s := Settled(a, was);
    var written := System(now, Writing(true), {}, map[], 0, s.replicas);
    RunOne(s, BeginWrite);
    assert (map b | b in s.replicas :: Outdated(s.replicas[b])) == s.replicas;
    RunOneMore(s, [BeginWrite], WriteFiles(now));
    RunOneMore(s, [BeginWrite, WriteFiles(now)], EndWrite);
    assert [BeginWrite] + [WriteFiles(now)] == [BeginWrite, WriteFiles(now)];
    assert [BeginWrite, WriteFiles(now)] + [EndWrite] == [BeginWrite, WriteFiles(now), EndWrite];
  }

  /** It happens: after one change a restart leaves the replica with the old files, and no address dirty. */
  lemma {:induction false} RestartForgets(a: string, was: Files, now: Files)
    requires was != now
    ensures var events := [BeginWrite, WriteFiles(now), EndWrite];
            && IsRun(Settled(a, was), events)
            && var t := SidecarRestarted(Run(Settled(a, was), events));
               !Consistent(t) && t.dirty == {} && t.replicas == Settled(a, was).replicas && t.disk == now
  {
    WriteRuns(a, was, now);
    var t := SidecarRestarted(Run(Settled(a, was), [BeginWrite, WriteFiles(now), EndWrite]));
    assert !ReplicaFits(t, a);
  }

  /** An update that fails half-way returns an error, and nothing is marked or pushed. */
  function WriteFailed(s: System): System { s.(phase := Quiet) }

  /** Agreement then survives exactly when every address that is not dirty is good with what was written. */
  lemma {:induction false} FailedWriteKeepsExactlyWhen(s: System)
    requires Consistent(s) && s.phase == Writing(true)
    ensures Consistent(WriteFailed(s)) <==> forall a :: a in s.replicas && a !in s.dirty ==> Good(s.disk, s.replicas[a])
  {
    var t := WriteFailed(s);
    forall a | a in s.replicas ensures ReplicaFits(t, a) <==> (a !in s.dirty ==> Good(s.disk, s.replicas[a])) {
      assert ReplicaFits(s, a);
    }
  }

  /** It happens to the first change: the files written are on disk, the replica serves the old ones and nobody is told. */
  lemma {:induction false} FailedWriteUntold(a: string, was: Files, now: Files)
    requires was != now
    ensures var events := [BeginWrite, WriteFiles(now)];
            && IsRun(Settled(a, was), events)
            && var t := WriteFailed(Run(Settled(a, was), events));
               !Consistent(t) && t.dirty == {} && t.replicas == Settled(a, was).replicas && t.disk == now
  {
    WriteRuns(a, was, now);
    var t := WriteFailed(Run(Settled(a, was), [BeginWrite, WriteFiles(now)]));
    assert !ReplicaFits(t, a);
  }

  // ---- progress -----------------------------------------------------------------------------------------------------

  lemma {:induction false} RunThen(s: System, a: seq<Event>, b: seq<Event>)
    requires IsRun(s, a) && IsRun(Run(s, a), b)
    ensures IsRun(s, a + b) && Run(s, a + b) == Run(Run(s, a), b)
    decreases |a|
  {
    hide Step, Enabled;
    if a == [] {
      assert a + b == b;
    } else {
      assert (a + b)[0] == a[0] && (a + b)[1..] == a[1..] + b;
      RunThen(Step(s, a[0]), a[1..], b);
    }
  }

  lemma {:induction false} RunOne(s: System, e: Event)
    requires Enabled(s, e)
    ensures IsRun(s, [e]) && Run(s, [e]) == Step(s, e)
  {
    hide Step, Enabled;
    assert [e][1..] == [];
    assert Run(Step(s, e), []) == Step(s, e);
  }

  /** A fetch begun since the last write can read the rest of its files and end, whatever else is going on. */
  lemma {:induction false} FetchCanEnd(s: System, a: string) returns (events: seq<Event>)
    requires a in s.replicas && s.replicas[a].op.Fetching? && !s.replicas[a].op.stale && OpFits(s.disk, s.replicas[a].op)
    requires s.replicas[a].op.got.Keys <= s.disk.Keys
    ensures IsRun(s, events)
    ensures var t, op := Run(s, events), s.replicas[a].op;
            && a in t.replicas && t == Put(s, a, t.replicas[a]) && t.replicas[a].served == s.disk && t.replicas[a].op.Idle?
            && t.replicas[a].done == if op.call.Some? then s.replicas[a].done + {op.call.value} else s.replicas[a].done
    decreases |s.disk.Keys - s.replicas[a].op.got.Keys|
  {
    var op := s.replicas[a].op;
    if op.got.Keys == s.disk.Keys {
      RunOne(s, End(a));
      assert op.got == s.disk;
      events := [End(a)];
    } else {
      assert op.got.Keys + (s.disk.Keys - op.got.Keys) == s.disk.Keys;
      assert s.disk.Keys - op.got.Keys != {};
      var name :| name in s.disk.Keys - op.got.Keys;
      var next := Step(s, Read(a, name));
      assert s.disk.Keys - next.replicas[a].op.got.Keys == s.disk.Keys - op.got.Keys - {name};
      var rest := FetchCanEnd(next, a);
      RunOne(s, Read(a, name));
      RunThen(s, [Read(a, name)], rest);
      events := [Read(a, name)] + rest;
    }
  }

  /** From any quiet state a dirty address whose replica is idle can be pushed to, and then serves the disk and is clean. */
  lemma {:induction false} PushCanConverge(s: System, a: string) returns (events: seq<Event>)
    requires Consistent(s) && Enabled(s, Call(a)) && s.replicas[a].op.Idle?
    ensures IsRun(s, events)
    ensures var t := Run(s, events);
            t.disk == s.disk && t.phase.Quiet? && t.dirty == s.dirty - {a} && a in t.replicas && t.replicas[a].served == s.disk
  {
    var id := s.nextCall;
    var called := Step(s, Call(a));
    var begun := Step(called, BeginPush(a, id));
    RunOne(s, Call(a));
    RunOne(called, BeginPush(a, id));
    RunThen(s, [Call(a)], [BeginPush(a, id)]);
    var fetching := FetchCanEnd(begun, a);
    var ended := Run(begun, fetching);
    RunThen(s, [Call(a)] + [BeginPush(a, id)], fetching);
    RunOne(ended, Ack(a));
    RunThen(s, [Call(a)] + [BeginPush(a, id)] + fetching, [Ack(a)]);
    events := [Call(a)] + [BeginPush(a, id)] + fetching + [Ack(a)];
  }
}
