/** Pushing reloads to the replicas and remembering which still owe one (internal/reloader/reloader.go). */
module Reloader {
  /** What the network does to the pushes of one round: which attempts succeed, and when the context is cancelled. */
  datatype Round = Round(succeeds: map<string, set<nat>>, cancelled: map<string, nat>)

  predicate AttemptSucceeds(round: Round, addr: string, attempt: nat) {
    addr in round.succeeds && attempt in round.succeeds[addr]
  }

  /** After this attempt the wait is cut short. */
  predicate CancelledAfter(round: Round, addr: string, attempt: nat) {
    addr in round.cancelled && round.cancelled[addr] <= attempt
  }

  /** Some attempt within the allowance succeeds before the context is cancelled. */
  ghost predicate Reaches(round: Round, addr: string, delays: nat) {
    exists k: nat :: k <= delays && AttemptSucceeds(round, addr, k) && forall j: nat :: j < k ==> !CancelledAfter(round, addr, j)
  }

  class Reloader {
    const addrs: seq<string>
    const retryDelays: nat
    var dirty: set<string>

    constructor (addrs: seq<string>, retryDelays: nat)
      ensures this.addrs == addrs && this.retryDelays == retryDelays && dirty == {}
    {
      this.addrs, this.retryDelays, dirty := addrs, retryDelays, {};
    }

    /** One more attempt than there are delays, unless cancelled while waiting. */
    method ReloadOne(round: Round, addr: string) returns (ok: bool, attempts: nat)
      ensures ok <==> Reaches(round, addr, retryDelays)
      ensures 1 <= attempts <= retryDelays + 1
      ensures forall j: nat :: j < attempts - 1 ==> !AttemptSucceeds(round, addr, j) && !CancelledAfter(round, addr, j)
      ensures if ok then AttemptSucceeds(round, addr, attempts - 1)
              else !AttemptSucceeds(round, addr, attempts - 1)
                   && (attempts == retryDelays + 1 || CancelledAfter(round, addr, attempts - 1))
    {
      var attempt := 0;
      while true
        invariant attempt <= retryDelays
        invariant forall j: nat :: j < attempt ==> !AttemptSucceeds(round, addr, j) && !CancelledAfter(round, addr, j)
        decreases retryDelays - attempt
      {
        if AttemptSucceeds(round, addr, attempt) {
          return true, attempt + 1;
        }
        if attempt >= retryDelays {
          return false, attempt + 1;
        }
        if CancelledAfter(round, addr, attempt) {
          return false, attempt + 1;
        }
        attempt := attempt + 1;
      }
    }

    /** The pushes run in parallel; each success clears its own address, in whatever order they end. */
    method PushDirty(round: Round)
      modifies this
      ensures forall a :: a in dirty <==> a in old(dirty) && !Reaches(round, a, retryDelays)
    {
      var todo := dirty;
      while todo != {}
        invariant todo <= old(dirty)
        invariant forall a :: a in dirty <==> a in old(dirty) && (a in todo || !Reaches(round, a, retryDelays))
        decreases |todo|
      {
        var addr :| addr in todo;
        todo := todo - {addr};
        var ok, attempts := ReloadOne(round, addr);
        if ok {
          dirty := dirty - {addr};
        }
      }
    }

    /** After a change: every address owes a reload, and those a push reaches are cleared. */
    method Reload(round: Round)
      modifies this
      ensures forall a :: a in dirty <==> (a in old(dirty) || a in addrs) && !Reaches(round, a, retryDelays)
    {
      var i := 0;
      while i < |addrs|
        invariant 0 <= i <= |addrs|
        invariant forall a :: a in dirty <==> a in old(dirty) || a in addrs[..i]
      {
        dirty := dirty + {addrs[i]};
        assert addrs[..i + 1] == addrs[..i] + [addrs[i]];
        i := i + 1;
      }
      assert addrs[..i] == addrs;
      PushDirty(round);
    }

    /** Without a change: only what is still owed. */
    method Reconcile(round: Round)
      modifies this
      ensures forall a :: a in dirty <==> a in old(dirty) && !Reaches(round, a, retryDelays)
    {
      PushDirty(round);
    }
  }
}
