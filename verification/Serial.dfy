/** SOA serials: seconds since the epoch in 32 bits, with a guard against reuse (internal/zonegen/serial.go). */
module Serial {
  const MODULUS: nat := 0x1_0000_0000
  const HALF: nat := 0x8000_0000
  const MAX_SERIAL_DRIFT: nat := 365 * 24 * 60 * 60

  type UInt32 = n: nat | n < 0x1_0000_0000 witness 0

  /** uint32(time.Now().UTC().Unix()) for a clock reading in seconds. */
  function Truncate(clock: int): UInt32 { clock % MODULUS }

  /** The serial the next write gets, given the one the zone holds and the clock. */
  function NextSerial(current: UInt32, clock: int): UInt32 {
    var ts := Truncate(clock);
    if current > ts && current - ts > MAX_SERIAL_DRIFT then ts
    else if ts <= current then Truncate(current + 1)
    else ts
  }

  /** s2 is newer than s1 in the serial arithmetic of section 3.2 of RFC 1982. */
  predicate Newer(s2: UInt32, s1: UInt32) {
    (s1 < s2 && s2 - s1 < HALF) || (s1 > s2 && s1 - s2 > HALF)
  }

  /** A write never republishes the serial the zone already holds. */
  lemma NeverReused(current: UInt32, clock: int)
    ensures NextSerial(current, clock) != current
  {
    var ts := Truncate(clock);
    if ts <= current && current - ts <= MAX_SERIAL_DRIFT && current + 1 == MODULUS {
      assert Truncate(current + 1) == 0;
    }
  }

  /**
   * Exactly when one write is seen as an advance by a secondary: a serial behind the clock must be less than half
   * the number space behind, and a serial that takes the reset branch must be more than half of it ahead.
   */
  lemma AdvancesExactlyWhen(current: UInt32, clock: int)
    ensures Newer(NextSerial(current, clock), current) <==>
      var ts := Truncate(clock);
      && (ts > current ==> ts - current < HALF)
      && (current > ts && current - ts > MAX_SERIAL_DRIFT ==> current - ts > HALF)
  {
    var ts := Truncate(clock);
    if ts <= current && !(current > ts && current - ts > MAX_SERIAL_DRIFT) {
      if current + 1 == MODULUS {
        assert Truncate(current + 1) == 0;
      } else {
        assert Truncate(current + 1) == current + 1;
      }
    }
  }

  /**
   * The guard is lost when it carries a serial over the end of the number space: three writes in the last second
   * before the wrap publish 2^32 - 1, 0 and 2^32 - 1 again, and the last is older than the one before it.
   */
  lemma GuardLostAcrossTheWrap()
    ensures var clock := MODULUS - 1;
            && NextSerial(MODULUS - 2, clock) == MODULUS - 1
            && NextSerial(MODULUS - 1, clock) == 0
            && NextSerial(0, clock) == MODULUS - 1
            && !Newer(NextSerial(0, clock), 0)
  {
    assert Truncate(MODULUS) == 0;
  }

  // ---- runs of writes -----------------------------------------------------------------------------

  /** The serials of a run of writes at the given clock readings, starting from the serial the zone holds. */
  function Serials(start: UInt32, clocks: seq<int>): (r: seq<UInt32>)
    ensures |r| == |clocks| + 1 && r[0] == start
    decreases |clocks|
  {
    if clocks == [] then [start] else [start] + Serials(NextSerial(start, clocks[0]), clocks[1..])
  }

  function Max(a: int, b: int): int { if a < b then b else a }

  /** The same run counted without a 32-bit register: one more than the last, or the clock if that is later. */
  function Counters(start: int, clocks: seq<int>): (r: seq<int>)
    ensures |r| == |clocks| + 1 && r[0] == start
    decreases |clocks|
  {
    if clocks == [] then [start] else [start] + Counters(Max(start + 1, clocks[0]), clocks[1..])
  }

  ghost predicate NonDecreasing(clocks: seq<int>) {
    forall i, j :: 0 <= i <= j < |clocks| ==> clocks[i] <= clocks[j]
  }

  lemma {:induction false} CountersIncrease(start: int, clocks: seq<int>, i: nat, j: nat)
    requires i < j <= |clocks|
    ensures Counters(start, clocks)[i] < Counters(start, clocks)[j]
    decreases j
  {
    var next := if clocks == [] then start else Max(start + 1, clocks[0]);
    if i == 0 {
      if j == 1 {
        assert Counters(next, clocks[1..])[0] == next;
      } else {
        CountersIncrease(next, clocks[1..], 0, j - 1);
      }
    } else {
      CountersIncrease(next, clocks[1..], i - 1, j - 1);
    }
  }

  /** One write agrees with the unbounded counter while the counter has not crossed a wrap the clock has yet to cross. */
  lemma StepFollowsCounter(counter: nat, clock: nat)
    requires counter <= clock + MAX_SERIAL_DRIFT
    requires clock - counter < HALF
    requires counter / MODULUS <= clock / MODULUS
    ensures NextSerial(counter % MODULUS, clock) == Max(counter + 1, clock) % MODULUS
  {
    var c, ts := counter % MODULUS, clock % MODULUS;
    var ec, et := counter / MODULUS, clock / MODULUS;
    assert counter == ec * MODULUS + c && clock == et * MODULUS + ts;
    if ec == et {
      if ts <= c {
        assert (counter + 1) % MODULUS == (c + 1) % MODULUS;
      }
    } else {
      var k := et - ec - 1;
      assert k >= 0;
      assert clock - counter == k * MODULUS + MODULUS + ts - c;
      assert k * MODULUS >= k * HALF;
      assert c - ts > HALF;
    }
  }

  /** No write of the run happens with the counter already past a wrap that the clock has yet to reach. */
  ghost predicate NoDriftAcrossWrap(start: nat, clocks: seq<int>) {
    forall i :: 0 <= i < |clocks| ==>
      clocks[i] >= 0 && Counters(start, clocks)[i] / MODULUS <= clocks[i] / MODULUS
  }

  /** Consecutive writes are less than half the number space apart. */
  ghost predicate SmallGaps(start: nat, clocks: seq<int>) {
    forall i :: 0 <= i < |clocks| ==> clocks[i] - Counters(start, clocks)[i] < HALF
  }

  lemma TailRun(start: nat, clocks: seq<int>, next: nat)
    requires clocks != [] && NonDecreasing(clocks)
    requires NoDriftAcrossWrap(start, clocks) && SmallGaps(start, clocks)
    requires next == Max(start + 1, clocks[0])
    ensures NonDecreasing(clocks[1..]) && NoDriftAcrossWrap(next, clocks[1..]) && SmallGaps(next, clocks[1..])
  {
    var t := clocks[1..];
    forall i, j | 0 <= i <= j < |t| ensures t[i] <= t[j] { assert clocks[i + 1] <= clocks[j + 1]; }
    forall i | 0 <= i < |t|
      ensures t[i] >= 0 && Counters(next, t)[i] / MODULUS <= t[i] / MODULUS && t[i] - Counters(next, t)[i] < HALF
    {
      assert t[i] == clocks[i + 1] && Counters(start, clocks)[i + 1] == Counters(next, t)[i];
    }
  }

  /**
   * Over a whole run the 32-bit register holds exactly the unbounded counter, wraps of the number space included:
   * the reset branch is taken only to follow the clock over a wrap.
   */
  lemma {:induction false} RunFollowsCounter(start: nat, clocks: seq<int>, slack: nat, i: nat)
    requires NonDecreasing(clocks) && NoDriftAcrossWrap(start, clocks) && SmallGaps(start, clocks)
    requires clocks != [] ==> start <= clocks[0] + slack
    requires slack + |clocks| <= MAX_SERIAL_DRIFT
    requires i <= |clocks|
    ensures Serials(start % MODULUS, clocks)[i] == Counters(start, clocks)[i] % MODULUS
    decreases i
  {
    if i > 0 {
      var next := Max(start + 1, clocks[0]);
      assert Counters(start, clocks)[0] == start;
      StepFollowsCounter(start, clocks[0]);
      TailRun(start, clocks, next);
      if |clocks| > 1 { assert clocks[0] <= clocks[1]; }
      RunFollowsCounter(next, clocks[1..], slack + 1, i - 1);
    }
  }

  lemma NewerByCounter(a: nat, b: nat)
    requires a < b && b - a < HALF
    ensures Newer(b % MODULUS, a % MODULUS)
  {
    var ea, eb := a / MODULUS, b / MODULUS;
    assert a == ea * MODULUS + a % MODULUS && b == eb * MODULUS + b % MODULUS;
    assert b - a == (eb - ea) * MODULUS + b % MODULUS - a % MODULUS;
  }

  /**
   * Every published serial is newer (RFC 1982) than the one before it, over any run of fewer than MAX_SERIAL_DRIFT
   * writes with a non-decreasing clock, from a serial at or below the clock, gaps below half the number space, and
   * no drift carried over a wrap.
   */
  lemma RunAdvances(start: nat, clocks: seq<int>, i: nat)
    requires NonDecreasing(clocks) && NoDriftAcrossWrap(start, clocks) && SmallGaps(start, clocks)
    requires clocks != [] ==> start <= clocks[0]
    requires |clocks| <= MAX_SERIAL_DRIFT
    requires i < |clocks|
    ensures Newer(Serials(start % MODULUS, clocks)[i + 1], Serials(start % MODULUS, clocks)[i])
  {
    var a, b := Counters(start, clocks)[i], Counters(start, clocks)[i + 1];
    assert a >= 0 by { if i > 0 { CountersIncrease(start, clocks, 0, i); } }
    assert a < b && b - a < HALF by { CounterStep(start, clocks, i); }
    NewerByCounter(a, b);
    RunFollowsCounter(start, clocks, 0, i);
    RunFollowsCounter(start, clocks, 0, i + 1);
  }

  lemma {:induction false} CounterStep(start: int, clocks: seq<int>, i: nat)
    requires i < |clocks|
    ensures Counters(start, clocks)[i + 1] == Max(Counters(start, clocks)[i] + 1, clocks[i])
    decreases i
  {
    if i > 0 { CounterStep(Max(start + 1, clocks[0]), clocks[1..], i - 1); }
  }

  ghost predicate Resets(current: UInt32, clock: int) {
    current > Truncate(clock) && current - Truncate(clock) > MAX_SERIAL_DRIFT
  }

  /**
   * Before the 2106 wrap, a run from a serial at most `slack` ahead of the clock is strictly increasing, is never
   * ahead of the clock by more than that slack plus the number of writes, and never takes the reset branch.
   */
  lemma {:induction false} RunBeforeTheWrap(start: UInt32, clocks: seq<int>, slack: nat, i: nat)
    requires NonDecreasing(clocks)
    requires forall k :: 0 <= k < |clocks| ==> 0 <= clocks[k] && clocks[k] + slack + |clocks| < MODULUS
    requires clocks != [] ==> start <= clocks[0] + slack
    requires slack + |clocks| <= MAX_SERIAL_DRIFT
    requires i < |clocks|
    ensures var r := Serials(start, clocks);
            && r[i] < r[i + 1]
            && clocks[i] <= r[i + 1] <= clocks[i] + slack + i + 1
            && !Resets(r[i], clocks[i])
    decreases i
  {
    var next := NextSerial(start, clocks[0]);
    assert Truncate(clocks[0]) == clocks[0];
    assert Truncate(start + 1) == start + 1;
    assert next == Max(start + 1, clocks[0]);
    if i == 0 {
      assert Serials(next, clocks[1..])[0] == next;
    } else {
      assert clocks[0] <= clocks[1];
      forall a, b | 0 <= a <= b < |clocks[1..]| ensures clocks[1..][a] <= clocks[1..][b] {
        assert clocks[a + 1] <= clocks[b + 1];
      }
      RunBeforeTheWrap(next, clocks[1..], slack + 1, i - 1);
    }
  }

  /**
   * A serial of the old YYYYMMDDNN scheme, more than a year ahead of the clock, resets once: the first write takes
   * the clock, and no write of the run after it takes the reset branch again.
   */
  lemma LegacySerialResetsOnce(legacy: UInt32, clocks: seq<int>, i: nat)
    requires NonDecreasing(clocks) && clocks != [] && |clocks| <= MAX_SERIAL_DRIFT
    requires forall k :: 0 <= k < |clocks| ==> 0 <= clocks[k] && clocks[k] + |clocks| < MODULUS
    requires Resets(legacy, clocks[0])
    requires 0 < i < |clocks|
    ensures Serials(legacy, clocks)[1] == clocks[0]
    ensures !Resets(Serials(legacy, clocks)[i], clocks[i])
    ensures Serials(legacy, clocks)[i] < Serials(legacy, clocks)[i + 1]
  {
    var next := NextSerial(legacy, clocks[0]);
    assert Truncate(clocks[0]) == clocks[0];
    assert clocks[0] <= clocks[1];
    forall a, b | 0 <= a <= b < |clocks[1..]| ensures clocks[1..][a] <= clocks[1..][b] {
      assert clocks[a + 1] <= clocks[b + 1];
    }
    RunBeforeTheWrap(next, clocks[1..], 0, i - 1);
  }
}
