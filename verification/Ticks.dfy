/** Timeouts on a 32-bit millisecond tick (ATCortex.c); unsigned subtraction wraps modulo 2^32. */
module Ticks {
  import opened Bytes

  /** ATC_TIMEOUT_MAX: waits forever as a semaphore timeout, and stands for "no timeout" in a task. */
  const FOREVER: nat := 0xFFFF_FFFF

  /** The tick counter at true time t. */
  function Tick(t: nat): nat {
    t % UINT32_RANGE
  }

  /** Unsigned 32-bit subtraction of two ticks. */
  function Elapsed(nowTick: nat, startTick: nat): nat {
    Wrap32(nowTick - startTick)
  }

  predicate TimedOut(nowTick: nat, startTick: nat, timeout: nat) {
    Elapsed(nowTick, startTick) >= timeout
  }

  /** The sleep the event loop computes for a task in flight. */
  function WaitMs(nowTick: nat, startTick: nat, timeout: nat): nat {
    var elapsed := Elapsed(nowTick, startTick);
    if elapsed < timeout then timeout - elapsed else 0
  }

  /** What the API stores for a requested timeout: 0 asks for none. */
  function StoredTimeout(requested: nat): nat {
    if requested == 0 then FOREVER else requested
  }

  lemma ElapsedIsTrueModulo(start: nat, now: nat)
    requires start <= now
    ensures Elapsed(Tick(now), Tick(start)) == (now - start) % UINT32_RANGE
  {
    var d := now - start;
    var qs, qd := start / UINT32_RANGE, d / UINT32_RANGE;
    var rs, rd := Tick(start), d % UINT32_RANGE;
    assert now == (qs + qd) * UINT32_RANGE + rs + rd;
    if rs + rd < UINT32_RANGE {
      assert Tick(now) == rs + rd;
    } else {
      assert Tick(now) == rs + rd - UINT32_RANGE;
    }
    Wrap32Value(Tick(now) - rs);
  }

  /**
   * A check ends the task exactly when the true elapsed time, reduced modulo 2^32, reached the timeout.
   * Below 2^32 ms this is the true condition: never early, and always at a check on or after the deadline.
   */
  lemma TimeoutExact(start: nat, now: nat, timeout: nat)
    requires start <= now
    ensures TimedOut(Tick(now), Tick(start), timeout) <==> (now - start) % UINT32_RANGE >= timeout
    ensures now - start < UINT32_RANGE ==> (TimedOut(Tick(now), Tick(start), timeout) <==> now - start >= timeout)
    ensures TimedOut(Tick(now), Tick(start), timeout) ==> now - start >= timeout
  {
    ElapsedIsTrueModulo(start, now);
    var d := now - start;
    assert d == (d / UINT32_RANGE) * UINT32_RANGE + d % UINT32_RANGE;
  }

  /**
   * The computed sleep, whatever the age: the timeout less the age modulo 2^32, or 0 if that has reached it.
   * It never ends before the deadline, and below 2^32 ms it lands exactly there, or is 0 once it has passed.
   */
  lemma SleepExact(start: nat, now: nat, timeout: nat)
    requires start <= now
    ensures var (wait, age) := (WaitMs(Tick(now), Tick(start), timeout), now - start);
            wait == (if age % UINT32_RANGE < timeout then timeout - age % UINT32_RANGE else 0) &&
            age + wait >= timeout &&
            (age < UINT32_RANGE ==>
               (age < timeout ==> now + wait == start + timeout) && (wait == 0 <==> age >= timeout))
  {
    ElapsedIsTrueModulo(start, now);
    var d := now - start;
    assert d == (d / UINT32_RANGE) * UINT32_RANGE + d % UINT32_RANGE;
  }

  /**
   * A request without timeout (0) is ended as timed out all the same, by any check made exactly
   * 2^32 - 1 ms (modulo 2^32) after it was sent, and by no other check.
   */
  lemma NoTimeoutStillFires(start: nat, now: nat)
    requires start <= now
    ensures TimedOut(Tick(now), Tick(start), StoredTimeout(0)) <==> (now - start) % UINT32_RANGE == FOREVER
  {
    TimeoutExact(start, now, FOREVER);
  }

  /** The sleep is unlimited only for a request without timeout whose tick has not moved since it was sent. */
  lemma SleepsForeverIff(start: nat, now: nat, timeout: nat)
    requires start <= now && timeout <= FOREVER
    ensures WaitMs(Tick(now), Tick(start), timeout) == FOREVER <==>
            timeout == FOREVER && (now - start) % UINT32_RANGE == 0
  {
    ElapsedIsTrueModulo(start, now);
  }
}
