/** The 32-bit millisecond counter of the firmware.

    `millis()` returns true uptime reduced modulo 2^32. Everything the firmware schedules
    is computed on that reduced value; the lemmas below say for which true times the
    reduced tests give the answer the true times would give. */
module WrappingClock {

  const MODULUS: int := 0x1_0000_0000
  const HALF: int := 0x8000_0000

  type uint32 = x: int | 0 <= x < 0x1_0000_0000

  /** The counter value shown at true time `t`; also every unsigned 32-bit result. */
  function Wrap(t: int): uint32 {
    t % 0x1_0000_0000
  }

  /** Unsigned subtraction `now - since`, used for ages and timeouts. */
  function Elapsed(now: uint32, since: uint32): uint32 {
    Wrap(now - since)
  }

  /** The two's-complement reading of an unsigned word. */
  function AsInt32(x: uint32): int {
    if x < HALF then x else x - MODULUS
  }

  /** The signed deadline test shared by the retry and application controllers. */
  predicate DeadlineReached(now: uint32, deadline: uint32) {
    AsInt32(Wrap(now - deadline)) >= 0
  }

  lemma WrapDifference(a: int, b: int)
    ensures Wrap(Wrap(a) - Wrap(b)) == Wrap(a - b)
  {
    var k := a / MODULUS - b / MODULUS;
    assert a - b == Wrap(a) - Wrap(b) + k * MODULUS;
    WrapShift(Wrap(a) - Wrap(b), k);
  }

  lemma WrapSum(a: int, b: int)
    ensures Wrap(Wrap(a) + b) == Wrap(a + b)
  {
    var k := a / MODULUS;
    assert a + b == Wrap(a) + b + k * MODULUS;
    WrapShift(Wrap(a) + b, k);
  }

  lemma WrapShift(a: int, k: int)
    ensures Wrap(a + k * MODULUS) == Wrap(a)
  {
    var q := a / MODULUS;
    assert a + k * MODULUS == (q + k) * MODULUS + Wrap(a);
  }

  /** The unsigned age is the true age exactly when the true age fits in 32 bits. */
  lemma ElapsedIsExact(now: int, since: int)
    ensures Elapsed(Wrap(now), Wrap(since)) == now - since <==> 0 <= now - since < MODULUS
  {
    WrapDifference(now, since);
  }

  /** `age <= limit` on the counter agrees with true time exactly when the true age, if it
      exceeds the limit, does not come back under it modulo 2^32. */
  lemma AgeTestIsExact(now: int, since: int, limit: uint32)
    requires since <= now
    ensures (Elapsed(Wrap(now), Wrap(since)) <= limit <==> now - since <= limit)
       <==> (now - since <= limit || Wrap(now - since) > limit)
    ensures now - since < MODULUS ==>
              (Elapsed(Wrap(now), Wrap(since)) <= limit <==> now - since <= limit)
  {
    WrapDifference(now, since);
  }

  /** The signed deadline test, in terms of the true distance to the deadline. */
  lemma DeadlineByDistance(now: int, deadline: int)
    ensures DeadlineReached(Wrap(now), Wrap(deadline)) <==> Wrap(now - deadline) < HALF
  {
    WrapDifference(now, deadline);
  }

  /** Within half the counter range on either side the signed test is exact. */
  lemma DeadlineIsExact(now: int, deadline: int)
    requires -HALF <= now - deadline < HALF
    ensures DeadlineReached(Wrap(now), Wrap(deadline)) <==> deadline <= now
  {
    DeadlineByDistance(now, deadline);
  }

  /** Never early: a deadline at most 2^31 ms ahead is not reported before its true time,
      however rarely the counter is polled. */
  lemma DeadlineIsNeverEarly(now: int, deadline: int)
    requires deadline <= now + HALF
    requires DeadlineReached(Wrap(now), Wrap(deadline))
    ensures deadline <= now
  {
    DeadlineByDistance(now, deadline);
  }
}
