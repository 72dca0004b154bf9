/** is_old_enough and the wake-up period (src/smr_no_membar.c, include/sleeper_threads.h).

    A struct timeval is a number of seconds and a number of microseconds below one million; here it
    is the total number of microseconds, from which both can be read off. */
module Timing {
  const SLEEP_AMOUNT := 150
  const MARGIN := 50
  const MILLION := 1_000_000
  const UINT64 := 0x1_0000_0000_0000_0000

  function Sec(t: int): int {
    t / MILLION
  }

  function Usec(t: int): int {
    t % MILLION
  }

  /** Division as C has it: the quotient is cut off toward zero. */
  function Quotient(a: int, b: nat): int
    requires b > 0
  {
    if a >= 0 then a / b else -(-a / b)
  }

  /** The milliseconds is_old_enough computes, an unsigned 64-bit number. */
  function Msec(created: int, now: int): int {
    ((Sec(now) - Sec(created)) * 1000 + Quotient(Usec(now) - Usec(created), 1000)) % UINT64
  }

  predicate IsOldEnough(created: int, now: int) {
    Msec(created, now) >= SLEEP_AMOUNT + MARGIN
  }

  /** The clock did not go back between the two readings, and they are not absurdly far apart. */
  predicate InRange(created: int, now: int) {
    created <= now && now - created < UINT64
  }

  /** Splitting elapsed time into seconds and a signed rest. */
  lemma Elapsed(created: int, now: int)
    ensures (Sec(now) - Sec(created)) * MILLION + (Usec(now) - Usec(created)) == now - created
    ensures -MILLION < Usec(now) - Usec(created) < MILLION
  {
  }

  /** The computed milliseconds are less than one millisecond above the true elapsed time, and never
      below it by a whole millisecond. The excess comes from cutting a negative rest toward zero. */
  lemma MsecAccurate(created: int, now: int)
    requires InRange(created, now)
    ensures Msec(created, now) * 1000 < (now - created) + 1000
    ensures (now - created) - 1000 < Msec(created, now) * 1000
  {
    MsecRounds(created, now);
  }

  /** So an age test that succeeds proves an age of more than 199 ms, and one that fails proves an age below 200 ms. */
  lemma AgeProved(created: int, now: int)
    requires InRange(created, now)
    ensures IsOldEnough(created, now) ==> now - created > (SLEEP_AMOUNT + MARGIN - 1) * 1000
    ensures now - created >= (SLEEP_AMOUNT + MARGIN) * 1000 ==> IsOldEnough(created, now)
  {
    MsecAccurate(created, now);
    Elapsed(created, now);
  }

  /** Exactly when the test succeeds: after the whole period, and up to one millisecond before if the microsecond
      field of the clock is below that of the time stamp. */
  lemma OldEnoughIff(created: int, now: int)
    requires InRange(created, now)
    ensures IsOldEnough(created, now) <==>
              || now - created >= (SLEEP_AMOUNT + MARGIN) * 1000
              || (now - created > (SLEEP_AMOUNT + MARGIN - 1) * 1000 && Usec(now) < Usec(created))
    ensures IsOldEnough(created, now) && now - created < (SLEEP_AMOUNT + MARGIN) * 1000 <==>
              && (SLEEP_AMOUNT + MARGIN - 1) * 1000 < now - created < (SLEEP_AMOUNT + MARGIN) * 1000
              && Usec(now) < Usec(created)
  {
    MsecRounds(created, now);
  }

  /** The excess is real: after 199.001 ms the test can already succeed. */
  lemma AgeExcess()
    ensures IsOldEnough(999_999, 1_199_000) && 1_199_000 - 999_999 == 199_001
  {
  }

  /** At a fixed time, whatever is older than something old enough is old enough too. */
  lemma OlderIsOldEnough(older: int, created: int, now: int)
    requires older <= created && InRange(created, now) && InRange(older, now) && IsOldEnough(created, now)
    ensures IsOldEnough(older, now)
  {
    MsecMonotone(older, created, now);
  }

  /** Which way the computed milliseconds are rounded: down when the rest is positive, up when it is negative. */
  lemma MsecRounds(created: int, now: int)
    requires InRange(created, now)
    ensures var du, m, t := Usec(now) - Usec(created), Msec(created, now) * 1000, now - created;
            (du >= 0 ==> m <= t < m + 1000) && (du <= 0 ==> t <= m < t + 1000)
    ensures Msec(created, now) == (Sec(now) - Sec(created)) * 1000 + Quotient(Usec(now) - Usec(created), 1000)
  {
    Elapsed(created, now);
    var ds, du := Sec(now) - Sec(created), Usec(now) - Usec(created);
    assert ds >= 0 && (ds == 0 ==> du >= 0);
    assert 0 <= ds * 1000 + Quotient(du, 1000) < UINT64;
  }

  lemma MsecMonotone(older: int, created: int, now: int)
    requires older <= created && InRange(created, now) && InRange(older, now)
    ensures Msec(created, now) <= Msec(older, now)
  {
    MsecRounds(created, now);
    MsecRounds(older, now);
    var du, du' := Usec(now) - Usec(created), Usec(now) - Usec(older);
    if du < 0 && du' > 0 {
      assert Sec(older) <= Sec(created);
      assert Quotient(du, 1000) <= 0 <= Quotient(du', 1000);
    }
  }
}
