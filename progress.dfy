/**
 * The tick rule the two loading screens share: every 30 ms the counter rises by two until
 * it reaches 100, and the tick that finds it at 100 stops the interval.
 */
module Progress {
  /** The value a tick's state updater returns. */
  function NextProgress(p: int): (q: int)
    ensures p < 100 ==> q == p + 2
    ensures p >= 100 ==> q == 100
  {
    if p >= 100 then 100 else p + 2
  }

  /** The values the counter can hold: even, from 0 to 100. */
  predicate InRange(p: int) {
    0 <= p <= 100 && p % 2 == 0
  }

  /** A tick keeps the counter even and within 0..100, and never lowers it. */
  lemma TickKeepsRange(p: int)
    requires InRange(p)
    ensures InRange(NextProgress(p)) && NextProgress(p) >= p
  {
  }

  /** The counter after `n` ticks from 0. */
  function ProgressAfter(n: nat): int {
    if n == 0 then 0 else NextProgress(ProgressAfter(n - 1))
  }

  /** After `n` ticks the counter reads `2n`, capped at 100. */
  lemma {:induction false} ProgressAfterTicks(n: nat)
    ensures ProgressAfter(n) == if n <= 50 then 2 * n else 100
    ensures InRange(ProgressAfter(n))
  {
    if n > 0 {
      ProgressAfterTicks(n - 1);
    }
  }

  /** The counter first reads 100 after the fiftieth tick, so the fifty-first tick is the one that stops the interval. */
  lemma FullExactlyFromTickFifty(n: nat)
    ensures ProgressAfter(n) >= 100 <==> n >= 50
  {
    ProgressAfterTicks(n);
  }
}
