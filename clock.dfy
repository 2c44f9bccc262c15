/** `millis()` on the ESP32: an `unsigned long` count of milliseconds that
    wraps around after 2^32. Every "time since" in the firmware is the unsigned
    difference `now - since`, which stays right across one wrap. */
module Clock {

  const Period: int := 0x1_0000_0000

  type Millis = t: int | 0 <= t < 0x1_0000_0000

  /** `now - since` computed in `unsigned long` arithmetic. */
  function Elapsed(now: Millis, since: Millis): (d: Millis)
    ensures now >= since ==> d == now - since
    ensures (since + d) % Period == now
  {
    if now >= since then now - since else now - since + Period
  }

  /** The clock reading `d` milliseconds after `t`. */
  function Advance(t: Millis, d: nat): Millis {
    (t + d) % Period
  }

  /** However the clock wraps, the elapsed time after waiting `d` ms (less
      than one period) is `d`. */
  lemma ElapsedAdvance(t: Millis, d: nat)
    requires d < Period
    ensures Elapsed(Advance(t, d), t) == d
  {
    if t + d >= Period {
      assert Advance(t, d) == t + d - Period;
    }
  }
}
