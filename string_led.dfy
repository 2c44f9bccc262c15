/** The RGB strip driver: three 13-bit PWM channels, a fixed colour per light
    mode, and a non-blocking FADE that steps the brightness of all three
    channels by one every 10 ms, bouncing between 0 and 255. */
module StringLed {
  import opened Clock

  /** The light modes, in the order of the firmware's enumeration. */
  const Fade: int := 0
  const Red: int := 1
  const Green: int := 2
  const Blue: int := 3
  const White: int := 4
  const NumModes: int := 5

  const Word: int := 0x1_0000_0000
  const DutyMax: nat := 8191          // (1 << 13) - 1
  const ValueMax: nat := 255          // `valueMax`'s default, the only one used
  const FadeInterval: nat := 10

  /** `ledcAnalogWrite`'s duty: 8191 * min(value, 255) / 255, computed in
      32-bit unsigned arithmetic. */
  function Duty(value: nat): (duty: nat)
    requires value < Word
    ensures duty <= DutyMax
    ensures value == 0 ==> duty == 0
    ensures value >= ValueMax ==> duty == DutyMax
  {
    var scaled := (DutyMax * (if value < ValueMax then value else ValueMax)) % Word;
    scaled / ValueMax
  }

  /** The scaling never wraps around and keeps the order of brightness. */
  lemma DutyMonotone(a: nat, b: nat)
    requires a <= b < Word
    ensures Duty(a) <= Duty(b)
    ensures Duty(a) == DutyMax * (if a < ValueMax then a else ValueMax) / ValueMax
  {
    var ma := if a < ValueMax then a else ValueMax;
    var mb := if b < ValueMax then b else ValueMax;
    MulMono(DutyMax, ma, mb);
    MulMono(DutyMax, mb, ValueMax);
    var xa, xb := DutyMax * ma, DutyMax * mb;
    assert xa <= xb <= 2088705 < Word;
    SmallMod(xa);
    SmallMod(xb);
    DivMono(xa, xb, ValueMax);
  }

  lemma SmallMod(x: nat)
    requires x < Word
    ensures x % Word == x
  {
  }

  lemma DivMono(x: nat, y: nat, d: nat)
    requires x <= y && d > 0
    ensures x / d <= y / d
  {
    var qx, qy := x / d, y / d;
    assert x == d * qx + x % d && y == d * qy + y % d;
    if qx > qy {
      assert d * qx >= d * (qy + 1) by { MulMono(d, qy + 1, qx); }
      assert false;
    }
  }

  lemma MulMono(d: nat, a: nat, b: nat)
    requires a <= b
    ensures d * a <= d * b
  {
  }

  datatype Channel = R | G | B

  /** One `ledcWrite` call. */
  datatype PwmWrite = PwmWrite(channel: Channel, duty: nat)

  /** The three writes for one colour. */
  function Colour(r: nat, g: nat, b: nat): (w: seq<PwmWrite>)
    requires r < Word && g < Word && b < Word
    ensures |w| == 3 && w[0].channel == R && w[1].channel == G && w[2].channel == B
  {
    [PwmWrite(R, Duty(r)), PwmWrite(G, Duty(g)), PwmWrite(B, Duty(b))]
  }

  /** The fade statics. */
  datatype FadeState = FadeState(value: int, direction: int, lastUpdate: Millis)

  const FadeBoot: FadeState := FadeState(0, 1, 0)

  /** The fade's invariant: the value is within [0, 255], the direction is
      one step up or down, and it points away from the bound just reached. */
  predicate FadeInv(f: FadeState) {
    && 0 <= f.value <= 255
    && (f.direction == 1 || f.direction == -1)
    && (f.direction == 1 ==> f.value < 255)
    && (f.direction == -1 ==> f.value > 0)
  }

  /** The value/direction update of one fade step. */
  function Bounce(value: int, direction: int): (int, int) {
    var v := value + direction;
    (v, if v <= 0 || v >= 255 then -direction else direction)
  }

  /** `handleLEDs`: the new fade state and the writes made. A mode outside
      the enumeration writes nothing. */
  function Handle(f: FadeState, mode: int, isSystemOff: bool, now: Millis): (r: (FadeState, seq<PwmWrite>))
    requires FadeInv(f)
    ensures |r.1| == 0 || |r.1| == 3
    ensures r.0 != f ==> mode == Fade && !isSystemOff && r.0.lastUpdate == now
    ensures isSystemOff ==> r.1 == Colour(0, 0, 0)
  {
    if isSystemOff then (f, Colour(0, 0, 0))
    else if mode == Fade then
      if Elapsed(now, f.lastUpdate) >= FadeInterval then
        var (v, d) := Bounce(f.value, f.direction);
        (FadeState(v, d, now), Colour(v, v, v))
      else (f, [])
    else if mode == Red then (f, Colour(255, 0, 0))
    else if mode == Green then (f, Colour(0, 255, 0))
    else if mode == Blue then (f, Colour(0, 0, 255))
    else if mode == White then (f, Colour(255, 255, 255))
    else (f, [])
  }

  // ---------------------------------------------------------------------------
  // Properties

  /** Every call keeps the fade invariant, so the fade value written is
      always a valid 8-bit brightness. */
  lemma HandleKeepsFadeInv(f: FadeState, mode: int, isSystemOff: bool, now: Millis)
    requires FadeInv(f)
    ensures FadeInv(Handle(f, mode, isSystemOff, now).0)
  {
  }

  /** Off means dark: all three channels are driven to 0 whatever the mode,
      and the fade does not move. */
  lemma OffIsDark(f: FadeState, mode: int, now: Millis)
    requires FadeInv(f)
    ensures Handle(f, mode, true, now) == (f, [PwmWrite(R, 0), PwmWrite(G, 0), PwmWrite(B, 0)])
  {
  }

  /** The fixed colours, and nothing at all for a mode outside the enumeration. */
  lemma FixedColours(f: FadeState, now: Millis)
    requires FadeInv(f)
    ensures Handle(f, Red, false, now).1 == [PwmWrite(R, DutyMax), PwmWrite(G, 0), PwmWrite(B, 0)]
    ensures Handle(f, Green, false, now).1 == [PwmWrite(R, 0), PwmWrite(G, DutyMax), PwmWrite(B, 0)]
    ensures Handle(f, Blue, false, now).1 == [PwmWrite(R, 0), PwmWrite(G, 0), PwmWrite(B, DutyMax)]
    ensures Handle(f, White, false, now).1 == [PwmWrite(R, DutyMax), PwmWrite(G, DutyMax), PwmWrite(B, DutyMax)]
    ensures forall m :: !(0 <= m < NumModes) ==> Handle(f, m, false, now) == (f, [])
  {
  }

  /** FADE steps only once 10 ms have passed since the last step; a step
      writes the same new value to all three channels and moves it by one. */
  lemma FadeStepsOnInterval(f: FadeState, now: Millis)
    requires FadeInv(f)
    ensures var (g, w) := Handle(f, Fade, false, now);
      && (Elapsed(now, f.lastUpdate) < FadeInterval ==> g == f && w == [])
      && (Elapsed(now, f.lastUpdate) >= FadeInterval ==>
            && g.lastUpdate == now
            && (g.value == f.value + 1 || g.value == f.value - 1)
            && w == Colour(g.value, g.value, g.value))
  {
  }

  /** The value after `k` fade steps from boot. */
  function FadeSteps(k: nat): (int, int) {
    if k == 0 then (0, 1) else Bounce(FadeSteps(k - 1).0, FadeSteps(k - 1).1)
  }

  /** A triangle wave of period 510 rising from 0 to 255 and back. */
  function Triangle(k: nat): int {
    TriangleAt(k % 510)
  }

  /** The triangle wave at phase `p` of its period, and the direction of travel there. */
  function TriangleAt(p: int): int {
    if p <= 255 then p else 510 - p
  }
  function DirectionAt(p: int): int {
    if p < 255 then 1 else -1
  }

  /** From boot, the fade value after `k` steps follows the triangle wave:
      up from 0 to 255 in 255 steps, down again in 255, and over. */
  lemma {:induction false} FadeIsTriangle(k: nat)
    ensures FadeSteps(k) == (Triangle(k), DirectionAt(k % 510))
  {
    if k > 0 {
      FadeIsTriangle(k - 1);
      PhaseStep(k);
      BounceAlongPhase((k - 1) % 510);
    }
  }

  /** One fade step moves the value from one phase of the triangle to the next. */
  lemma BounceAlongPhase(p: int)
    requires 0 <= p < 510
    ensures Bounce(TriangleAt(p), DirectionAt(p)) == (TriangleAt(if p == 509 then 0 else p + 1), DirectionAt(if p == 509 then 0 else p + 1))
  {
  }

  /** One more step advances the phase by one, wrapping after 509. */
  lemma PhaseStep(k: nat)
    requires k > 0
    ensures k % 510 == if (k - 1) % 510 == 509 then 0 else (k - 1) % 510 + 1
  {
    var q, p := (k - 1) / 510, (k - 1) % 510;
    assert k == 510 * q + p + 1;
  }

  // ---------------------------------------------------------------------------

  class Strip {
    var fadeValue: int
    var fadeDirection: int
    var lastFadeUpdate: Millis
    /** Every `ledcWrite`, oldest first. */
    var writes: seq<PwmWrite>

    function FadeOf(): FadeState
      reads this
    {
      FadeState(fadeValue, fadeDirection, lastFadeUpdate)
    }

    constructor ()
      ensures FadeOf() == FadeBoot && writes == []
    {
      fadeValue, fadeDirection, lastFadeUpdate := 0, 1, 0;
      writes := [];
    }

    method AnalogWrite(channel: Channel, value: nat)
      requires value < Word
      modifies this
      ensures writes == old(writes) + [PwmWrite(channel, Duty(value))]
      ensures FadeOf() == old(FadeOf())
    {
      writes := writes + [PwmWrite(channel, Duty(value))];
    }

    method HandleLeds(mode: int, isSystemOff: bool, now: Millis)
      requires FadeInv(FadeOf())
      modifies this
      ensures FadeOf() == Handle(old(FadeOf()), mode, isSystemOff, now).0
      ensures writes == old(writes) + Handle(old(FadeOf()), mode, isSystemOff, now).1
    {
      if isSystemOff {
        AnalogWrite(R, 0);
        AnalogWrite(G, 0);
        AnalogWrite(B, 0);
      } else if mode == Fade {
        if Elapsed(now, lastFadeUpdate) >= FadeInterval {
          lastFadeUpdate := now;
          fadeValue := fadeValue + fadeDirection;
          if fadeValue <= 0 || fadeValue >= 255 {
            fadeDirection := -fadeDirection;
          }
          AnalogWrite(R, fadeValue);
          AnalogWrite(G, fadeValue);
          AnalogWrite(B, fadeValue);
        }
      } else if mode == Red {
        AnalogWrite(R, 255);
        AnalogWrite(G, 0);
        AnalogWrite(B, 0);
      } else if mode == Green {
        AnalogWrite(R, 0);
        AnalogWrite(G, 255);
        AnalogWrite(B, 0);
      } else if mode == Blue {
        AnalogWrite(R, 0);
        AnalogWrite(G, 0);
        AnalogWrite(B, 255);
      } else if mode == White {
        AnalogWrite(R, 255);
        AnalogWrite(G, 255);
        AnalogWrite(B, 255);
      }
    }
  }
}
