/** gettimeofday and settimeofday over the 32-bit tick counter. */
module WallClock {
  import opened Arithmetic
  import opened Machine32

  const US: nat := 1_000_000

  datatype Time = Time(sec: int, usec: int) {
    predicate Normalised() { 0 <= usec < US }
    function Total(): int { sec * US + usec }
  }

  datatype Zone = Zone(minutesWest: int, dst: int)

  /** What a 32-bit signed field holds after an assignment of x. */
  function S32(x: int): (r: int)
    ensures -0x8000_0000 <= r < 0x8000_0000 && (r - x) % WRAP == 0
    ensures -0x8000_0000 <= x < 0x8000_0000 ==> r == x
  {
    (x + 0x8000_0000) % WRAP - 0x8000_0000
  }

  predicate Fits(x: int) { -0x8000_0000 <= x < 0x8000_0000 }

  // ---- the two computations ----------------------------------------------------------------

  function PerTick(rate: nat): nat
    requires rate > 0
  {
    US / rate
  }

  /** n ticks of u microseconds each. */
  function Micros(n: nat, u: nat): nat { n * u }

  /** The whole seconds in n ticks. */
  function Seconds(n: nat, rate: nat): nat
    requires rate > 0
  {
    n / rate
  }

  /** A rate at which a tick is a whole number of microseconds. */
  predicate WholeTick(rate: nat)
    requires rate > 0
  {
    US % rate == 0
  }

  /** The sub-second part settimeofday subtracts: its product is a 32-bit one. */
  function SetResidue(nticks: u32, rate: u32): nat
    requires rate > 0
  {
    (nticks * PerTick(rate) % WRAP) % US
  }

  /** The one gettimeofday adds: its product is a 64-bit one, which never wraps. */
  function GetResidue(nticks: u32, rate: u32): nat
    requires rate > 0
  {
    (nticks * PerTick(rate) % 0x1_0000_0000_0000_0000) % US
  }

  function Reset(t: Time, nticks: u32, rate: u32): Time
    requires rate > 0
  {
    Time(S32(t.sec - Seconds(nticks, rate)), S32(t.usec - SetResidue(nticks, rate)))
  }

  /** The time read before normalising. */
  function Raw(reset: Time, nticks: u32, rate: u32): Time
    requires rate > 0
  {
    Time(S32(reset.sec + Seconds(nticks, rate)), S32(reset.usec + GetResidue(nticks, rate)))
  }

  /** What the two loops make of it: a negative total is clamped to zero if microseconds are owed. */
  function Normal(t: Time): (r: Time)
    ensures r.Normalised()
    ensures if t.usec < 0 && t.Total() < 0 then r == Time(0, 0) else r.Total() == t.Total()
  {
    if t.usec < 0 && t.Total() < 0 then Time(0, 0) else Time(t.Total() / US, t.Total() % US)
  }

  function Get(reset: Time, nticks: u32, rate: u32): Time
    requires rate > 0
  {
    Normal(Raw(reset, nticks, rate))
  }

  // One turn of a loop does not change what the loops make of a time.

  lemma BorrowKeepsNormal(t: Time)
    requires t.usec < 0 < t.sec
    ensures Normal(Time(t.sec - 1, t.usec + US)) == Normal(t)
  {
  }

  lemma CarryKeepsNormal(t: Time)
    requires t.usec >= US
    ensures Normal(Time(t.sec + 1, t.usec - US)) == Normal(t)
  {
  }

  lemma ClampIsNormal(t: Time)
    requires t.usec < 0 && t.sec <= 0
    ensures Normal(t) == Normal(Time(0, 0)) == Time(0, 0)
  {
  }

  lemma NormalIsNormal(t: Time)
    requires t.Normalised()
    ensures Normal(t) == t
  {
  }

  /** The carrying loop stays within the 32-bit seconds field exactly if the sum it arrives at does. */
  lemma CarryFitsIff(t: Time)
    requires Fits(t.sec) && Fits(t.usec)
    ensures Fits(Normal(t).sec) <==> t.sec + t.usec / US < 0x8000_0000
  {
  }

  /** Where a caller wants the zone. */
  class ZoneCell {
    var zone: Zone

    constructor (zone: Zone)
      ensures this.zone == zone
    {
      this.zone := zone;
    }
  }

  class Clock {
    var nticks: u32
    var tickRate: u32
    var resetTime: Time
    var zone: Zone

    /** settimeofday. */
    method SetTimeOfDay(t: Time, tz: Zone) returns (ok: bool)
      modifies this`resetTime, this`zone
      ensures ok <==> tickRate != 0
      ensures ok ==> resetTime == Reset(t, nticks, tickRate) && zone == tz
      ensures !ok ==> resetTime == old(resetTime) && zone == old(zone)
    {
      if tickRate == 0 { return false; }
      var product := nticks * (US / tickRate) % WRAP;
      resetTime := Time(S32(t.sec - nticks / tickRate), S32(t.usec - product % US));
      zone := tz;
      ok := true;
    }

    /** gettimeofday; both loops end. The zone is stored only where the caller asks for it. */
    method GetTimeOfDay(ptz: ZoneCell?) returns (ok: bool, t: Time)
      modifies if ptz == null then {} else {ptz}
      ensures ok <==> tickRate != 0
      ensures ok ==> t == Get(resetTime, nticks, tickRate)
      ensures ptz != null ==> ptz.zone == if ok then zone else old(ptz.zone)
    {
      t := Time(0, 0);
      if tickRate == 0 { return false, t; }
      var sec := S32(resetTime.sec + nticks / tickRate);
      var usec := S32(resetTime.usec + nticks * (US / tickRate) % 0x1_0000_0000_0000_0000 % US);
      ghost var raw := Time(sec, usec);
      hide Normal;
      while usec < 0
        invariant Normal(raw) == Normal(Time(sec, usec))
        decreases -usec
      {
        if sec <= 0 {
          ClampIsNormal(Time(sec, usec));
          sec, usec := 0, 0;
          break;
        }
        BorrowKeepsNormal(Time(sec, usec));
        sec, usec := sec - 1, usec + US;
      }
      while usec >= US
        invariant 0 <= usec
        invariant Normal(raw) == Normal(Time(sec, usec))
      {
        CarryKeepsNormal(Time(sec, usec));
        sec, usec := sec + 1, usec - US;
      }
      NormalIsNormal(Time(sec, usec));
      assert raw == Raw(resetTime, nticks, tickRate);
      if ptz != null { ptz.zone := zone; }
      ok, t := true, Time(sec, usec);
    }
  }

  // ---- reading back what was set -----------------------------------------------------------

  /** How often the 32-bit product wraps. */
  function Wraps(nticks: u32, rate: u32): nat
    requires rate > 0
  {
    nticks * PerTick(rate) / WRAP
  }

  lemma ProductFits(nticks: u32, rate: u32)
    requires rate > 0
    ensures 0 <= nticks * PerTick(rate) < WRAP * US
    ensures GetResidue(nticks, rate) == (nticks * PerTick(rate)) % US
  {
    var u := PerTick(rate);
    assert u <= US;
    hide PerTick;
    MulMonotone(u, US, nticks);
    MulMonotone(0, nticks, u);
  }

  /** 2^32 is 967296 modulo 10^6, which has 64 as its greatest common divisor with it; so a multiple of
      2^32 vanishes modulo 10^6 exactly if it is one of 15625 times 2^32. */
  lemma WrapResidue(q: nat)
    ensures (q * WRAP) % US == 0 <==> q % 15625 == 0
  {
    if (q * WRAP) % US == 0 {
      var m := q * WRAP / US;
      assert q * WRAP == m * US;
      // 12659 inverts 2^26 modulo 15625: 12659 * 67108864 == 54369991 * 15625 + 1.
      assert q == 15625 * (12659 * m - 54369991 * q);
    }
    if q % 15625 == 0 {
      var m := q / 15625;
      assert q * WRAP == m * 67108864 * US;
    }
  }

  lemma ModShift(a: int, b: int)
    ensures (a - b) % US == 0 <==> a % US == b % US
  {
  }

  /** Exactly when the two computations use the same sub-second part. */
  lemma ResiduesAgreeIff(nticks: u32, rate: u32)
    requires rate > 0
    ensures SetResidue(nticks, rate) == GetResidue(nticks, rate) <==> Wraps(nticks, rate) % 15625 == 0
  {
    var product, q := nticks * PerTick(rate), Wraps(nticks, rate);
    ProductFits(nticks, rate);
    assert product - product % WRAP == q * WRAP;
    ModShift(product, product % WRAP);
    WrapResidue(q);
  }

  /** Set and get at the same tick: before normalising, what is read differs from what was set by
      exactly the difference of the two sub-second parts. */
  lemma RawAfterSet(t: Time, nticks: u32, rate: u32)
    requires rate > 0 && t.Normalised() && Fits(t.sec)
    ensures Raw(Reset(t, nticks, rate), nticks, rate)
         == Time(t.sec, t.usec + GetResidue(nticks, rate) - SetResidue(nticks, rate))
  {
    var q: int := Seconds(nticks, rate);
    ResiduesSmall(nticks, rate);
    hide Seconds, SetResidue, GetResidue;
    S32Cancels(t.sec, -q, q);
  }

  lemma S32Cancels(x: int, a: int, b: int)
    requires Fits(x + a + b)
    ensures S32(S32(x + a) + b) == x + a + b
  {
  }

  /** Exactly when a get right after a set returns the time that was set, for every normalised time and
      every nonzero rate: the 32-bit product has wrapped a multiple of 15625 times (as when it has not
      wrapped at all), or the time is zero and the clamp hides a difference towards the past. */
  lemma RoundTripIff(t: Time, nticks: u32, rate: u32)
    requires rate > 0 && t.Normalised() && Fits(t.sec)
    ensures Get(Reset(t, nticks, rate), nticks, rate) == t <==>
      || Wraps(nticks, rate) % 15625 == 0
      || (t == Time(0, 0) && GetResidue(nticks, rate) < SetResidue(nticks, rate))
  {
    RawAfterSet(t, nticks, rate);
    ResiduesAgreeIff(nticks, rate);
    NormalIsNormal(t);
  }

  // ---- the clock runs exactly --------------------------------------------------------------

  /** At such a rate the whole and the sub-second part make up the elapsed time. */
  lemma TicksExact(nticks: u32, rate: u32)
    requires rate > 0 && WholeTick(rate)
    ensures Seconds(nticks, rate) * US + GetResidue(nticks, rate) == Micros(nticks, PerTick(rate))
  {
    ProductFits(nticks, rate);
    SplitTicks(nticks, rate, PerTick(rate));
  }

  lemma SplitTicks(n: nat, rate: nat, u: nat)
    requires rate > 0 && rate * u == US
    ensures (n / rate) * US + (n * u) % US == n * u
  {
    var q, r := n / rate, n % rate;
    assert n == q * rate + r;
    ProductOfSum(q, rate, r, u);
    MulMonotone(r + 1, rate, u);
    DivUnique(n * u, US, q);
  }

  lemma ProductOfSum(q: int, rate: int, r: int, u: int)
    ensures (q * rate + r) * u == q * (rate * u) + r * u
  {
  }

  /** A time set at one tick and read at a later one has advanced by exactly the elapsed ticks; it is
      normalised, and the clamp plays no part. */
  lemma ClockExact(t: Time, start: u32, now: u32, rate: u32)
    requires rate > 0 && WholeTick(rate) && t.Normalised() && t.sec >= 0
    requires start <= now && Wraps(start, rate) % 15625 == 0
    requires Fits(t.sec + Seconds(now, rate) - Seconds(start, rate))
    ensures var g := Get(Reset(t, start, rate), now, rate);
      g.Normalised() && g.Total() == t.Total() + Micros(now - start, PerTick(rate))
  {
    hide Get, Reset, PerTick, SetResidue, GetResidue, Wraps, Normal, Micros, Seconds, WholeTick;
    GetIs(t, start, now, rate);
    TicksExact(start, rate);
    TicksExact(now, rate);
    Elapsed(t, Seconds(start, rate), Seconds(now, rate), GetResidue(start, rate), GetResidue(now, rate),
            start, now, PerTick(rate));
  }

  lemma GetIs(t: Time, start: u32, now: u32, rate: u32)
    requires rate > 0 && t.Normalised() && Wraps(start, rate) % 15625 == 0
    requires Fits(t.sec + Seconds(now, rate) - Seconds(start, rate))
    ensures Get(Reset(t, start, rate), now, rate)
         == Normal(Time(t.sec - Seconds(start, rate) + Seconds(now, rate),
                        t.usec - GetResidue(start, rate) + GetResidue(now, rate)))
  {
    hide Seconds, Wraps, SetResidue, GetResidue, PerTick;
    ResiduesAgreeIff(start, rate);
    ResiduesSmall(start, rate);
    ResiduesSmall(now, rate);
    S32Cancels(t.sec, 0 - Seconds(start, rate), Seconds(now, rate));
  }

  lemma ResiduesSmall(n: u32, rate: u32)
    requires rate > 0
    ensures 0 <= GetResidue(n, rate) < US
  {
  }

  lemma Elapsed(t: Time, a: nat, b: nat, ra: nat, rb: nat, start: nat, now: nat, u: nat)
    requires t.sec >= 0 && t.Normalised() && start <= now
    requires a * US + ra == Micros(start, u) && b * US + rb == Micros(now, u)
    ensures var g := Normal(Time(t.sec - a + b, t.usec - ra + rb));
      g.Normalised() && g.Total() == t.Total() + Micros(now - start, u)
  {
  }

  // ---- when the clock steps back -----------------------------------------------------------

  const MAX_SEC: int := 0x7FFF_FFFF

  /** Any stored reset time whose microseconds leave room for the sub-second part of a tick. */
  predicate Settled(reset: Time) { Fits(reset.sec) && -0x8000_0000 <= reset.usec <= 0x8000_0000 - US }

  /** As settimeofday leaves it for every normalised time. */
  lemma SetIsSettled(t: Time, nticks: u32, rate: u32)
    requires rate > 0 && t.Normalised()
    ensures Settled(Reset(t, nticks, rate))
  {
    hide Seconds;
  }

  /** The clock read at a count, in microseconds, and what it would read without the clamp. */
  function Reading(reset: Time, nticks: u32, rate: u32): int
    requires rate > 0
  {
    Get(reset, nticks, rate).Total()
  }

  function Unclamped(reset: Time, nticks: u32, rate: u32): int
    requires rate > 0
  {
    Raw(reset, nticks, rate).Total()
  }

  /** The clamp holds the reading at zero. */
  predicate Held(reset: Time, nticks: u32, rate: u32)
    requires rate > 0
  {
    Raw(reset, nticks, rate).usec < 0 && Unclamped(reset, nticks, rate) < 0
  }

  lemma ReadingIs(reset: Time, nticks: u32, rate: u32)
    requires rate > 0
    ensures Reading(reset, nticks, rate) ==
      if Held(reset, nticks, rate) then 0 else Unclamped(reset, nticks, rate)
  {
    hide Raw;
  }

  /** The n-th tick, counted without end, is read as earlier than the one before it. */
  predicate StepsBack(reset: Time, n: nat, rate: u32)
    requires rate > 0
  {
    Reading(reset, (n + 1) % WRAP, rate) < Reading(reset, n % WRAP, rate)
  }

  /** At the tick after count m the unclamped clock drops: the counter wraps, and the seconds have not left
      their signed field since it last did; or the seconds leave it now; or the microseconds wrap while the
      seconds stay. */
  predicate Drops(reset: Time, m: u32, rate: u32)
    requires rate > 0
  {
    var atMax := Raw(reset, m, rate).sec == MAX_SEC;
    if rate == 1 then atMax
    else if m == WRAP - 1 then Fits(reset.sec + Seconds(m, rate))
    else if (m + 1) % rate == 0 then atMax
    else GetResidue(m, rate) + PerTick(rate) >= US
  }

  function Next(m: u32): u32 { if m == WRAP - 1 then 0 else m + 1 }

  /** Exactly when a tick takes the clock back, at every rate, for all time, and whatever time it was set
      to: if the clamp holds the new reading at zero, exactly if the old one was positive; if it held the
      old one at zero, exactly if the new one is negative; otherwise exactly if the clock drops. */
  lemma StepsBackIff(reset: Time, n: nat, rate: u32)
    requires rate > 0 && Settled(reset)
    ensures var m: u32 := n % WRAP;
      StepsBack(reset, n, rate) <==>
        if Held(reset, Next(m), rate) then Unclamped(reset, m, rate) > 0
        else if Held(reset, m, rate) then Unclamped(reset, Next(m), rate) < 0
        else Drops(reset, m, rate)
  {
    var m: u32 := n % WRAP;
    NextCount(n);
    ReadingIs(reset, m, rate);
    ReadingIs(reset, Next(m), rate);
    DropsIff(reset, m, rate);
    HeldIsNegative(reset, m, rate);
    hide Reading, Held, Unclamped, Drops;
  }

  lemma HeldIsNegative(reset: Time, m: u32, rate: u32)
    requires rate > 0
    ensures Held(reset, m, rate) ==> Unclamped(reset, m, rate) < 0
  {
    hide Unclamped, Raw;
  }

  lemma RawIs(reset: Time, m: u32, rate: u32)
    requires rate > 0 && Settled(reset)
    ensures Raw(reset, m, rate) == Time(S32(reset.sec + Seconds(m, rate)), reset.usec + GetResidue(m, rate))
    ensures Unclamped(reset, m, rate) == S32(reset.sec + Seconds(m, rate)) * US + reset.usec + GetResidue(m, rate)
  {
    ResiduesSmall(m, rate);
    hide Seconds, GetResidue;
  }

  lemma S32Next(x: int)
    ensures S32(x + 1) == if S32(x) == MAX_SEC then S32(x) + 1 - WRAP else S32(x) + 1
    ensures S32(x + WRAP) == S32(x)
  {
  }

  lemma DropsIff(reset: Time, m: u32, rate: u32)
    requires rate > 0 && Settled(reset)
    ensures Unclamped(reset, Next(m), rate) < Unclamped(reset, m, rate) <==> Drops(reset, m, rate)
  {
    RawIs(reset, m, rate);
    RawIs(reset, Next(m), rate);
    ResiduesSmall(m, rate);
    ResiduesSmall(Next(m), rate);
    if rate == 1 {
      SlowSeconds(reset.sec, m);
    } else if m == WRAP - 1 {
      SecondsFit(m, rate);
      StartsAtZero(rate);
      S32Wraps(reset.sec, Seconds(m, rate));
    } else {
      SecondsStep(m, rate);
      ResidueStep(m, rate);
      S32Next(reset.sec + Seconds(m, rate));
    }
    hide Raw, Unclamped, Seconds, GetResidue, PerTick, S32;
  }

  /** At one tick a second. */
  lemma SlowSeconds(sec: int, m: u32)
    ensures GetResidue(m, 1) == 0 && GetResidue(Next(m), 1) == 0
    ensures S32(sec + Seconds(Next(m), 1)) ==
      if S32(sec + Seconds(m, 1)) == MAX_SEC then MAX_SEC + 1 - WRAP else S32(sec + Seconds(m, 1)) + 1
  {
    ProductFits(m, 1);
    ProductFits(Next(m), 1);
    SecondsIs(m, 1);
    SecondsIs(Next(m), 1);
    S32Next(sec + m);
    hide GetResidue, S32, Seconds, PerTick;
  }

  lemma S32Wraps(sec: int, q: nat)
    requires Fits(sec) && q <= MAX_SEC
    ensures S32(sec) == sec && S32(sec + q) == if Fits(sec + q) then sec + q else sec + q - WRAP
  {
  }

  lemma NextCount(n: nat)
    ensures (n + 1) % WRAP == Next(n % WRAP)
  {
  }

  lemma SecondsFit(m: u32, rate: u32)
    requires rate >= 2
    ensures Fits(Seconds(m, rate)) && (m == WRAP - 1 ==> Seconds(m, rate) >= 1)
  {
    MulMonotone(2, rate, m / rate);
    MulMonotone(m / rate, 0, rate);
  }

  lemma StartsAtZero(rate: u32)
    requires rate > 0
    ensures Seconds(0, rate) == 0 && GetResidue(0, rate) == 0
  {
  }

  lemma SecondsStep(m: nat, rate: nat)
    requires rate > 0
    ensures Seconds(m + 1, rate) == Seconds(m, rate) + if (m + 1) % rate == 0 then 1 else 0
  {
    DivStep(m, rate, m / rate, m % rate);
  }

  lemma DivStep(m: nat, d: nat, q: nat, r: nat)
    requires r < d && m == q * d + r
    ensures (m + 1) / d == if r + 1 == d then q + 1 else q
    ensures (m + 1) % d == if r + 1 == d then 0 else r + 1
  {
    MulMonotone(q, q, d);
    DivUnique(m + 1, d, if r + 1 == d then q + 1 else q);
  }

  lemma ResidueStep(m: nat, rate: u32)
    requires rate >= 2 && m + 1 < WRAP
    ensures PerTick(rate) < US
    ensures var next := GetResidue(m, rate) + PerTick(rate);
      GetResidue(m + 1, rate) == if next < US then next else next - US
  {
    ProductFits(m, rate);
    ProductFits(m + 1, rate);
    PerTickSmall(rate);
    var u := PerTick(rate);
    hide GetResidue, PerTick;
    MulMonotone(m + 1, m, u);
    SumStep(m * u, u);
  }

  lemma PerTickSmall(rate: u32)
    requires rate >= 2
    ensures PerTick(rate) <= US / 2
  {
    MulMonotone(2, rate, PerTick(rate));
  }

  lemma SumStep(a: nat, u: nat)
    requires u < US
    ensures (a + u) % US == if a % US + u < US then a % US + u else a % US + u - US
  {
  }

  // ---- clocks that are not before the epoch when the counter is zero ------------------------

  lemma Running(reset: Time, m: u32, rate: u32)
    requires rate > 0 && Settled(reset) && reset.Total() >= 0 && Fits(reset.sec + Seconds(m, rate))
    ensures Raw(reset, m, rate).sec == reset.sec + Seconds(m, rate)
    ensures Unclamped(reset, m, rate) == reset.Total() + Seconds(m, rate) * US + GetResidue(m, rate) >= 0
    ensures !Held(reset, m, rate)
  {
    RawIs(reset, m, rate);
    ResiduesSmall(m, rate);
    hide Seconds, GetResidue, Raw;
  }

  lemma SecondsBelow(m: nat, n: nat, rate: nat)
    requires rate > 0 && m <= n
    ensures Seconds(m, rate) <= Seconds(n, rate)
  {
    MulMonotone(m / rate, n / rate + 1, rate);
    MulMonotone(n / rate + 1, m / rate, rate);
  }

  /** Before the counter wraps such a clock steps back exactly if its seconds leave their field on the way,
      or at rates up to a million that do not divide it. */
  lemma StepsBackWithinTurnIff(reset: Time, rate: u32)
    requires rate > 0 && Settled(reset) && reset.Total() >= 0
    ensures (exists n: nat :: n + 1 < WRAP && StepsBack(reset, n, rate)) <==>
      !Fits(reset.sec + Seconds(WRAP - 1, rate)) || (rate <= US && US % rate != 0)
  {
    hide StepsBack, Seconds;
    if !Fits(reset.sec + Seconds(WRAP - 1, rate)) {
      var n := Overflow(reset, rate);
    } else if rate <= US && US % rate != 0 {
      var n := MidSecond(reset, rate);
    } else {
      forall n: nat | n + 1 < WRAP ensures !StepsBack(reset, n, rate) { ForwardWithinTurn(reset, n, rate); }
    }
  }

  /** And at every rate it does in the end. */
  lemma EveryRateStepsBack(reset: Time, rate: u32) returns (n: nat)
    requires rate > 0 && Settled(reset) && reset.Total() >= 0
    ensures StepsBack(reset, n, rate)
  {
    if !Fits(reset.sec + Seconds(WRAP - 1, rate)) {
      n := Overflow(reset, rate);
    } else {
      n := WRAP - 1;
      Running(reset, WRAP - 1, rate);
      StartsAtZero(rate);
      Running(reset, 0, rate);
      StepsBackIff(reset, WRAP - 1, rate);
      hide StepsBack, Held, Unclamped, Raw;
    }
  }

  /** The tick at which the seconds leave their field. */
  lemma Overflow(reset: Time, rate: u32) returns (n: nat)
    requires rate > 0 && Settled(reset) && reset.Total() >= 0 && !Fits(reset.sec + Seconds(WRAP - 1, rate))
    ensures n + 1 < WRAP && StepsBack(reset, n, rate)
  {
    var q := MAX_SEC - reset.sec;
    OverflowCount(reset, rate, q);
    n := (q + 1) * rate - 1;
    Running(reset, n, rate);
    OverflowSteps(reset, rate, n);
  }

  lemma OverflowCount(reset: Time, rate: u32, q: int)
    requires rate > 0 && Settled(reset) && reset.Total() >= 0 && !Fits(reset.sec + Seconds(WRAP - 1, rate))
    requires q == MAX_SEC - reset.sec
    ensures 0 <= q && 0 <= (q + 1) * rate - 1 && (q + 1) * rate < WRAP
    ensures var n: nat := (q + 1) * rate - 1; Seconds(n, rate) == q && (n + 1) % rate == 0
  {
    var total := Seconds(WRAP - 1, rate);
    assert q + 1 <= total;
    LastOfSecond(q + 1, rate);
    TotalTicks(WRAP - 1, rate);
    MulMonotone(q + 1, total, rate);
    hide Seconds;
    SecondsIs((q + 1) * rate - 1, rate);
  }

  lemma TotalTicks(n: nat, rate: nat)
    requires rate > 0
    ensures Seconds(n, rate) * rate <= n
  {
  }

  lemma SecondsIs(n: nat, rate: nat)
    requires rate > 0
    ensures Seconds(n, rate) == n / rate
  {
  }

  lemma LastOfSecond(k: nat, rate: nat)
    requires k > 0 && rate > 0
    ensures k * rate >= 1 && (k * rate - 1) / rate == k - 1 && (k * rate) % rate == 0
  {
    MulMonotone(1, k, rate);
    MulMonotone(k, k, rate);
    DivUnique(k * rate - 1, rate, k - 1);
    DivUnique(k * rate, rate, k);
  }

  lemma OverflowSteps(reset: Time, rate: u32, n: nat)
    requires rate > 0 && Settled(reset) && reset.Total() >= 0 && n + 1 < WRAP && (n + 1) % rate == 0
    requires reset.sec + Seconds(n, rate) == MAX_SEC && Raw(reset, n, rate).sec == MAX_SEC
    ensures StepsBack(reset, n, rate)
  {
    SmallCounts(n);
    StepsBackIff(reset, n, rate);
    RawIs(reset, n, rate);
    ResiduesSmall(n, rate);
    Running(reset, n, rate);
    hide StepsBack, Held, Raw, GetResidue, PerTick;
  }

  lemma SmallCounts(n: nat)
    requires n + 1 < WRAP
    ensures n % WRAP == n && (n + 1) % WRAP == n + 1
  {
  }

  lemma ForwardWithinTurn(reset: Time, n: nat, rate: u32)
    requires rate > 0 && Settled(reset) && reset.Total() >= 0 && n + 1 < WRAP
    requires Fits(reset.sec + Seconds(WRAP - 1, rate)) && (WholeTick(rate) || rate > US)
    ensures !StepsBack(reset, n, rate)
  {
    SmallCounts(n);
    SecondsBelow(n, n + 1, rate);
    SecondsBelow(n + 1, WRAP - 1, rate);
    Running(reset, n, rate);
    Running(reset, n + 1, rate);
    StepsBackIff(reset, n, rate);
    SecondsStep(n, rate);
    NotSlow(reset, rate);
    if rate <= US { WholeTickResidue(n, rate); } else { NoSubSeconds(n, rate); }
    ResiduesSmall(n, rate);
    hide StepsBack, Held, Unclamped, Raw, GetResidue, PerTick, Seconds;
  }

  /** One tick a second always overflows. */
  lemma NotSlow(reset: Time, rate: u32)
    requires rate > 0 && Settled(reset) && reset.Total() >= 0 && Fits(reset.sec + Seconds(WRAP - 1, rate))
    ensures rate >= 2
  {
  }

  /** At a rate that divides a million the microseconds wrap only as the seconds advance. */
  lemma WholeTickResidue(m: u32, rate: u32)
    requires 0 < rate && WholeTick(rate)
    ensures GetResidue(m, rate) + PerTick(rate) >= US ==> (m + 1) % rate == 0
  {
    var u, q, r := PerTick(rate), m / rate, m % rate;
    ProductFits(m, rate);
    WholeParts(rate, u, q, r);
    DivStep(m, rate, q, r);
  }

  lemma WholeParts(rate: nat, u: nat, q: nat, r: nat)
    requires rate * u == US && r < rate
    ensures ((q * rate + r) * u) % US == r * u && (r + 1 < rate ==> r * u + u < US)
  {
    ProductOfSum(q, rate, r, u);
    MulMonotone(r + 1, rate, u);
    MulMonotone(r + 2, rate, u);
    StrictProduct(r, rate, u);
    DivUnique((q * rate + r) * u, US, q);
  }

  lemma StrictProduct(r: nat, rate: nat, u: nat)
    requires rate * u == US
    ensures u > 0 && (r + 1 < rate ==> (r + 1) * u < rate * u)
  {
    assert u > 0;
    if r + 1 < rate { MulMonotone(r + 2, rate, u); MulMonotone(r + 1, r + 1, u); }
  }

  lemma NoSubSeconds(n: u32, rate: u32)
    requires rate > US
    ensures GetResidue(n, rate) == 0 && PerTick(rate) == 0
  {
  }

  /** The tick before the microseconds wrap, which is not one at which the seconds advance. */
  lemma MidSecond(reset: Time, rate: u32) returns (n: nat)
    requires 0 < rate <= US && US % rate != 0 && Settled(reset) && reset.Total() >= 0
    requires Fits(reset.sec + Seconds(WRAP - 1, rate))
    ensures n + 1 < WRAP && StepsBack(reset, n, rate)
  {
    var u := PerTick(rate);
    PerTickIs(rate);
    n := (US - 1) / u;
    WrapTick(u, n);
    WrapIsMidSecond(rate, u, n);
    MidSecondSteps(reset, rate, n);
  }

  lemma MidSecondSteps(reset: Time, rate: u32, n: nat)
    requires rate >= 2 && Settled(reset) && reset.Total() >= 0 && n + 1 < WRAP
    requires Fits(reset.sec + Seconds(WRAP - 1, rate)) && Seconds(n, rate) == Seconds(n + 1, rate) == 1
    requires n * PerTick(rate) < US <= n * PerTick(rate) + PerTick(rate)
    ensures StepsBack(reset, n, rate)
  {
    SmallCounts(n);
    SecondsBelow(n + 1, WRAP - 1, rate);
    Running(reset, n, rate);
    Running(reset, n + 1, rate);
    StepsBackIff(reset, n, rate);
    SecondsStep(n, rate);
    ProductFits(n, rate);
    DivUnique(n * PerTick(rate), US, 0);
    hide StepsBack, Held, Unclamped, Raw, GetResidue, PerTick, Seconds;
  }

  lemma PerTickIs(rate: u32)
    requires 0 < rate <= US && US % rate != 0
    ensures var u := PerTick(rate); 1 <= u && rate >= 2 && u * rate < US < u * rate + rate && 2 * u <= US
  {
  }

  /** Tick n + 1 is the first whose microseconds reach a million. */
  lemma WrapTick(u: nat, n: nat)
    requires 1 <= u && 2 * u <= US && n == (US - 1) / u
    ensures n * u < US <= n * u + u < 2 * US && n < US
  {
  }

  /** Both ticks lie within the second second. */
  lemma WrapIsMidSecond(rate: nat, u: nat, n: nat)
    requires 1 <= u && 2 <= rate && u * rate < US < u * rate + rate && n * u < US <= n * u + u
    ensures n / rate == 1 && (n + 1) / rate == 1
  {
    AtLeast(rate, u, n);
    LessThanTwice(rate, u, n);
    DivUnique(n, rate, 1);
    DivUnique(n + 1, rate, 1);
  }

  lemma AtLeast(rate: nat, u: nat, n: nat)
    requires u * rate < US <= n * u + u
    ensures rate <= n
  {
  }

  lemma LessThanTwice(rate: nat, u: nat, n: nat)
    requires 1 <= u && 2 <= rate && US < u * rate + rate && n * u < US
    ensures n + 1 < 2 * rate
  {
    Products(rate, u, n);
    hide Times;
    assert Times(n, u) < US < Times(u, rate) + rate;
  }

  function Times(a: int, b: int): int { a * b }

  lemma Products(rate: nat, u: nat, n: nat)
    requires 1 <= u && 2 <= rate
    ensures Times(n, u) == n * u && Times(u, rate) == u * rate
    ensures 2 * rate - 1 <= n ==> 2 * Times(u, rate) - u <= Times(n, u)
    ensures 2 <= u ==> 2 * (rate - 1) <= Times(u, rate) - u
    ensures u == 1 ==> Times(n, u) == n && Times(u, rate) == rate
  {
    MulMonotone(2 * rate - 1, n, u);
    ProductOfOdd(rate, u);
    MulMonotone(2, u, rate - 1);
    ProductOfLess(rate, u);
  }

  lemma ProductOfOdd(rate: int, u: int)
    ensures (2 * rate - 1) * u == 2 * (u * rate) - u
  {
  }

  lemma ProductOfLess(rate: int, u: int)
    ensures u * (rate - 1) == u * rate - u
  {
  }
}
