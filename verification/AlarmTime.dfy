/** When an alarm fires: the 32-bit tick counter, deadline and rollover flag of one alarm, judged
    against an unbounded clock. */
module AlarmTime {
  import opened Machine32

  /** The `time` and `rollover` fields of an alarm. */
  datatype Timing = Timing(time: u32, rollover: bool)

  /** alt_alarm_start, for a delay given in ticks. */
  function Start(nticks: u32, delay: u32): Timing {
    var time := (delay + nticks + 1) % WRAP;
    Timing(time, time < nticks)
  }

  /** What alt_tick does to an alarm before testing it; `nticks` is the counter just incremented. */
  function Unroll(nticks: u32, a: Timing): Timing {
    if a.rollover && nticks == 0 then a.(rollover := false) else a
  }

  predicate Due(nticks: u32, a: Timing) {
    a.time <= nticks && !a.rollover
  }

  /** What it does after a callback that returned a nonzero period. */
  function Rearm(nticks: u32, a: Timing, period: u32): Timing {
    var time := (a.time + period) % WRAP;
    Timing(time, a.rollover || time < nticks)
  }

  /** At the unbounded time `now` (between two ticks) the fields stand for the deadline `d`: with the flag
      set it lies in the next turn of the counter, otherwise in this one, or in the next one if this is
      the very last tick of a turn. */
  predicate Armed(now: nat, d: nat, a: Timing) {
    && now < d && a.time == d % WRAP
    && (if a.rollover then d / WRAP == now / WRAP + 1
        else d / WRAP == now / WRAP || (now % WRAP == WRAP - 1 && d / WRAP == now / WRAP + 1))
  }

  /** The delays whose deadline the fields can express. */
  predicate DelayOk(nticks: u32, delay: u32) {
    delay <= WRAP - 2 || nticks == WRAP - 1
  }

  lemma StartArms(now: nat, delay: u32)
    requires DelayOk(now % WRAP, delay)
    ensures Armed(now, now + delay + 1, Start(now % WRAP, delay))
  {
  }

  /** One tick on an armed alarm: due exactly at its deadline, and otherwise still armed. */
  lemma TickExact(now: nat, d: nat, a: Timing)
    requires Armed(now, d, a)
    ensures var n := (now + 1) % WRAP; var u := Unroll(n, a);
      && (Due(n, u) <==> d == now + 1)
      && (d != now + 1 ==> Armed(now + 1, d, u))
      && (d == now + 1 ==> u == Timing(n, false))
  {
  }

  /** An alarm that fires at its deadline is armed for a deadline one period later. */
  lemma RearmExact(now: nat, period: u32)
    requires period > 0
    ensures Armed(now, now + period, Rearm(now % WRAP, Timing(now % WRAP, false), period))
  {
  }

  // ---- the first firing --------------------------------------------------------------------

  /** Left alone from time `now`, the alarm fires for the first time at the n-th tick. */
  predicate FiresAfter(now: nat, a: Timing, n: nat)
    decreases n
  {
    var nticks := (now + 1) % WRAP;
    var u := Unroll(nticks, a);
    n > 0 && if Due(nticks, u) then n == 1 else FiresAfter(now + 1, u, n - 1)
  }

  lemma {:induction false} ArmedFires(now: nat, d: nat, a: Timing)
    requires Armed(now, d, a)
    ensures FiresAfter(now, a, d - now)
    decreases d - now
  {
    TickExact(now, d, a);
    if d != now + 1 {
      ArmedFires(now + 1, d, Unroll((now + 1) % WRAP, a));
    }
  }

  /** A start with delay k fires after exactly k + 1 ticks, across any wrap of the counter, if and
      only if k is at most 2^32 - 2 or the counter stands at 2^32 - 1; otherwise it fires at once. */
  lemma StartExact(now: nat, delay: u32)
    ensures FiresAfter(now, Start(now % WRAP, delay), delay + 1) <==> DelayOk(now % WRAP, delay)
    ensures !DelayOk(now % WRAP, delay) ==> FiresAfter(now, Start(now % WRAP, delay), 1)
  {
    if DelayOk(now % WRAP, delay) {
      StartArms(now, delay);
      ArmedFires(now, now + delay + 1, Start(now % WRAP, delay));
    } else {
      assert Due((now + 1) % WRAP, Start(now % WRAP, delay));
    }
  }

  /** Whatever the fields hold, after how many ticks the alarm fires if it is left alone. */
  function Gap(nticks: u32, a: Timing): nat {
    if a.rollover then WRAP - nticks + a.time
    else if a.time > nticks then a.time - nticks
    else if nticks == WRAP - 1 then 1 + a.time
    else 1
  }

  lemma FiresAfterGap(now: nat, a: Timing, n: nat)
    ensures FiresAfter(now, a, n) <==> n == Gap(now % WRAP, a)
  {
    var d := now + Gap(now % WRAP, a);
    if Armed(now, d, a) {
      ArmedFires(now, d, a);
    } else {
      assert d == now + 1 && FiresAfter(now, a, 1);
    }
    FiresOnce(now, a, n, d - now);
  }

  lemma {:induction false} FiresOnce(now: nat, a: Timing, m: nat, n: nat)
    requires FiresAfter(now, a, n)
    ensures FiresAfter(now, a, m) <==> m == n
    decreases m
  {
    if m > 0 && n > 1 { FiresOnce(now + 1, Unroll((now + 1) % WRAP, a), m - 1, n - 1); }
  }

  // ---- an alarm that starts itself again in its callback -------------------------------------

  /** Start delay, one tick and period together stay within a turn of the counter; or the start alone
      crosses into the next turn, and the sum does not cross out of it. */
  predicate RestartOk(nticks: u32, delay: u32, period: u32) {
    && delay <= WRAP - 2
    && if nticks + delay + 1 < WRAP then delay + 1 + period < WRAP else nticks + delay + 1 + period < 2 * WRAP
  }

  /** A callback that stops and starts its own alarm, and then returns a period, has it added to the new
      deadline: the alarm fires delay + 1 + period ticks later if and only if RestartOk. */
  lemma RestartExactIff(now: nat, delay: u32, period: u32)
    requires period > 0
    ensures var a := Rearm(now % WRAP, Start(now % WRAP, delay), period); var d := now + delay + 1 + period;
      && (FiresAfter(now, a, d - now) <==> RestartOk(now % WRAP, delay, period))
      && (RestartOk(now % WRAP, delay, period) ==> Armed(now, d, a))
  {
    var n, a := now % WRAP, Rearm(now % WRAP, Start(now % WRAP, delay), period);
    RestartGap(n, delay, period);
    FiresAfterGap(now, a, delay + 1 + period);
    if RestartOk(n, delay, period) { RestartArms(now, delay, period); }
  }

  lemma RestartFields(n: u32, delay: u32, period: u32)
    ensures var a, sum := Rearm(n, Start(n, delay), period), n + delay + 1 + period;
      && a.time == (if sum < WRAP then sum else if sum < 2 * WRAP then sum - WRAP else sum - 2 * WRAP)
      && (a.rollover <==> a.time < n || (n + delay + 1 >= WRAP && delay < WRAP - 1))
  {
    var time := (delay + n + 1) % WRAP;
    assert time == if n + delay + 1 < WRAP then n + delay + 1 else n + delay + 1 - WRAP;
    assert (time + period) % WRAP == if time + period < WRAP then time + period else time + period - WRAP;
  }

  lemma RestartGap(n: u32, delay: u32, period: u32)
    requires period > 0
    ensures Gap(n, Rearm(n, Start(n, delay), period)) == delay + 1 + period <==> RestartOk(n, delay, period)
  {
    RestartFields(n, delay, period);
    hide Rearm, Start;
  }

  lemma RestartArms(now: nat, delay: u32, period: u32)
    requires period > 0 && RestartOk(now % WRAP, delay, period)
    ensures Armed(now, now + delay + 1 + period, Rearm(now % WRAP, Start(now % WRAP, delay), period))
  {
    RestartFields(now % WRAP, delay, period);
    hide Rearm, Start;
  }

  // ---- all firings -------------------------------------------------------------------------

  /** The ticks at which the alarm fires during the next n ticks, when its callback returns
      `periods` one after the other (and zero after the last). */
  function Firings(now: nat, a: Timing, periods: seq<u32>, n: nat): seq<nat>
    decreases n
  {
    if n == 0 then []
    else
      var nticks := (now + 1) % WRAP;
      var u := Unroll(nticks, a);
      if !Due(nticks, u) then Firings(now + 1, u, periods, n - 1)
      else if periods == [] || periods[0] == 0 then [now + 1]
      else [now + 1] + Firings(now + 1, Rearm(nticks, u, periods[0]), periods[1..], n - 1)
  }

  function Sum(periods: seq<u32>): nat {
    if periods == [] then 0 else periods[0] + Sum(periods[1..])
  }

  /** The planned firings up to time `last`: the first deadline, then each one period after the
      previous deadline, until a zero period. */
  function Planned(d: nat, periods: seq<u32>, last: nat): (ts: seq<nat>)
    decreases |periods|
  {
    if d > last then []
    else if periods == [] || periods[0] == 0 then [d]
    else [d] + Planned(d + periods[0], periods[1..], last)
  }

  /** Never early, never late: for any callback periods and any number of ticks the firings are
      exactly the planned ones. */
  lemma {:induction false} FiringsExact(now: nat, d: nat, a: Timing, periods: seq<u32>, n: nat)
    requires Armed(now, d, a)
    ensures Firings(now, a, periods, n) == Planned(d, periods, now + n)
    decreases n
  {
    if n > 0 {
      TickExact(now, d, a);
      var nticks := (now + 1) % WRAP;
      var u := Unroll(nticks, a);
      if d != now + 1 {
        FiringsExact(now + 1, d, u, periods, n - 1);
      } else if periods != [] && periods[0] != 0 {
        RearmExact(now + 1, periods[0]);
        FiringsExact(now + 1, d + periods[0], Rearm(nticks, u, periods[0]), periods[1..], n - 1);
      }
    }
  }

  /** No drift: firing k of a periodic alarm is at the first deadline plus the sum of the first k
      periods, however many turns of the counter that takes. */
  lemma {:induction false} PlannedAt(d: nat, periods: seq<u32>, last: nat, k: nat)
    requires k < |Planned(d, periods, last)|
    ensures k <= |periods| && Planned(d, periods, last)[k] == d + Sum(periods[..k]) <= last
    decreases k
  {
    if k > 0 {
      PlannedAt(d + periods[0], periods[1..], last, k - 1);
      assert periods[..k][1..] == periods[1..][..k - 1];
    }
  }

  /** And no planned firing is missing: the list stops only when the next one lies after `last`, or
      when the callback returned zero. */
  lemma {:induction false} PlannedComplete(d: nat, periods: seq<u32>, last: nat)
    ensures var k := |Planned(d, periods, last)|;
      && k <= |periods| + 1
      && (k <= |periods| && (forall i :: 0 <= i < k ==> periods[i] != 0) ==> d + Sum(periods[..k]) > last)
    decreases |periods|
  {
    if d <= last && periods != [] && periods[0] != 0 {
      PlannedComplete(d + periods[0], periods[1..], last);
      var k := |Planned(d, periods, last)|;
      if k <= |periods| && forall i :: 0 <= i < k ==> periods[i] != 0 {
        assert forall i :: 0 <= i < k - 1 ==> periods[1..][i] == periods[i + 1];
        assert periods[..k][1..] == periods[1..][..k - 1];
      }
    }
  }

  // ---- the plan, tick by tick ----------------------------------------------------------------

  predicate NoZero(periods: seq<u32>) { forall k :: 0 <= k < |periods| ==> periods[k] != 0 }

  lemma {:induction false} SumSnoc(periods: seq<u32>, p: u32)
    ensures Sum(periods + [p]) == Sum(periods) + p
  {
    if periods != [] {
      SumSnoc(periods[1..], p);
      assert (periods + [p])[1..] == periods[1..] + [p];
    }
  }

  /** With a return known for every firing so far, one tick adds at most the firing at the last deadline. */
  lemma {:induction false} PlanGrows(d: nat, periods: seq<u32>, last: nat)
    requires NoZero(periods) && |Planned(d, periods, last)| == |periods| && last < d + Sum(periods)
    ensures Planned(d, periods, last + 1) ==
      Planned(d, periods, last) + if d + Sum(periods) == last + 1 then [last + 1] else []
    decreases |periods|
  {
    if periods != [] {
      PlanGrows(d + periods[0], periods[1..], last);
    }
  }

  /** The return that answers the last firing changes nothing yet. */
  lemma {:induction false} PlanAnswered(d: nat, periods: seq<u32>, last: nat, p: u32)
    requires NoZero(periods) && |Planned(d, periods, last)| == |periods| + 1
    requires p == 0 || last < d + Sum(periods) + p
    ensures Planned(d, periods + [p], last) == Planned(d, periods, last)
    decreases |periods|
  {
    if periods != [] {
      assert (periods + [p])[1..] == periods[1..] + [p];
      PlanAnswered(d + periods[0], periods[1..], last, p);
    }
  }

  /** After a return of zero there are no more firings. */
  lemma {:induction false} PlanEnds(d: nat, periods: seq<u32>, last: nat)
    requires NoZero(periods) && |Planned(d, periods + [0], last)| == |periods| + 1
    ensures Planned(d, periods + [0], last + 1) == Planned(d, periods + [0], last)
    decreases |periods|
  {
    if periods != [] {
      assert (periods + [0])[1..] == periods[1..] + [0];
      PlanEnds(d + periods[0], periods[1..], last);
    }
  }

  /** What is known of an alarm at some time: its fields, its deadline and whether the fields can express it,
      the ticks of all its callbacks and what they returned, whether it is linked, and whether the tick under
      way has yet to visit it. */
  datatype Record = Record(timing: Timing, deadline: nat, exact: bool, fired: seq<nat>, returned: seq<u32>,
    linked: bool, waiting: bool)

  /** A callback was made: a return of zero takes the alarm off the list, any other adds to its deadline. */
  predicate Answered(r: Record, r': Record, now: nat) {
    var n := |r.returned|;
    && |r'.returned| == n + 1 && r'.returned[..n] == r.returned && r'.fired == r.fired + [now]
    && if r'.returned[n] == 0 then !r'.linked
       else (r.linked ==> r'.linked) && r'.deadline == r.deadline + r'.returned[n] && r'.exact == r.exact
  }

  /** A turn of an alarm that nothing starts or stops: a callback, or nothing at all. */
  predicate Follows(r: Record, r': Record, now: nat) {
    if r'.fired == r.fired then
      (r.linked ==> r'.linked) && r'.deadline == r.deadline && r'.exact == r.exact && r'.returned == r.returned
    else Answered(r, r', now)
  }

  /** From one record to another the alarm fired exactly as planned from its deadline and what its callback
      returned; it is linked until a return of zero. */
  predicate Planful(since: Record, r: Record, now: nat) {
    since.returned <= r.returned &&
    var d, ps := since.deadline, r.returned[|since.returned|..];
    && r.fired == since.fired + Planned(d, ps, now) && |Planned(d, ps, now)| == |ps|
    && if r.linked then NoZero(ps) && r.exact && r.deadline == d + Sum(ps)
       else ps != [] && NoZero(ps[..|ps| - 1]) && ps[|ps| - 1] == 0
  }

  lemma PlanFires(since: Record, r: Record, r': Record, now: nat)
    requires now > 0 && Planful(since, r, now - 1) && r.linked && r.deadline == now && Answered(r, r', now)
    ensures Planful(since, r', now)
  {
    var d, ps, p := since.deadline, r.returned[|since.returned|..], r'.returned[|r.returned|];
    PlanGrows(d, ps, now - 1);
    assert r'.returned[|since.returned|..] == ps + [p];
    SumSnoc(ps, p);
    PlanAnswered(d, ps, now, p);
  }

  lemma PlanWaits(since: Record, r: Record, r': Record, now: nat)
    requires now > 0 && Planful(since, r, now - 1) && (r.linked ==> r.deadline > now)
    requires r'.fired == r.fired && Follows(r, r', now) && (r'.linked ==> r.linked)
    ensures Planful(since, r', now)
  {
    var d, ps := since.deadline, r.returned[|since.returned|..];
    if r.linked {
      PlanGrows(d, ps, now - 1);
    } else {
      assert ps == ps[..|ps| - 1] + [0];
      PlanEnds(d, ps[..|ps| - 1], now - 1);
    }
  }

  /** One tick of an alarm that nothing starts or stops. */
  lemma PlanKept(since: Record, r: Record, r': Record, now: nat)
    requires now > 0 && Planful(since, r, now - 1) && (r.linked ==> r.deadline >= now)
    requires Follows(r, r', now) && (!r.linked ==> r' == r)
    requires r.linked ==> r'.fired == r.fired + if r.deadline == now then [now] else []
    requires r'.linked ==> r'.deadline > now
    ensures Planful(since, r', now)
  {
    if r.linked && r.deadline == now { PlanFires(since, r, r', now); } else { PlanWaits(since, r, r', now); }
  }
}
