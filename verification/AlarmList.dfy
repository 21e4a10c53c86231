/** The intrusive alarm list, and alt_tick walking it while callbacks edit it. */
module AlarmList {
  import opened AlarmTime
  import opened Machine32

  /** alt_alarm; its first two fields are the alt_llist. A node that was never started has null
      links, one that was removed points to itself. */
  class Alarm {
    var next: Alarm?
    var previous: Alarm?
    var time: u32
    var rollover: bool
    // The unbounded deadline, whether the fields can express it, the ticks of all callbacks and what they
    // returned.
    ghost var deadline: nat
    ghost var exact: bool
    ghost var fired: seq<nat>
    ghost var returned: seq<u32>

    constructor ()
      ensures next == null && previous == null && fired == []
    {
      next, previous, time, rollover := null, null, 0, false;
      deadline, exact, fired, returned := 0, false, [], [];
    }

    function Timing(): Timing
      reads `time, `rollover
    {
      AlarmTime.Timing.Timing(time, rollover)
    }

    ghost predicate ArmedAt(now: nat)
      reads `time, `rollover, `exact, `deadline
    {
      exact ==> Armed(now, deadline, Timing())
    }

    /** At its deadline, in the form in which alt_tick makes the callback. */
    ghost predicate DueAt(now: nat)
      reads `time, `rollover, `exact, `deadline
    {
      exact ==> deadline == now && Timing() == AlarmTime.Timing.Timing(now % WRAP, false)
    }
  }

  datatype StartResult = Started | NoClock | NoAlarm

  ghost predicate Distinct<T>(s: seq<T>) {
    forall i, j :: 0 <= i < j < |s| ==> s[i] != s[j]
  }

  ghost function IndexOf<T>(s: seq<T>, x: T): (k: nat)
    requires x in s
    ensures k < |s| && s[k] == x
  {
    var k :| 0 <= k < |s| && s[k] == x; k
  }

  /** The sequence without (the first) x. */
  ghost function Minus<T>(s: seq<T>, x: T): seq<T> {
    if x in s then var k := IndexOf(s, x); s[..k] + s[k + 1..] else s
  }

  lemma MinusFacts<T>(s: seq<T>, x: T)
    requires Distinct(s)
    ensures Distinct(Minus(s, x)) && x !in Minus(s, x)
    ensures forall y :: y in Minus(s, x) <==> y in s && y != x
    ensures x !in s ==> Minus(s, x) == s
    ensures x in s ==> |Minus(s, x)| == |s| - 1
    ensures x in s ==> forall i :: 0 <= i < |s| - 1 ==> Minus(s, x)[i] == s[if i < IndexOf(s, x) then i else i + 1]
  {
    if x in s {
      var k := IndexOf(s, x);
      forall y | y in s && y != x ensures y in Minus(s, x) {
        var i := IndexOf(s, y);
        assert Minus(s, x)[if i < k then i else i - 1] == y;
      }
    }
  }

  lemma MinusAt<T>(s: seq<T>, x: T, k: nat)
    requires Distinct(s) && k < |s| && s[k] == x
    ensures Minus(s, x) == s[..k] + s[k + 1..]
  {
  }

  lemma MinusLeft<T>(s: seq<T>, t: seq<T>, x: T)
    requires Distinct(s + t) && x in s
    ensures Minus(s + t, x) == Minus(s, x) + Minus(t, x)
  {
    DistinctParts(s, t);
    var k := IndexOf(s, x);
    MinusAt(s + t, x, k);
    assert (s + t)[..k] + (s + t)[k + 1..] == (s[..k] + s[k + 1..]) + t;
  }

  lemma MinusRight<T>(s: seq<T>, t: seq<T>, x: T)
    requires Distinct(s + t) && x !in s
    ensures Minus(s + t, x) == Minus(s, x) + Minus(t, x)
  {
    DistinctParts(s, t);
    if x in t {
      var k := IndexOf(t, x);
      MinusAt(s + t, x, |s| + k);
      CutRight(s, t, k);
    }
  }

  lemma CutRight<T>(s: seq<T>, t: seq<T>, k: nat)
    requires k < |t|
    ensures (s + t)[..|s| + k] + (s + t)[|s| + k + 1..] == s + (t[..k] + t[k + 1..])
  {
    assert (s + t)[..|s| + k] == s + t[..k] && (s + t)[|s| + k + 1..] == t[k + 1..];
  }

  lemma MinusConcat<T>(s: seq<T>, t: seq<T>, x: T)
    requires Distinct(s + t)
    ensures Minus(s + t, x) == Minus(s, x) + Minus(t, x)
    ensures x !in Minus(s, x) && x !in Minus(t, x)
    ensures forall y :: y in Minus(s, x) ==> y in s
    ensures |Minus(t, x)| <= |t| && forall y :: y in t ==> y == x || y in Minus(t, x)
    ensures forall y :: y in Minus(t, x) ==> y in t
    ensures t != [] && t[0] != x ==> Minus(t, x) != [] && Minus(t, x)[0] == t[0]
  {
    DistinctParts(s, t);
    MinusFacts(s, x);
    MinusFacts(t, x);
    if x in s { MinusLeft(s, t, x); } else { MinusRight(s, t, x); }
    hide Distinct;
  }

  lemma MinusParts<T>(s: seq<T>, t: seq<T>, x: T)
    requires Distinct(s + t)
    ensures Minus(s + t, x) == Minus(s, x) + Minus(t, x)
    ensures (forall y :: y in Minus(s, x) ==> y in s) && forall y :: y in Minus(t, x) ==> y in t
  {
    hide Distinct, Minus;
    MinusConcat(s, t, x);
  }

  lemma DistinctParts<T>(s: seq<T>, t: seq<T>)
    requires Distinct(s + t)
    ensures Distinct(s) && Distinct(t) && forall x :: x in s ==> x !in t
  {
    assert forall i :: 0 <= i < |s| ==> s[i] == (s + t)[i];
    assert forall i :: 0 <= i < |t| ==> t[i] == (s + t)[|s| + i];
  }

  /** The alarm list with its head, and alt_llist's operations on it. */
  class LinkedList {
    const head: Alarm
    const pool: set<Alarm>

    constructor (pool: set<Alarm>)
      requires forall a :: a in pool ==> a.next == null && a.previous == null
      ensures Linked([]) && this.pool == pool && fresh(head)
    {
      var h := new Alarm();
      head := h;
      this.pool := pool;
      new;
      head.next, head.previous := head, head;
    }

    ghost predicate ForwardChain(r: seq<Alarm>)
      reads head`next, pool`next
    {
      && head !in pool && (forall a :: a in r ==> a in pool)
      && head.next == (if r == [] then head else r[0])
      && (forall i {:trigger r[i].next} :: 0 <= i < |r| ==> r[i].next == if i + 1 < |r| then r[i + 1] else head)
    }

    /** The head and the alarms of `r` form one doubly linked circle, in this order. */
    ghost predicate Chain(r: seq<Alarm>)
      reads head`next, head`previous, pool`next, pool`previous
    {
      && Distinct(r) && ForwardChain(r)
      && head.previous == (if r == [] then head else r[|r| - 1])
      && (forall i {:trigger r[i].previous} :: 0 <= i < |r| ==> r[i].previous == if i > 0 then r[i - 1] else head)
    }

    ghost predicate Linked(r: seq<Alarm>)
      reads head`next, head`previous, pool`next, pool`previous
    {
      && Chain(r)
      && (forall a :: a in pool && a !in r ==>
        (a.next == null && a.previous == null) || (a.next == a && a.previous == a))
    }

    /** alt_llist_insert at the head. */
    method Insert(entry: Alarm, ghost r: seq<Alarm>)
      requires Linked(r) && entry in pool && entry !in r
      modifies head`next, head`previous, pool`next, pool`previous
      ensures Linked([entry] + r) && forall a :: a in pool && old(a.next) != null ==> a.next != null
    {
      entry.previous := head;
      entry.next := head.next;
      head.next.previous := entry;
      head.next := entry;
    }

    /** alt_llist_remove: the neighbours are joined and the entry left pointing to itself, which makes
        a second removal a no-op. */
    method Remove(entry: Alarm, ghost r: seq<Alarm>)
      requires Linked(r) && entry in pool && entry.next != null
      modifies head`next, head`previous, pool`next, pool`previous
      ensures Linked(Minus(r, entry)) && entry.next == entry && entry !in Minus(r, entry)
      ensures forall a :: a in pool && old(a.next) != null ==> a.next != null
    {
      hide Minus;
      MinusFacts(r, entry);
      Join(entry, r);
      entry.previous := entry;
      entry.next := entry;
    }

    /** Its first two statements. */
    method Join(entry: Alarm, ghost r: seq<Alarm>)
      requires Linked(r) && entry in pool && entry.next != null
      modifies head`next, head`previous, pool`next, pool`previous
      ensures Chain(Minus(r, entry)) && forall a :: a in pool && old(a.next) != null ==> a.next != null
      ensures forall a :: a in pool && a !in r ==> a.next == old(a.next) && a.previous == old(a.previous)
    {
      hide Minus;
      ghost var m, k := Minus(r, entry), if entry in r then IndexOf(r, entry) else 0;
      MinusFacts(r, entry);
      entry.next.previous := entry.previous;
      if entry in r {
        forall i | 0 <= i < |m| ensures m[i].previous == if i > 0 then m[i - 1] else head {
          if i == k { assert m[i] == entry.next; } else { assert m[i] != entry.next; }
        }
        assert head.previous == if m == [] then head else m[|m| - 1];
      }
      JoinForward(entry, r);
    }

    /** The second of them. */
    method JoinForward(entry: Alarm, ghost r: seq<Alarm>)
      requires ForwardChain(r) && Distinct(r) && entry in pool && entry.next != null && entry.previous != null
      requires entry.previous ==
        if entry !in r then entry else if IndexOf(r, entry) > 0 then r[IndexOf(r, entry) - 1] else head
      requires entry !in r ==> entry.next == entry
      modifies head`next, pool`next
      ensures ForwardChain(Minus(r, entry)) && forall a :: a in pool && old(a.next) != null ==> a.next != null
      ensures forall a :: a in pool && a !in r ==> a.next == old(a.next)
    {
      hide Minus;
      ghost var m, k := Minus(r, entry), if entry in r then IndexOf(r, entry) else 0;
      MinusFacts(r, entry);
      entry.previous.next := entry.next;
      if entry in r {
        forall i | 0 <= i < |m| ensures m[i].next == if i + 1 < |m| then m[i + 1] else head {
          if i + 1 == k { assert m[i] == entry.previous; } else { assert m[i] != entry.previous; }
        }
      }
    }
  }

  class AlarmSystem {
    const list: LinkedList
    var nticks: u32
    var tickRate: u32

    /** The unbounded clock. */
    ghost var now: nat
    /** The linked alarms from the head on are front + rest: during a tick `rest` begins with the saved
        successor, between ticks it is empty. */
    ghost var front: seq<Alarm>
    ghost var rest: seq<Alarm>
    /** The alarm whose callback runs; those this tick visited, and those stopped before their visit. */
    ghost var firing: Alarm?
    ghost var visited: seq<Alarm>
    ghost var stopped: set<Alarm>
    /** Those started or stopped since the tick began, other than stopped for a return of zero. */
    ghost var touched: set<Alarm>
    /** The delay with which the alarm whose callback runs started itself again, or -1. */
    ghost var again: int

    /** The links agree with `front` and `rest`. */
    ghost predicate Structure()
      reads `front, `rest, `firing, list.head`next, list.head`previous, list.pool`next, list.pool`previous
    {
      && list.Linked(front + rest) && list.head !in list.pool
      && (forall a :: a in front ==> a in list.pool) && (forall a :: a in rest ==> a in list.pool)
      && (firing != null ==> firing in list.pool)
    }

    /** Alarms before the saved successor are armed for a time after this tick; those not yet visited
        are still as the previous tick left them; the one being called back is exactly due. */
    ghost predicate Timed()
      reads `nticks, `now, `front, `rest, `firing, `again, front, rest, firing
    {
      && nticks == now % WRAP && (rest != [] ==> now > 0)
      && (forall a :: a in front && a != firing ==> a.ArmedAt(now))
      && (forall a :: a in rest ==> a != firing && a.ArmedAt(now - 1))
      && (firing != null ==> if again < 0 then firing.DueAt(now) else RestartedAt(firing))
    }

    /** Just started, by its own callback. */
    ghost predicate RestartedAt(a: Alarm)
      reads this`now, this`nticks, this`again, a`time, a`rollover, a`exact, a`deadline
    {
      && 0 <= again < WRAP && nticks == now % WRAP && a.Timing() == Start(nticks, again)
      && a.deadline == now + again + 1 && (a.exact <==> DelayOk(nticks, again))
    }

    ghost predicate Valid()
      reads `nticks, `now, `front, `rest, `firing, `again, list.head, list.pool, front, rest, firing
    {
      Structure() && Timed()
    }

    ghost predicate Resting()
      reads `nticks, `now, `front, `rest, `firing, `again, list.head, list.pool, front, rest, firing
    {
      Valid() && rest == [] && firing == null
    }

    constructor (pool: set<Alarm>)
      requires forall a :: a in pool ==> a.next == null && a.previous == null
      ensures Resting() && list.pool == pool && front == [] && now == 0 && tickRate == 0
      ensures fresh(list) && fresh(list.head)
    {
      list := new LinkedList(pool);
      nticks, tickRate, now, front, rest := 0, 0, 0, [], [];
      firing, visited, stopped, touched, again := null, [], {}, {}, -1;
    }

    /** alt_sysclk_init. */
    method SysclkInit(rate: u32) returns (ok: bool)
      modifies this`tickRate
      ensures ok <==> old(tickRate) == 0
      ensures tickRate == if ok then rate else old(tickRate)
    {
      ok := tickRate == 0;
      if ok { tickRate := rate; }
    }

    // ---- starting and stopping -------------------------------------------------------------

    /** The parts of an alarm that only its own start and callback change. */
    twostate predicate Same(a: Alarm)
      reads a
    {
      && a.Timing() == old(a.Timing()) && a.deadline == old(a.deadline)
      && a.exact == old(a.exact) && a.fired == old(a.fired) && a.returned == old(a.returned)
    }

    ghost function RecordOf(a: Alarm): Record
      reads `front, `rest, a`time, a`rollover, a`deadline, a`exact, a`fired, a`returned
    {
      Record(a.Timing(), a.deadline, a.exact, a.fired, a.returned, a in front || a in rest, a in rest)
    }

    /** No alarm that was once started becomes one that never was. */
    twostate predicate StillKnown()
      reads list.pool`next
    {
      forall a :: a in list.pool && old(a.next) != null ==> a.next != null
    }

    twostate predicate NoCallback()
      reads list.pool`fired, list.pool`returned
    {
      forall a :: a in list.pool ==> a.fired == old(a.fired) && a.returned == old(a.returned)
    }

    /** Alarms that were neither started nor stopped, other than this one, are as they were and where they
        were. */
    twostate predicate OthersStay(self: Alarm?)
      reads this`front, this`rest, this`touched, this`stopped, list.pool
    {
      && old(touched) <= touched && stopped <= old(stopped) + touched
      && (forall a :: a in list.pool && a !in touched && a != self ==> RecordOf(a) == old(RecordOf(a)))
    }

    /** alt_alarm_start. The alarm must not be linked; it may be the one whose callback runs, once that
        has stopped it. */
    method AlarmStart(alarm: Alarm?, delay: u32) returns (rc: StartResult)
      requires Valid() && (alarm != null ==> alarm in list.pool && alarm !in front + rest)
      modifies this`front, this`again, this`touched, list.head, list.pool
      ensures Valid() && rc == (if tickRate == 0 then NoClock else if alarm == null then NoAlarm else Started)
      ensures front == if rc == Started then [alarm] + old(front) else old(front)
      ensures rc == Started ==>
        && alarm.deadline == now + delay + 1 && (alarm.exact <==> DelayOk(nticks, delay))
        && alarm.Timing() == Start(nticks, delay)
      ensures again == if rc == Started && alarm == firing then delay else old(again)
      ensures touched == if rc == Started then old(touched) + {alarm} else old(touched)
      ensures forall a :: a in list.pool && (rc == Started ==> a != alarm) ==> RecordOf(a) == old(RecordOf(a))
      ensures StillKnown() && NoCallback()
    {
      if tickRate == 0 { return NoClock; }
      if alarm == null { return NoAlarm; }
      hide AlarmSystem.Valid, AlarmSystem.RecordOf, AlarmSystem.StillKnown, AlarmSystem.NoCallback;
      hide Start, DelayOk;
      StartAt(alarm, delay);
      rc := Started;
    }

    method StartAt(alarm: Alarm, delay: u32)
      requires Valid() && alarm in list.pool && alarm !in front + rest
      modifies this`front, this`again, this`touched, list.head, list.pool
      ensures Valid() && front == [alarm] + old(front) && touched == old(touched) + {alarm}
      ensures alarm.deadline == now + delay + 1 && (alarm.exact <==> DelayOk(nticks, delay))
      ensures alarm.Timing() == Start(nticks, delay)
      ensures again == if alarm == firing then delay else old(again)
      ensures forall a :: a in list.pool && a != alarm ==> RecordOf(a) == old(RecordOf(a))
      ensures StillKnown() && NoCallback()
    {
      hide AlarmSystem.Valid, Alarm.ArmedAt, Start, DelayOk;
      ArmForStart(alarm, delay);
      Link(alarm);
    }

    /** The fields are set before the alarm is linked. */
    method ArmForStart(alarm: Alarm, delay: u32)
      requires Valid() && alarm in list.pool && alarm !in front + rest
      modifies this`again, this`touched, alarm`time, alarm`rollover, alarm`deadline, alarm`exact
      ensures Valid() && alarm.ArmedAt(now) && touched == old(touched) + {alarm}
      ensures alarm.deadline == now + delay + 1 && (alarm.exact <==> DelayOk(nticks, delay))
      ensures alarm.Timing() == Start(nticks, delay)
      ensures again == if alarm == firing then delay else old(again)
    {
      hide AlarmSystem.Structure, Alarm.ArmedAt, Alarm.DueAt, Start, DelayOk;
      SetDeadline(alarm, delay);
      if alarm == firing { again := delay; }
      touched := touched + {alarm};
    }

    method SetDeadline(alarm: Alarm, delay: u32)
      requires nticks == now % WRAP
      modifies alarm`time, alarm`rollover, alarm`deadline, alarm`exact
      ensures alarm.ArmedAt(now) && alarm.Timing() == Start(nticks, delay)
      ensures alarm.deadline == now + delay + 1 && (alarm.exact <==> DelayOk(nticks, delay))
    {
      var current := nticks;
      alarm.time := (delay + current + 1) % WRAP;
      alarm.rollover := alarm.time < current;
      alarm.deadline, alarm.exact := now + delay + 1, DelayOk(nticks, delay);
      if DelayOk(nticks, delay) { StartArms(now, delay); }
    }

    method Link(alarm: Alarm)
      requires Valid() && alarm in list.pool && alarm !in front + rest && alarm.ArmedAt(now)
      modifies this`front, list.head`next, list.head`previous, list.pool`next, list.pool`previous
      ensures Valid() && front == [alarm] + old(front) && StillKnown()
    {
      hide LinkedList.Linked, Alarm.ArmedAt, Alarm.DueAt, AlarmSystem.RestartedAt;
      list.Insert(alarm, front + rest);
      assert [alarm] + (front + rest) == ([alarm] + front) + rest;
      front := [alarm] + front;
    }

    /** alt_alarm_stop. The alarm must have been started once. */
    method AlarmStop(alarm: Alarm)
      requires Valid() && alarm in list.pool && alarm.next != null
      modifies this`front, this`rest, this`stopped, this`touched
      modifies list.head`next, list.head`previous, list.pool`next, list.pool`previous
      ensures touched == old(touched) + {alarm}
      ensures forall a :: a in list.pool && a != alarm ==> RecordOf(a) == old(RecordOf(a))
      ensures Valid() && front == Minus(old(front), alarm) && rest == Minus(old(rest), alarm) && alarm !in front + rest
      ensures StillKnown()
      ensures if alarm in old(rest) then stopped == old(stopped) + {alarm}
              else rest == old(rest) && stopped == old(stopped)
      ensures (forall a :: a in front ==> a in old(front)) && forall a :: a in rest ==> a in old(rest)
      ensures old(rest) == [] || alarm != old(rest)[0] ==> RestShrinks()
    {
      DelinkFacts(alarm);
      hide AlarmSystem.Valid, AlarmSystem.RecordOf, Minus;
      if alarm in rest { stopped := stopped + {alarm}; }
      touched := touched + {alarm};
      DelinkTimed(alarm);
    }

    method DelinkTimed(alarm: Alarm)
      requires Valid() && alarm in list.pool && alarm.next != null
      modifies this`front, this`rest
      modifies list.head`next, list.head`previous, list.pool`next, list.pool`previous
      ensures Valid() && front == Minus(old(front), alarm) && rest == Minus(old(rest), alarm)
      ensures forall a :: a in list.pool && a != alarm ==> RecordOf(a) == old(RecordOf(a))
      ensures StillKnown()
    {
      DelinkFacts(alarm);
      hide LinkedList.Linked, Alarm.ArmedAt, Alarm.DueAt, AlarmSystem.RestartedAt, Minus;
      Delink(alarm);
    }

    lemma DelinkFacts(alarm: Alarm)
      requires Structure()
      ensures Distinct(front + rest)
      ensures forall a :: a in Minus(front, alarm) ==> a in front
      ensures forall a :: a in Minus(rest, alarm) ==> a in rest
      ensures alarm !in Minus(front, alarm) && alarm !in Minus(rest, alarm)
      ensures forall a :: a in front ==> a == alarm || a in Minus(front, alarm)
      ensures alarm !in rest ==> Minus(rest, alarm) == rest
      ensures |Minus(rest, alarm)| <= |rest| && forall a :: a in rest ==> a == alarm || a in Minus(rest, alarm)
      ensures rest != [] && rest[0] != alarm ==> Minus(rest, alarm) != [] && Minus(rest, alarm)[0] == rest[0]
    {
      assert Distinct(front + rest);
      hide LinkedList.Linked, Minus, Distinct;
      MinusConcat(front, rest, alarm);
    }

    method Delink(alarm: Alarm)
      requires Structure() && alarm in list.pool && alarm.next != null
      modifies this`front, this`rest
      modifies list.head`next, list.head`previous, list.pool`next, list.pool`previous
      ensures Structure() && front == Minus(old(front), alarm) && rest == Minus(old(rest), alarm)
      ensures StillKnown()
    {
      assert Distinct(front + rest);
      hide LinkedList.Linked, Minus, Distinct;
      MinusParts(front, rest, alarm);
      list.Remove(alarm, front + rest);
      front, rest := Minus(front, alarm), Minus(rest, alarm);
    }

    // ---- the tick --------------------------------------------------------------------------

    /** What callbacks may do to the alarms not yet visited: the saved successor stays where it is,
        some of the others are gone, none is changed. */
    twostate predicate RestShrinks()
      reads this
    {
      && (old(rest) != [] ==> rest != [] && rest[0] == old(rest)[0])
      && |rest| <= |old(rest)|
      && (forall a :: a in rest ==> a in old(rest))
      && (forall a :: a in old(rest) ==> a in rest || a in stopped)
      && old(stopped) <= stopped
    }

    /** No callback is made, the alarm being called back is as it was unless it started itself again, and
        none still to be visited is touched. */
    twostate predicate Spares(self: Alarm)
      reads this`front, this`rest, this`again, this`touched, this`stopped, list.pool
      requires self in list.pool && forall a :: a in rest ==> a in list.pool
    {
      && (again < 0 ==> old(again) < 0)
      && StillKnown() && NoCallback()
      && (forall a :: a in rest ==> a in old(rest) && RecordOf(a) == old(RecordOf(a)))
      && OthersStay(null) && (self !in touched ==> again == old(again))
    }

    /** One thing a callback can do: start an alarm that is not linked, or stop one that was once started;
        either may be its own. A tame callback does not stop the saved successor. */
    method CallbackAction(self: Alarm, next: Alarm, tame: bool)
      requires Valid() && firing == self && (tame ==> next == if rest == [] then list.head else rest[0])
      modifies this`front, this`rest, this`stopped, this`touched, this`again, list.head, list.pool
      ensures Valid() && (tame ==> RestShrinks()) && Spares(self)
    {
      var x: Alarm :| x in list.pool;
      if x.next == null || x.next == x {
        StartLoose(self, x);
      } else if !tame || x != next {
        StopLinked(self, x);
      }
    }

    method StartLoose(self: Alarm, x: Alarm)
      requires Valid() && firing == self && x in list.pool && (x.next == null || x.next == x)
      modifies this`front, this`touched, this`again, list.head, list.pool
      ensures Valid() && Spares(self)
    {
      hide AlarmSystem.Valid, AlarmSystem.RecordOf, AlarmSystem.StillKnown, AlarmSystem.NoCallback, Start, DelayOk;
      SelfLinkedIsLoose(x);
      FiringIsKnown();
      var delay: u32 :| 0 <= delay;
      var rc := AlarmStart(x, delay);
    }

    method StopLinked(self: Alarm, x: Alarm)
      requires Valid() && firing == self && x in list.pool && x.next != null
      modifies this`front, this`rest, this`stopped, this`touched
      modifies list.head`next, list.head`previous, list.pool`next, list.pool`previous
      ensures Valid() && Spares(self)
      ensures old(rest) == [] || x != old(rest)[0] ==> RestShrinks()
    {
      hide AlarmSystem.Valid, AlarmSystem.RestShrinks, AlarmSystem.RecordOf, AlarmSystem.StillKnown, Minus;
      FiringIsKnown();
      AlarmStop(x);
    }

    lemma SelfLinkedIsLoose(x: Alarm)
      requires Valid() && x in list.pool && (x.next == null || x.next == x)
      ensures x !in front + rest && x !in rest
    {
    }

    /** Any callback: any number of such actions, then any period. */
    method Callback(self: Alarm, next: Alarm, tame: bool) returns (period: u32)
      requires Valid() && firing == self && (tame ==> next == if rest == [] then list.head else rest[0])
      modifies this`front, this`rest, this`stopped, this`touched, this`again, list.head, list.pool
      ensures Valid() && (tame ==> RestShrinks()) && Spares(self)
    {
      hide AlarmSystem.Timed, LinkedList.Linked;
      var n: nat := *;
      while n > 0
        invariant Valid() && Structure() && (tame ==> RestShrinks())
        invariant Spares(self)
        decreases n
      {
        CallbackAction(self, next, tame);
        n := n - 1;
      }
      period := *;
    }

    /** Its callback started it again: a period is added to the new deadline. */
    twostate predicate AnsweredAgain(a: Alarm)
      reads this`now, this`nticks, this`again, a
    {
      var n := |old(a.returned)|;
      && |a.returned| == n + 1 && a.returned[..n] == old(a.returned)
      && (a.returned[n] != 0 && 0 <= again < WRAP ==>
        && a.deadline == now + again + 1 + a.returned[n]
        && (a.exact <==> RestartOk(nticks, again, a.returned[n])))
    }

    /** The alarm's callback, then its deactivation (a return of zero) or its next deadline. */
    method Expire(alarm: Alarm, next: Alarm, tame: bool)
      requires Valid() && firing == alarm && (tame ==> next == if rest == [] then list.head else rest[0])
      requires alarm.next != null && again < 0
      modifies this`front, this`rest, this`stopped, this`touched, this`firing, this`again, list.head, list.pool
      ensures Valid() && firing == null && (tame ==> RestShrinks())
      ensures alarm.fired == old(alarm.fired) + [now] && OthersStay(alarm)
      ensures AnsweredAgain(alarm) && (alarm !in touched ==> Answered(old(RecordOf(alarm)), RecordOf(alarm), now))
      ensures forall a :: a in list.pool && a != alarm ==> a.fired == old(a.fired)
      ensures StillKnown()
      ensures tame ==> forall a :: a in rest ==> RecordOf(a) == old(RecordOf(a))
    {
      FiringIsKnown();
      hide AlarmSystem.Valid;
      var period := Callback(alarm, next, tame);
      FiringIsKnown();
      Answer(alarm, period);
    }

    lemma FiringIsKnown()
      requires Valid() && firing != null
      ensures firing in list.pool && firing !in rest
      ensures forall a :: a in rest ==> a in list.pool
      ensures again >= 0 ==> again < WRAP && firing.deadline == now + again + 1
    {
    }

    /** What follows the callback. */
    method Answer(alarm: Alarm, period: u32)
      requires Valid() && firing == alarm && alarm.next != null
      modifies this`front, this`rest, this`stopped, this`touched, this`firing, list.head, list.pool
      ensures Valid() && firing == null && touched == old(touched)
      ensures alarm.fired == old(alarm.fired) + [now] && alarm.returned == old(alarm.returned) + [period]
      ensures period == 0 ==> alarm !in front + rest
      ensures period != 0 ==> (alarm in front + rest <==> old(alarm in front + rest))
      ensures period != 0 ==> alarm.deadline == old(alarm.deadline) + period
      ensures period != 0 ==> alarm.exact == if again < 0 then old(alarm.exact) else RestartOk(nticks, again, period)
      ensures forall a :: a in list.pool && a != alarm ==> RecordOf(a) == old(RecordOf(a))
      ensures StillKnown()
      ensures alarm !in old(rest) ==> rest == old(rest) && stopped == old(stopped)
    {
      hide LinkedList.Linked, Alarm.ArmedAt, Minus;
      alarm.fired, alarm.returned := alarm.fired + [now], alarm.returned + [period];
      if period == 0 {
        ghost var before := touched;
        AlarmStop(alarm);
        firing, touched := null, before;
      } else {
        NextDeadline(alarm, period);
      }
    }

    /** The period is added to the deadline, or to the new one if the callback started its own alarm again;
        that is exact under the condition of RestartExactIff. */
    method NextDeadline(alarm: Alarm, period: u32)
      requires Valid() && firing == alarm && period > 0
      modifies this`firing, alarm`time, alarm`rollover, alarm`deadline, alarm`exact
      ensures Valid() && firing == null && alarm.deadline == old(alarm.deadline) + period
      ensures alarm.exact == if again < 0 then old(alarm.exact) else RestartOk(nticks, again, period)
    {
      hide LinkedList.Linked, Alarm.ArmedAt, Alarm.DueAt, AlarmSystem.RestartedAt;
      AddPeriod(alarm, period);
      firing := null;
    }

    method AddPeriod(alarm: Alarm, period: u32)
      requires nticks == now % WRAP && period > 0 && if again < 0 then alarm.DueAt(now) else RestartedAt(alarm)
      modifies alarm`time, alarm`rollover, alarm`deadline, alarm`exact
      ensures alarm.ArmedAt(now) && alarm.deadline == old(alarm.deadline) + period
      ensures alarm.exact == if again < 0 then old(alarm.exact) else RestartOk(nticks, again, period)
    {
      hide Armed, Start;
      if again >= 0 {
        RestartExactIff(now, again, period);
        alarm.exact := RestartOk(nticks, again, period);
      } else if alarm.exact {
        RearmExact(now, period);
      }
      alarm.time := (alarm.time + period) % WRAP;
      if alarm.time < nticks { alarm.rollover := true; }
      alarm.deadline := alarm.deadline + period;
    }

    /** One turn of the loop of alt_tick. */
    method Visit(alarm: Alarm) returns (next: Alarm)
      requires Valid() && firing == null && rest != [] && rest[0] == alarm
      modifies this`front, this`rest, this`stopped, this`touched, this`firing, this`again, this`visited
      modifies list.head, list.pool
      ensures Valid() && firing == null && next == (if rest == [] then list.head else rest[0])
      ensures visited == old(visited) + [alarm] && old(stopped) <= stopped && |rest| < |old(rest)|
      ensures forall a :: a in rest ==> a in old(rest) && a != alarm && RecordOf(a) == old(RecordOf(a))
      ensures forall a :: a in old(rest) && a != alarm ==> a in rest || a in stopped
      ensures forall a :: a in list.pool && a != alarm ==> a.fired == old(a.fired)
      ensures OthersStay(alarm) && (alarm !in touched ==> Follows(old(RecordOf(alarm)), RecordOf(alarm), now))
      ensures alarm.fired == old(alarm.fired) || alarm.fired == old(alarm.fired) + [now]
      ensures old(alarm.exact) ==> alarm.fired == old(alarm.fired) + if old(alarm.deadline) == now then [now] else []
    {
      hide AlarmSystem.Valid, AlarmSystem.StillKnown;
      NextToVisit();
      next := alarm.next;
      var due := Advance(alarm);
      if due { Expire(alarm, next, true); }
    }

    lemma NextToVisit()
      requires Valid() && rest != []
      ensures rest[0] in list.pool && (forall a :: a in front + rest ==> a in list.pool)
      ensures rest[0] !in rest[1..] && rest[0] !in front
      ensures rest[0].next == if rest[1..] == [] then list.head else rest[1]
    {
      SuccessorOfFirst();
    }

    lemma SuccessorOfFirst()
      requires Structure() && rest != []
      ensures rest[0] in rest && rest[0] !in rest[1..] && rest[0] !in front
      ensures forall a :: a in rest[1..] ==> a in rest
      ensures rest[0].next == if rest[1..] == [] then list.head else rest[1]
    {
      var r := front + rest;
      DistinctParts(front, rest);
      assert r[|front|] == rest[0] && (|rest| > 1 ==> r[|front| + 1] == rest[1]);
    }

    /** Clears the rollover flag when the counter has wrapped, and tests the deadline. */
    method TestDeadline(alarm: Alarm) returns (due: bool)
      requires now > 0 && nticks == now % WRAP && alarm.ArmedAt(now - 1)
      modifies alarm`rollover
      ensures if due then alarm.DueAt(now) else alarm.ArmedAt(now)
      ensures alarm.exact ==> (due <==> alarm.deadline == now)
    {
      if alarm.exact { TickExact(now - 1, alarm.deadline, alarm.Timing()); }
      if alarm.rollover && nticks == 0 { alarm.rollover := false; }
      due := alarm.time <= nticks && !alarm.rollover;
    }

    /** The first part of a turn: the deadline test; the alarm counts as visited from here on. */
    method Advance(alarm: Alarm) returns (due: bool)
      requires Valid() && firing == null && rest != [] && rest[0] == alarm
      modifies this`front, this`rest, this`firing, this`again, this`visited, alarm`rollover
      ensures Valid() && firing == (if due then alarm else null)
      ensures visited == old(visited) + [alarm] && rest == old(rest)[1..] && alarm !in rest
      ensures front == old(front) + [alarm] && again < 0
      ensures alarm.exact ==> (due <==> alarm.deadline == now)
    {
      SuccessorOfFirst();
      hide LinkedList.Linked, Alarm.ArmedAt, Alarm.DueAt;
      due := TestDeadline(alarm);
      MarkVisited(alarm, due);
    }

    ghost method MarkVisited(alarm: Alarm, due: bool)
      requires Structure() && firing == null && nticks == now % WRAP && now > 0
      requires rest != [] && rest[0] == alarm && alarm !in rest[1..]
      requires if due then alarm.DueAt(now) else alarm.ArmedAt(now)
      requires forall a :: a in front ==> a != alarm && a.ArmedAt(now)
      requires forall a :: a in rest[1..] ==> a.ArmedAt(now - 1)
      modifies this`front, this`rest, this`firing, this`again, this`visited
      ensures Valid() && firing == (if due then alarm else null)
      ensures visited == old(visited) + [alarm] && rest == old(rest)[1..] && front == old(front) + [alarm]
      ensures again < 0
    {
      hide LinkedList.Linked, Alarm.ArmedAt, Alarm.DueAt;
      assert front + rest == (front + [alarm]) + rest[1..];
      front, rest, visited := front + [alarm], rest[1..], visited + [alarm];
      firing, again := if due then alarm else null, -1;
    }

    lemma FirstOfList()
      requires Structure()
      ensures list.head.next == if front + rest == [] then list.head else (front + rest)[0]
    {
    }

    /** alt_tick, with callbacks that may start and stop any alarms, but not stop the one saved as the next.
        It returns; it visits every alarm that was on the list and is not stopped before its turn exactly
        once; and an alarm's callback is made exactly at its deadline. Afterwards every linked alarm is
        armed for a later tick. */
    method Tick()
      requires Resting()
      modifies this`nticks, this`now, this`front, this`rest, this`firing, this`again, this`visited
      modifies this`stopped, this`touched
      modifies list.head, list.pool
      ensures Resting() && now == old(now) + 1 && tickRate == old(tickRate)
      ensures Distinct(visited) && (forall a :: a in visited ==> a in old(front))
      ensures forall a :: a in old(front) ==> a in visited || a in stopped
      ensures forall a :: a in list.pool && a !in visited ==> a.fired == old(a.fired)
      ensures forall a :: a in visited && old(a.exact) ==>
        a.fired == old(a.fired) + if old(a.deadline) == now then [now] else []
      ensures forall a :: a in list.pool && a !in touched ==>
        if a in old(front) then a in visited && Follows(old(RecordOf(a)), RecordOf(a), now)
        else RecordOf(a) == old(RecordOf(a))
    {
      hide AlarmSystem.Timed, LinkedList.Linked;
      var alarm := BeginTick();
      while alarm != list.head
        invariant now == old(now) + 1 && tickRate == old(tickRate)
        invariant Valid() && firing == null && alarm == (if rest == [] then list.head else rest[0])
        invariant Distinct(visited) && (forall a :: a in visited ==> a in old(front) && a !in rest)
        invariant forall a :: a in rest ==> a in old(front) && Same(a)
        invariant forall a :: a in old(front) ==> a in visited || a in rest || a in stopped
        invariant forall a :: a in list.pool && a !in visited ==> a.fired == old(a.fired)
        invariant forall a :: a in visited && old(a.exact) ==>
          a.fired == old(a.fired) + if old(a.deadline) == now then [now] else []
        invariant stopped <= touched
        invariant forall a :: a in visited && a !in touched ==> Follows(old(RecordOf(a)), RecordOf(a), now)
        invariant forall a :: a in list.pool && a !in touched && a !in old(front) ==> RecordOf(a) == old(RecordOf(a))
        decreases |rest|
      {
        alarm := Visit(alarm);
      }
    }

    /** The counter is incremented, and no alarm is visited yet. */
    method BeginTick() returns (alarm: Alarm)
      requires Resting()
      modifies this`nticks, this`now, this`front, this`rest, this`visited, this`stopped, this`touched
      ensures Valid() && firing == null && now == old(now) + 1
      ensures front == [] && rest == old(front) && visited == [] && stopped == {} && touched == {}
      ensures alarm == if rest == [] then list.head else rest[0]
    {
      FirstOfList();
      hide LinkedList.Linked, Alarm.ArmedAt, Alarm.DueAt;
      assert front + rest == front;
      alarm := list.head.next;
      nticks := (nticks + 1) % WRAP;
      ForgetVisits();
    }

    ghost method ForgetVisits()
      requires Structure() && rest == [] && firing == null && nticks == (now + 1) % WRAP
      requires forall a :: a in front ==> a.ArmedAt(now)
      modifies this`now, this`front, this`rest, this`visited, this`stopped, this`touched
      ensures Valid() && now == old(now) + 1
      ensures front == [] && rest == old(front) && visited == [] && stopped == {} && touched == {}
    {
      hide LinkedList.Linked, Alarm.ArmedAt, Alarm.DueAt;
      assert front + rest == [] + front;
      now, front, rest, visited, stopped, touched := now + 1, [], front, [], {}, {};
    }

    // ---- many ticks ------------------------------------------------------------------------

    /** Between two ticks anything may be started or stopped. */
    method Between()
      requires Resting()
      modifies this`front, this`rest, this`stopped, this`touched, this`again, list.head, list.pool
      ensures Resting() && OthersStay(null)
    {
      hide AlarmSystem.Timed, LinkedList.Linked;
      var n: nat := *;
      while n > 0
        invariant Resting() && Structure() && OthersStay(null)
        decreases n
      {
        BetweenAction();
        n := n - 1;
      }
    }

    method BetweenAction()
      requires Resting()
      modifies this`front, this`rest, this`stopped, this`touched, this`again, list.head, list.pool
      ensures Resting() && OthersStay(null)
    {
      var x: Alarm? := *;
      if x != null && x in list.pool {
        if x.next == null || x.next == x {
          SelfLinkedIsLoose(x);
          hide AlarmSystem.Valid;
          StartBetween(x);
        } else {
          StopBetween(x);
        }
      }
    }

    method StartBetween(x: Alarm)
      requires Resting() && x in list.pool && x !in front + rest
      modifies this`front, this`touched, this`again, list.head, list.pool
      ensures Resting() && OthersStay(null)
    {
      hide AlarmSystem.Valid, AlarmSystem.RecordOf, Start, DelayOk;
      var delay: u32 :| 0 <= delay;
      var rc := AlarmStart(x, delay);
    }

    method StopBetween(x: Alarm)
      requires Resting() && x in list.pool && x.next != null
      modifies this`front, this`rest, this`stopped, this`touched
      modifies list.head`next, list.head`previous, list.pool`next, list.pool`previous
      ensures Resting() && OthersStay(null)
    {
      hide AlarmSystem.Valid, AlarmSystem.RecordOf, Minus;
      AlarmStop(x);
    }

    method PlannedBetween(ghost on: map<Alarm, Record>, ghost gone: set<Alarm>)
      requires Resting()
      requires forall a :: a in on && a !in gone ==> a in list.pool && Planful(on[a], RecordOf(a), now)
      modifies this`front, this`rest, this`stopped, this`touched, this`again, list.head, list.pool
      ensures Resting()
      ensures forall a :: a in on && a !in gone + touched ==> Planful(on[a], RecordOf(a), now)
    {
      hide AlarmSystem.Valid, AlarmSystem.RecordOf, Planful;
      touched := {};
      Between();
    }

    method PlannedTick(ghost on: map<Alarm, Record>, ghost gone: set<Alarm>)
      requires Resting()
      requires forall a :: a in on && a !in gone ==> a in list.pool && Planful(on[a], RecordOf(a), now)
      modifies this`nticks, this`now, this`front, this`rest, this`firing, this`again, this`visited
      modifies this`stopped, this`touched, list.head, list.pool
      ensures Resting() && now == old(now) + 1
      ensures forall a :: a in on && a !in gone + touched ==> Planful(on[a], RecordOf(a), now)
    {
      ArmedAhead();
      hide AlarmSystem.Valid;
      Tick();
      ArmedAhead();
      hide Alarm.ArmedAt, Planful;
      forall a | a in on && a !in gone + touched ensures Planful(on[a], RecordOf(a), now) {
        PlanKept(on[a], old(RecordOf(a)), RecordOf(a), now);
      }
    }

    lemma ArmedAhead()
      requires Resting()
      ensures forall a :: a in front && a.exact ==> a.deadline > now
      ensures forall a :: a in front ==> a in list.pool
    {
    }

    /** Any number of ticks, with any starts and stops between them. An alarm that is linked with an exact
        deadline, and that nothing starts or stops, fires exactly as planned from that deadline and from what
        its callback returns. */
    method TimerRun(ticks: nat) returns (ghost disturbed: set<Alarm>)
      requires Resting()
      modifies this`nticks, this`now, this`front, this`rest, this`firing, this`again, this`visited
      modifies this`stopped, this`touched, list.head, list.pool
      ensures Resting() && now == old(now) + ticks
      ensures forall a :: a in old(front) && old(a.exact) && a !in disturbed ==>
        Planful(old(RecordOf(a)), RecordOf(a), now)
    {
      ghost var on := map a | a in front && a.exact :: RecordOf(a);
      disturbed := {};
      StartsOnPlan();
      hide AlarmSystem.Valid, AlarmSystem.Resting, AlarmSystem.RecordOf, Planful;
      var n := 0;
      while n < ticks
        invariant n <= ticks && Resting() && now == old(now) + n
        invariant forall a :: a in on && a !in disturbed ==> a in list.pool && Planful(on[a], RecordOf(a), now)
      {
        PlannedBetween(on, disturbed);
        disturbed := disturbed + touched;
        PlannedTick(on, disturbed);
        disturbed := disturbed + touched;
        n := n + 1;
      }
    }

    lemma StartsOnPlan()
      requires Resting()
      ensures forall a :: a in front && a.exact ==> Planful(RecordOf(a), RecordOf(a), now)
    {
    }

    // ---- turns with any callback at all -----------------------------------------------------

    /** Where following the links leads from `a` in n steps; the head is where the loop stops. */
    ghost function Walk(a: Alarm, n: nat): Alarm?
      reads list.pool`next
      requires a in list.pool
    {
      if n == 0 || a.next == null then a
      else if a.next in list.pool then Walk(a.next, n - 1) else a.next
    }

    ghost predicate LeadsToHead(a: Alarm)
      reads list.pool`next
    {
      a == list.head || (a in list.pool && exists n: nat :: Walk(a, n) == list.head)
    }

    lemma {:induction false} SelfLinkStays(a: Alarm, n: nat)
      requires a in list.pool && a.next == a
      ensures Walk(a, n) == a
    {
      if n > 0 { SelfLinkStays(a, n - 1); }
    }

    lemma {:induction false} LinkedLeads(r: seq<Alarm>, i: nat)
      requires list.ForwardChain(r) && i < |r|
      ensures Walk(r[i], |r| - i) == list.head
      decreases |r| - i
    {
      if i + 1 < |r| { LinkedLeads(r, i + 1); }
    }

    /** From an alarm that was once started the links lead to the head if and only if it is linked. */
    lemma LeadsIffLinked(a: Alarm)
      requires Structure() && (a == list.head || (a in list.pool && a.next != null))
      ensures LeadsToHead(a) <==> a == list.head || a in front + rest
    {
      var r := front + rest;
      if a in r {
        var i := IndexOf(r, a);
        LinkedLeads(r, i);
      } else if a != list.head {
        forall n: nat ensures Walk(a, n) == a { SelfLinkStays(a, n); }
      }
    }

    lemma NextIsKnown(a: Alarm)
      requires Structure() && a in list.pool && a.next != null
      ensures a.next == list.head || (a.next in list.pool && a.next.next != null)
    {
      var r := front + rest;
      if a in r { var i := IndexOf(r, a); assert r[i].next == a.next; }
    }

    /** A turn of the loop of alt_tick wherever it can stand: at the next alarm to be visited, at one before
        it, or at an unlinked one. The callback may stop the saved successor, and start it again. After the
        turn, the stop that a zero return asks for included, the loop stands before a way back to the head
        if and only if the saved successor is linked then (or is the head).
        In particular, if the loop stands at an alarm that is not linked, it stands there after the turn
        as well, and until a callback starts that alarm there is no way back. */
    method AnyTurn(alarm: Alarm) returns (next: Alarm)
      requires Valid() && firing == null && alarm in list.pool && alarm.next != null && now > 0
      requires alarm in rest ==> alarm == rest[0]
      modifies this`front, this`rest, this`stopped, this`touched, this`firing, this`again, this`visited
      modifies list.head, list.pool
      ensures Valid() && firing == null && next == old(alarm.next)
      ensures next == list.head || (next in list.pool && next.next != null)
      ensures LeadsToHead(next) <==> next == list.head || next in front + rest
    {
      NextIsKnown(alarm);
      next := alarm.next;
      hide AlarmSystem.Timed, LinkedList.Linked, AlarmSystem.LeadsToHead;
      var due := TestAnywhere(alarm);
      if due { Expire(alarm, next, false); }
      LeadsIffLinked(next);
    }

    /** The deadline test; when such an alarm fires is no longer promised if it is not the next to be
        visited. */
    method TestAnywhere(alarm: Alarm) returns (due: bool)
      requires Valid() && firing == null && alarm in list.pool && now > 0 && (alarm in rest ==> alarm == rest[0])
      modifies this`front, this`rest, this`firing, this`again, this`visited, alarm`rollover, alarm`exact
      ensures Valid() && again < 0 && firing == if due then alarm else null
    {
      if alarm in rest { SuccessorOfFirst(); } else { alarm.exact := false; }
      hide LinkedList.Linked, Alarm.ArmedAt, Alarm.DueAt;
      Inexact(alarm);
      due := TestDeadline(alarm);
      if alarm in rest { MarkVisited(alarm, due); } else { MarkAgain(alarm, due); }
    }

    ghost method MarkAgain(alarm: Alarm, due: bool)
      requires Structure() && firing == null && nticks == now % WRAP && now > 0 && alarm in list.pool && alarm !in rest
      requires if due then alarm.DueAt(now) else alarm.ArmedAt(now)
      requires forall a :: a in front && a != alarm ==> a.ArmedAt(now)
      requires forall a :: a in rest ==> a.ArmedAt(now - 1)
      modifies this`firing, this`again
      ensures Valid() && again < 0 && firing == if due then alarm else null
    {
      hide LinkedList.Linked, Alarm.ArmedAt, Alarm.DueAt;
      firing, again := if due then alarm else null, -1;
    }

    lemma Inexact(alarm: Alarm)
      requires now > 0
      ensures !alarm.exact ==> alarm.ArmedAt(now - 1)
    {
    }

    /** A loop that stands at an unlinked alarm, for as many turns as one likes: it leaves only by the way
        that a callback opened by starting that very alarm. */
    method Strand(alarm: Alarm, turns: nat) returns (at: Alarm)
      requires Valid() && firing == null && now > 0
      requires alarm in list.pool && alarm.next == alarm && alarm !in front + rest
      modifies this`front, this`rest, this`stopped, this`touched, this`firing, this`again, this`visited
      modifies list.head, list.pool
      ensures Valid() && at == alarm && (LeadsToHead(at) <==> at in front + rest)
    {
      at := alarm;
      var n := 0;
      LeadsIffLinked(at);
      while n < turns && at.next == at
        invariant Valid() && firing == null && at == alarm && at in list.pool && at.next != null && now > 0
        invariant at.next == at ==> at !in front + rest
        invariant LeadsToHead(at) <==> at in front + rest
      {
        at := AnyTurn(at);
        if at.next == at { NotSelfLinked(at); }
        n := n + 1;
      }
    }

    lemma NotSelfLinked(a: Alarm)
      requires Structure() && a in list.pool && a.next == a
      ensures a !in front + rest
    {
    }
  }
}
