/**
 The three recurring activities of the runner loop and their next-fire times.

 In the runner, each activity is a constant of a Java enum holding a mutable
 `nexTick` timestamp (milliseconds). Here the three timestamps form one immutable
 record, `Ticks`, and every update produces a new record.
 */
module Events {

  /** The activity kinds, in declaration order. */
  datatype Event = UpdateTopology | Wait | Poke

  /** The order in which the loop first lists the activities. */
  const Declared: seq<Event> := [UpdateTopology, Wait, Poke]

  /** One next-fire timestamp per activity. */
  datatype Ticks = Ticks(updateTopology: int, wait: int, poke: int) {

    /** The next-fire timestamp of `e`. */
    function At(e: Event): int {
      match e
      case UpdateTopology => updateTopology
      case Wait => wait
      case Poke => poke
    }

    /** The same timestamps, except that `e` now fires at `t`. */
    function With(e: Event, t: int): (r: Ticks)
      ensures r.At(e) == t
      ensures forall o :: o != e ==> r.At(o) == At(o)
    {
      match e
      case UpdateTopology => this.(updateTopology := t)
      case Wait => this.(wait := t)
      case Poke => this.(poke := t)
    }
  }

  /** All activities fire at the same instant `t0`: the state right after class loading. */
  function Uniform(t0: int): (r: Ticks)
    ensures forall e :: r.At(e) == t0
  {
    Ticks(t0, t0, t0)
  }

  /** `order` lists each of the three activities exactly once. */
  ghost predicate IsSchedule(order: seq<Event>) {
    |order| == 3 && forall e :: multiset(order)[e] == 1
  }

  /** The list the loop starts from holds every activity exactly once. */
  lemma DeclaredIsSchedule()
    ensures IsSchedule(Declared)
  {
    forall e
      ensures multiset(Declared)[e] == 1
    {
      match e
      case UpdateTopology => assert Declared == [e] + [Wait, Poke];
      case Wait => assert Declared == [UpdateTopology] + [e] + [Poke];
      case Poke => assert Declared == [UpdateTopology, Wait] + [e];
    }
  }

  /** Reordering a schedule gives a schedule. */
  lemma PermutedSchedule(order: seq<Event>, other: seq<Event>)
    requires IsSchedule(order) && multiset(other) == multiset(order)
    ensures IsSchedule(other)
  {
    assert |other| == |multiset(other)| == |multiset(order)| == |order|;
  }

  /** A schedule has exactly three entries, all different, covering every activity. */
  lemma {:induction false} ScheduleShape(order: seq<Event>)
    requires IsSchedule(order)
    ensures |order| == 3
    ensures forall e :: e in order
    ensures forall i, j :: 0 <= i < j < |order| ==> order[i] != order[j]
  {
    assert multiset(order) == multiset(Declared) by {
      forall e
        ensures multiset(order)[e] == multiset(Declared)[e]
      {
        assert e == Declared[0] || e == Declared[1] || e == Declared[2];
      }
    }
    assert |order| == |multiset(order)| == |multiset(Declared)| == 3;
    forall e
      ensures e in order
    {
      assert e == Declared[0] || e == Declared[1] || e == Declared[2];
      assert e in multiset(Declared);
      assert e in multiset(order);
    }
    assert order == [order[0], order[1], order[2]];
  }

  /**
   The rescheduling done after every iteration, at instant `start` (the clock read just
   before the activity `last` was dispatched). The idle activity is re-armed one
   millisecond before the next poke period whatever ran; a refresh is then pushed one
   refresh period ahead and a poke one poke period ahead; an idle wait gets nothing more.
   */
  function Reschedule(ticks: Ticks, last: Event, start: int, tickRate: int, refreshMs: int): (r: Ticks)
    ensures r.At(Wait) == start + tickRate - 1
    ensures last == UpdateTopology ==> r.At(UpdateTopology) == start + refreshMs
    ensures last == Poke ==> r.At(Poke) == start + tickRate
    ensures forall e :: e != Wait && e != last ==> r.At(e) == ticks.At(e)
  {
    var rearmed := ticks.With(Wait, start + tickRate - 1);
    match last
    case Wait => rearmed
    case UpdateTopology => rearmed.With(UpdateTopology, start + refreshMs)
    case Poke => rearmed.With(Poke, start + tickRate)
  }

  /**
   How long the idle activity sleeps when the clock reads `now`: the time left until its
   own next-fire timestamp, and never a negative amount when that timestamp is already past.
   */
  function SleepFor(ticks: Ticks, now: int): (d: nat)
    ensures now + d == if ticks.At(Wait) > now then ticks.At(Wait) else now
    ensures d == 0 <==> ticks.At(Wait) <= now
  {
    if ticks.At(Wait) - now > 0 then ticks.At(Wait) - now else 0
  }
}
