/** The present pacer: an even-spacing scheduler on a monotone nanosecond clock. */
module Pacer {

  /** The display period, and the next slot to hand out once started. */
  datatype PacerState = PacerState(period: nat, started: bool, next: nat)

  /** The slot that a call entered at time t gets. */
  function SlotFor(p: PacerState, t: nat): nat {
    if !p.started then t
    else if t > p.next + p.period then t
    else p.next
  }

  function AfterSlot(p: PacerState, t: nat): PacerState {
    p.(started := true, next := SlotFor(p, t) + p.period)
  }

  function AfterReset(p: PacerState): PacerState {
    p.(started := false, next := 0)
  }

  /** The period of a refresh rate: truncated nanoseconds, with 60 Hz for anything not positive. */
  function PeriodOf(hz: real): nat
  {
    var hz' := if hz > 0.0 then hz else 60.0;
    (1_000_000_000.0 / hz').Floor
  }

  /** The period is positive exactly up to a rate of one gigahertz. */
  lemma PeriodPositive(hz: real)
    ensures PeriodOf(hz) > 0 <==> hz <= 1_000_000_000.0
  {
    if hz > 0.0 {
      QuotientAtLeastOne(hz);
    } else {
      assert 1_000_000_000.0 / 60.0 >= 1.0;
    }
  }

  /** A positive rate's period is a second divided by the rate, rounded down; any other rate counts as
      60 Hz. */
  lemma PeriodBounds(hz: real)
    ensures hz > 0.0 ==>
      PeriodOf(hz) as real * hz <= 1_000_000_000.0 < PeriodOf(hz) as real * hz + hz
    ensures hz <= 0.0 ==> PeriodOf(hz) == 16_666_666
  {
    hide PeriodOf;
    PeriodIs(hz);
    if hz > 0.0 {
      FloorOfQuotient(1_000_000_000.0, hz);
    }
  }

  lemma PeriodIs(hz: real)
    ensures hz > 0.0 ==> PeriodOf(hz) == (1_000_000_000.0 / hz).Floor
    ensures hz <= 0.0 ==> PeriodOf(hz) == 16_666_666
  {
  }

  lemma FloorOfQuotient(x: real, y: real)
    requires y > 0.0
    ensures var lo := (x / y).Floor as real * y; lo <= x < lo + y
  {
    var q := x / y;
    QuotientTimes(x, y);
    FloorTimes(x, q, q.Floor as real, y);
  }

  lemma FloorTimes(x: real, q: real, f: real, y: real)
    requires y > 0.0 && f <= q < f + 1.0 && q * y == x
    ensures f * y <= x < f * y + y
  {
    var d := q - f;
    Part(d, y);
    assert q * y == f * y + d * y;
    Offset(x, f * y, d * y, y);
  }

  lemma Offset(x: real, a: real, b: real, y: real)
    requires x == a + b && 0.0 <= b < y
    ensures a <= x < a + y
  {
  }

  lemma Part(d: real, y: real)
    requires y > 0.0 && 0.0 <= d < 1.0
    ensures 0.0 <= d * y < y
  {
    assert (1.0 - d) * y > 0.0;
  }

  lemma QuotientTimes(x: real, y: real)
    requires y > 0.0
    ensures x / y * y == x
  {
  }

  lemma QuotientAtLeastOne(hz: real)
    requires hz > 0.0
    ensures 1_000_000_000.0 / hz >= 1.0 <==> hz <= 1_000_000_000.0
  {
    var q := 1_000_000_000.0 / hz;
    assert q * hz == 1_000_000_000.0;
    if q >= 1.0 {
      assert q * hz >= 1.0 * hz;
    } else {
      assert q * hz < 1.0 * hz;
    }
  }

  // ----- Runs

  /** One completed call: entered at `enter`, given `slot`, returned at `leave`. */
  datatype Step = Waited(enter: nat, slot: nat, leave: nat) | Reset

  /** What the pacer can do from a state on, with the clock at `now`. */
  predicate Legal(p: PacerState, now: nat, steps: seq<Step>)
    decreases steps
  {
    steps == [] ||
    match steps[0]
    case Reset => Legal(AfterReset(p), now, steps[1..])
    case Waited(t, s, r) => now <= t <= r && s == SlotFor(p, t) && s <= r && Legal(AfterSlot(p, t), r, steps[1..])
  }

  function StepState(p: PacerState, step: Step): PacerState {
    match step
    case Reset => AfterReset(p)
    case Waited(t, _, _) => AfterSlot(p, t)
  }

  function StateAfter(p: PacerState, steps: seq<Step>): PacerState
    decreases steps
  {
    if steps == [] then p else StateAfter(StepState(p, steps[0]), steps[1..])
  }

  function TimeAfter(now: nat, steps: seq<Step>): nat
    decreases steps
  {
    if steps == [] then now else TimeAfter(if steps[0].Waited? then steps[0].leave else now, steps[1..])
  }

  /** A legal run continued by a legal step is legal. */
  lemma {:induction false} LegalContinues(p: PacerState, now: nat, steps: seq<Step>, last: Step)
    requires Legal(p, now, steps) && Legal(StateAfter(p, steps), TimeAfter(now, steps), [last])
    ensures Legal(p, now, steps + [last])
    ensures StateAfter(p, steps + [last]) == StepState(StateAfter(p, steps), last)
    ensures TimeAfter(now, steps + [last]) == if last.Waited? then last.leave else TimeAfter(now, steps)
    decreases steps
  {
    if steps == [] {
      assert steps + [last] == [last];
      assert [last][1..] == [];
    } else {
      assert (steps + [last])[1..] == steps[1..] + [last];
      LegalContinues(StepState(p, steps[0]), if steps[0].Waited? then steps[0].leave else now, steps[1..], last);
    }
  }

  predicate NoResets(steps: seq<Step>) {
    forall i :: 0 <= i < |steps| ==> steps[i].Waited?
  }

  /** Consecutive slots between resets are one period apart, or more than two. */
  lemma {:induction false} SlotSpacing(p: PacerState, now: nat, steps: seq<Step>, i: nat)
    requires Legal(p, now, steps) && i + 1 < |steps| && steps[i].Waited? && steps[i + 1].Waited?
    ensures steps[i + 1].slot == steps[i].slot + p.period || steps[i + 1].slot > steps[i].slot + 2 * p.period
    decreases steps
  {
    if i > 0 {
      match steps[0]
      case Reset => SlotSpacing(AfterReset(p), now, steps[1..], i - 1);
      case Waited(t, s, r) => SlotSpacing(AfterSlot(p, t), r, steps[1..], i - 1);
    } else {
      assert steps[1..][0] == steps[1];
    }
  }

  /** The first call after a start or a reset gets its own entry time as its slot. */
  lemma {:induction false} FirstSlot(p: PacerState, now: nat, steps: seq<Step>, i: nat)
    requires Legal(p, now, steps) && i < |steps| && steps[i].Waited?
    requires if i == 0 then !p.started else steps[i - 1].Reset?
    ensures steps[i].slot == steps[i].enter
    decreases steps
  {
    if i > 0 {
      FirstSlot(StepState(p, steps[0]), if steps[0].Waited? then steps[0].leave else now, steps[1..], i - 1);
    }
  }

  /** Every other call gets the slot one period after the one before, unless it comes more than two
      periods after that one: then the schedule starts afresh at its entry time. */
  lemma {:induction false} NextSlot(p: PacerState, now: nat, steps: seq<Step>, i: nat)
    requires Legal(p, now, steps) && i + 1 < |steps| && steps[i].Waited? && steps[i + 1].Waited?
    ensures steps[i + 1].slot ==
      if steps[i + 1].enter > steps[i].slot + 2 * p.period then steps[i + 1].enter else steps[i].slot + p.period
    decreases steps
  {
    if i > 0 {
      NextSlot(StepState(p, steps[0]), if steps[0].Waited? then steps[0].leave else now, steps[1..], i - 1);
    } else {
      assert steps[1..][0] == steps[1];
    }
  }

  /** No call returns before its slot. */
  lemma {:induction false} NeverEarly(p: PacerState, now: nat, steps: seq<Step>, i: nat)
    requires Legal(p, now, steps) && i < |steps| && steps[i].Waited?
    ensures steps[i].slot <= steps[i].leave && now <= steps[i].enter <= steps[i].leave
    decreases steps
  {
    if i > 0 {
      match steps[0]
      case Reset => NeverEarly(AfterReset(p), now, steps[1..], i - 1);
      case Waited(t, s, r) => NeverEarly(AfterSlot(p, t), r, steps[1..], i - 1);
    }
  }

  lemma {:induction false} SlotsFrom(p: PacerState, now: nat, steps: seq<Step>, lo: nat, j: nat)
    requires Legal(p, now, steps) && j < |steps| && steps[j].Waited?
    requires lo <= now && (p.started ==> lo <= p.next)
    ensures lo <= steps[j].slot
    decreases steps
  {
    if j > 0 {
      match steps[0]
      case Reset => SlotsFrom(AfterReset(p), now, steps[1..], lo, j - 1);
      case Waited(t, s, r) => SlotsFrom(AfterSlot(p, t), r, steps[1..], lo, j - 1);
    }
  }

  /** Slots never go back, across resets too. */
  lemma {:induction false} SlotsNondecreasing(p: PacerState, now: nat, steps: seq<Step>, i: nat, j: nat)
    requires Legal(p, now, steps) && i < j < |steps| && steps[i].Waited? && steps[j].Waited?
    ensures steps[i].slot <= steps[j].slot
    decreases steps
  {
    match steps[0]
    case Reset => SlotsNondecreasing(AfterReset(p), now, steps[1..], i - 1, j - 1);
    case Waited(t, s, r) =>
      if i > 0 {
        SlotsNondecreasing(AfterSlot(p, t), r, steps[1..], i - 1, j - 1);
      } else {
        SlotsFrom(AfterSlot(p, t), r, steps[1..], s, j - 1);
      }
  }

  /** Calls that lie entirely within [a, b]. */
  function CompleteIn(steps: seq<Step>, a: nat, b: nat): nat
    decreases steps
  {
    if steps == [] then 0
    else
      CompleteIn(steps[1..], a, b)
        + if steps[0].Waited? && a <= steps[0].enter && steps[0].leave <= b then 1 else 0
  }

  lemma MorePeriods(p: nat, c: int)
    ensures p * (c + 1) == p * c + p
  {
  }

  /** c calls that return by b, from a started pacer, need c - 1 periods after the next slot. */
  lemma {:induction false} ReturnsByNeedTime(p: PacerState, now: nat, steps: seq<Step>, a: nat, b: nat)
    requires Legal(p, now, steps) && NoResets(steps) && p.started && CompleteIn(steps, a, b) > 0
    ensures p.next + p.period * (CompleteIn(steps, a, b) - 1) <= b
    decreases steps
  {
    var t := steps[0].enter;
    var rest := CompleteIn(steps[1..], a, b);
    if rest > 0 {
      ReturnsByNeedTime(AfterSlot(p, t), steps[0].leave, steps[1..], a, b);
      MorePeriods(p.period, rest - 1);
    }
  }

  /** The rate bound: between resets, any window [a, b] contains at most (b - a) / P + 2 complete
      calls. */
  lemma {:induction false} WindowBound(p: PacerState, now: nat, steps: seq<Step>, a: nat, b: nat)
    requires Legal(p, now, steps) && NoResets(steps) && a <= b
    ensures p.period * (CompleteIn(steps, a, b) - 2) <= b - a
    decreases steps
  {
    if steps != [] {
      var t := steps[0].enter;
      var rest := CompleteIn(steps[1..], a, b);
      if a <= t && steps[0].leave <= b {
        if rest > 0 {
          ReturnsByNeedTime(AfterSlot(p, t), steps[0].leave, steps[1..], a, b);
        }
      } else {
        WindowBound(AfterSlot(p, t), steps[0].leave, steps[1..], a, b);
      }
    }
  }

  lemma RateBound(p: PacerState, now: nat, steps: seq<Step>, a: nat, b: nat)
    requires Legal(p, now, steps) && NoResets(steps) && a <= b && p.period > 0
    ensures CompleteIn(steps, a, b) <= (b - a) / p.period + 2
  {
    WindowBound(p, now, steps, a, b);
    AtMostQuotient(p.period, CompleteIn(steps, a, b) - 2, b - a);
  }

  lemma AtMostQuotient(p: nat, c: int, x: nat)
    requires p > 0 && p * c <= x
    ensures c <= x / p
  {
    var q := x / p;
    if c > q {
      Monotone(p, q + 1, c);
      MorePeriods(p, q);
    }
  }

  lemma Monotone(p: nat, a: int, b: int)
    requires a <= b
    ensures p * a <= p * b
  {
  }

  /** The first call, then one entered exactly a period late, then two on time. */
  const BURST: seq<Step> := [Waited(0, 0, 0), Waited(20, 10, 20), Waited(20, 20, 20), Waited(20, 30, 30)]

  /** The bound is reached: three calls fit in a window one period long. */
  lemma RateBoundIsTight()
    ensures Legal(PacerState(10, false, 0), 0, BURST) && NoResets(BURST)
    ensures CompleteIn(BURST, 20, 30) == (30 - 20) / 10 + 2
  {
    assert BURST[1..] == [BURST[1], BURST[2], BURST[3]];
    assert BURST[1..][1..] == [BURST[2], BURST[3]];
    assert BURST[1..][1..][1..] == [BURST[3]];
    assert BURST[1..][1..][1..][1..] == [];
    assert Legal(PacerState(10, true, 20), 20, [BURST[2], BURST[3]]);
    assert Legal(PacerState(10, true, 10), 0, [BURST[1], BURST[2], BURST[3]]);
    assert CompleteIn([BURST[3]], 20, 30) == 1;
    assert CompleteIn([BURST[2], BURST[3]], 20, 30) == 2;
    assert CompleteIn([BURST[1], BURST[2], BURST[3]], 20, 30) == 3;
  }

  // ----- The pacer object

  /** A steady clock: it never goes back, and shows the same value only finitely often in a row
      (`stalls` bounds how often still). */
  class Clock {
    var last: nat
    var stalls: nat

    method Now() returns (t: nat)
      modifies this
      ensures old(last) <= t == last && (t == old(last) ==> stalls < old(stalls))
    {
      var advance: int :| advance >= 0;
      t := if advance == 0 && stalls == 0 then last + 1 else last + advance;
      if t == last {
        stalls := stalls - 1;
      } else {
        var more: int :| more >= 0;
        stalls := more;
      }
      last := t;
    }
  }

  class NvofgPacer {
    const periodNs: nat
    var started: bool
    var nextSlot: nat

    /** All completed calls so far. */
    ghost var history: seq<Step>

    /** The history is a legal run that ends in the present state. */
    ghost predicate Valid()
      reads this
    {
      && Legal(PacerState(periodNs, false, 0), 0, history)
      && View() == StateAfter(PacerState(periodNs, false, 0), history)
    }

    constructor (hz: real)
      ensures Valid() && periodNs == PeriodOf(hz) && history == []
    {
      periodNs, started, nextSlot, history := PeriodOf(hz), false, 0, [];
    }

    function View(): PacerState
      reads this
    {
      PacerState(periodNs, started, nextSlot)
    }

    /** nvofg_pacer_wait_slot, on a clock that has not gone back since the last call. Sleeping only lets
        time pass, so what is left of it is the spin. */
    method WaitSlot(clock: Clock) returns (slot: nat, ghost enter: nat)
      requires Valid() && TimeAfter(0, history) <= clock.last
      modifies this, clock
      ensures old(clock.last) <= enter <= clock.last
      ensures slot == SlotFor(old(View()), enter) && View() == AfterSlot(old(View()), enter)
      ensures Valid() && history == old(history) + [Waited(enter, slot, clock.last)]
      ensures TimeAfter(0, history) == clock.last
    {
      var t := clock.Now();
      enter := t;
      slot := t;
      if !started {
        started := true;
        nextSlot := t + periodNs;
      } else {
        slot := nextSlot;
        if t > slot + periodNs {
          slot := t;
        } else if t < slot {
          while t < slot
            modifies clock
            invariant enter <= t == clock.last
            decreases slot - t, clock.stalls
          {
            t := clock.Now();
          }
        }
        nextSlot := slot + periodNs;
      }
      Record(Waited(enter, slot, clock.last));
    }

    ghost method Record(step: Step)
      requires Legal(PacerState(periodNs, false, 0), 0, history)
      requires Legal(StateAfter(PacerState(periodNs, false, 0), history), TimeAfter(0, history), [step])
      requires View() == StepState(StateAfter(PacerState(periodNs, false, 0), history), step)
      modifies this`history
      ensures Valid() && history == old(history) + [step]
      ensures TimeAfter(0, history) == if step.Waited? then step.leave else TimeAfter(0, old(history))
    {
      LegalContinues(PacerState(periodNs, false, 0), 0, history, step);
      history := history + [step];
    }

    /** nvofg_pacer_reset. */
    method Restart()
      requires Valid()
      modifies this
      ensures View() == AfterReset(old(View()))
      ensures Valid() && history == old(history) + [Reset] && TimeAfter(0, history) == TimeAfter(0, old(history))
    {
      started := false;
      nextSlot := 0;
      Record(Reset);
    }

    /** nvofg_pacer_next_slot_time: the announced slot is the one the next call gets, unless that call
        comes more than a period late. */
    method NextSlotTime(clock: Clock) returns (t: nat)
      modifies clock
      ensures started ==> t == nextSlot && forall u: nat :: u <= t + periodNs ==> SlotFor(View(), u) == t
      ensures !started ==> t == clock.last >= old(clock.last)
    {
      if started { return nextSlot; }
      t := clock.Now();
    }
  }
}
