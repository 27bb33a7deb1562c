/**
 * The synchronisation pulse drawn in a corner of the screen: integer
 * functions of the milliseconds elapsed since the episode started.
 */
module Pulse {
  import opened Wrappers
  import opened Values

  /** Python's integer modulo: the result takes the sign of the divisor. */
  function PyMod(a: int, b: int): (r: int)
    requires b != 0
    ensures b > 0 ==> 0 <= r < b
    ensures b < 0 ==> b < r <= 0
  {
    if b > 0 then a % b else -((-a) % (-b))
  }

  /** The monitoring square's timing, in integer milliseconds (lines 141-143). */
  datatype Monitoring = Monitoring(ton: int, toff: int)
  {
    function Tfull(): int { ton + toff }
    function TfullFirst(): int { Trunc((ton + toff) as real / 2.0) }
    /** The durations for which no modulo by zero can be reached. */
    predicate Valid() { TfullFirst() > 0 }
  }

  /** The timing read from the screen's time-on and time-off, in seconds. */
  function MonitoringOf(timeOn: real, timeOff: real): (m: Monitoring)
    ensures timeOn >= 0.0 ==> m.ton as real <= 1000.0 * timeOn < m.ton as real + 1.0
    ensures timeOff >= 0.0 ==> m.toff as real <= 1000.0 * timeOff < m.toff as real + 1.0
  {
    Monitoring(Trunc(1000.0 * timeOn), Trunc(1000.0 * timeOff))
  }

  /** int(1e3*t - 1e3*start): the elapsed time in whole milliseconds. */
  function ElapsedMs(t: real, start: real): int
  {
    Trunc(1000.0 * t - 1000.0 * start)
  }

  /**
   * add_monitoring_signal (lines 306-313): the square is on during the
   * first full period when dt mod Tfull_first < Ton, later when
   * dt mod Tfull < Ton; a modulo by zero raises.
   */
  function PulseOn(m: Monitoring, dt: int): Result<bool>
  {
    if dt < m.Tfull() && m.TfullFirst() == 0 then Failure(ZeroDivision)
    else if dt < m.Tfull() && PyMod(dt, m.TfullFirst()) < m.ton then Success(true)
    else if m.Tfull() == 0 then Failure(ZeroDivision)
    else Success(PyMod(dt, m.Tfull()) < m.ton)
  }

  /** add_monitoring_signal_sp (lines 315-320): a single pulse of Ton milliseconds. */
  function SinglePulseOn(m: Monitoring, dt: int): (on: bool)
  {
    dt < m.ton
  }

  /**
   * The copy inside the static loop (lines 334-340) reads the clock three
   * times: d1 for the first test, d2 for the first modulo, d3 for the second.
   */
  function InlinePulseOn(m: Monitoring, d1: int, d2: int, d3: int): Result<bool>
  {
    if d1 < m.Tfull() && m.TfullFirst() == 0 then Failure(ZeroDivision)
    else if d1 < m.Tfull() && PyMod(d2, m.TfullFirst()) < m.ton then Success(true)
    else if m.Tfull() == 0 then Failure(ZeroDivision)
    else Success(PyMod(d3, m.Tfull()) < m.ton)
  }

  /** With three equal clock readings the inline copy decides as add_monitoring_signal. */
  lemma {:induction false} InlineAgrees(m: Monitoring, dt: int)
    ensures InlinePulseOn(m, dt, dt, dt) == PulseOn(m, dt)
  {
  }

  /** Valid timings never reach a modulo by zero. */
  lemma {:induction false} ValidNeverFails(m: Monitoring, dt: int)
    requires m.Valid()
    ensures m.Tfull() >= 2
    ensures PulseOn(m, dt).Success?
  {
  }

  lemma {:induction false} ModBelow(a: int, b: int)
    requires 0 <= a && 0 < b
    ensures a % b <= a
    ensures a < b ==> a % b == a
  {
    if a >= b {
      assert a == b * (a / b) + a % b;
      assert a / b >= 1;
    }
  }

  /**
   * For 0 <= dt the square follows the first period's half-period grid
   * before Tfull, and the full period after it, whenever Ton is shorter
   * than half the period: pulses start at 0, Tfull_first, Tfull, 2 Tfull, ...
   */
  lemma {:induction false} PulseSchedule(m: Monitoring, dt: int)
    requires m.Valid() && 0 <= dt && 0 <= m.ton < m.TfullFirst()
    ensures dt < m.Tfull() ==> PulseOn(m, dt) == Success(dt % m.TfullFirst() < m.ton)
    ensures dt >= m.Tfull() ==> PulseOn(m, dt) == Success(dt % m.Tfull() < m.ton)
  {
    ValidNeverFails(m, dt);
    ModBelow(dt, m.TfullFirst());
    ModBelow(dt, m.Tfull());
  }

  /**
   * With Ton = Toff = 50 ms the first test holds throughout the first
   * 100 ms, so the square stays on for 150 ms before the first gap.
   */
  lemma {:induction false} FiftyFiftyPulse(dt: int)
    requires 0 <= dt < 200
    ensures PulseOn(Monitoring(50, 50), dt) == Success(dt < 150)
  {
    var m := Monitoring(50, 50);
    assert m.TfullFirst() == 50;
    if dt >= 100 {
      assert dt % 100 == dt - 100;
    }
  }

  /** The single pulse is on exactly during the first Ton milliseconds. */
  lemma {:induction false} SinglePulseWindow(m: Monitoring, t: real, start: real)
    requires m.ton >= 0 && t >= start
    ensures SinglePulseOn(m, ElapsedMs(t, start)) <==> 1000.0 * (t - start) < m.ton as real
  {
    var x := 1000.0 * t - 1000.0 * start;
    assert x >= 0.0;
  }
}
