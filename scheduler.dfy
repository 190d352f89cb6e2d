/**
 * The tick dispatcher's timing primitives: the 8-bit overflow counter
 * `t0ov_counter`, the period test `is_time`, and the LED alert blinker
 * `handle_leds` that the tick interrupt runs first.
 */
module Scheduler {
  import opened CTypes

  /** Period masks (`TIME_*` in firmware.c): a task fires when `tick & mask == 0`. */
  const TIME_87ms: bv8 := 0x03
  const TIME_350ms: bv8 := 0x0f
  const TIME_1400ms: bv8 := 0x3f
  const TIME_2800ms: bv8 := 0x7f

  /** A mask made of the low bits only (2^k - 1), i.e. a period that divides 256. */
  predicate LowMask(mask: bv8) {
    mask & (mask + 1) == 0
  }

  /** `is_time(mask, val)`: the masked tick counter equals `val`. */
  predicate IsTime(tick: bv8, mask: bv8, val: bv8) {
    tick & mask == val
  }

  /** The task with this mask fires at tick `start + offset`. */
  predicate FiresAt(start: bv8, offset: bv8, mask: bv8) {
    IsTime(start + offset, mask, 0)
  }

  /**
   * A task with a low-bit mask fires exactly once in every window of
   * `mask + 1` consecutive ticks, wherever the window starts and even across
   * the 8-bit wrap of the counter: some offset fires, and no two offsets do.
   */
  lemma FiresOncePerPeriod(t0: bv8, mask: bv8)
    requires LowMask(mask)
    ensures exists j: bv8 :: j <= mask && FiresAt(t0, j, mask)
    ensures forall i: bv8, j: bv8 :: i <= mask && j <= mask && FiresAt(t0, i, mask) && FiresAt(t0, j, mask) ==> i == j
  {
    var w := (0 - t0) & mask;
    assert w <= mask && FiresAt(t0, w, mask);
    forall i: bv8, j: bv8 | i <= mask && j <= mask && FiresAt(t0, i, mask) && FiresAt(t0, j, mask)
      ensures i == j
    {
      assert (i - j) & mask == 0;
    }
  }

  /** The tick counter incremented by the timer-overflow interrupt; `++` on a `uint8_t`. */
  class Clock {
    var tick: bv8

    constructor ()
      ensures tick == 0
    {
      tick := 0;
    }

    method Advance()
      modifies this
      ensures tick == old(tick) + 1
      ensures old(tick) == 0xff ==> tick == 0
    {
      tick := tick + 1;
    }
  }

  /** The LED blinker state: `led_period`, `led_alert` (blinks still to show) and `led_on`. */
  datatype LedState = LedState(period: bv16, alert: byte, on: bool)

  /** The mask `is_time` receives: its `uint8_t` parameter truncates `led_period`. */
  function OnMask(period: bv16): bv8 {
    (period & 0xff) as bv8
  }

  /**
   * The off-edge value `(led_period + 1) / 2`: unsigned 16-bit arithmetic on
   * the target (its `int` is 16 bits wide), then truncated to `uint8_t` by the call.
   */
  function OffValue(period: bv16): bv8 {
    (((period + 1) / 2) & 0xff) as bv8
  }

  /**
   * One run of `handle_leds` at the given tick. While blinks remain, the LED
   * is lit on the on-edge and, if lit, put out on the off-edge, which counts
   * one blink as shown; with no blink left the LED is off. The count never
   * grows, drops by at most one, and drops only on an off-edge with the LED lit.
   */
  function LedStep(s: LedState, tick: bv8): (r: LedState)
    ensures r.period == s.period
    ensures s.alert == 0 ==> r == s.(on := false)
    ensures r.alert == s.alert || r.alert == s.alert - 1
    ensures r.alert < s.alert <==>
              s.alert != 0 && (s.on || IsTime(tick, OnMask(s.period), 0)) && IsTime(tick, OnMask(s.period), OffValue(s.period))
    ensures r.alert < s.alert ==> !r.on
    ensures s.alert != 0 && IsTime(tick, OnMask(s.period), 0) && !IsTime(tick, OnMask(s.period), OffValue(s.period)) ==> r.on
    ensures s.alert != 0 && r.alert == s.alert ==> r.on == (s.on || IsTime(tick, OnMask(s.period), 0))
  {
    if s.alert != 0 then
      var on1 := s.on || IsTime(tick, OnMask(s.period), 0);
      if on1 && IsTime(tick, OnMask(s.period), OffValue(s.period)) then
        s.(on := false, alert := s.alert - 1)
      else
        s.(on := on1)
    else
      s.(on := false)
  }

  /**
   * For the periods the firmware uses (a low-bit mask of at least two ticks),
   * the on-edge and the off-edge are different ticks, so every blink is lit
   * for a positive number of ticks.
   */
  lemma BlinkHasWidth(period: bv16, tick: bv8)
    requires 1 <= period <= 0xff && LowMask(OnMask(period))
    ensures !(IsTime(tick, OnMask(period), 0) && IsTime(tick, OnMask(period), OffValue(period)))
  {
  }

  class Leds {
    var period: bv16
    var alert: byte
    var on: bool

    function State(): LedState
      reads this
    {
      LedState(period, alert, on)
    }

    constructor ()
      ensures State() == LedState(0, 0, false)
    {
      period, alert, on := 0, 0, false;
    }

    /** `set_led_alert`: both parameters are `uint16_t`; `led_alert` keeps the low byte of the count. */
    method SetAlert(newPeriod: bv16, count: uint16)
      modifies this`period, this`alert
      ensures State() == LedState(newPeriod, ToUint8(count), old(on))
    {
      period := newPeriod;
      alert := count % 0x100;
    }

    /** `green_on` / `green_off`, as far as `led_on` is concerned. */
    method SetGreen(lit: bool)
      modifies this`on
      ensures on == lit
    {
      on := lit;
    }

    /** `handle_leds`, run first on every tick. */
    method Handle(tick: bv8)
      modifies this
      ensures State() == LedStep(old(State()), tick)
    {
      if alert != 0 {
        if IsTime(tick, OnMask(period), 0) {
          on := true;
        }
        if on && IsTime(tick, OnMask(period), OffValue(period)) {
          on := false;
          alert := alert - 1;
        }
      } else {
        on := false;
      }
    }
  }
}
