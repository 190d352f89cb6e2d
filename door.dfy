/**
 * The door controller `handle_door`: a two-stage debounce of the push button
 * (the latched rising-edge flag INTF1, then the level of PIND3 one active
 * tick later) driving a countdown state machine of forced modes, and the
 * mapping of the resolved mode onto the two door outputs PC2 (open) and PC1
 * (close).
 */
module Door {
  import opened CTypes
  import opened Scheduler

  /** `enum door_action`, in declaration order. */
  datatype DoorAction = NoAction | Open | Close | ForceOpen | ForceClose

  function ActionCode(a: DoorAction): (c: byte)
    ensures c < 5
  {
    match a
    case NoAction => 0
    case Open => 1
    case Close => 2
    case ForceOpen => 3
    case ForceClose => 4
  }

  const DOOR_COUNTDOWN: int := 700
  const DOOR_IGNORE_TIME: int := 1
  const DOOR_DOUBLE_PUSH_TIME: int := 10

  /** `door_action`, `door_countdown` and the static `peak` of `handle_door`. */
  datatype DoorState = DoorState(action: DoorAction, countdown: int, peak: bool)

  /**
   * The range `door_countdown` keeps between runs of `handle_door`: it starts
   * at 0, and a re-arm to 700 is followed by a decrement in the same run. So
   * the ignore-window guard `countdown <= 699` holds in every reachable state.
   */
  predicate DoorInv(s: DoorState) {
    0 <= s.countdown <= DOOR_COUNTDOWN - DOOR_IGNORE_TIME
  }

  /** The inputs sampled on an active tick: the latched INTF1 flag and the PIND3 level. */
  datatype DoorInput = DoorInput(flag: bool, pin: bool)

  /** `handle_door` only acts on ticks with `tick & TIME_87ms == 0`. */
  predicate Active(tick: bv8) {
    IsTime(tick, TIME_87ms, 0)
  }

  /**
   * A press is confirmed when the flag was seen on the previous active tick
   * (`peak`), is clear now, and the button level is high.
   */
  predicate Confirmed(s: DoorState, i: DoorInput) {
    !i.flag && s.peak && i.pin
  }

  /** The forced mode a confirmed press selects. */
  function PressAction(s: DoorState): DoorAction {
    if s.action == ForceOpen && s.countdown >= DOOR_COUNTDOWN - DOOR_DOUBLE_PUSH_TIME then ForceClose else ForceOpen
  }

  /**
   * One run of `handle_door`. On an active tick: a latched flag arms `peak`;
   * a confirmed press outside the ignore window (countdown <= 699) selects a
   * forced mode (a second press within ten active ticks of a forced open
   * forces a close) and re-arms the countdown; then a nonzero countdown is
   * decremented, and reaching zero ends any forced or automatic mode.
   */
  function DoorStep(s: DoorState, tick: bv8, i: DoorInput): (r: DoorState)
    ensures !Active(tick) ==> r == s
    ensures Active(tick) ==> r.peak == i.flag
    ensures Active(tick) && Confirmed(s, i) && 0 <= s.countdown <= DOOR_COUNTDOWN - DOOR_IGNORE_TIME ==>
              r.action == PressAction(s) && r.countdown == DOOR_COUNTDOWN - 1
    ensures Active(tick) && !(Confirmed(s, i) && s.countdown <= DOOR_COUNTDOWN - DOOR_IGNORE_TIME) ==>
              && r.countdown == (if s.countdown != 0 then s.countdown - 1 else 0)
              && r.action == (if s.countdown == 1 then NoAction else s.action)
    ensures DoorInv(s) ==> DoorInv(r)
    ensures DoorInv(s) && Active(tick) ==>
              (r.countdown == DOOR_COUNTDOWN - 1 <==> Confirmed(s, i) && s.countdown <= DOOR_COUNTDOWN - DOOR_IGNORE_TIME)
  {
    if !Active(tick) then s
    else
      var peak := if i.flag then true else if s.peak then false else s.peak;
      var pressed := !i.flag && s.peak && i.pin;
      var armed := if pressed && s.countdown <= DOOR_COUNTDOWN - DOOR_IGNORE_TIME
                   then DoorState(PressAction(s), DOOR_COUNTDOWN, peak)
                   else s.(peak := peak);
      if armed.countdown != 0 then
        var c := armed.countdown - 1;
        armed.(countdown := c, action := if c == 0 then NoAction else armed.action)
      else armed
  }

  /** The door state after a series of active ticks. */
  function DoorRun(s: DoorState, inputs: seq<DoorInput>): DoorState
    decreases |inputs|
  {
    if inputs == [] then s else DoorRun(DoorStep(s, 0, inputs[0]), inputs[1..])
  }

  /** A button that never reads high cannot confirm a press. */
  predicate ButtonLow(inputs: seq<DoorInput>) {
    forall k :: 0 <= k < |inputs| ==> !inputs[k].pin
  }

  /** A forced open that a second push within ten active ticks turns into a forced close. */
  predicate InDoublePushWindow(s: DoorState) {
    s.action == ForceOpen && DOOR_COUNTDOWN - DOOR_DOUBLE_PUSH_TIME < s.countdown <= DOOR_COUNTDOWN - DOOR_IGNORE_TIME
  }

  /**
   * A push (flag on one active tick, high level on the next) forces the door
   * open, with the countdown re-armed, from every reachable state except a
   * forced open inside its double-push window.
   */
  lemma PushForcesOpen(s: DoorState)
    requires DoorInv(s) && !InDoublePushWindow(s)
    ensures DoorRun(s, [DoorInput(true, false), DoorInput(false, true)]) == DoorState(ForceOpen, DOOR_COUNTDOWN - 1, false)
  {
    var s1 := DoorStep(s, 0, DoorInput(true, false));
    assert s1.peak && s1.countdown <= DOOR_COUNTDOWN - 2;
    assert PressAction(s1) == ForceOpen;
    assert DoorRun(s1, [DoorInput(false, true)]) == DoorStep(s1, 0, DoorInput(false, true));
    assert [DoorInput(true, false), DoorInput(false, true)][1..] == [DoorInput(false, true)];
  }

  /** A second push inside the double-push window of a forced open forces the door closed. */
  lemma DoublePushForcesClose(s: DoorState)
    requires InDoublePushWindow(s)
    ensures DoorRun(s, [DoorInput(true, false), DoorInput(false, true)]) == DoorState(ForceClose, DOOR_COUNTDOWN - 1, false)
  {
    var s1 := DoorStep(s, 0, DoorInput(true, false));
    assert s1 == DoorState(ForceOpen, s.countdown - 1, true);
    assert DoorRun(s1, [DoorInput(false, true)]) == DoorStep(s1, 0, DoorInput(false, true));
    assert [DoorInput(true, false), DoorInput(false, true)][1..] == [DoorInput(false, true)];
  }

  /** With the countdown at rest and no press, the state keeps its mode. */
  lemma {:induction false} RestKeepsMode(s: DoorState, inputs: seq<DoorInput>)
    requires s.countdown == 0 && ButtonLow(inputs)
    ensures DoorRun(s, inputs).action == s.action && DoorRun(s, inputs).countdown == 0
    decreases |inputs|
  {
    if inputs != [] {
      var s1 := DoorStep(s, 0, inputs[0]);
      assert s1.action == s.action && s1.countdown == 0;
      RestKeepsMode(s1, inputs[1..]);
    }
  }

  /**
   * A forced (or any counting) mode expires: after `countdown` active ticks
   * without a press the countdown is 0 and the mode is NoAction, and it stays
   * so while the button stays released.
   */
  lemma {:induction false} ForceExpires(s: DoorState, inputs: seq<DoorInput>)
    requires DoorInv(s) && s.countdown >= 1 && |inputs| >= s.countdown && ButtonLow(inputs)
    ensures DoorRun(s, inputs).action == NoAction && DoorRun(s, inputs).countdown == 0
    decreases |inputs|
  {
    var s1 := DoorStep(s, 0, inputs[0]);
    assert s1.countdown == s.countdown - 1;
    assert ButtonLow(inputs[1..]) by {
      forall k | 0 <= k < |inputs[1..]| ensures !inputs[1..][k].pin {
        assert inputs[1..][k] == inputs[k + 1];
      }
    }
    if s.countdown == 1 {
      assert s1.action == NoAction;
      RestKeepsMode(s1, inputs[1..]);
    } else {
      ForceExpires(s1, inputs[1..]);
    }
  }

  class DoorController {
    var action: DoorAction
    var countdown: int
    var peak: bool

    function State(): DoorState
      reads this
    {
      DoorState(action, countdown, peak)
    }

    constructor ()
      ensures State() == DoorState(NoAction, 0, false) && DoorInv(State())
    {
      action, countdown, peak := NoAction, 0, false;
    }

    /** `handle_door`; `clearFlag` is the write that clears INTF1 in EIFR. */
    method Handle(tick: bv8, input: DoorInput) returns (clearFlag: bool)
      modifies this
      ensures State() == DoorStep(old(State()), tick, input)
      ensures clearFlag <==> Active(tick) && input.flag
    {
      clearFlag := false;
      var pressed := false;
      if IsTime(tick, TIME_87ms, 0) {
        if input.flag {
          clearFlag := true;
          peak := true;
        } else if peak {
          peak := false;
          if input.pin {
            pressed := true;
          }
        }
        if pressed {
          if countdown <= DOOR_COUNTDOWN - DOOR_IGNORE_TIME {
            match action {
              case ForceOpen =>
                if countdown >= DOOR_COUNTDOWN - DOOR_DOUBLE_PUSH_TIME {
                  action := ForceClose;
                }
                countdown := DOOR_COUNTDOWN;
              case _ =>
                action := ForceOpen;
                countdown := DOOR_COUNTDOWN;
            }
          }
        }
        if countdown != 0 {
          countdown := countdown - 1;
          if countdown == 0 {
            action := NoAction;
          }
        }
      }
    }
  }

  /** The PORTC bits of the door outputs. */
  const OPEN_BIT: bv8 := 0x04
  const CLOSE_BIT: bv8 := 0x02

  /**
   * The main loop's `door_off` / `door_open` / `door_close` on PORTC: NoAction
   * drives both outputs low, the open modes drive PC2 high and PC1 low, the
   * close modes the reverse. The outputs are never both high, and every other
   * bit of the port (the relay on PC0 among them) is left as it was.
   */
  function DoorPins(portc: bv8, a: DoorAction): (r: bv8)
    ensures r & !(OPEN_BIT | CLOSE_BIT) == portc & !(OPEN_BIT | CLOSE_BIT)
    ensures r & OPEN_BIT != 0 <==> a == Open || a == ForceOpen
    ensures r & CLOSE_BIT != 0 <==> a == Close || a == ForceClose
    ensures !(r & OPEN_BIT != 0 && r & CLOSE_BIT != 0)
  {
    match a
    case NoAction => portc & !(OPEN_BIT | CLOSE_BIT)
    case Open => (portc & !CLOSE_BIT) | OPEN_BIT
    case ForceOpen => (portc & !CLOSE_BIT) | OPEN_BIT
    case Close => (portc & !OPEN_BIT) | CLOSE_BIT
    case ForceClose => (portc & !OPEN_BIT) | CLOSE_BIT
  }
}
