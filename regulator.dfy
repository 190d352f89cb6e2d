/**
 * The charge regulator `handle_volt`: every 2.8 s tick it advances a 4-phase
 * cycle over the two-wire sensor (write its configuration register, read the
 * current, read the voltage) and then applies the relay hysteresis. Also the
 * glue by which the TWI interrupt stores a received word through `p_data`
 * into the regulator's readings.
 */
module Regulator {
  import opened CTypes
  import opened Twi
  import opened Scheduler

  /** The sensor's bus address as `twi_op` receives it (already shifted left). */
  const SENSOR_ADDRESS: byte := 0x80
  const CONFIG_REGISTER: byte := 0x00
  const CURRENT_REGISTER: byte := 0x01
  const VOLTAGE_REGISTER: byte := 0x02
  /** The initial value of the static `config_val` written to the configuration register. */
  const CONFIG_WORD: uint16 := 0x1eef

  datatype VoltState = VsConfig | VsCurrent | VsVolt | VsAction

  /**
   * A relay threshold `decivolt * 200` as the comparison sees it: the product
   * is computed in the target's 16-bit `int` (it wraps for decivolt > 163) and
   * is then converted to `unsigned int` because the voltage is unsigned. The
   * two wraps cancel, so the threshold is exactly `decivolt * 200`.
   */
  function Threshold(decivolt: byte): (t: uint16)
    ensures t == decivolt * 200
  {
    ToUint16(ToInt16(decivolt * 200))
  }

  /**
   * The VS_ACTION step: the relay goes off below the low threshold, on above
   * the high threshold, and otherwise keeps its state. When both conditions
   * hold (only possible with lo > hi) the later one, "on", wins.
   */
  function RelayStep(voltage: uint16, lo: byte, hi: byte, relay: bool): (r: bool)
    ensures voltage > hi * 200 ==> r
    ensures voltage < lo * 200 && voltage <= hi * 200 ==> !r
    ensures lo * 200 <= voltage <= hi * 200 ==> r == relay
  {
    var afterLow := if voltage < Threshold(lo) then false else relay;
    if voltage > Threshold(hi) then true else afterLow
  }

  /** The relay after a series of VS_ACTION steps over the given voltage readings. */
  function RelayRun(voltages: seq<uint16>, lo: byte, hi: byte, relay: bool): bool
    decreases |voltages|
  {
    if voltages == [] then relay
    else RelayRun(voltages[1..], lo, hi, RelayStep(voltages[0], lo, hi, relay))
  }

  /**
   * Hysteresis: once on, the relay stays on as long as no reading drops below
   * the low threshold; once off, it stays off as long as no reading exceeds
   * the high threshold.
   */
  lemma {:induction false} RelayHolds(voltages: seq<uint16>, lo: byte, hi: byte, relay: bool)
    ensures relay && (forall i :: 0 <= i < |voltages| ==> voltages[i] >= lo * 200) ==> RelayRun(voltages, lo, hi, relay)
    ensures !relay && (forall i :: 0 <= i < |voltages| ==> voltages[i] <= hi * 200) ==> !RelayRun(voltages, lo, hi, relay)
    decreases |voltages|
  {
    if voltages != [] {
      var next := RelayStep(voltages[0], lo, hi, relay);
      RelayHolds(voltages[1..], lo, hi, next);
      if relay && (forall i :: 0 <= i < |voltages| ==> voltages[i] >= lo * 200) {
        assert next;
        assert forall i :: 0 <= i < |voltages[1..]| ==> voltages[1..][i] == voltages[i + 1];
      }
      if !relay && (forall i :: 0 <= i < |voltages| ==> voltages[i] <= hi * 200) {
        assert !next;
        assert forall i :: 0 <= i < |voltages[1..]| ==> voltages[1..][i] == voltages[i + 1];
      }
    }
  }

  /** A transaction `handle_volt` asks `twi_op` for. */
  datatype Request = Request(reg: byte, target: Target, op: Op)

  /** The regulator's statics: `volt_state`, `config_val` and `volt_response`. */
  datatype RegState = RegState(phase: VoltState, configWord: uint16, voltage: uint16, current: uint16, relay: bool)

  /** The value `twi_op` copies from its target into the payload. */
  function TargetValue(s: RegState, t: Target): uint16 {
    match t
    case ConfigWord => s.configWord
    case CurrentReading => s.current
    case VoltageReading => s.voltage
  }

  /**
   * One run of `handle_volt`: off the 2.8 s edge nothing happens; on it the
   * cycle writes the configuration register, then reads the current, then the
   * voltage, then applies the relay step, and starts over.
   */
  function VoltStep(s: RegState, tick: bv8, lo: byte, hi: byte): (r: (RegState, Option<Request>))
    ensures !IsTime(tick, TIME_2800ms, 0) ==> r == (s, None)
    ensures IsTime(tick, TIME_2800ms, 0) ==>
              r.0.phase == (match s.phase
                            case VsConfig => VsCurrent
                            case VsCurrent => VsVolt
                            case VsVolt => VsAction
                            case VsAction => VsConfig)
    ensures r.1.Some? <==> IsTime(tick, TIME_2800ms, 0) && s.phase != VsAction
    ensures r.1 == Some(Request(CONFIG_REGISTER, ConfigWord, OpWrite)) <==> IsTime(tick, TIME_2800ms, 0) && s.phase == VsConfig
    ensures r.1 == Some(Request(CURRENT_REGISTER, CurrentReading, OpRead)) <==> IsTime(tick, TIME_2800ms, 0) && s.phase == VsCurrent
    ensures r.1 == Some(Request(VOLTAGE_REGISTER, VoltageReading, OpRead)) <==> IsTime(tick, TIME_2800ms, 0) && s.phase == VsVolt
    ensures r.0.relay != s.relay ==> IsTime(tick, TIME_2800ms, 0) && s.phase == VsAction
    ensures r.0.relay == if IsTime(tick, TIME_2800ms, 0) && s.phase == VsAction then RelayStep(s.voltage, lo, hi, s.relay) else s.relay
    ensures r.0.(phase := s.phase, relay := s.relay) == s
  {
    if !IsTime(tick, TIME_2800ms, 0) then (s, None)
    else
      match s.phase
      case VsConfig => (s.(phase := VsCurrent), Some(Request(CONFIG_REGISTER, ConfigWord, OpWrite)))
      case VsCurrent => (s.(phase := VsVolt), Some(Request(CURRENT_REGISTER, CurrentReading, OpRead)))
      case VsVolt => (s.(phase := VsAction), Some(Request(VOLTAGE_REGISTER, VoltageReading, OpRead)))
      case VsAction => (s.(phase := VsConfig, relay := RelayStep(s.voltage, lo, hi, s.relay)), None)
  }

  class ChargeRegulator {
    var phase: VoltState
    var configWord: uint16
    var voltage: uint16
    var current: uint16
    /** `volt_response.relay`, mirrored on PORTC0. */
    var relay: bool

    function State(): RegState
      reads this
    {
      RegState(phase, configWord, voltage, current, relay)
    }

    /** The statics at reset; `main` then calls `relay_off`. */
    constructor ()
      ensures State() == RegState(VsConfig, CONFIG_WORD, 0, 0, false)
    {
      phase, configWord, voltage, current, relay := VsConfig, CONFIG_WORD, 0, 0, false;
    }

    /** `handle_volt`, with the thresholds `config.solar_relay_decivolt_lo/hi`. */
    method Handle(tick: bv8, lo: byte, hi: byte, twi: TwiMaster)
      modifies this, twi
      ensures State() == VoltStep(old(State()), tick, lo, hi).0
      ensures var req := VoltStep(old(State()), tick, lo, hi).1;
              if req.Some? then
                && twi.Regs() == Begin(SENSOR_ADDRESS, req.value.reg, TargetValue(old(State()), req.value.target), req.value.op)
                && twi.target == req.value.target && twi.enabled
              else
                twi.Regs() == old(twi.Regs()) && twi.target == old(twi.target) && twi.enabled == old(twi.enabled)
    {
      if IsTime(tick, TIME_2800ms, 0) {
        match phase {
          case VsConfig =>
            twi.Start(SENSOR_ADDRESS, CONFIG_REGISTER, ConfigWord, configWord, OpWrite);
            phase := VsCurrent;
          case VsCurrent =>
            twi.Start(SENSOR_ADDRESS, CURRENT_REGISTER, CurrentReading, current, OpRead);
            phase := VsVolt;
          case VsVolt =>
            twi.Start(SENSOR_ADDRESS, VOLTAGE_REGISTER, VoltageReading, voltage, OpRead);
            phase := VsAction;
          case VsAction =>
            if voltage < Threshold(lo) {
              relay := false;
            }
            if voltage > Threshold(hi) {
              relay := true;
            }
            phase := VsConfig;
        }
      }
    }
  }

  /**
   * `ISR(TWI_vect)` with its `*twi.p_data = twi.data`: a word delivered by the
   * bus master is stored into the regulator variable the transaction targets.
   */
  method TwiInterrupt(twi: TwiMaster, reg: ChargeRegulator, twsr: bv8, twdrIn: byte) returns (out: Option<Reaction>)
    modifies twi, reg
    ensures var r := Isr(old(twi.Regs()), twsr, twdrIn);
            && (if r.Fault? then twi.Regs() == old(twi.Regs()) && !twi.enabled && out.None?
                else twi.Regs() == r.regs && twi.enabled && out == Some(r.out))
            && twi.target == old(twi.target)
            && reg.phase == old(reg.phase) && reg.relay == old(reg.relay)
            && (if r.Acked? && r.out.delivered.Some? then
                  match twi.target
                  case ConfigWord => reg.configWord == r.out.delivered.value && reg.voltage == old(reg.voltage) && reg.current == old(reg.current)
                  case CurrentReading => reg.current == r.out.delivered.value && reg.voltage == old(reg.voltage) && reg.configWord == old(reg.configWord)
                  case VoltageReading => reg.voltage == r.out.delivered.value && reg.current == old(reg.current) && reg.configWord == old(reg.configWord)
                else reg.State() == old(reg.State()))
  {
    out := twi.Interrupt(twsr, twdrIn);
    if out.Some? && out.value.delivered.Some? {
      var word := out.value.delivered.value;
      match twi.target {
        case ConfigWord => reg.configWord := word;
        case CurrentReading => reg.current := word;
        case VoltageReading => reg.voltage := word;
      }
    }
  }
}
