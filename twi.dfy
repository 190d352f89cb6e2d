/**
 * The two-wire (TWI/I2C) bus master: the `twi` record, `twi_op`, which starts
 * a register read or write, and `ISR(TWI_vect)`, which advances the
 * transaction by one bus event per interrupt. The hardware is reduced to its
 * inputs (the status code in TWSR, the received byte in TWDR) and its outputs
 * (the byte written to TWDR and the TWSTA/TWSTO/TWEA/TWEN bits of TWCR).
 */
module Twi {
  import opened CTypes

  /** Status codes of the TWI hardware (avr-libc `util/twi.h`). */
  const TW_START: byte := 0x08
  const TW_REP_START: byte := 0x10
  const TW_MT_SLA_ACK: byte := 0x18
  const TW_MT_DATA_ACK: byte := 0x28
  const TW_MR_SLA_ACK: byte := 0x40
  const TW_MR_DATA_ACK: byte := 0x50

  /** `TW_STATUS`: TWSR with the two prescaler bits (and the reserved bit) masked off. */
  function TwStatus(twsr: bv8): byte {
    (twsr & 0xF8) as byte
  }

  datatype Op = OpRead | OpWrite

  datatype Phase =
    | Ready
    | SetRegSendAddress
    | SetRegSendRegPtr
    | SetRegDone
    | ReadSendAddress
    | ReadSendAddressDone
    | ReadRecvByte0
    | ReadRecvByte1
    | WriteSendByte0
    | WriteSendByte1

  /**
   * The variables `twi_op` may name as `p_data`: the regulator's
   * configuration word and its two readings.
   */
  datatype Target = ConfigWord | CurrentReading | VoltageReading

  /**
   * The `twi` record. The 16-bit payload is a union with two bytes; AVR is
   * little-endian, so `data0` is the low byte and `data1` the high byte.
   */
  datatype TwiRegs = TwiRegs(address: byte, reg: byte, data0: byte, data1: byte, op: Op, status: Phase)
  {
    function Data(): uint16 {
      data1 * 0x100 + data0
    }
  }

  /** What one interrupt does when it does not fault: the TWCR request bits, TWDR, and the delivered word. */
  datatype Reaction = Reaction(twdr: Option<byte>, sta: bool, sto: bool, ea: bool, delivered: Option<uint16>)

  const Quiet := Reaction(None, false, false, false, None)

  /**
   * Outcome of one `ISR(TWI_vect)`: `Acked` writes TWCR with TWEN, TWIE and
   * TWINT set plus the reaction's bits; `Fault` only clears TWEN, disabling
   * the bus, and leaves the record as it was.
   */
  datatype IsrResult = Acked(regs: TwiRegs, out: Reaction) | Fault

  /** The record `twi_op` leaves behind: a transaction in its first phase with the payload `val`. */
  function Begin(address: byte, reg: byte, val: uint16, op: Op): (s: TwiRegs)
    ensures s.status == SetRegSendAddress && s.op == op
    ensures s.address == address && s.reg == reg && s.Data() == val
  {
    TwiRegs(address, reg, val % 0x100, val / 0x100, op, SetRegSendAddress)
  }

  /** The status codes the interrupt handles at all; any other one is a fault. */
  predicate KnownStatus(code: byte) {
    code in {TW_START, TW_REP_START, TW_MT_SLA_ACK, TW_MT_DATA_ACK, TW_MR_SLA_ACK, TW_MR_DATA_ACK}
  }

  /** The phases in which an acknowledgement or data event with this status code is expected. */
  predicate Expected(code: byte, status: Phase) {
    || (code == TW_MT_SLA_ACK && status == SetRegSendRegPtr)
    || (code == TW_MT_DATA_ACK && status in {SetRegDone, WriteSendByte0, WriteSendByte1})
    || (code == TW_MR_SLA_ACK && status == ReadSendAddressDone)
    || (code == TW_MR_DATA_ACK && status in {ReadRecvByte0, ReadRecvByte1})
  }

  /**
   * One run of `ISR(TWI_vect)` on the record `s`, with TWSR and TWDR as read
   * by the handler.
   */
  function Isr(s: TwiRegs, twsr: bv8, twdrIn: byte): (r: IsrResult)
    // a fault exactly when the event is unknown, or is an ACK/data event outside its phase
    ensures r.Fault? <==> !KnownStatus(TwStatus(twsr)) || (TwStatus(twsr) !in {TW_START, TW_REP_START} && !Expected(TwStatus(twsr), s.status))
    // a (repeated) START outside the two send-address phases changes nothing
    ensures TwStatus(twsr) in {TW_START, TW_REP_START} && s.status !in {SetRegSendAddress, ReadSendAddress} ==> r == Acked(s, Quiet)
    // the address, register pointer and operation of a transaction are never altered
    ensures r.Acked? ==> r.regs.address == s.address && r.regs.reg == s.reg && r.regs.op == s.op
    // a word is delivered only on the second received byte, which completes a read
    ensures r.Acked? && r.out.delivered.Some? ==>
              s.status == ReadRecvByte1 && r.regs.status == Ready && r.out.delivered.value == s.data1 * 0x100 + twdrIn
    // the transaction goes back to Ready only that way
    ensures r.Acked? && r.regs.status == Ready && s.status != Ready ==> s.status == ReadRecvByte1 && r.out.delivered.Some?
  {
    var code := TwStatus(twsr);
    if code == TW_START || code == TW_REP_START then
      if s.status == SetRegSendAddress then
        Acked(s.(status := SetRegSendRegPtr), Quiet.(twdr := Some(s.address)))
      else if s.status == ReadSendAddress then
        Acked(s.(status := ReadSendAddressDone), Quiet.(twdr := Some(ReadAddress(s.address))))
      else
        Acked(s, Quiet)
    else if code == TW_MT_SLA_ACK then
      if s.status == SetRegSendRegPtr then
        Acked(s.(status := SetRegDone), Quiet.(twdr := Some(s.reg)))
      else
        Fault
    else if code == TW_MT_DATA_ACK then
      if s.status == SetRegDone then
        if s.op == OpRead then
          Acked(s.(status := ReadSendAddress), Quiet.(sta := true))
        else
          Acked(s.(status := WriteSendByte0), Quiet.(twdr := Some(s.data1)))
      else if s.status == WriteSendByte0 then
        Acked(s.(status := WriteSendByte1), Quiet.(twdr := Some(s.data0)))
      else if s.status == WriteSendByte1 then
        Acked(s, Quiet.(sto := true))
      else
        Fault
    else if code == TW_MR_SLA_ACK then
      if s.status == ReadSendAddressDone then
        Acked(s.(status := ReadRecvByte0), Quiet.(ea := true))
      else
        Fault
    else if code == TW_MR_DATA_ACK then
      if s.status == ReadRecvByte0 then
        Acked(s.(data1 := twdrIn, status := ReadRecvByte1), Quiet.(ea := true))
      else if s.status == ReadRecvByte1 then
        var s' := s.(data0 := twdrIn, status := Ready);
        Acked(s', Quiet.(sto := true, delivered := Some(s'.Data())))
      else
        Fault
    else
      Fault
  }

  /** `address | 0x01`: the read form of an 8-bit (already shifted) device address. */
  function ReadAddress(address: byte): (r: byte)
    ensures r % 2 == 1 && r - r % 2 == address - address % 2
  {
    if address % 2 == 1 then address else address + 1
  }

  /** One bus event as the interrupt sees it: TWSR and TWDR. */
  datatype Event = Event(twsr: bv8, twdr: byte)

  /** The interrupt run over a sequence of events, up to the first fault. */
  datatype RunResult = Faulted | Completed(regs: TwiRegs, outs: seq<Reaction>)

  function Prepend(out: Reaction, r: RunResult): RunResult {
    if r.Faulted? then Faulted else Completed(r.regs, [out] + r.outs)
  }

  function Run(s: TwiRegs, events: seq<Event>): (r: RunResult)
    ensures r.Completed? ==> |r.outs| == |events|
    decreases |events|
  {
    if events == [] then Completed(s, [])
    else
      var step := Isr(s, events[0].twsr, events[0].twdr);
      if step.Fault? then Faulted else Prepend(step.out, Run(step.regs, events[1..]))
  }

  /** One acknowledged event in front of a completed run. */
  lemma RunStep(s: TwiRegs, e: Event, rest: seq<Event>, next: TwiRegs, out: Reaction, fin: TwiRegs, outs: seq<Reaction>)
    requires Isr(s, e.twsr, e.twdr) == Acked(next, out)
    requires Run(next, rest) == Completed(fin, outs)
    ensures Run(s, [e] + rest) == Completed(fin, [out] + outs)
  {
    assert ([e] + rest)[0] == e;
    assert ([e] + rest)[1..] == rest;
  }

  /** The status codes read back through `TW_STATUS` unchanged. */
  lemma StatusCodes()
    ensures TwStatus(TW_START as bv8) == TW_START && TwStatus(TW_REP_START as bv8) == TW_REP_START
    ensures TwStatus(TW_MT_SLA_ACK as bv8) == TW_MT_SLA_ACK && TwStatus(TW_MT_DATA_ACK as bv8) == TW_MT_DATA_ACK
    ensures TwStatus(TW_MR_SLA_ACK as bv8) == TW_MR_SLA_ACK && TwStatus(TW_MR_DATA_ACK as bv8) == TW_MR_DATA_ACK
  {
  }

  /**
   * Which phases each operation can be in: a write never enters a read phase
   * (so it never returns to Ready), and a read never enters a write phase.
   */
  predicate PhaseFits(s: TwiRegs) {
    && (s.op == OpWrite ==> s.status in {SetRegSendAddress, SetRegSendRegPtr, SetRegDone, WriteSendByte0, WriteSendByte1})
    && (s.op == OpRead ==> s.status !in {WriteSendByte0, WriteSendByte1})
  }

  /** Every transaction that `twi_op` starts keeps its phase within its operation, whatever the bus does. */
  lemma {:induction false} RunKeepsPhaseFit(s: TwiRegs, events: seq<Event>)
    requires PhaseFits(s)
    ensures Run(s, events).Completed? ==> PhaseFits(Run(s, events).regs)
    ensures Run(s, events).Completed? && s.op == OpWrite ==> Run(s, events).regs.status != Ready
    decreases |events|
  {
    if events != [] {
      var r := Isr(s, events[0].twsr, events[0].twdr);
      if r.Acked? {
        assert PhaseFits(r.regs);
        RunKeepsPhaseFit(r.regs, events[1..]);
      }
    }
  }

  /**
   * A complete write transaction: after the START the address goes out, then
   * the register pointer, then the high byte, then the low byte, then STOP is
   * requested. The record stays in its last write phase and does not return to Ready.
   */
  lemma WriteTransaction(address: byte, reg: byte, val: uint16, d: seq<byte>)
    requires |d| == 5
    ensures Run(Begin(address, reg, val, OpWrite),
                [Event(TW_START as bv8, d[0]), Event(TW_MT_SLA_ACK as bv8, d[1]),
                 Event(TW_MT_DATA_ACK as bv8, d[2]), Event(TW_MT_DATA_ACK as bv8, d[3]),
                 Event(TW_MT_DATA_ACK as bv8, d[4])])
            == Completed(Begin(address, reg, val, OpWrite).(status := WriteSendByte1),
                         [Quiet.(twdr := Some(address)), Quiet.(twdr := Some(reg)),
                          Quiet.(twdr := Some(val / 0x100)), Quiet.(twdr := Some(val % 0x100)),
                          Quiet.(sto := true)])
  {
    var s0 := Begin(address, reg, val, OpWrite);
    var s4 := s0.(status := WriteSendByte1);
    var e0, e1, e2, e3, e4 := Event(TW_START as bv8, d[0]), Event(TW_MT_SLA_ACK as bv8, d[1]),
                              Event(TW_MT_DATA_ACK as bv8, d[2]), Event(TW_MT_DATA_ACK as bv8, d[3]),
                              Event(TW_MT_DATA_ACK as bv8, d[4]);
    var o0, o1, o2, o3, o4 := Quiet.(twdr := Some(address)), Quiet.(twdr := Some(reg)),
                              Quiet.(twdr := Some(val / 0x100)), Quiet.(twdr := Some(val % 0x100)),
                              Quiet.(sto := true);
    StatusCodes();
    assert Run(s4, []) == Completed(s4, []);
    RunStep(s4, e4, [], s4, o4, s4, []);
    RunStep(s0.(status := WriteSendByte0), e3, [e4], s4, o3, s4, [o4]);
    RunStep(s0.(status := SetRegDone), e2, [e3, e4], s0.(status := WriteSendByte0), o2, s4, [o3, o4]);
    RunStep(s0.(status := SetRegSendRegPtr), e1, [e2, e3, e4], s0.(status := SetRegDone), o1, s4, [o2, o3, o4]);
    RunStep(s0, e0, [e1, e2, e3, e4], s0.(status := SetRegSendRegPtr), o0, s4, [o1, o2, o3, o4]);
  }

  /**
   * The second half of a read: after the repeated START the read address
   * `address | 1` goes out, then the two received bytes are acknowledged;
   * the first is the high byte, the second the low byte, and `hi * 256 + lo`
   * is delivered with STOP and the record Ready again.
   */
  lemma ReadReceive(s: TwiRegs, d: seq<byte>, hi: byte, lo: byte)
    requires s.status == ReadSendAddress && |d| == 2
    ensures Run(s, [Event(TW_REP_START as bv8, d[0]), Event(TW_MR_SLA_ACK as bv8, d[1]),
                    Event(TW_MR_DATA_ACK as bv8, hi), Event(TW_MR_DATA_ACK as bv8, lo)])
            == Completed(s.(data1 := hi, data0 := lo, status := Ready),
                         [Quiet.(twdr := Some(ReadAddress(s.address))), Quiet.(ea := true), Quiet.(ea := true),
                          Quiet.(sto := true, delivered := Some(hi * 0x100 + lo))])
  {
    var s4 := s.(status := ReadSendAddressDone);
    var s5 := s.(status := ReadRecvByte0);
    var s6 := s.(data1 := hi, status := ReadRecvByte1);
    var s7 := s.(data1 := hi, data0 := lo, status := Ready);
    var e3, e4, e5, e6 := Event(TW_REP_START as bv8, d[0]), Event(TW_MR_SLA_ACK as bv8, d[1]),
                          Event(TW_MR_DATA_ACK as bv8, hi), Event(TW_MR_DATA_ACK as bv8, lo);
    var o3, o4, o6 := Quiet.(twdr := Some(ReadAddress(s.address))), Quiet.(ea := true),
                      Quiet.(sto := true, delivered := Some(hi * 0x100 + lo));
    StatusCodes();
    assert Run(s7, []) == Completed(s7, []);
    RunStep(s6, e6, [], s7, o6, s7, []);
    RunStep(s5, e5, [e6], s6, o4, s7, [o6]);
    RunStep(s4, e4, [e5, e6], s5, o4, s7, [o4, o6]);
    RunStep(s, e3, [e4, e5, e6], s4, o3, s7, [o4, o4, o6]);
  }

  /**
   * A complete read transaction: address, register pointer, then a repeated
   * START (see ReadReceive) after which the word `hi * 256 + lo` is delivered.
   */
  lemma ReadTransaction(address: byte, reg: byte, val: uint16, d: seq<byte>, hi: byte, lo: byte)
    requires |d| == 5
    ensures Run(Begin(address, reg, val, OpRead),
                [Event(TW_START as bv8, d[0]), Event(TW_MT_SLA_ACK as bv8, d[1]),
                 Event(TW_MT_DATA_ACK as bv8, d[2]), Event(TW_REP_START as bv8, d[3]),
                 Event(TW_MR_SLA_ACK as bv8, d[4]), Event(TW_MR_DATA_ACK as bv8, hi),
                 Event(TW_MR_DATA_ACK as bv8, lo)])
            == Completed(Begin(address, reg, val, OpRead).(data1 := hi, data0 := lo, status := Ready),
                         [Quiet.(twdr := Some(address)), Quiet.(twdr := Some(reg)), Quiet.(sta := true),
                          Quiet.(twdr := Some(ReadAddress(address))), Quiet.(ea := true), Quiet.(ea := true),
                          Quiet.(sto := true, delivered := Some(hi * 0x100 + lo))])
  {
    var s0 := Begin(address, reg, val, OpRead);
    var s3 := s0.(status := ReadSendAddress);
    var s7 := s0.(data1 := hi, data0 := lo, status := Ready);
    var e0, e1, e2 := Event(TW_START as bv8, d[0]), Event(TW_MT_SLA_ACK as bv8, d[1]),
                      Event(TW_MT_DATA_ACK as bv8, d[2]);
    var tail := [Event(TW_REP_START as bv8, d[3]), Event(TW_MR_SLA_ACK as bv8, d[4]),
                 Event(TW_MR_DATA_ACK as bv8, hi), Event(TW_MR_DATA_ACK as bv8, lo)];
    var outs := [Quiet.(twdr := Some(ReadAddress(address))), Quiet.(ea := true), Quiet.(ea := true),
                 Quiet.(sto := true, delivered := Some(hi * 0x100 + lo))];
    var o0, o1, o2 := Quiet.(twdr := Some(address)), Quiet.(twdr := Some(reg)), Quiet.(sta := true);
    StatusCodes();
    ReadReceive(s3, d[3..], hi, lo);
    RunStep(s0.(status := SetRegDone), e2, tail, s3, o2, s7, outs);
    RunStep(s0.(status := SetRegSendRegPtr), e1, [e2] + tail, s0.(status := SetRegDone), o1, s7, [o2] + outs);
    RunStep(s0, e0, [e1] + ([e2] + tail), s0.(status := SetRegSendRegPtr), o0, s7, [o1] + ([o2] + outs));
    assert [e0] + ([e1] + ([e2] + tail)) == [e0, e1, e2, tail[0], tail[1], tail[2], tail[3]];
    assert [o0] + ([o1] + ([o2] + outs)) == [o0, o1, o2, outs[0], outs[1], outs[2], outs[3]];
  }

  /**
   * The bus master as the firmware holds it: the `twi` record, the target of
   * `p_data`, and the TWEN bit of TWCR (is the bus enabled).
   */
  class TwiMaster {
    var address: byte
    var reg: byte
    var data0: byte
    var data1: byte
    var op: Op
    var status: Phase
    var target: Target
    var enabled: bool

    function Regs(): TwiRegs
      reads this
    {
      TwiRegs(address, reg, data0, data1, op, status)
    }

    /** The zero-initialised static record, bus not yet enabled. */
    constructor ()
      ensures Regs() == TwiRegs(0, 0, 0, 0, OpRead, Ready) && !enabled
    {
      address, reg, data0, data1, op, status := 0, 0, 0, 0, OpRead, Ready;
      target := ConfigWord;
      enabled := false;
    }

    /**
     * `twi_op`: record the transaction, copy the current value of the target
     * into the payload, enable the bus and request a START.
     */
    method Start(addr: byte, register: byte, dest: Target, current: uint16, operation: Op)
      modifies this
      ensures Regs() == Begin(addr, register, current, operation)
      ensures target == dest && enabled
    {
      address := addr;
      reg := register;
      op := operation;
      status := SetRegSendAddress;
      target := dest;
      data0 := current % 0x100;
      data1 := current / 0x100;
      enabled := true;
    }

    /**
     * `ISR(TWI_vect)`: returns what the handler writes to TWDR and TWCR and the
     * word it stores through `p_data`, if any.
     */
    method Interrupt(twsr: bv8, twdrIn: byte) returns (out: Option<Reaction>)
      modifies this
      ensures target == old(target)
      ensures var r := Isr(old(Regs()), twsr, twdrIn);
              if r.Fault? then Regs() == old(Regs()) && !enabled && out.None?
              else Regs() == r.regs && enabled && out == Some(r.out)
    {
      var code := TwStatus(twsr);
      var reaction := Quiet;
      var fault := false;
      if code == TW_START || code == TW_REP_START {
        if status == SetRegSendAddress {
          reaction := reaction.(twdr := Some(address));
          status := SetRegSendRegPtr;
        } else if status == ReadSendAddress {
          reaction := reaction.(twdr := Some(ReadAddress(address)));
          status := ReadSendAddressDone;
        }
      } else if code == TW_MT_SLA_ACK {
        if status == SetRegSendRegPtr {
          reaction := reaction.(twdr := Some(reg));
          status := SetRegDone;
        } else {
          fault := true;
        }
      } else if code == TW_MT_DATA_ACK {
        if status == SetRegDone {
          if op == OpRead {
            reaction := reaction.(sta := true);
            status := ReadSendAddress;
          } else {
            reaction := reaction.(twdr := Some(data1));
            status := WriteSendByte0;
          }
        } else if status == WriteSendByte0 {
          reaction := reaction.(twdr := Some(data0));
          status := WriteSendByte1;
        } else if status == WriteSendByte1 {
          reaction := reaction.(sto := true);
        } else {
          fault := true;
        }
      } else if code == TW_MR_SLA_ACK {
        if status == ReadSendAddressDone {
          reaction := reaction.(ea := true);
          status := ReadRecvByte0;
        } else {
          fault := true;
        }
      } else if code == TW_MR_DATA_ACK {
        if status == ReadRecvByte0 {
          data1 := twdrIn;
          reaction := reaction.(ea := true);
          status := ReadRecvByte1;
        } else if status == ReadRecvByte1 {
          data0 := twdrIn;
          reaction := reaction.(sto := true, delivered := Some(data1 * 0x100 + data0));
          status := Ready;
        } else {
          fault := true;
        }
      } else {
        fault := true;
      }
      if fault {
        enabled := false;
        out := None;
      } else {
        enabled := true;
        out := Some(reaction);
      }
    }
  }
}
