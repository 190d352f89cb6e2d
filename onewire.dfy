/**
 * The 1-Wire bus primitives of onewire.c on one port pin. Timing is
 * abstracted to a trace of pin actions (drive high/low, switch direction,
 * sample, busy-wait), the line levels seen at successive sample points are an
 * input queue, and the status register SREG is modelled by its global
 * interrupt-enable bit I, which the preemptible wait turns on and off.
 */
module OneWire {
  import opened CTypes

  const ONEWIRE_ERROR_OK: byte := 0
  const ONEWIRE_ERROR_COMM: byte := 1

  /**
   * One pin action. `PullLow` is the opening of every slot (write 1 to the
   * output, make the pin an output, write 0): the line is driven low.
   * `DriveHigh` writes 1 to the output, `DriveHighOutput` writes 1 and makes
   * the pin an output, and `Release` makes the pin an input so that the
   * pull-up or a device sets the level. `Delay` is a plain busy-wait,
   * `PreemptWait` the one that enables interrupts while it waits.
   */
  datatype PinEvent =
    | PullLow
    | DriveHigh
    | DriveHighOutput
    | Release
    | Sample(level: bool)
    | Delay(us: nat)
    | PreemptWait(us: nat)

  /** The pin actions of one `onewireWriteBit`: a 1 is a short low pulse, a 0 a long one. */
  function WriteSlot(bit: bool): (t: seq<PinEvent>)
    ensures |t| == 4 && t[1] == (if bit then Delay(8) else PreemptWait(80))
  {
    if bit then [PullLow, Delay(8), DriveHigh, PreemptWait(80)]
    else [PullLow, PreemptWait(80), DriveHigh, Delay(2)]
  }

  /** The pin actions of one `onewireReadBit` that samples `level`. */
  function ReadSlot(level: bool): seq<PinEvent> {
    [PullLow, Delay(2), Release, Delay(5), Sample(level), PreemptWait(60)]
  }

  /** The pin actions of `onewireInit`: reset pulse, presence sample, recovery. */
  function ResetSlot(level: bool): seq<PinEvent> {
    [PullLow, PreemptWait(600), Release, PreemptWait(70), Sample(level), PreemptWait(200),
     DriveHighOutput, PreemptWait(600)]
  }

  /** The write slots of a bit sequence, first bit first. */
  function WriteSlots(bits: seq<bool>): (t: seq<PinEvent>)
    ensures |t| == 4 * |bits|
  {
    if bits == [] then [] else WriteSlot(bits[0]) + WriteSlots(bits[1..])
  }

  lemma {:induction false} WriteSlotsSnoc(bits: seq<bool>, b: bool)
    ensures WriteSlots(bits + [b]) == WriteSlots(bits) + WriteSlot(b)
  {
    if bits == [] {
      assert [b][1..] == [];
    } else {
      assert (bits + [b])[1..] == bits[1..] + [b];
      WriteSlotsSnoc(bits[1..], b);
    }
  }

  /** What a device on the bus reads from a train of write slots: a short low pulse is a 1. */
  function SlotBits(t: seq<PinEvent>): seq<bool>
    decreases |t|
  {
    if |t| < 4 then [] else [t[1] == Delay(8)] + SlotBits(t[4..])
  }

  /** The bits written are the bits a device reads back from the bus. */
  lemma {:induction false} SlotBitsOfWriteSlots(bits: seq<bool>)
    ensures SlotBits(WriteSlots(bits)) == bits
  {
    if bits != [] {
      var t := WriteSlots(bits);
      assert t[..4] == WriteSlot(bits[0]);
      assert t[4..] == WriteSlots(bits[1..]);
      SlotBitsOfWriteSlots(bits[1..]);
      assert bits == [bits[0]] + bits[1..];
    }
  }

  /**
   * `1 << k` in a byte, the value of the loop mask `i` in the `k`-th
   * iteration, i.e. `2^k`; at `k == 8` it has shifted out to 0.
   */
  function Mask(k: nat): (m: bv8)
    requires k <= 8
    ensures m != 0 <==> k < 8
  {
    if k == 0 then 0x01 else if k == 1 then 0x02 else if k == 2 then 0x04 else if k == 3 then 0x08
    else if k == 4 then 0x10 else if k == 5 then 0x20 else if k == 6 then 0x40 else if k == 7 then 0x80 else 0x00
  }

  /** Shifting the mask left by one moves it to the next bit. */
  lemma MaskShift(k: nat)
    requires k < 8
    ensures Mask(k) << 1 == Mask(k + 1)
  {
  }

  /** Bit `k` of a byte: `(data >> k) & 1`. */
  predicate Bit(data: bv8, k: nat)
    requires k < 8
  {
    data & Mask(k) != 0
  }

  /** The bits of a byte, least significant first. */
  function BitsOf(data: bv8): (bits: seq<bool>)
    ensures |bits| == 8
    ensures forall k :: 0 <= k < 8 ==> bits[k] == Bit(data, k)
  {
    seq(8, k requires 0 <= k < 8 => Bit(data, k))
  }

  /** The byte whose bit `j` is `bits[j]`, for the first `k` bits: `sum of b_j * 2^j`. */
  function Assemble(bits: seq<bool>, k: nat): bv8
    requires k <= |bits| && k <= 8
  {
    if k == 0 then 0
    else Assemble(bits, k - 1) | (if bits[k - 1] then Mask(k - 1) else 0)
  }

  /** The sum of `b_j * 2^j` over the first `k` bits (below 2^8, so no byte wrap-around occurs). */
  function Weight(bits: seq<bool>, k: nat): bv8
    requires k <= |bits| && k <= 8
  {
    if k == 0 then 0 else Weight(bits, k - 1) + (if bits[k - 1] then Mask(k - 1) else 0)
  }

  /** The low four bits assemble to the low nibble. */
  lemma AssembleLowNibble(data: bv8)
    ensures Assemble(BitsOf(data), 4) == data & 0x0f
  {
    var bits := BitsOf(data);
    assert Assemble(bits, 1) == data & 0x01;
    assert Assemble(bits, 2) == data & 0x03;
    assert Assemble(bits, 3) == data & 0x07;
  }

  /** Assembling the 8 bits of a byte gives the byte back, bit by bit. */
  lemma ByteRoundTrip(data: bv8)
    ensures Assemble(BitsOf(data), 8) == data
  {
    var bits := BitsOf(data);
    AssembleLowNibble(data);
    assert Assemble(bits, 5) == data & 0x1f;
    assert Assemble(bits, 6) == data & 0x3f;
    assert Assemble(bits, 7) == data & 0x7f;
  }

  /** The line level at the next sample point: the idle bus is pulled up. */
  function NextLevel(incoming: seq<bool>): bool {
    if incoming == [] then true else incoming[0]
  }

  function Rest(incoming: seq<bool>): seq<bool> {
    if incoming == [] then [] else incoming[1..]
  }

  /** The levels of the next `n` sample points. */
  function Levels(incoming: seq<bool>, n: nat): (levels: seq<bool>)
    ensures |levels| == n
  {
    if n == 0 then [] else [NextLevel(incoming)] + Levels(Rest(incoming), n - 1)
  }

  function Drop(incoming: seq<bool>, n: nat): seq<bool> {
    if n == 0 then incoming else Drop(Rest(incoming), n - 1)
  }

  lemma {:induction false} LevelsSnoc(incoming: seq<bool>, n: nat)
    ensures Levels(incoming, n + 1) == Levels(incoming, n) + [NextLevel(Drop(incoming, n))]
    ensures Drop(incoming, n + 1) == Rest(Drop(incoming, n))
  {
    if n > 0 {
      LevelsSnoc(Rest(incoming), n - 1);
    }
  }

  /** The read slots of a series of sampled levels. */
  function ReadSlots(levels: seq<bool>): seq<PinEvent> {
    if levels == [] then [] else ReadSlot(levels[0]) + ReadSlots(levels[1..])
  }

  lemma {:induction false} ReadSlotsSnoc(levels: seq<bool>, b: bool)
    ensures ReadSlots(levels + [b]) == ReadSlots(levels) + ReadSlot(b)
  {
    if levels == [] {
      assert [b][1..] == [];
    } else {
      assert (levels + [b])[1..] == levels[1..] + [b];
      ReadSlotsSnoc(levels[1..], b);
    }
  }

  /** The bus pin, its trace and the interrupt-enable bit of SREG. */
  class Bus {
    var trace: seq<PinEvent>
    var incoming: seq<bool>
    /** SREG's I bit: global interrupts enabled. */
    var interrupts: bool

    constructor (levels: seq<bool>, enabled: bool)
      ensures trace == [] && incoming == levels && interrupts == enabled
    {
      trace := [];
      incoming := levels;
      interrupts := enabled;
    }

    /** `preempt_wait_us`: interrupts are enabled (`sei`) for the wait and disabled (`cli`) after it. */
    method PreemptibleWait(us: nat)
      modifies this`trace, this`interrupts
      ensures trace == old(trace) + [PreemptWait(us)]
      ensures !interrupts
    {
      interrupts := true;
      trace := trace + [PreemptWait(us)];
      interrupts := false;
    }

    method Emit(e: PinEvent)
      modifies this`trace
      ensures trace == old(trace) + [e]
    {
      trace := trace + [e];
    }

    /** `onewireInit`: a low presence pulse answers the reset; a high line is a communication error. */
    method Init() returns (r: byte)
      modifies this
      ensures trace == old(trace) + ResetSlot(NextLevel(old(incoming)))
      ensures incoming == Rest(old(incoming))
      ensures r == ONEWIRE_ERROR_COMM <==> NextLevel(old(incoming))
      ensures r == ONEWIRE_ERROR_OK <==> !NextLevel(old(incoming))
      ensures interrupts == old(interrupts)
    {
      var saved := interrupts;
      ghost var t0 := trace;
      Emit(PullLow);
      PreemptibleWait(600);
      Emit(Release);
      PreemptibleWait(70);
      assert trace == t0 + [PullLow, PreemptWait(600), Release, PreemptWait(70)];
      ghost var t1 := trace;
      var response := NextLevel(incoming);
      incoming := Rest(incoming);
      Emit(Sample(response));
      PreemptibleWait(200);
      Emit(DriveHighOutput);
      PreemptibleWait(600);
      assert trace == t1 + [Sample(response), PreemptWait(200), DriveHighOutput, PreemptWait(600)];
      interrupts := saved;
      r := if response then ONEWIRE_ERROR_COMM else ONEWIRE_ERROR_OK;
    }

    /** `onewireWriteBit`: returns 1 for a nonzero bit, else 0. */
    method WriteBit(bit: bv8) returns (r: byte)
      modifies this`trace, this`interrupts
      ensures trace == old(trace) + WriteSlot(bit != 0)
      ensures r == (if bit != 0 then 1 else 0)
      ensures interrupts == old(interrupts)
    {
      var saved := interrupts;
      Emit(PullLow);
      if bit != 0 {
        Emit(Delay(8));
      } else {
        PreemptibleWait(80);
      }
      Emit(DriveHigh);
      if bit != 0 {
        PreemptibleWait(80);
      } else {
        Emit(Delay(2));
      }
      interrupts := saved;
      r := if bit != 0 then 1 else 0;
    }

    /**
     * `onewireWrite`: the mask `i` walks from bit 0 to bit 7 and the loop ends
     * when it shifts out to 0, so exactly the 8 bits of the byte are written,
     * least significant first.
     */
    method Write(data: bv8)
      modifies this`trace, this`interrupts
      ensures trace == old(trace) + WriteSlots(BitsOf(data))
      ensures interrupts == old(interrupts)
    {
      var saved := interrupts;
      var i: bv8 := 1;
      ghost var k: nat := 0;
      while i != 0
        invariant k <= 8
        invariant i == Mask(k)
        invariant trace == old(trace) + WriteSlots(BitsOf(data)[..k])
        decreases 8 - k
      {
        ghost var before := trace;
        var _ := WriteBit(data & i);
        WriteStep(data, k, old(trace), before, trace);
        i := i << 1;
        k := k + 1;
      }
      assert BitsOf(data)[..8] == BitsOf(data);
      interrupts := saved;
    }

    /** `onewireReadBit`: releases the line after a short low pulse and returns 1 if it is high, else 0. */
    method ReadBit() returns (bit: bv8)
      modifies this
      ensures bit == (if NextLevel(old(incoming)) then 1 else 0)
      ensures incoming == Rest(old(incoming))
      ensures trace == old(trace) + ReadSlot(NextLevel(old(incoming)))
      ensures interrupts == old(interrupts)
    {
      var saved := interrupts;
      Emit(PullLow);
      Emit(Delay(2));
      Emit(Release);
      Emit(Delay(5));
      var level := NextLevel(incoming);
      incoming := Rest(incoming);
      Emit(Sample(level));
      bit := if level then 1 else 0;
      PreemptibleWait(60);
      interrupts := saved;
    }

    /** `onewireRead`: eight read slots, the first one giving bit 0. */
    method Read() returns (data: bv8)
      modifies this
      ensures data == Assemble(Levels(old(incoming), 8), 8)
      ensures incoming == Drop(old(incoming), 8)
      ensures trace == old(trace) + ReadSlots(Levels(old(incoming), 8))
      ensures interrupts == old(interrupts)
    {
      var saved := interrupts;
      data := 0;
      var i: bv8 := 1;
      ghost var k: nat := 0;
      while i != 0
        invariant k <= 8
        invariant i == Mask(k)
        invariant incoming == Drop(old(incoming), k)
        invariant data == Assemble(Levels(old(incoming), k), k)
        invariant trace == old(trace) + ReadSlots(Levels(old(incoming), k))
        decreases 8 - k
      {
        ghost var before := trace;
        var bit := ReadBit();
        ReadStep(old(incoming), k, old(trace), before, trace);
        data := data | (bit * i);
        i := i << 1;
        k := k + 1;
      }
      interrupts := saved;
    }
  }

  /** One iteration of `onewireWrite`: the masked byte is bit `k`, and its slot extends the trace. */
  lemma WriteStep(data: bv8, k: nat, start: seq<PinEvent>, before: seq<PinEvent>, after: seq<PinEvent>)
    requires k < 8
    requires before == start + WriteSlots(BitsOf(data)[..k])
    requires after == before + WriteSlot(data & Mask(k) != 0)
    ensures after == start + WriteSlots(BitsOf(data)[..k + 1])
    ensures Mask(k) << 1 == Mask(k + 1)
  {
    MaskShift(k);
    WriteTraceSnoc(BitsOf(data), k, start, before, after);
  }

  /** Appending the slot of bit `k` to the slots of the bits before it. */
  lemma WriteTraceSnoc(bits: seq<bool>, k: nat, start: seq<PinEvent>, before: seq<PinEvent>, after: seq<PinEvent>)
    requires k < |bits|
    requires before == start + WriteSlots(bits[..k])
    requires after == before + WriteSlot(bits[k])
    ensures after == start + WriteSlots(bits[..k + 1])
  {
    WriteSlotsSnoc(bits[..k], bits[k]);
    assert bits[..k + 1] == bits[..k] + [bits[k]];
  }

  /** One iteration of `onewireRead`: the sampled level is the next one, and it lands in bit `k`. */
  lemma ReadStep(incoming: seq<bool>, k: nat, start: seq<PinEvent>, before: seq<PinEvent>, after: seq<PinEvent>)
    requires k < 8
    requires before == start + ReadSlots(Levels(incoming, k))
    requires after == before + ReadSlot(NextLevel(Drop(incoming, k)))
    ensures after == start + ReadSlots(Levels(incoming, k + 1))
    ensures Drop(incoming, k + 1) == Rest(Drop(incoming, k))
    ensures var b := NextLevel(Drop(incoming, k));
            Assemble(Levels(incoming, k + 1), k + 1) == Assemble(Levels(incoming, k), k) | ((if b then 1 else 0) * Mask(k))
    ensures Mask(k) << 1 == Mask(k + 1)
  {
    var b := NextLevel(Drop(incoming, k));
    LevelsSnoc(incoming, k);
    ReadSlotsSnoc(Levels(incoming, k), b);
    AssembleSnoc(Levels(incoming, k), b, k);
    MaskShift(k);
  }

  lemma AssembleSnoc(bits: seq<bool>, b: bool, k: nat)
    requires k == |bits| && k < 8
    ensures Assemble(bits + [b], k + 1) == Assemble(bits, k) | (if b then Mask(k) else 0)
    ensures Assemble(bits + [b], k) == Assemble(bits, k)
  {
    AssemblePrefix(bits + [b], bits, k);
  }

  lemma {:induction false} AssemblePrefix(longer: seq<bool>, bits: seq<bool>, k: nat)
    requires k <= |bits| <= |longer| && k <= 8 && bits == longer[..|bits|]
    ensures Assemble(longer, k) == Assemble(bits, k)
  {
    if k > 0 {
      AssemblePrefix(longer, bits, k - 1);
    }
  }

  /**
   * Round trip: when a device answers the eight read slots with the bits of
   * `d` (least significant first), `onewireRead` returns `d`; and those bits
   * are what a device reads from the write slots of `onewireWrite(d)`.
   */
  lemma ReadBackWritten(d: bv8, incoming: seq<bool>)
    requires |incoming| >= 8 && incoming[..8] == SlotBits(WriteSlots(BitsOf(d)))
    ensures Assemble(Levels(incoming, 8), 8) == d
  {
    SlotBitsOfWriteSlots(BitsOf(d));
    LevelsOfPrefix(incoming, 8);
    ByteRoundTrip(d);
  }

  lemma {:induction false} LevelsOfPrefix(incoming: seq<bool>, n: nat)
    requires n <= |incoming|
    ensures Levels(incoming, n) == incoming[..n]
  {
    if n > 0 {
      LevelsOfPrefix(incoming[1..], n - 1);
      assert Rest(incoming) == incoming[1..];
      assert incoming[..n] == [incoming[0]] + incoming[1..][..n - 1];
    }
  }

  /** The assembled byte is the weighted sum of its bits: `sum of b_k * 2^k`. */
  lemma AssembleIsWeight(bits: seq<bool>)
    requires |bits| >= 8
    ensures Assemble(bits, 8) == Weight(bits, 8)
  {
    assert Assemble(bits, 1) == Weight(bits, 1) && Weight(bits, 1) & 0xfe == 0;
    assert Assemble(bits, 2) == Weight(bits, 2) && Weight(bits, 2) & 0xfc == 0;
    assert Assemble(bits, 3) == Weight(bits, 3) && Weight(bits, 3) & 0xf8 == 0;
    assert Assemble(bits, 4) == Weight(bits, 4) && Weight(bits, 4) & 0xf0 == 0;
    assert Assemble(bits, 5) == Weight(bits, 5) && Weight(bits, 5) & 0xe0 == 0;
    assert Assemble(bits, 6) == Weight(bits, 6) && Weight(bits, 6) & 0xc0 == 0;
    assert Assemble(bits, 7) == Weight(bits, 7) && Weight(bits, 7) & 0x80 == 0;
  }

}
