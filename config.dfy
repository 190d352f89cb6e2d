/**
 * The configuration store: the packed 21-byte `struct config` (comm.h), its
 * EEPROM copy, `read_config` with its signature check, the incremental write
 * cursor armed by `handle_cfg_write_request` and advanced by
 * `usbFunctionWrite`, and the commit-and-reload step of the main loop.
 */
module Config {
  import opened CTypes
  import Scheduler

  /** `sizeof(struct config)`: two `uint64_t` and five `uint8_t`, no padding on AVR. */
  const CONFIG_SIZE: nat := 21
  const CONFIG_SIGNATURE: byte := 0xCC
  /** Byte offsets of the one-byte fields. */
  const OFFSET_RELAY_LO: nat := 16
  const OFFSET_RELAY_HI: nat := 17
  const OFFSET_DIFF_CLOSE: nat := 18
  const OFFSET_DIFF_OPEN: nat := 19
  const OFFSET_SIGNATURE: nat := 20
  /** Built-in relay thresholds, in decivolts, used when the signature is missing. */
  const DEFAULT_RELAY_LO: byte := 126
  const DEFAULT_RELAY_HI: byte := 154
  /** `USB_NO_MSG` for an 8-bit `usbMsgLen_t`: a data stage follows. */
  const USB_NO_MSG: byte := 0xFF

  datatype Config = Config(
    doorTempIdA: uint64,
    doorTempIdB: uint64,
    relayLo: byte,
    relayHi: byte,
    diffClose: byte,
    diffOpen: byte,
    signature: byte)

  function Pow256(n: nat): (p: nat)
    ensures p >= 1
  {
    if n == 0 then 1 else 0x100 * Pow256(n - 1)
  }

  /** The `n` bytes of `x` in memory on a little-endian target. */
  function LeBytes(x: nat, n: nat): (r: seq<byte>)
    requires x < Pow256(n)
    ensures |r| == n
  {
    if n == 0 then [] else [x % 0x100] + LeBytes(x / 0x100, n - 1)
  }

  /** The unsigned integer stored little-endian in `bs`. */
  function LeValue(bs: seq<byte>): (v: nat)
    ensures v < Pow256(|bs|)
  {
    if bs == [] then 0
    else
      var rest := LeValue(bs[1..]);
      assert bs[0] + 0x100 * rest <= 0xff + 0x100 * (Pow256(|bs| - 1) - 1);
      bs[0] + 0x100 * rest
  }

  /** A `uint64_t` read from its 8 little-endian bytes. */
  function LeWord(bs: seq<byte>): (v: uint64)
    requires |bs| == 8
  {
    assert Pow256(8) == 0x1_0000_0000_0000_0000;
    LeValue(bs)
  }

  lemma {:induction false} LeValueOfBytes(x: nat, n: nat)
    requires x < Pow256(n)
    ensures LeValue(LeBytes(x, n)) == x
  {
    if n > 0 {
      assert x / 0x100 < Pow256(n - 1);
      LeValueOfBytes(x / 0x100, n - 1);
      assert LeBytes(x, n)[1..] == LeBytes(x / 0x100, n - 1);
    }
  }

  lemma {:induction false} LeBytesOfValue(bs: seq<byte>)
    ensures LeBytes(LeValue(bs), |bs|) == bs
  {
    if bs != [] {
      var rest := LeValue(bs[1..]);
      assert LeValue(bs) == bs[0] + 0x100 * rest;
      assert LeValue(bs) % 0x100 == bs[0];
      assert LeValue(bs) / 0x100 == rest;
      LeBytesOfValue(bs[1..]);
      assert bs == [bs[0]] + bs[1..];
    }
  }

  /**
   * The record's bytes as they sit in RAM and in EEPROM: the two ids
   * little-endian at offsets 0 and 8, then the five one-byte fields in
   * declaration order.
   */
  function Encode(c: Config): (b: seq<byte>)
    ensures |b| == CONFIG_SIZE
    ensures LeValue(b[..8]) == c.doorTempIdA && LeValue(b[8..16]) == c.doorTempIdB
    ensures b[OFFSET_RELAY_LO] == c.relayLo && b[OFFSET_RELAY_HI] == c.relayHi
    ensures b[OFFSET_DIFF_CLOSE] == c.diffClose && b[OFFSET_DIFF_OPEN] == c.diffOpen && b[OFFSET_SIGNATURE] == c.signature
  {
    var b := LeBytes(c.doorTempIdA, 8) + LeBytes(c.doorTempIdB, 8) + [c.relayLo, c.relayHi, c.diffClose, c.diffOpen, c.signature];
    assert b[..8] == LeBytes(c.doorTempIdA, 8);
    assert b[8..16] == LeBytes(c.doorTempIdB, 8);
    LeValueOfBytes(c.doorTempIdA, 8);
    LeValueOfBytes(c.doorTempIdB, 8);
    b
  }

  /** The record a 21-byte image holds. */
  function Decode(b: seq<byte>): (c: Config)
    requires |b| == CONFIG_SIZE
    ensures c.doorTempIdA == LeValue(b[..8]) && c.doorTempIdB == LeValue(b[8..16])
    ensures c.relayLo == b[OFFSET_RELAY_LO] && c.relayHi == b[OFFSET_RELAY_HI]
    ensures c.diffClose == b[OFFSET_DIFF_CLOSE] && c.diffOpen == b[OFFSET_DIFF_OPEN] && c.signature == b[OFFSET_SIGNATURE]
  {
    Config(LeWord(b[..8]), LeWord(b[8..16]), b[16], b[17], b[18], b[19], b[20])
  }

  lemma DecodeEncode(c: Config)
    ensures Decode(Encode(c)) == c
  {
    var b := Encode(c);
    assert b[..8] == LeBytes(c.doorTempIdA, 8);
    assert b[8..16] == LeBytes(c.doorTempIdB, 8);
    LeValueOfBytes(c.doorTempIdA, 8);
    LeValueOfBytes(c.doorTempIdB, 8);
  }

  lemma EncodeDecode(b: seq<byte>)
    requires |b| == CONFIG_SIZE
    ensures Encode(Decode(b)) == b
  {
    LeBytesOfValue(b[..8]);
    LeBytesOfValue(b[8..16]);
    assert b == b[..8] + b[8..16] + b[16..];
  }

  /**
   * `read_config` applied to the stored image: the image is copied, and when
   * its signature is not CONFIG_SIGNATURE the two relay thresholds, and only
   * they, are replaced by the built-in defaults.
   */
  function Loaded(stored: seq<byte>): (ram: seq<byte>)
    requires |stored| == CONFIG_SIZE
    ensures |ram| == CONFIG_SIZE
    ensures Decode(ram) == if Decode(stored).signature != CONFIG_SIGNATURE
                           then Decode(stored).(relayLo := DEFAULT_RELAY_LO, relayHi := DEFAULT_RELAY_HI)
                           else Decode(stored)
    ensures forall i :: 0 <= i < CONFIG_SIZE && i != OFFSET_RELAY_LO && i != OFFSET_RELAY_HI ==> ram[i] == stored[i]
  {
    var ram := if stored[OFFSET_SIGNATURE] != CONFIG_SIGNATURE
               then stored[OFFSET_RELAY_LO := DEFAULT_RELAY_LO][OFFSET_RELAY_HI := DEFAULT_RELAY_HI]
               else stored;
    assert ram[..8] == stored[..8] && ram[8..16] == stored[8..16];
    ram
  }

  /** What one `usbFunctionWrite` call does to the record and the cursor, and what it returns. */
  datatype WriteOutcome = WriteOutcome(ram: seq<byte>, cursor: Option<nat>, completed: bool, ret: byte)

  predicate CursorOk(cursor: Option<nat>) {
    cursor.Some? ==> cursor.value < CONFIG_SIZE
  }

  /**
   * `usbFunctionWrite(data, len)`. A chunk is rejected with 0xFF (the `-1` of
   * a `uint8_t` result), nothing changed, when no write is armed or the chunk
   * would run past the record. Otherwise it is copied at the cursor and the
   * cursor advances; reaching the end of the record disarms the cursor,
   * flags the record for commit and returns 1, otherwise 0 is returned.
   */
  function WriteChunk(ram: seq<byte>, cursor: Option<nat>, chunk: seq<byte>): (r: WriteOutcome)
    requires |ram| == CONFIG_SIZE && CursorOk(cursor) && |chunk| < 0x100
    ensures |r.ram| == CONFIG_SIZE && CursorOk(r.cursor)
    ensures r.ret == 0xFF <==> cursor.None? || cursor.value + |chunk| > CONFIG_SIZE
    ensures r.ret == 0xFF ==> r == WriteOutcome(ram, cursor, false, 0xFF)
    ensures r.ret != 0xFF ==>
              && r.ram[cursor.value .. cursor.value + |chunk|] == chunk
              && r.ram[..cursor.value] == ram[..cursor.value]
              && r.ram[cursor.value + |chunk| ..] == ram[cursor.value + |chunk| ..]
    ensures r.ret == 1 <==> r.completed
    ensures r.completed <==> r.ret != 0xFF && cursor.value + |chunk| == CONFIG_SIZE
    ensures r.ret == 0 <==> r.ret != 0xFF && r.cursor == Some(cursor.value + |chunk|)
    ensures r.completed ==> r.cursor.None?
  {
    if cursor.None? || cursor.value + |chunk| > CONFIG_SIZE then
      WriteOutcome(ram, cursor, false, 0xFF)
    else
      var at := cursor.value;
      var ram' := ram[..at] + chunk + ram[at + |chunk|..];
      assert ram'[at .. at + |chunk|] == chunk;
      assert ram'[..at] == ram[..at];
      assert ram'[at + |chunk| ..] == ram[at + |chunk| ..];
      if at + |chunk| >= CONFIG_SIZE then WriteOutcome(ram', None, true, 1)
      else WriteOutcome(ram', Some(at + |chunk|), false, 0)
  }

  function Concat(chunks: seq<seq<byte>>): seq<byte> {
    if chunks == [] then [] else chunks[0] + Concat(chunks[1..])
  }

  predicate ChunksOk(chunks: seq<seq<byte>>) {
    forall i :: 0 <= i < |chunks| ==> 0 < |chunks[i]| < 0x100
  }

  /** The record, cursor and return values after a series of `usbFunctionWrite` calls. */
  function WriteAll(ram: seq<byte>, cursor: Option<nat>, chunks: seq<seq<byte>>): (r: (WriteOutcome, seq<byte>))
    requires |ram| == CONFIG_SIZE && CursorOk(cursor) && ChunksOk(chunks)
    ensures |r.0.ram| == CONFIG_SIZE && CursorOk(r.0.cursor) && |r.1| == |chunks|
    decreases |chunks|
  {
    if chunks == [] then (WriteOutcome(ram, cursor, false, 0), [])
    else
      var first := WriteChunk(ram, cursor, chunks[0]);
      var rest := WriteAll(first.ram, first.cursor, chunks[1..]);
      (rest.0.(completed := first.completed || rest.0.completed), [first.ret] + rest.1)
  }

  /**
   * Non-empty chunks that exactly fill the rest of the record from an armed
   * cursor land in order after the bytes already written: the cursor ends
   * disarmed, the record is flagged for commit, every call but the last
   * returns 0 and the last returns 1.
   */
  lemma {:induction false} ChunksFill(ram: seq<byte>, at: nat, chunks: seq<seq<byte>>)
    requires |ram| == CONFIG_SIZE && at < CONFIG_SIZE && ChunksOk(chunks)
    requires at + |Concat(chunks)| == CONFIG_SIZE
    ensures var r := WriteAll(ram, Some(at), chunks);
            && r.0.ram == ram[..at] + Concat(chunks)
            && r.0.cursor.None? && r.0.completed
            && r.1 == seq(|chunks| - 1, _ => 0) + [1]
    decreases |chunks|
  {
    if chunks != [] {
      var c := chunks[0];
      var first := WriteChunk(ram, Some(at), c);
      assert Concat(chunks) == c + Concat(chunks[1..]);
      if |chunks| == 1 {
        assert Concat(chunks[1..]) == [];
        assert first.completed && first.ret == 1;
        assert first.ram == first.ram[..at] + first.ram[at..];
      } else {
        assert |Concat(chunks[1..])| > 0 by {
          assert Concat(chunks[1..]) == chunks[1] + Concat(chunks[2..]);
        }
        assert first.ret == 0 && first.cursor == Some(at + |c|);
        ChunksFill(first.ram, at + |c|, chunks[1..]);
        assert first.ram[..at + |c|] == ram[..at] + c by {
          assert first.ram[..at + |c|] == first.ram[..at] + first.ram[at .. at + |c|];
        }
      }
    }
  }

  /**
   * Config round trip: a full record written through the cursor in non-empty
   * chunks, committed and reloaded, reads back as exactly that record when it
   * carries the signature (its relay thresholds are not defaulted); without the
   * signature only the relay thresholds are replaced.
   */
  lemma WrittenRecordReadsBack(ram: seq<byte>, chunks: seq<seq<byte>>)
    requires |ram| == CONFIG_SIZE && ChunksOk(chunks) && |Concat(chunks)| == CONFIG_SIZE
    ensures var written := WriteAll(ram, Some(0), chunks).0.ram;
            && written == Concat(chunks)
            && (written[OFFSET_SIGNATURE] == CONFIG_SIGNATURE ==> Loaded(written) == written)
            && (written[OFFSET_SIGNATURE] != CONFIG_SIGNATURE ==>
                  Decode(Loaded(written)) == Decode(written).(relayLo := DEFAULT_RELAY_LO, relayHi := DEFAULT_RELAY_HI))
  {
    ChunksFill(ram, 0, chunks);
  }

  class ConfigStore {
    /** `config`, the record in RAM. */
    var ram: seq<byte>
    /** `config_eeprom`, the persisted copy. */
    var eeprom: seq<byte>
    /** `config_write_tgt` as an offset into `config`; None is the null pointer. */
    var cursor: Option<nat>
    /** `config_updated`. */
    var updated: bool

    ghost predicate Valid()
      reads this
    {
      |ram| == CONFIG_SIZE && |eeprom| == CONFIG_SIZE && CursorOk(cursor)
    }

    function Current(): Config
      reads this
      requires Valid()
    {
      Decode(ram)
    }

    /** The statics at reset, over whatever the EEPROM holds. */
    constructor (stored: seq<byte>)
      requires |stored| == CONFIG_SIZE
      ensures Valid() && eeprom == stored && ram == seq(CONFIG_SIZE, _ => 0) && cursor.None? && !updated
    {
      ram := seq(CONFIG_SIZE, _ => 0);
      eeprom := stored;
      cursor := None;
      updated := false;
    }

    /** `read_config`. */
    method ReadConfig()
      requires Valid()
      modifies this`ram
      ensures Valid() && ram == Loaded(eeprom)
    {
      ram := eeprom;
      if ram[OFFSET_SIGNATURE] != CONFIG_SIGNATURE {
        ram := ram[OFFSET_RELAY_LO := DEFAULT_RELAY_LO];
        ram := ram[OFFSET_RELAY_HI := DEFAULT_RELAY_HI];
      }
    }

    /** `handle_cfg_write_request`: arm the cursor when the announced length is the record's. */
    method HandleWriteRequest(wLength: uint16) returns (len: byte)
      requires Valid()
      modifies this`cursor
      ensures Valid()
      ensures wLength == CONFIG_SIZE ==> cursor == Some(0) && len == USB_NO_MSG
      ensures wLength != CONFIG_SIZE ==> cursor == old(cursor) && len == 0
    {
      if wLength != CONFIG_SIZE {
        return 0;
      }
      cursor := Some(0);
      len := USB_NO_MSG;
    }

    /** `usbFunctionWrite`. */
    method FunctionWrite(chunk: seq<byte>) returns (ret: byte)
      requires Valid() && |chunk| < 0x100
      modifies this`ram, this`cursor, this`updated
      ensures Valid()
      ensures var r := WriteChunk(old(ram), old(cursor), chunk);
              ram == r.ram && cursor == r.cursor && ret == r.ret && updated == (old(updated) || r.completed)
    {
      if cursor.None? || cursor.value + |chunk| > CONFIG_SIZE {
        return 0xFF;
      }
      var at := cursor.value;
      ram := ram[..at] + chunk + ram[at + |chunk|..];
      if at + |chunk| >= CONFIG_SIZE {
        cursor := None;
        updated := true;
        ret := 1;
      } else {
        cursor := Some(at + |chunk|);
        ret := 0;
      }
    }

    /**
     * The main loop's commit: when a complete record has arrived, announce it
     * with four 350 ms blinks, write it to EEPROM as received (no signature is
     * added), clear the flag and reload it through `read_config`.
     */
    method Commit(leds: Scheduler.Leds)
      requires Valid()
      modifies this`ram, this`eeprom, this`updated, leds`period, leds`alert
      ensures Valid() && cursor == old(cursor)
      ensures old(updated) ==>
                && eeprom == old(ram) && ram == Loaded(old(ram)) && !updated
                && leds.State() == Scheduler.LedState(Scheduler.TIME_350ms as bv16, 4, old(leds.on))
      ensures !old(updated) ==>
                ram == old(ram) && eeprom == old(eeprom) && !updated && leds.State() == old(leds.State())
    {
      if updated {
        leds.SetAlert(Scheduler.TIME_350ms as bv16, 4);
        eeprom := ram;
        updated := false;
        ReadConfig();
      }
    }
  }
}
