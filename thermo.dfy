/**
 * The temperature acquisition pipeline: `scan_temp` (bus search with its
 * acceptance rule), `start_temp_read` (start a conversion on every known
 * probe), `finish_temp_read` (update the 14-slot temperature table in place
 * and evaluate the door differential), and the phase cycle that
 * `handle_thermo` and the main loop advance between them. The DS18B20
 * library calls are not part of this model: their outcomes are parameters.
 */
module Thermo {
  import opened CTypes
  import opened Scheduler
  import opened Door
  import Debug
  import Config

  /** `MAX_TEMP_COUNT`, the table size, and the 8-byte ROM codes stored back to back. */
  const MAX_TEMP_COUNT: nat := 14
  const ROM_CODE_SIZE: nat := 8
  const ROM_BUFFER_SIZE: nat := 112
  const SEARCH_TRYS: nat := 3
  /** The initial value of `temp_a` / `temp_b`, meaning "no reading this pass". */
  const NO_TEMP: int8 := -128

  /** `struct temp_data` without its padding. */
  datatype TempData = TempData(id: uint64, temperature: uint16, age: byte, valid: byte)

  /**
   * What one `ds18b20search` call leaves behind: whether it returned
   * `DS18B20_ERROR_OK`, the probe count and the 112-byte ROM buffer.
   */
  datatype SearchResult = SearchResult(ok: bool, count: byte, rom: seq<byte>)

  /** The library fills the 112-byte buffer it is given, so a successful search finds at most 14 probes. */
  predicate WellFormed(r: SearchResult) {
    |r.rom| == ROM_BUFFER_SIZE && (r.ok ==> r.count <= MAX_TEMP_COUNT)
  }

  /**
   * `scan_temp` accepts attempt `retry` when the search succeeded and found
   * at least as many probes as are already known, or when it is the last attempt.
   */
  predicate Accepts(r: SearchResult, known: byte, retry: nat) {
    r.ok && (r.count >= known || retry == SEARCH_TRYS - 1)
  }

  /** The first accepted attempt at or after `from`, if any. */
  function FirstAccepted(results: seq<SearchResult>, known: byte, from: nat): (r: Option<nat>)
    requires |results| == SEARCH_TRYS && from <= SEARCH_TRYS
    ensures r.Some? ==> from <= r.value < SEARCH_TRYS && Accepts(results[r.value], known, r.value)
    ensures r.Some? ==> forall j :: from <= j < r.value ==> !Accepts(results[j], known, j)
    ensures r.None? ==> forall j :: from <= j < SEARCH_TRYS ==> !Accepts(results[j], known, j)
    decreases SEARCH_TRYS - from
  {
    if from == SEARCH_TRYS then None
    else if Accepts(results[from], known, from) then Some(from)
    else FirstAccepted(results, known, from + 1)
  }

  /** How many of the first `n` attempts succeeded. */
  function CountOk(results: seq<SearchResult>, n: nat): (c: nat)
    requires n <= |results|
    ensures c <= n
  {
    if n == 0 then 0 else CountOk(results, n - 1) + (if results[n - 1].ok then 1 else 0)
  }

  /** The number of attempts that were not accepted. */
  function Rejected(results: seq<SearchResult>, known: byte): (n: nat)
    requires |results| == SEARCH_TRYS
    ensures n <= SEARCH_TRYS
  {
    match FirstAccepted(results, known, 0)
    case Some(k) => k
    case None => SEARCH_TRYS
  }

  /**
   * A successful last attempt is always accepted: a scan keeps the old probe
   * list only when the last search failed and every earlier successful one
   * found fewer probes than are known.
   */
  lemma ScanGivesUpOnlyIfLastFails(results: seq<SearchResult>, known: byte)
    requires |results| == SEARCH_TRYS
    ensures FirstAccepted(results, known, 0).None? <==>
              && !results[SEARCH_TRYS - 1].ok
              && forall j :: 0 <= j < SEARCH_TRYS - 1 ==> results[j].ok ==> results[j].count < known
  {
    if !results[SEARCH_TRYS - 1].ok && forall j :: 0 <= j < SEARCH_TRYS - 1 ==> results[j].ok ==> results[j].count < known {
      assert !Accepts(results[0], known, 0) && !Accepts(results[1], known, 1) && !Accepts(results[2], known, 2);
    }
  }

  /** The 64-bit probe id stored little-endian in ROM slot `i` (`*(uint64_t *)(temp_rom + i * 8)`). */
  function RomId(rom: seq<byte>, i: nat): uint64
    requires |rom| == ROM_BUFFER_SIZE && i < MAX_TEMP_COUNT
  {
    Config.LeWord(rom[8 * i .. 8 * i + 8])
  }

  /** The ROM codes of the first `n` slots, in slot order. */
  function RomCodes(rom: seq<byte>, n: nat): (codes: seq<seq<byte>>)
    requires |rom| == ROM_BUFFER_SIZE && n <= MAX_TEMP_COUNT
    ensures |codes| == n
    ensures forall k :: 0 <= k < n ==> codes[k] == rom[8 * k .. 8 * k + 8]
  {
    seq(n, k requires 0 <= k < n => rom[8 * k .. 8 * k + 8])
  }

  /** What `ds18b20read` reports for one probe: a nonzero status, or the raw reading. */
  datatype ReadResult = ReadFailed | ReadOk(raw: uint16)

  /**
   * One slot of `temp_response` after `finish_temp_read`. A slot beyond the
   * probe count is only marked invalid. A slot below it gets the probe's id
   * and is marked valid; a failed read ages the previous reading (saturating
   * at 255) and keeps its temperature, a good read stores it with age 0.
   */
  function SlotAfter(d: TempData, i: nat, count: byte, rom: seq<byte>, read: ReadResult): (r: TempData)
    requires |rom| == ROM_BUFFER_SIZE && i < MAX_TEMP_COUNT
    ensures i >= count ==> r == d.(valid := 0)
    ensures i < count ==> r.valid == 1 && r.id == RomId(rom, i)
    ensures i < count && read.ReadFailed? ==>
              r.temperature == d.temperature && r.age >= d.age && (r.age == d.age <==> d.age == 255)
    ensures i < count && read.ReadOk? ==> r.temperature == read.raw && r.age == 0
  {
    if i >= count then d.(valid := 0)
    else
      var tagged := d.(id := RomId(rom, i), valid := 1);
      match read
      case ReadFailed => if tagged.age != 255 then tagged.(age := tagged.age + 1) else tagged
      case ReadOk(t) => tagged.(age := 0, temperature := t)
  }

  /** The slot after `n` consecutive failed reads. */
  function AgeAfterFailures(d: TempData, i: nat, count: byte, rom: seq<byte>, n: nat): TempData
    requires |rom| == ROM_BUFFER_SIZE && i < MAX_TEMP_COUNT
    decreases n
  {
    if n == 0 then d else AgeAfterFailures(SlotAfter(d, i, count, rom, ReadFailed), i, count, rom, n - 1)
  }

  /**
   * An unreadable probe stays visible: after `n` failed passes its slot is
   * valid, keeps its last temperature and has age `min(age + n, 255)`.
   */
  lemma {:induction false} AgeSaturates(d: TempData, i: nat, count: byte, rom: seq<byte>, n: nat)
    requires |rom| == ROM_BUFFER_SIZE && i < count && i < MAX_TEMP_COUNT && n > 0
    ensures var r := AgeAfterFailures(d, i, count, rom, n);
            && r.valid == 1 && r.temperature == d.temperature
            && r.age == (if d.age + n >= 255 then 255 else d.age + n)
    decreases n
  {
    var d1 := SlotAfter(d, i, count, rom, ReadFailed);
    if n > 1 {
      AgeSaturates(d1, i, count, rom, n - 1);
    }
  }

  /**
   * The door-differential value of a raw reading: `(int16_t)t / 16`, a
   * quotient truncated toward zero, narrowed to `int8_t`.
   */
  function ProbeTemp(raw: uint16): (c: int8)
    ensures -0x800 <= TruncDiv(ToInt16(raw), 16) < 0x800
    ensures -0x80 <= TruncDiv(ToInt16(raw), 16) < 0x80 ==> c == TruncDiv(ToInt16(raw), 16)
  {
    ToInt8(TruncDiv(ToInt16(raw), 16))
  }

  /**
   * Over the DS18B20's measuring range (-55 to +125 degrees, raw values in
   * sixteenths of a degree) the value is the whole degrees of the reading,
   * truncated toward zero, and never the "no reading" marker.
   */
  lemma ProbeTempInRange(raw: uint16)
    requires -55 * 16 <= ToInt16(raw) <= 125 * 16
    ensures ProbeTemp(raw) == TruncDiv(ToInt16(raw), 16) && ProbeTemp(raw) != NO_TEMP
    ensures -55 <= ProbeTemp(raw) <= 125
  {
  }

  /** A reading of exactly -128 degrees (raw 0xF800) is indistinguishable from a missing probe. */
  lemma MinusOneTwentyEightLooksMissing()
    ensures ProbeTemp(0xF800) == NO_TEMP
  {
    assert ToInt16(0xF800) == -0x800;
  }

  /**
   * `temp_a` and `temp_b` after slot `i`: a good read of the slot whose id is
   * `door_temp_id_A` sets A, otherwise one whose id is `door_temp_id_B` sets B.
   */
  function TempsStep(t: (int8, int8), rom: seq<byte>, count: byte, i: nat, outcome: ReadResult, idA: uint64, idB: uint64): (int8, int8)
    requires |rom| == ROM_BUFFER_SIZE && i < MAX_TEMP_COUNT
  {
    if i < count && outcome.ReadOk? then
      if RomId(rom, i) == idA then (ProbeTemp(outcome.raw), t.1)
      else if RomId(rom, i) == idB then (t.0, ProbeTemp(outcome.raw))
      else t
    else t
  }

  /** Slot `j` is a known probe with id `id` that was read successfully in this pass. */
  predicate GoodRead(rom: seq<byte>, count: byte, outcomes: seq<ReadResult>, id: uint64, j: nat)
    requires |rom| == ROM_BUFFER_SIZE && |outcomes| == MAX_TEMP_COUNT && j < MAX_TEMP_COUNT
  {
    j < count && outcomes[j].ReadOk? && RomId(rom, j) == id
  }

  /** Slot `j` sets `temp_b`: a good read of probe B that is not also probe A. */
  predicate GoodReadB(rom: seq<byte>, count: byte, outcomes: seq<ReadResult>, idA: uint64, idB: uint64, j: nat)
    requires |rom| == ROM_BUFFER_SIZE && |outcomes| == MAX_TEMP_COUNT && j < MAX_TEMP_COUNT
  {
    GoodRead(rom, count, outcomes, idB, j) && RomId(rom, j) != idA
  }

  /**
   * `temp_a` and `temp_b` after the first `n` slots; a later slot overrides an
   * earlier one. A value other than "no reading" comes from a good read of a
   * known probe with the configured id (DoorTempALastRead and DoorTempBLastRead state the values).
   */
  function DoorTemps(rom: seq<byte>, count: byte, outcomes: seq<ReadResult>, idA: uint64, idB: uint64, n: nat): (t: (int8, int8))
    requires |rom| == ROM_BUFFER_SIZE && |outcomes| == MAX_TEMP_COUNT && n <= MAX_TEMP_COUNT
    ensures t.0 != NO_TEMP ==> exists j :: 0 <= j < n && j < count && outcomes[j].ReadOk? && RomId(rom, j) == idA
    ensures t.1 != NO_TEMP ==> exists j :: 0 <= j < n && j < count && outcomes[j].ReadOk? && RomId(rom, j) == idB && RomId(rom, j) != idA
    decreases n
  {
    if n == 0 then (NO_TEMP, NO_TEMP)
    else TempsStep(DoorTemps(rom, count, outcomes, idA, idB, n - 1), rom, count, n - 1, outcomes[n - 1], idA, idB)
  }

  /** What slot `n - 1` does to the door values. */
  lemma DoorTempsStep(rom: seq<byte>, count: byte, outcomes: seq<ReadResult>, idA: uint64, idB: uint64, n: nat)
    requires |rom| == ROM_BUFFER_SIZE && |outcomes| == MAX_TEMP_COUNT && 0 < n <= MAX_TEMP_COUNT
    ensures DoorTemps(rom, count, outcomes, idA, idB, n).0 ==
              if GoodRead(rom, count, outcomes, idA, n - 1) then ProbeTemp(outcomes[n - 1].raw)
              else DoorTemps(rom, count, outcomes, idA, idB, n - 1).0
    ensures DoorTemps(rom, count, outcomes, idA, idB, n).1 ==
              if GoodReadB(rom, count, outcomes, idA, idB, n - 1) then ProbeTemp(outcomes[n - 1].raw)
              else DoorTemps(rom, count, outcomes, idA, idB, n - 1).1
  {
  }

  /** The value of the last flagged entry among the first `n`, or "no reading" when none is flagged. */
  function Latest(flags: seq<bool>, vals: seq<int8>, n: nat): int8
    requires |flags| == |vals| && n <= |flags|
  {
    if n == 0 then NO_TEMP else if flags[n - 1] then vals[n - 1] else Latest(flags, vals, n - 1)
  }

  /** `Latest` is "no reading" when nothing is flagged, and otherwise the value of the last flagged entry. */
  lemma {:induction false} LatestIsLast(flags: seq<bool>, vals: seq<int8>, n: nat)
    requires |flags| == |vals| && n <= |flags|
    ensures (forall j :: 0 <= j < n ==> !flags[j]) ==> Latest(flags, vals, n) == NO_TEMP
    ensures forall j :: 0 <= j < n && flags[j] && (forall k :: j < k < n ==> !flags[k]) ==> Latest(flags, vals, n) == vals[j]
  {
    if n > 0 {
      LatestIsLast(flags, vals, n - 1);
      forall j | 0 <= j < n && flags[j] && (forall k :: j < k < n ==> !flags[k])
        ensures Latest(flags, vals, n) == vals[j]
      {
        if j < n - 1 {
          assert !flags[n - 1];
        }
      }
    }
  }

  /** Which slots set `temp_a`. */
  ghost function FlagsA(rom: seq<byte>, count: byte, outcomes: seq<ReadResult>, idA: uint64): seq<bool>
    requires |rom| == ROM_BUFFER_SIZE && |outcomes| == MAX_TEMP_COUNT
  {
    seq(MAX_TEMP_COUNT, j requires 0 <= j < MAX_TEMP_COUNT => GoodRead(rom, count, outcomes, idA, j))
  }

  /** Which slots set `temp_b`. */
  ghost function FlagsB(rom: seq<byte>, count: byte, outcomes: seq<ReadResult>, idA: uint64, idB: uint64): seq<bool>
    requires |rom| == ROM_BUFFER_SIZE && |outcomes| == MAX_TEMP_COUNT
  {
    seq(MAX_TEMP_COUNT, j requires 0 <= j < MAX_TEMP_COUNT => GoodReadB(rom, count, outcomes, idA, idB, j))
  }

  /** The door value each slot's read would give. */
  ghost function Readings(outcomes: seq<ReadResult>): seq<int8>
    requires |outcomes| == MAX_TEMP_COUNT
  {
    seq(MAX_TEMP_COUNT, j requires 0 <= j < MAX_TEMP_COUNT => if outcomes[j].ReadOk? then ProbeTemp(outcomes[j].raw) else NO_TEMP)
  }

  lemma {:induction false} DoorTempsAreLatest(rom: seq<byte>, count: byte, outcomes: seq<ReadResult>, idA: uint64, idB: uint64, n: nat)
    requires |rom| == ROM_BUFFER_SIZE && |outcomes| == MAX_TEMP_COUNT && n <= MAX_TEMP_COUNT
    ensures DoorTemps(rom, count, outcomes, idA, idB, n).0 == Latest(FlagsA(rom, count, outcomes, idA), Readings(outcomes), n)
    ensures DoorTemps(rom, count, outcomes, idA, idB, n).1 == Latest(FlagsB(rom, count, outcomes, idA, idB), Readings(outcomes), n)
  {
    if n > 0 {
      DoorTempsAreLatest(rom, count, outcomes, idA, idB, n - 1);
      DoorTempsStep(rom, count, outcomes, idA, idB, n);
    }
  }

  /**
   * `temp_a` is the reading of the last of the first `n` slots that read
   * probe A successfully, and "no reading" when no slot did.
   */
  lemma DoorTempALastRead(rom: seq<byte>, count: byte, outcomes: seq<ReadResult>, idA: uint64, idB: uint64, n: nat)
    requires |rom| == ROM_BUFFER_SIZE && |outcomes| == MAX_TEMP_COUNT && n <= MAX_TEMP_COUNT
    ensures (forall j :: 0 <= j < n ==> !GoodRead(rom, count, outcomes, idA, j)) ==>
              DoorTemps(rom, count, outcomes, idA, idB, n).0 == NO_TEMP
    ensures forall j :: 0 <= j < n && GoodRead(rom, count, outcomes, idA, j) &&
                        (forall k :: j < k < n ==> !GoodRead(rom, count, outcomes, idA, k)) ==>
                          DoorTemps(rom, count, outcomes, idA, idB, n).0 == ProbeTemp(outcomes[j].raw)
  {
    var flags, vals := FlagsA(rom, count, outcomes, idA), Readings(outcomes);
    DoorTempsAreLatest(rom, count, outcomes, idA, idB, n);
    LatestIsLast(flags, vals, n);
    if forall j :: 0 <= j < n ==> !GoodRead(rom, count, outcomes, idA, j) {
      assert forall j :: 0 <= j < n ==> !flags[j];
    }
    forall j | 0 <= j < n && GoodRead(rom, count, outcomes, idA, j) &&
               (forall k :: j < k < n ==> !GoodRead(rom, count, outcomes, idA, k))
      ensures DoorTemps(rom, count, outcomes, idA, idB, n).0 == ProbeTemp(outcomes[j].raw)
    {
      assert flags[j] && vals[j] == ProbeTemp(outcomes[j].raw);
      assert forall k :: j < k < n ==> !flags[k];
    }
  }

  /**
   * `temp_b` is the reading of the last of the first `n` slots that read
   * probe B (and not A) successfully, and "no reading" when no slot did.
   */
  lemma DoorTempBLastRead(rom: seq<byte>, count: byte, outcomes: seq<ReadResult>, idA: uint64, idB: uint64, n: nat)
    requires |rom| == ROM_BUFFER_SIZE && |outcomes| == MAX_TEMP_COUNT && n <= MAX_TEMP_COUNT
    ensures (forall j :: 0 <= j < n ==> !GoodReadB(rom, count, outcomes, idA, idB, j)) ==>
              DoorTemps(rom, count, outcomes, idA, idB, n).1 == NO_TEMP
    ensures forall j :: 0 <= j < n && GoodReadB(rom, count, outcomes, idA, idB, j) &&
                        (forall k :: j < k < n ==> !GoodReadB(rom, count, outcomes, idA, idB, k)) ==>
                          DoorTemps(rom, count, outcomes, idA, idB, n).1 == ProbeTemp(outcomes[j].raw)
  {
    var flags, vals := FlagsB(rom, count, outcomes, idA, idB), Readings(outcomes);
    DoorTempsAreLatest(rom, count, outcomes, idA, idB, n);
    LatestIsLast(flags, vals, n);
    if forall j :: 0 <= j < n ==> !GoodReadB(rom, count, outcomes, idA, idB, j) {
      assert forall j :: 0 <= j < n ==> !flags[j];
    }
    forall j | 0 <= j < n && GoodReadB(rom, count, outcomes, idA, idB, j) &&
               (forall k :: j < k < n ==> !GoodReadB(rom, count, outcomes, idA, idB, k))
      ensures DoorTemps(rom, count, outcomes, idA, idB, n).1 == ProbeTemp(outcomes[j].raw)
    {
      assert flags[j] && vals[j] == ProbeTemp(outcomes[j].raw);
      assert forall k :: j < k < n ==> !flags[k];
    }
  }

  /** How many of the first `n` reads failed. */
  function CountFailed(outcomes: seq<ReadResult>, n: nat): (c: nat)
    requires n <= |outcomes|
    ensures c <= n
  {
    if n == 0 then 0 else CountFailed(outcomes, n - 1) + (if outcomes[n - 1].ReadFailed? then 1 else 0)
  }

  function Min(a: nat, b: nat): nat {
    if a < b then a else b
  }

  /**
   * The door-differential decision. It acts only when no forced mode is
   * active and both probes were read in this pass. The difference B - A,
   * narrowed to `int8_t`, is compared with the `uint8_t` thresholds: above
   * `door_temp_diff_open` the door opens, otherwise below
   * `door_temp_diff_close` it closes, otherwise the mode is kept.
   */
  function Decide(action: DoorAction, a: int8, b: int8, diffClose: byte, diffOpen: byte): (r: DoorAction)
    ensures action == ForceOpen || action == ForceClose || a == NO_TEMP || b == NO_TEMP ==> r == action
    ensures action != ForceOpen && action != ForceClose && a != NO_TEMP && b != NO_TEMP ==>
              && (ToInt8(b as int - a as int) > diffOpen ==> r == Open)
              && (ToInt8(b as int - a as int) <= diffOpen && ToInt8(b as int - a as int) < diffClose ==> r == Close)
              && (diffClose <= ToInt8(b as int - a as int) <= diffOpen ==> r == action)
  {
    if action != ForceClose && action != ForceOpen && a != NO_TEMP && b != NO_TEMP then
      var diff := ToInt8(b as int - a as int);
      if diff > diffOpen then Open
      else if diff < diffClose then Close
      else action
    else action
  }

  /**
   * An `int8_t` difference never exceeds 127, so an open threshold of 127 or
   * more can never open the door, and a close threshold of 128 or more closes
   * it whenever it does not open.
   */
  lemma WideThresholds(action: DoorAction, a: int8, b: int8, diffClose: byte, diffOpen: byte)
    requires action != ForceOpen && action != ForceClose && a != NO_TEMP && b != NO_TEMP
    ensures diffOpen >= 127 ==> Decide(action, a, b, diffClose, diffOpen) != Open || action == Open
    ensures diffClose >= 128 && Decide(action, a, b, diffClose, diffOpen) != Open ==> Decide(action, a, b, diffClose, diffOpen) == Close
  {
  }

  /**
   * A difference of exactly one degree above the open threshold opens the
   * door on the next evaluation when both probes are fresh and no forced mode is active.
   */
  lemma OneDegreeAboveOpens(action: DoorAction, a: int8, diffClose: byte, diffOpen: byte)
    requires action != ForceOpen && action != ForceClose && a != NO_TEMP
    requires diffOpen < 0x7f && -0x80 < a + diffOpen + 1 < 0x80
    ensures Decide(action, a, a + diffOpen + 1, diffClose, diffOpen) == Open
  {
  }

  /** `th_state`: the main loop runs SCAN, START and FINISH; the tick advances the DONE phases. */
  datatype ThPhase = TsScan | TsScanDone | TsStart | TsStartDone | TsFinish | TsFinishDone

  datatype ThermoState = ThermoState(phase: ThPhase, cycle: byte)

  /** The number of START/FINISH rounds between two scans is `SCAN_CYCLES + 1`. */
  const SCAN_CYCLES: byte := 10

  /**
   * `handle_thermo`: on the 1.4 s edge a finished phase hands over to the
   * next one; after a FINISH the cycle counter either restarts the pipeline
   * with a new scan (after ten conversions) or starts another conversion.
   */
  function ThermoTick(s: ThermoState, tick: bv8): (r: ThermoState)
    ensures !IsTime(tick, TIME_1400ms, 0) || s.phase in {TsScan, TsStart, TsFinish} ==> r == s
    ensures IsTime(tick, TIME_1400ms, 0) && s.phase == TsScanDone ==> r == s.(phase := TsStart)
    ensures IsTime(tick, TIME_1400ms, 0) && s.phase == TsStartDone ==> r == s.(phase := TsFinish)
    ensures IsTime(tick, TIME_1400ms, 0) && s.phase == TsFinishDone ==>
              (r.phase == TsScan <==> s.cycle == SCAN_CYCLES) && (r.phase == TsScan || r.phase == TsStart)
    ensures s.cycle <= SCAN_CYCLES ==> r.cycle <= SCAN_CYCLES
    ensures r.cycle == 0 || r.cycle == s.cycle || r.cycle == ToUint8(s.cycle as int + 1)
  {
    if !IsTime(tick, TIME_1400ms, 0) then s
    else
      match s.phase
      case TsScanDone => s.(phase := TsStart)
      case TsStartDone => s.(phase := TsFinish)
      case TsFinishDone =>
        if s.cycle == SCAN_CYCLES then ThermoState(TsScan, 0)
        else ThermoState(TsStart, ToUint8(s.cycle as int + 1))
      case _ => s
  }

  /** The main loop's half: the phase it has just run is marked done. */
  function MainStep(s: ThermoState): (r: ThermoState)
    ensures r.cycle == s.cycle
    ensures s.phase == TsScan <==> r.phase == TsScanDone && s.phase != TsScanDone
    ensures s.phase == TsStart <==> r.phase == TsStartDone && s.phase != TsStartDone
    ensures s.phase == TsFinish <==> r.phase == TsFinishDone && s.phase != TsFinishDone
    ensures s.phase in {TsScanDone, TsStartDone, TsFinishDone} ==> r == s
  {
    match s.phase
    case TsScan => s.(phase := TsScanDone)
    case TsStart => s.(phase := TsStartDone)
    case TsFinish => s.(phase := TsFinishDone)
    case _ => s
  }

  /** One START/FINISH round: main loop, 1.4 s edge, main loop, 1.4 s edge. */
  function Round(s: ThermoState): ThermoState {
    ThermoTick(MainStep(ThermoTick(MainStep(s), 0)), 0)
  }

  function Rounds(s: ThermoState, n: nat): ThermoState
    decreases n
  {
    if n == 0 then s else Rounds(Round(s), n - 1)
  }

  /**
   * From a START with cycle counter `c <= 10`, the pipeline stays in
   * START/FINISH rounds and returns to SCAN, with the counter reset, after
   * exactly `11 - c` rounds; after a scan, 11 rounds follow.
   */
  lemma {:induction false} BackToScan(c: byte, k: nat)
    requires c <= SCAN_CYCLES && k <= SCAN_CYCLES + 1 - c
    ensures k < SCAN_CYCLES + 1 - c ==> Rounds(ThermoState(TsStart, c), k) == ThermoState(TsStart, c + k)
    ensures k == SCAN_CYCLES + 1 - c ==> Rounds(ThermoState(TsStart, c), k) == ThermoState(TsScan, 0)
    decreases k
  {
    if k > 0 {
      var next := Round(ThermoState(TsStart, c));
      if c == SCAN_CYCLES {
        assert next == ThermoState(TsScan, 0);
        assert k == 1;
        assert Rounds(next, 0) == next;
      } else {
        assert next == ThermoState(TsStart, c + 1);
        BackToScan(c + 1, k - 1);
      }
    }
  }

  /** The statics of the pipeline: `temp_rom_count`, `temp_rom`, `temp_response`, `th_state` and `cycle`. */
  class Probes {
    var romCount: byte
    var rom: seq<byte>
    var table: array<TempData>
    var phase: ThPhase
    var cycle: byte

    ghost predicate Valid()
      reads this
    {
      romCount <= MAX_TEMP_COUNT && |rom| == ROM_BUFFER_SIZE && table.Length == MAX_TEMP_COUNT
    }

    function Thermo(): ThermoState
      reads this
    {
      ThermoState(phase, cycle)
    }

    constructor ()
      ensures Valid() && fresh(table) && Thermo() == ThermoState(TsScan, 0) && romCount == 0
      ensures forall i :: 0 <= i < MAX_TEMP_COUNT ==> table[i] == TempData(0, 0, 0, 0)
    {
      romCount := 0;
      rom := seq(ROM_BUFFER_SIZE, _ => 0);
      table := new TempData[MAX_TEMP_COUNT](_ => TempData(0, 0, 0, 0));
      phase := TsScan;
      cycle := 0;
    }

    /** `handle_thermo`. */
    method HandleTick(tick: bv8)
      modifies this`phase, this`cycle
      ensures Thermo() == ThermoTick(old(Thermo()), tick)
    {
      if IsTime(tick, TIME_1400ms, 0) {
        match phase {
          case TsScanDone =>
            phase := TsStart;
          case TsStartDone =>
            phase := TsFinish;
          case TsFinishDone =>
            if cycle == SCAN_CYCLES {
              phase := TsScan;
              cycle := 0;
            } else {
              phase := TsStart;
              cycle := ToUint8(cycle as int + 1);
            }
          case _ =>
        }
      }
    }

    /** The main loop's `th_state = TS_..._DONE` after running a phase. */
    method MarkDone()
      modifies this`phase
      ensures Thermo() == MainStep(old(Thermo()))
    {
      match phase {
        case TsScan => phase := TsScanDone;
        case TsStart => phase := TsStartDone;
        case TsFinish => phase := TsFinishDone;
        case _ =>
      }
    }

    /**
     * `scan_temp` with the outcomes of up to three searches. The first
     * accepted search replaces the probe count and the ROM buffer; if none is
     * accepted both are kept. Each rejected successful search counts a warning,
     * each failed one an error; the LED is lit during the scan and off after it.
     */
    method Scan(results: seq<SearchResult>, debug: Debug.DebugData, leds: Leds)
      requires Valid() && |results| == SEARCH_TRYS
      requires forall j :: 0 <= j < SEARCH_TRYS ==> WellFormed(results[j])
      modifies this`romCount, this`rom, debug`tempScans, debug`tempScanWarns, debug`tempScanErrors, leds`on
      ensures Valid() && !leds.on
      ensures var pick := FirstAccepted(results, old(romCount), 0);
              if pick.Some? then romCount == results[pick.value].count && rom == results[pick.value].rom
              else romCount == old(romCount) && rom == old(rom)
      ensures var tried := Rejected(results, old(romCount));
              && debug.tempScans == Inc32(old(debug.tempScans))
              && debug.tempScanWarns == Add32(old(debug.tempScanWarns), CountOk(results, tried))
              && debug.tempScanErrors == Add32(old(debug.tempScanErrors), tried - CountOk(results, tried))
    {
      leds.SetGreen(true);
      debug.tempScans := Inc32(debug.tempScans);
      var known := romCount;
      var warns0, errors0 := debug.tempScanWarns, debug.tempScanErrors;
      var retry := 0;
      while retry < SEARCH_TRYS
        invariant 0 <= retry <= SEARCH_TRYS
        invariant FirstAccepted(results, known, 0) == FirstAccepted(results, known, retry)
        invariant romCount == known && rom == old(rom)
        invariant debug.tempScans == Inc32(old(debug.tempScans))
        invariant debug.tempScanWarns == Add32(warns0, CountOk(results, retry))
        invariant debug.tempScanErrors == Add32(errors0, retry - CountOk(results, retry))
      {
        var r := results[retry];
        if r.ok {
          if r.count >= romCount || retry == SEARCH_TRYS - 1 {
            romCount := r.count;
            rom := r.rom;
            break;
          } else {
            Add32Inc(warns0, CountOk(results, retry));
            debug.tempScanWarns := Inc32(debug.tempScanWarns);
          }
        } else {
          Add32Inc(errors0, retry - CountOk(results, retry));
          debug.tempScanErrors := Inc32(debug.tempScanErrors);
        }
        retry := retry + 1;
      }
      leds.SetGreen(false);
    }

    /** `start_temp_read`: the ROM codes a conversion is started for, in slot order. */
    method StartRead() returns (converted: seq<seq<byte>>)
      requires Valid()
      ensures converted == RomCodes(rom, romCount)
    {
      converted := [];
      var i := 0;
      while i < romCount
        invariant 0 <= i <= romCount
        invariant converted == RomCodes(rom, i)
      {
        converted := converted + [rom[8 * i .. 8 * i + 8]];
        i := i + 1;
      }
    }

    /** One iteration of the table loop of `finish_temp_read`, on slot `i`. */
    method VisitSlot(i: nat, outcomes: seq<ReadResult>, idA: uint64, idB: uint64, a0: int8, b0: int8,
                     debug: Debug.DebugData, reads0: uint32, errors0: uint32)
      returns (a: int8, b: int8)
      requires Valid() && i < MAX_TEMP_COUNT && |outcomes| == MAX_TEMP_COUNT
      requires debug.tempReads == Add32(reads0, Min(i, romCount))
      requires debug.tempReadErrors == Add32(errors0, CountFailed(outcomes, Min(i, romCount)))
      modifies table, debug`tempReads, debug`tempReadErrors
      ensures table[i] == SlotAfter(old(table[i]), i, romCount, rom, outcomes[i])
      ensures forall j :: 0 <= j < MAX_TEMP_COUNT && j != i ==> table[j] == old(table[j])
      ensures (a, b) == TempsStep((a0, b0), rom, romCount, i, outcomes[i], idA, idB)
      ensures debug.tempReads == Add32(reads0, Min(i + 1, romCount))
      ensures debug.tempReadErrors == Add32(errors0, CountFailed(outcomes, Min(i + 1, romCount)))
    {
      var outcome := outcomes[i];
      a, b := a0, b0;
      if i >= romCount {
        table[i] := table[i].(valid := 0);
      } else {
        Add32Inc(reads0, i);
        debug.tempReads := Inc32(debug.tempReads);
        table[i] := table[i].(id := RomId(rom, i), valid := 1);
        match outcome {
          case ReadFailed =>
            Add32Inc(errors0, CountFailed(outcomes, i));
            debug.tempReadErrors := Inc32(debug.tempReadErrors);
            if table[i].age != 255 {
              table[i] := table[i].(age := table[i].age + 1);
            }
          case ReadOk(t) =>
            table[i] := table[i].(age := 0, temperature := t);
            if table[i].id == idA {
              a := ProbeTemp(t);
            } else if table[i].id == idB {
              b := ProbeTemp(t);
            }
        }
      }
    }

    /**
     * The table loop of `finish_temp_read`: every slot is updated in place as
     * `SlotAfter` says, the read counters count the attempted and the failed
     * reads, and `temp_a` / `temp_b` are returned.
     */
    method UpdateTable(outcomes: seq<ReadResult>, idA: uint64, idB: uint64, debug: Debug.DebugData) returns (a: int8, b: int8)
      requires Valid() && |outcomes| == MAX_TEMP_COUNT
      modifies table, debug`tempReads, debug`tempReadErrors
      ensures forall i :: 0 <= i < MAX_TEMP_COUNT ==> table[i] == SlotAfter(old(table[i]), i, romCount, rom, outcomes[i])
      ensures debug.tempReads == Add32(old(debug.tempReads), romCount)
      ensures debug.tempReadErrors == Add32(old(debug.tempReadErrors), CountFailed(outcomes, romCount))
      ensures (a, b) == DoorTemps(rom, romCount, outcomes, idA, idB, MAX_TEMP_COUNT)
    {
      a, b := NO_TEMP, NO_TEMP;
      var reads0, errors0 := debug.tempReads, debug.tempReadErrors;
      ghost var before := table[..];
      var i := 0;
      while i < MAX_TEMP_COUNT
        invariant 0 <= i <= MAX_TEMP_COUNT
        invariant forall j :: 0 <= j < i ==> table[j] == SlotAfter(before[j], j, romCount, rom, outcomes[j])
        invariant forall j :: i <= j < MAX_TEMP_COUNT ==> table[j] == before[j]
        invariant (a, b) == DoorTemps(rom, romCount, outcomes, idA, idB, i)
        invariant debug.tempReads == Add32(reads0, Min(i, romCount))
        invariant debug.tempReadErrors == Add32(errors0, CountFailed(outcomes, Min(i, romCount)))
      {
        a, b := VisitSlot(i, outcomes, idA, idB, a, b, debug, reads0, errors0);
        i := i + 1;
      }
    }

    /**
     * `finish_temp_read` with the outcome of each probe's `ds18b20read`: the
     * table and the read counters are updated, then the door mode is decided
     * from the A and B probes of this pass.
     */
    method Finish(outcomes: seq<ReadResult>, cfg: Config.Config, debug: Debug.DebugData, door: DoorController)
      requires Valid() && |outcomes| == MAX_TEMP_COUNT
      modifies table, debug`tempReads, debug`tempReadErrors, door`action
      ensures Valid()
      ensures forall i :: 0 <= i < MAX_TEMP_COUNT ==> table[i] == SlotAfter(old(table[i]), i, romCount, rom, outcomes[i])
      ensures debug.tempReads == Add32(old(debug.tempReads), romCount)
      ensures debug.tempReadErrors == Add32(old(debug.tempReadErrors), CountFailed(outcomes, romCount))
      ensures var t := DoorTemps(rom, romCount, outcomes, cfg.doorTempIdA, cfg.doorTempIdB, MAX_TEMP_COUNT);
              door.action == Decide(old(door.action), t.0, t.1, cfg.diffClose, cfg.diffOpen)
    {
      var a, b := UpdateTable(outcomes, cfg.doorTempIdA, cfg.doorTempIdB, debug);
      door.action := Decide(door.action, a, b, cfg.diffClose, cfg.diffOpen);
    }
  }
}
