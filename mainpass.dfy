/**
 * The scalar state the acquisition phase of `main` works on, and the effect of
 * one run of that phase on it. The temperature table is an array and is
 * specified element by element where the phase is run.
 */
module MainPass {
  import opened CTypes
  import opened Scheduler
  import opened Config
  import opened Door
  import opened Thermo
  import Debug

  /**
   * What the acquisition phase of a main-loop pass reads and writes besides
   * the temperature table: the thermometry phase, the probe list, the scan and
   * read counters, the door mode and the green LED.
   */
  datatype Acquisition = Acquisition(thermo: ThermoState, romCount: byte, rom: seq<byte>,
                                     tempScans: uint32, tempScanWarns: uint32, tempScanErrors: uint32,
                                     tempReads: uint32, tempReadErrors: uint32, action: DoorAction, ledOn: bool)

  /** The acquisition state held by the objects of the firmware. */
  function AcquisitionOf(probes: Probes, debug: Debug.DebugData, door: DoorController, leds: Leds): (a: Acquisition)
    reads probes, debug, door`action, leds`on
    ensures a.thermo == probes.Thermo() && a.romCount == probes.romCount && a.rom == probes.rom
    ensures a.tempScans == debug.tempScans && a.tempScanWarns == debug.tempScanWarns && a.tempScanErrors == debug.tempScanErrors
    ensures a.tempReads == debug.tempReads && a.tempReadErrors == debug.tempReadErrors
    ensures a.action == door.action && a.ledOn == leds.on
  {
    Acquisition(probes.Thermo(), probes.romCount, probes.rom, debug.tempScans, debug.tempScanWarns,
                debug.tempScanErrors, debug.tempReads, debug.tempReadErrors, door.action, leds.on)
  }

  /**
   * The effect of running the released phase, from acquisition state `s` to `t`.
   * Only a scan replaces the probe list (with the first accepted search), counts
   * the scan and leaves the LED off; only a start returns the ROM codes it
   * addressed; only a finish counts the reads and decides the door mode from
   * the door probes' readings and the configuration `cfg`.
   */
  predicate PhaseEffect(s: Acquisition, t: Acquisition, cfg: Config,
                        searches: seq<SearchResult>, outcomes: seq<ReadResult>, converted: seq<seq<byte>>)
    requires s.romCount <= MAX_TEMP_COUNT
    requires |t.rom| == ROM_BUFFER_SIZE && t.romCount <= MAX_TEMP_COUNT
    requires |searches| == SEARCH_TRYS && (forall j :: 0 <= j < SEARCH_TRYS ==> WellFormed(searches[j]))
    requires |outcomes| == MAX_TEMP_COUNT
  {
    && t.thermo == MainStep(s.thermo)
    && (if s.thermo.phase == TsScan then
          && (var pick := FirstAccepted(searches, s.romCount, 0);
              if pick.Some? then t.romCount == searches[pick.value].count && t.rom == searches[pick.value].rom
              else t.romCount == s.romCount && t.rom == s.rom)
          && (var tried := Rejected(searches, s.romCount);
              && t.tempScans == Inc32(s.tempScans)
              && t.tempScanWarns == Add32(s.tempScanWarns, CountOk(searches, tried))
              && t.tempScanErrors == Add32(s.tempScanErrors, tried - CountOk(searches, tried)))
          && !t.ledOn
        else
          && t.romCount == s.romCount && t.rom == s.rom
          && t.tempScans == s.tempScans && t.tempScanWarns == s.tempScanWarns && t.tempScanErrors == s.tempScanErrors
          && t.ledOn == s.ledOn)
    && (if s.thermo.phase == TsStart then converted == RomCodes(t.rom, t.romCount) else converted == [])
    && (if s.thermo.phase == TsFinish then
          && t.tempReads == Add32(s.tempReads, t.romCount)
          && t.tempReadErrors == Add32(s.tempReadErrors, CountFailed(outcomes, t.romCount))
          && (var temps := DoorTemps(t.rom, t.romCount, outcomes, cfg.doorTempIdA, cfg.doorTempIdB, MAX_TEMP_COUNT);
              t.action == Decide(s.action, temps.0, temps.1, cfg.diffClose, cfg.diffOpen))
        else
          && t.tempReads == s.tempReads && t.tempReadErrors == s.tempReadErrors
          && t.action == s.action)
  }
}
