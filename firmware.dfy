/**
 * The two top-level activities of the firmware: the timer-0 overflow
 * interrupt, which runs the LED, thermometry, charge-regulator and door
 * handlers in that order and then advances the tick, and one pass of the main
 * loop, which commits a received configuration, runs the pending acquisition
 * phase and drives the door outputs from the resolved mode.
 */
module Firmware {
  import opened CTypes
  import opened Scheduler
  import opened Twi
  import opened Regulator
  import opened Config
  import opened Door
  import opened Thermo
  import Debug
  import opened MainPass

  /**
   * `ISR(TIMER0_OVF_vect)`: every handler sees the same tick value, the one
   * before the increment, and the regulator uses the relay thresholds of the
   * configuration record in RAM.
   */
  method TimerTick(clock: Clock, leds: Leds, probes: Probes, reg: ChargeRegulator, twi: TwiMaster,
                   door: DoorController, store: ConfigStore, input: DoorInput) returns (clearFlag: bool)
    requires store.Valid()
    modifies clock, leds, probes`phase, probes`cycle, reg, twi, door
    ensures clock.tick == old(clock.tick) + 1
    ensures leds.State() == LedStep(old(leds.State()), old(clock.tick))
    ensures probes.Thermo() == ThermoTick(old(probes.Thermo()), old(clock.tick))
    ensures reg.State() == VoltStep(old(reg.State()), old(clock.tick), store.ram[OFFSET_RELAY_LO], store.ram[OFFSET_RELAY_HI]).0
    ensures door.State() == DoorStep(old(door.State()), old(clock.tick), input)
    ensures clearFlag <==> Active(old(clock.tick)) && input.flag
    ensures var req := VoltStep(old(reg.State()), old(clock.tick), store.ram[OFFSET_RELAY_LO], store.ram[OFFSET_RELAY_HI]).1;
            if req.Some? then
              && twi.Regs() == Begin(SENSOR_ADDRESS, req.value.reg, TargetValue(old(reg.State()), req.value.target), req.value.op)
              && twi.target == req.value.target && twi.enabled
            else
              twi.Regs() == old(twi.Regs()) && twi.target == old(twi.target) && twi.enabled == old(twi.enabled)
  {
    var tick := clock.tick;
    leds.Handle(tick);
    probes.HandleTick(tick);
    reg.Handle(tick, store.ram[OFFSET_RELAY_LO], store.ram[OFFSET_RELAY_HI], twi);
    clearFlag := door.Handle(tick, input);
    clock.Advance();
  }

  /**
   * The acquisition part of a main-loop pass: run the phase the tick handler
   * has released (with the outcomes of the DS18B20 calls as parameters) and
   * mark it done.
   */
  method RunPhase(probes: Probes, debug: Debug.DebugData, leds: Leds, door: DoorController, cfg: Config,
                  searches: seq<SearchResult>, outcomes: seq<ReadResult>)
    returns (converted: seq<seq<byte>>)
    requires probes.Valid()
    requires |searches| == SEARCH_TRYS && (forall j :: 0 <= j < SEARCH_TRYS ==> WellFormed(searches[j]))
    requires |outcomes| == MAX_TEMP_COUNT
    modifies leds`on, probes`romCount, probes`rom, probes`phase, probes.table, door`action
    modifies debug`tempScans, debug`tempScanWarns, debug`tempScanErrors, debug`tempReads, debug`tempReadErrors
    ensures probes.Valid()
    ensures probes.Thermo() == MainStep(old(probes.Thermo()))
    // a scan: the accepted search replaces the probe list, the scan is counted, the LED is left off
    ensures old(probes.phase) == TsScan ==>
              && (var pick := FirstAccepted(searches, old(probes.romCount), 0);
                  if pick.Some? then probes.romCount == searches[pick.value].count && probes.rom == searches[pick.value].rom
                  else probes.romCount == old(probes.romCount) && probes.rom == old(probes.rom))
              && (var tried := Rejected(searches, old(probes.romCount));
                  && debug.tempScans == Inc32(old(debug.tempScans))
                  && debug.tempScanWarns == Add32(old(debug.tempScanWarns), CountOk(searches, tried))
                  && debug.tempScanErrors == Add32(old(debug.tempScanErrors), tried - CountOk(searches, tried)))
              && !leds.on
    ensures old(probes.phase) != TsScan ==>
              && probes.romCount == old(probes.romCount) && probes.rom == old(probes.rom)
              && debug.tempScans == old(debug.tempScans) && debug.tempScanWarns == old(debug.tempScanWarns)
              && debug.tempScanErrors == old(debug.tempScanErrors) && leds.on == old(leds.on)
    // a start: the conversions of the known probes
    ensures old(probes.phase) == TsStart ==> converted == RomCodes(probes.rom, probes.romCount)
    ensures old(probes.phase) != TsStart ==> converted == []
    // a finish: the table and read counters are updated, then the door mode decided
    ensures old(probes.phase) == TsFinish ==>
              && (forall i :: 0 <= i < MAX_TEMP_COUNT ==>
                    probes.table[i] == SlotAfter(old(probes.table[i]), i, probes.romCount, probes.rom, outcomes[i]))
              && debug.tempReads == Add32(old(debug.tempReads), probes.romCount)
              && debug.tempReadErrors == Add32(old(debug.tempReadErrors), CountFailed(outcomes, probes.romCount))
              && (var t := DoorTemps(probes.rom, probes.romCount, outcomes, cfg.doorTempIdA, cfg.doorTempIdB, MAX_TEMP_COUNT);
                  door.action == Decide(old(door.action), t.0, t.1, cfg.diffClose, cfg.diffOpen))
    ensures old(probes.phase) != TsFinish ==>
              && (forall i :: 0 <= i < MAX_TEMP_COUNT ==> probes.table[i] == old(probes.table[i]))
              && debug.tempReads == old(debug.tempReads) && debug.tempReadErrors == old(debug.tempReadErrors)
              && door.action == old(door.action)
    // the same effect stated on the acquisition state, the form a main-loop pass carries across its commit
    ensures PhaseEffect(old(AcquisitionOf(probes, debug, door, leds)), AcquisitionOf(probes, debug, door, leds),
                        cfg, searches, outcomes, converted)
  {
    converted := [];
    match probes.phase {
      case TsScan =>
        probes.Scan(searches, debug, leds);
      case TsStart =>
        converted := probes.StartRead();
      case TsFinish =>
        probes.Finish(outcomes, cfg, debug, door);
      case _ =>
    }
    probes.MarkDone();
  }

  /**
   * One pass of the main loop's body: commit a completed configuration write,
   * run the released acquisition phase with the configuration now in RAM,
   * then set the door outputs on PORTC from the resolved door mode.
   */
  method MainLoopPass(store: ConfigStore, leds: Leds, probes: Probes, debug: Debug.DebugData, door: DoorController,
                      searches: seq<SearchResult>, outcomes: seq<ReadResult>, portc: bv8)
    returns (pins: bv8, converted: seq<seq<byte>>)
    requires store.Valid() && probes.Valid()
    requires |searches| == SEARCH_TRYS && (forall j :: 0 <= j < SEARCH_TRYS ==> WellFormed(searches[j]))
    requires |outcomes| == MAX_TEMP_COUNT
    modifies store`ram, store`eeprom, store`updated, leds`period, leds`alert, leds`on, probes`romCount, probes`rom, probes`phase, probes.table, door`action
    modifies debug`tempScans, debug`tempScanWarns, debug`tempScanErrors, debug`tempReads, debug`tempReadErrors
    ensures store.Valid() && probes.Valid()
    // the commit: a pending record is announced, written to EEPROM and reloaded through `read_config`
    ensures old(store.updated) ==>
              && store.eeprom == old(store.ram) && store.ram == Loaded(old(store.ram)) && !store.updated
              && leds.period == TIME_350ms as bv16 && leds.alert == 4
    ensures !old(store.updated) ==>
              && store.eeprom == old(store.eeprom) && store.ram == old(store.ram) && !store.updated
              && leds.period == old(leds.period) && leds.alert == old(leds.alert)
    // the phase, with the configuration now in RAM
    ensures PhaseEffect(old(AcquisitionOf(probes, debug, door, leds)), AcquisitionOf(probes, debug, door, leds),
                        Decode(store.ram), searches, outcomes, converted)
    ensures old(probes.phase) == TsFinish ==> forall i :: 0 <= i < MAX_TEMP_COUNT ==>
              probes.table[i] == SlotAfter(old(probes.table[i]), i, probes.romCount, probes.rom, outcomes[i])
    ensures old(probes.phase) != TsFinish ==> forall i :: 0 <= i < MAX_TEMP_COUNT ==> probes.table[i] == old(probes.table[i])
    ensures pins == DoorPins(portc, door.action)
  {
    store.Commit(leds);
    converted := RunPhase(probes, debug, leds, door, Decode(store.ram), searches, outcomes);
    pins := DoorPins(portc, door.action);
  }
}
