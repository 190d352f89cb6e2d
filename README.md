# Solar and door controller: verified model of the control core

This project models the control core of a small AVR-based controller. The device:

- watches a row of DS18B20 temperature probes on a 1-Wire bus;
- switches a solar-charging relay from a voltage/current sensor read over the two-wire (TWI/I2C) bus;
- drives a motorised door from a push button and from the temperature difference between two configured probes;
- answers a host program over USB.

The host program (`app.c`) fetches and prints the probe table, the regulator readings or the stored configuration.

The model is written in Dafny. It follows the C sources component by component:

| file | module | what it models |
|---|---|---|
| `ctypes.dfy` | `CTypes` | the fixed-width C integer types and the conversions the code depends on (wrap to `int8_t`/`int16_t`, 32-bit counter increments, C's truncating `/`) |
| `scheduler.dfy` | `Scheduler` | the 8-bit tick `t0ov_counter`, `is_time`, and the LED blinker `handle_leds` (class `Leds`) |
| `twi.dfy` | `Twi` | the `twi` record, `twi_op` and `ISR(TWI_vect)`, as a transition function `Isr` and as a class `TwiMaster` proved against it; complete write and read transactions are proved as runs of the interrupt |
| `regulator.dfy` | `Regulator` | `handle_volt`: the four-phase sensor cycle and the relay hysteresis with its 16-bit thresholds, and the store of a delivered TWI word through `p_data` |
| `config.dfy` | `Config` | the packed 21-byte `struct config`, its EEPROM copy, `read_config`, the write cursor of `handle_cfg_write_request` / `usbFunctionWrite`, and the main loop's commit-and-reload |
| `debug.dfy` | `Debug` | the debug counters |
| `door.dfy` | `Door` | `handle_door` (two-stage button debounce plus countdown of forced modes) and the mapping of the door mode onto the PORTC outputs |
| `thermo.dfy` | `Thermo` | `scan_temp`, `start_temp_read`, `finish_temp_read` (the 14-slot table updated in place in an `array`, then the door-differential decision), and the `th_state` phase cycle shared by `handle_thermo` and the main loop |
| `commands.dfy` | `Commands` | `usbFunctionSetup` |
| `mainpass.dfy` | `MainPass` | the state the main loop's acquisition phase works on, and the effect of one run of it |
| `firmware.dfy` | `Firmware` | the timer-0 overflow interrupt and one pass of the main loop |
| `onewire.dfy` | `OneWire` | `onewireInit`, `onewireWriteBit`, `onewireWrite`, `onewireReadBit`, `onewireRead`, over a trace of pin actions |
| `hostapp.dfy` | `HostApp` | `comp_temp`, the integer part of `convert_temperature`, `translate_error`, the command-line choice of request, the three-attempt exchange and the print loop of the temperature report |

The firmware's statics that change step by step are fields of classes. Their methods are proved against pure step functions:

- `Leds.Handle` against `LedStep`;
- `DoorController.Handle` against `DoorStep`;
- `TwiMaster.Interrupt` against `Isr`;
- `ChargeRegulator.Handle` against `VoltStep`;
- `Probes.HandleTick` against `ThermoTick`.

The properties are proved about those functions. Examples:

- a TWI write sends address, register, high byte, low byte, then STOP;
- the relay hysteresis holds;
- a forced door mode expires;
- the pipeline returns to a scan after eleven rounds;
- a configuration written in chunks reads back.

The 1-Wire primitives work on a pin-action trace and a queue of sampled line levels. A byte written by `onewireWrite` and answered bit for bit is read back unchanged by `onewireRead`.

Two behaviours of the code that the model follows as written:

- **Configuration write.** `write_config` (`firmware.c:67-70`) does not stamp the configuration signature: the main loop (`firmware.c:663-674`) writes the received record as it is. When that record lacks the signature, `read_config` replaces its relay thresholds with the defaults on the reload.
- **Host retries.** The loop in `app.c:145-168` makes at most three attempts and resets the device once, after a failed second attempt.

`CMD_DBG_READ`, `struct debug_data` and `enum door_action` are used by `firmware.c` but defined in no modelled file. The model takes:

- request code 1, which is distinct from codes 2 to 5 of `comm.h`;
- a 34-byte record of eight 32-bit counters followed by two `int8_t` door fields;
- the door modes in the order NO_ACTION, OPEN, CLOSE, FORCE_OPEN, FORCE_CLOSE.

## Model

| member | source | states |
|---|---|---|
| CTypes.ToInt8 | src/firmware.c:359 | narrowing to `int8_t` keeps the value modulo 256 and is the identity on -128..127 |
| CTypes.ToInt16 | src/firmware.c:348 | reinterpreting 16 bits as `int16_t` keeps the value modulo 65536 and is the identity on the signed range |
| CTypes.Inc32 | src/firmware.c:282 | `++` on a `uint32_t` counter adds one and wraps to 0 at 2^32 - 1 |
| CTypes.TruncDiv | src/firmware.c:348 | C's signed `/` truncates toward zero: the quotient brackets the dividend from below for a positive dividend and from above for a negative one |
| Scheduler.FiresOncePerPeriod | src/firmware.c:441-448 | with a low-bit mask, `is_time(mask, 0)` holds at exactly one tick of every window of `mask + 1` ticks, including across the 8-bit wrap |
| Scheduler.Clock.Advance | src/firmware.c:585 | the tick counter increments modulo 256 (0xff goes to 0) |
| Scheduler.LedStep | src/firmware.c:450-465 | the blink count never grows, drops by at most one, drops exactly on an off-edge with the LED lit (or lit on that same tick), and leaves the LED off when it drops; an on-edge that is not also an off-edge lights it; while blinks remain and none is used up, the LED is lit exactly when it was lit or this tick is an on-edge, so it holds its state between edges; with no blinks left the LED is off |
| Scheduler.BlinkHasWidth | src/firmware.c:454-457 | for any period of 1..255 ticks whose on-mask is a low-bit mask, the on-edge and the off-edge of a blink are different ticks |
| Scheduler.Leds.SetAlert | src/firmware.c:96-100 | `set_led_alert` stores the period and the low byte of the count |
| Scheduler.Leds.SetGreen | src/firmware.c:72-82 | `green_on` / `green_off` set `led_on` |
| Scheduler.Leds.Handle | src/firmware.c:450-465 | `handle_leds` changes the LED state exactly as `LedStep` |
| Twi.Begin | src/firmware.c:136-143 | `twi_op` leaves a transaction in its first phase with the given address, register, operation, and payload `data1 * 256 + data0 == val` |
| Twi.Isr | src/firmware.c:155-253 | the interrupt faults exactly on an unknown status or an ACK/data event outside its phase; a START outside the send-address phases changes nothing; address, register and operation never change; a word is delivered only on the second received byte, as `data1 * 256 + TWDR`, and only then does the record return to Ready |
| Twi.ReadAddress | src/firmware.c:173 | `address \| 0x01` is odd and differs from the address only in bit 0 |
| Twi.RunKeepsPhaseFit | src/firmware.c:155-253 | over any sequence of bus events, a write transaction never enters a read phase and never returns to Ready, and a read never enters a write phase |
| Twi.WriteTransaction | src/firmware.c:136-211 | a complete write sends the address, the register pointer, the high byte, the low byte, then requests STOP, and stays in WRITE_SEND_BYTE1 |
| Twi.ReadReceive | src/firmware.c:172-240 | after the repeated START the read address goes out, two bytes are acknowledged, the first becoming the high and the second the low byte; `hi * 256 + lo` is delivered with STOP and the record is Ready |
| Twi.ReadTransaction | src/firmware.c:136-240 | a complete read sets the register pointer, requests a repeated START, and delivers `hi * 256 + lo` with the record Ready |
| Twi.TwiMaster.constructor | src/firmware.c:102-134 | the static record starts zeroed and the bus disabled |
| Twi.TwiMaster.Start | src/firmware.c:136-153 | `twi_op` records the transaction as `Begin` says, remembers the target of `p_data` and enables the bus |
| Twi.TwiMaster.Interrupt | src/firmware.c:155-253 | the handler updates the record as `Isr` says; on a fault the record is unchanged and the bus disabled, otherwise the bus stays enabled and the reaction is returned |
| Regulator.Threshold | src/firmware.c:518-521 | `decivolt * 200`, wrapped in the 16-bit `int` and converted to `unsigned`, is exactly `decivolt * 200` |
| Regulator.RelayStep | src/firmware.c:517-523 | the relay switches on above `hi * 200`, off below `lo * 200` (unless also above `hi * 200`), and otherwise keeps its state |
| Regulator.RelayHolds | src/firmware.c:517-523 | hysteresis: an on relay stays on while no reading drops below the low threshold; an off relay stays off while no reading exceeds the high threshold |
| Regulator.VoltStep | src/firmware.c:497-526 | off the 2.8 s edge nothing happens; on it the phase cycles CONFIG, CURRENT, VOLT, ACTION; the first three start the config write, current read and voltage read respectively; only ACTION moves the relay, by `RelayStep` |
| Regulator.ChargeRegulator.constructor | src/firmware.c:497-500 | the cycle starts in CONFIG with `config_val == 0x1eef` and the relay off |
| Regulator.ChargeRegulator.Handle | src/firmware.c:497-526 | `handle_volt` updates its statics as `VoltStep`, and starts exactly the requested bus transaction with the current value of its target, or leaves the bus alone |
| Regulator.TwiInterrupt | src/firmware.c:235-240 | a delivered word is stored into exactly the reading the transaction targets; nothing else of the regulator changes |
| Config.Encode | src/comm.h:11-19 | the packed record is 21 bytes: the door probe ids A and B little-endian at offsets 0 and 8, the relay thresholds at 16 and 17, the door differentials close and open at 18 and 19, the signature at 20 |
| Config.Decode | src/comm.h:11-19 | every field is read from the offsets `Encode` writes: the ids as little-endian values of bytes 0..7 and 8..15, the one-byte fields from 16 to 20 |
| Config.DecodeEncode | src/comm.h:11-19 | decoding an encoded record gives the record back |
| Config.EncodeDecode | src/comm.h:11-19 | encoding a decoded 21-byte image gives the image back |
| Config.Loaded | src/firmware.c:57-65 | `read_config` copies the stored image; without signature 0xCC only the relay thresholds are replaced by 126 and 154 |
| Config.WriteChunk | src/firmware.c:402-418 | a chunk with no armed cursor or running past the record is refused with 0xFF and changes nothing; otherwise it is copied at the cursor, the rest of the record is unchanged, and either the cursor advances and 0 is returned, or the record is complete, the cursor disarmed and 1 returned |
| Config.ChunksFill | src/firmware.c:402-418 | non-empty chunks that exactly fill the record from the cursor land in order, disarm the cursor, flag the commit, and return 0 for every call but the last, which returns 1 |
| Config.WrittenRecordReadsBack | src/firmware.c:663-674 | a whole record written in chunks and reloaded reads back unchanged when it carries the signature; without it only the relay thresholds are defaulted |
| Config.ConfigStore.constructor | src/firmware.c:40-43 | RAM record zeroed over the given EEPROM image, no write armed, nothing to commit |
| Config.ConfigStore.ReadConfig | src/firmware.c:57-65 | `read_config` leaves RAM equal to `Loaded(eeprom)` |
| Config.ConfigStore.HandleWriteRequest | src/firmware.c:393-400 | a request for exactly 21 bytes arms the cursor at 0 and answers USB_NO_MSG; any other length answers 0 and changes nothing |
| Config.ConfigStore.FunctionWrite | src/firmware.c:402-418 | `usbFunctionWrite` changes record, cursor and result as `WriteChunk` and sets `config_updated` on completion |
| Config.ConfigStore.Commit | src/firmware.c:663-674 | a pending record is announced with four 350 ms blinks, written to EEPROM as received, the flag cleared and RAM reloaded through `read_config`; with nothing pending nothing changes |
| Debug.DebugData.constructor | src/firmware.c:49 | every counter starts at 0 |
| Debug.DebugData.CountPoll | src/firmware.c:588-592 | the USB poll interrupt increments the poll counter modulo 2^32 |
| Door.DoorStep | src/firmware.c:528-573 | off the 87 ms edge nothing changes; on it `peak` follows the flag; a confirmed press (flag seen before, clear now, pin high) with countdown <= 699 selects FORCE_CLOSE after a recent FORCE_OPEN and FORCE_OPEN otherwise, re-arming to 700 then decrementing to 699; otherwise a nonzero countdown decrements and reaching 0 ends the mode; the countdown stays within 0..699 |
| Door.PushForcesOpen | src/firmware.c:532-563 | a push (flag on one active tick, pin high on the next) forces the door open, with the countdown re-armed to 699, from every state with countdown 0..699 except a FORCE_OPEN inside its double-push window (countdown 691..699) |
| Door.DoublePushForcesClose | src/firmware.c:549-558 | from FORCE_OPEN with countdown 691..699, the whole double-push window, a push forces the door closed with the countdown re-armed to 699; with `PushForcesOpen` this covers every reachable state |
| Door.RestKeepsMode | src/firmware.c:566-571 | with the countdown at 0 and the button low, the mode never changes |
| Door.ForceExpires | src/firmware.c:566-571 | with the button low, at least `countdown` active ticks end any mode that is counting down in NO_ACTION with countdown 0 |
| Door.DoorController.constructor | src/firmware.c:51-52 | the door starts in NO_ACTION with countdown 0 and `peak` clear |
| Door.DoorController.Handle | src/firmware.c:528-573 | `handle_door` changes its statics as `DoorStep` and clears INTF1 exactly when it saw the flag on an active tick |
| Door.DoorPins | src/firmware.c:595-609 | the open output is high exactly in OPEN/FORCE_OPEN, the close output exactly in CLOSE/FORCE_CLOSE, never both, and every other PORTC bit is kept |
| Commands.SetupLength | src/firmware.c:420-439 | an unknown request answers 0; a config write answers USB_NO_MSG exactly for a 21-byte request and 0 otherwise; DBG_READ, VOLT, TEMP and CFG_READ answer the `sizeof` of their record, computed from its field layout (34, 6, 14 x 16 = 224 and 21 bytes), all nonzero and below USB_NO_MSG |
| Commands.Setup | src/firmware.c:420-439 | every request is counted, an unknown one also as an error; the reply record is chosen by the code and its size is the returned length; a debug read snapshots the door mode and countdown; only a 21-byte config write arms the cursor |
| Thermo.FirstAccepted | src/firmware.c:284-299 | the accepted search is the first that succeeded with at least the known count, or a successful last one; the ones before it are not accepted |
| Thermo.ScanGivesUpOnlyIfLastFails | src/firmware.c:288-296 | a scan keeps the old probe list exactly when the last search failed and every earlier successful one found fewer probes than known |
| Thermo.RomCodes | src/firmware.c:309-317 | conversions are started for the first `temp_rom_count` ROM codes, in slot order |
| Thermo.SlotAfter | src/firmware.c:326-351 | a slot past the count is only marked invalid; a slot below it gets the probe id and `valid = 1`; a failed read keeps the temperature and ages the slot, saturating at 255; a good read stores the reading with age 0 |
| Thermo.AgeSaturates | src/firmware.c:337-342 | after n failed passes the slot is valid, keeps its temperature and has age min(age + n, 255) |
| Thermo.ProbeTemp | src/firmware.c:348-350 | `(int16_t)t / 16` lies in -2048..2047 and, when it fits `int8_t`, is kept unchanged |
| Thermo.ProbeTempInRange | src/firmware.c:348-350 | over the DS18B20 range (-55..125 degrees) the value is the truncated whole degrees and never the "no reading" marker |
| Thermo.MinusOneTwentyEightLooksMissing | src/firmware.c:321-357 | a reading of exactly -128 degrees equals the "no reading" marker |
| Thermo.DoorTemps | src/firmware.c:321-351 | `temp_a` (`temp_b`) is set only by a good read of a known probe whose id is `door_temp_id_A` (`_B` and not `_A`) |
| Thermo.DoorTempsAreLatest | src/firmware.c:321-351 | over the first n slots, `temp_a` and `temp_b` are each the reading of the last slot that sets them, later slots overriding earlier ones |
| Thermo.DoorTempALastRead | src/firmware.c:321-351 | `temp_a` is "no reading" when no slot read probe A successfully, and otherwise the converted reading of the last slot that did |
| Thermo.DoorTempBLastRead | src/firmware.c:321-351 | `temp_b` is "no reading" when no slot read probe B (with an id other than A's) successfully, and otherwise the converted reading of the last slot that did |
| Thermo.Decide | src/firmware.c:356-364 | a forced mode or a missing A or B reading keeps the mode; otherwise the `int8_t` difference B - A above `door_temp_diff_open` opens, below `door_temp_diff_close` closes, and otherwise keeps the mode |
| Thermo.WideThresholds | src/firmware.c:359-363 | since the difference is `int8_t`, an open threshold of 127 or more never switches the door to OPEN, and a close threshold of 128 or more closes whenever the door does not open |
| Thermo.OneDegreeAboveOpens | src/firmware.c:356-361 | a difference one degree above the open threshold opens the door |
| Thermo.ThermoTick | src/firmware.c:467-495 | on the 1.4 s edge SCAN_DONE goes to START, START_DONE to FINISH, FINISH_DONE to SCAN after ten cycles and to START otherwise; the cycle counter stays within 0..10 |
| Thermo.MainStep | src/firmware.c:676-691 | the main loop marks exactly the released SCAN, START or FINISH phase done |
| Thermo.BackToScan | src/firmware.c:471-494 | from START with cycle c, the pipeline runs START/FINISH rounds and returns to SCAN with the counter reset after exactly 11 - c rounds |
| Thermo.Probes.constructor | src/firmware.c:255-256 | no probes known, an all-zero table, phase SCAN and cycle 0 |
| Thermo.Probes.HandleTick | src/firmware.c:468-495 | `handle_thermo` moves the phase and cycle as `ThermoTick` |
| Thermo.Probes.MarkDone | src/firmware.c:676-691 | the main loop's phase update is `MainStep` |
| Thermo.Probes.Scan | src/firmware.c:278-307 | the first accepted search replaces count and ROM buffer, none keeps both; the scan is counted, every rejected successful search counts a warning and every failed one an error; the LED is off afterwards |
| Thermo.Probes.StartRead | src/firmware.c:309-317 | the conversions started are `RomCodes(rom, romCount)` |
| Thermo.Probes.VisitSlot | src/firmware.c:326-353 | one loop iteration updates slot i as `SlotAfter`, leaves every other slot unchanged, counts the read and its failure, and advances `temp_a` / `temp_b` |
| Thermo.Probes.UpdateTable | src/firmware.c:319-354 | the table loop updates every slot in place as `SlotAfter`, counts `temp_rom_count` reads and the failed ones, and yields `DoorTemps` |
| Thermo.Probes.Finish | src/firmware.c:319-365 | `finish_temp_read`: table and counters as `UpdateTable`, then the door mode as `Decide` on this pass's A and B readings |
| Firmware.TimerTick | src/firmware.c:575-586 | the tick interrupt runs LEDs, thermometry, regulator and door on the same tick value, each as its step function, then increments the tick; the regulator's requested TWI transaction is started with the current value of its target, and with no request the bus is left alone |
| Firmware.RunPhase | src/firmware.c:676-691 | a scan installs the first accepted search (or keeps the probe list), counts the scan, its warnings and errors, and leaves the LED off; a start returns the ROM codes of the known probes; a finish updates every slot as `SlotAfter`, counts the reads and failures, and decides the door mode from this pass's A and B readings; each of these effects happens only in its phase, and the phase is marked done |
| Firmware.MainLoopPass | src/firmware.c:662-707 | a pending record is announced with four 350 ms blinks, written to EEPROM and reloaded as `Loaded`; with none pending the store and the alert are unchanged; then the released phase has the effect `RunPhase` states (`PhaseEffect` and the table), using the configuration now in RAM, and the PORTC outputs follow the resulting door mode |
| OneWire.WriteSlot | src/onewire.c:65-75 | a 1 is written as a short low pulse (8 us busy-wait), a 0 as a long one (80 us preemptible wait) |
| OneWire.SlotBitsOfWriteSlots | src/onewire.c:65-75 | a device decoding the write slots of a bit sequence reads exactly that sequence |
| OneWire.Mask | src/onewire.c:92 | the loop mask is nonzero for the eight bit positions and has shifted out to 0 after them |
| OneWire.MaskShift | src/onewire.c:92 | `i <<= 1` moves the mask to the next bit |
| OneWire.BitsOf | src/onewire.c:92-93 | the bits of a byte, least significant first: bit k is `data & (1 << k) != 0` |
| OneWire.ByteRoundTrip | src/onewire.c:132-133 | OR-ing the bits of a byte back into their positions gives the byte |
| OneWire.Bus.PreemptibleWait | src/firmware.c:263-276 | `preempt_wait_us` records the wait and leaves interrupts disabled |
| OneWire.Bus.Init | src/onewire.c:23-54 | `onewireInit` emits the reset pulse, samples the presence level and recovers; it returns ONEWIRE_ERROR_COMM exactly when the sampled line is high and ONEWIRE_ERROR_OK exactly when it is low, and restores the interrupt flag |
| OneWire.Bus.WriteBit | src/onewire.c:57-80 | `onewireWriteBit` emits the slot of `bit != 0`, returns 1 for a nonzero bit and 0 otherwise, and restores the interrupt flag |
| OneWire.Bus.Write | src/onewire.c:83-96 | `onewireWrite` emits exactly the eight write slots of the byte's bits, least significant first, and restores the interrupt flag |
| OneWire.Bus.ReadBit | src/onewire.c:99-119 | `onewireReadBit` consumes one sampled level, returns 1 if it is high and 0 otherwise, and restores the interrupt flag |
| OneWire.Bus.Read | src/onewire.c:122-138 | `onewireRead` consumes eight levels and returns the byte with bit k set exactly when the k-th level read was high |
| OneWire.WriteStep | src/onewire.c:92-93 | `data & i` in iteration k is bit k of the byte, so one more slot extends the trace by the next bit |
| OneWire.ReadStep | src/onewire.c:132-133 | `data \|= bit * i` in iteration k puts the k-th sampled level in bit k |
| OneWire.ReadBackWritten | src/onewire.c:83-138 | a device that answers the read slots with the bits it read from `onewireWrite(d)` makes `onewireRead` return `d` |
| OneWire.AssembleIsWeight | src/onewire.c:132-133 | the byte assembled by OR is the sum of `b_k * 2^k` over the eight levels read |
| HostApp.CompTemp | src/app.c:83-100 | 0 for two empty slots, 1 when only the first is empty or both are valid with id1 > id2, -1 when only the second is empty or both are valid with id1 <= id2 |
| HostApp.CompTempAntisymmetric | src/app.c:94-97 | `comp_temp(a, b) == -comp_temp(b, a)` exactly unless both are valid with equal ids |
| HostApp.ValidPrefix | src/app.c:204-206 | the print loop visits the valid entries before the first empty slot |
| HostApp.SortedPrintsAllValid | src/app.c:199-210 | in a table ordered by `comp_temp`, every valid entry precedes every empty slot, ids ascend, and the print loop visits exactly the valid entries |
| HostApp.DisplayDegrees | src/app.c:47-49 | the shifts cancel in 32-bit `int`, so the printed integer is `(int16_t)t / 16` truncated toward zero, within -2048..2047 |
| HostApp.DisplayAgreesWithProbe | src/app.c:47-49 | where the firmware's door value fits `int8_t`, the host prints the same degrees |
| HostApp.Shown | src/app.c:204-210 | the printed values are the displayed degrees of the visited entries, in order |
| HostApp.PrintTemps | src/app.c:204-211 | the print loop appends the degrees of exactly the entries before the first empty slot |
| HostApp.TranslateError | src/app.c:11-39 | no message exactly for COMPLETED, "Neznamy status" exactly for a status outside 0..6, a fixed text for each listed failure |
| HostApp.MessageIdentifiesStatus | src/app.c:11-39 | two listed statuses have the same message exactly when they are equal |
| HostApp.SelectCommand | src/app.c:131-141 | the request is one of VOLT, TEMP, CFG_READ, CFG_WRITE, and TEMP without arguments |
| HostApp.SelectCommandWords | src/app.c:133-141 | "volt", "cr", "wdc" select their requests whatever follows; any other first word selects TEMP |
| HostApp.Attempt1 | src/app.c:146-161 | an attempt fetches the response only after the command completed, and fails exactly when one of its transfers fails |
| HostApp.RetrySchedule | src/app.c:145-168 | one command per attempt, at most three, stopping at the first success; one device reset exactly when the first two attempts both failed |
| HostApp.Exchange | src/app.c:143-173 | the retry loop produces the schedule of `RetryEvents`; data is obtained exactly when some attempt succeeds; on failure the reported status is that of the last transfer and has a message |

## Left out

- Timing. Microsecond delays, `preempt_wait_us` (beyond enabling interrupts and disabling them again), `_delay_us` / `_delay_ms`, timers 0 to 2, `init()`, the watchdog and `init_wdt_disable` are not modelled. A 1-Wire slot is the order of its pin actions, with the delay lengths kept as labels.
- Register-level I/O. The three register writes that open every 1-Wire slot are one `PullLow` action. TWCR is reduced to the bits the handler sets. PORTB, DDRB and PINB appear only through the trace. SREG is reduced to its I bit.
- Concurrency. `cli` / `sei` and any interleaving of the tick, TWI and USB interrupts with the main loop are not modelled. Each handler and each main-loop pass is one atomic step.
- The DS18B20 library (`ds18b20search`, `ds18b20convert`, `ds18b20read`, in `ds18b20.h` and `romsearch.h`) is not part of this model. Its outcomes are parameters. `Probes.Scan` requires that a successful search reports at most 14 probes in a 112-byte buffer, which is what the library does with the buffer size it is given.
- The USB driver (`usbdrv`: `usbPoll`, `usbMsgPtr`, the transmission of the reply record) is not part of this model. Only the returned length and which record is selected are modelled.
- EEPROM access (`eeprom_read_block` / `eeprom_write_block`) is an assignment of the byte sequence.
- Host program:
  - libusb setup, transfer submission and `transfer_cb` are the per-attempt statuses of `Attempt`.
  - `usleep`, `time`, `sprintf` and `printf` are not modelled.
  - `qsort` is represented by the order it establishes (`SortedByComp`).
  - The `/ 16.0` double division is modelled by its integer part, since the value is printed through `(int)`.
  - `convert_voltage`, `convert_current` and the printing of the voltage and configuration reports are not modelled: they are floating-point formatting only.
  - The `actual_length == 0` check is not modelled.
- HostApp.Exchange: requires exactly three attempt outcomes. The loop makes at most three attempts, and the outcomes of attempts after a success are ignored.
- `ONEWIRE_AUTO_CLI` is treated as undefined, as in the firmware build. The `cli()` in each primitive is absent.
- Door.DoorController: `door_countdown` is an `int16_t` in the source and an unbounded `int` in the model. `DoorInv` shows it stays within 0..699, so no overflow arises.
- The `int8_t` door snapshot in the debug record stores `door_countdown` narrowed to `int8_t` (`ToInt8`). The values above 127 that the countdown reaches wrap, as in the source.
