/**
 * `usbFunctionSetup`: the control-request dispatcher run from the USB poll
 * interrupt. Each known request code selects a record for the driver to send
 * back verbatim (only its length and which record it is are modelled; the
 * driver itself is not part of this model), or arms the configuration write
 * cursor; an unknown code is counted as an error and answered with length 0.
 */
module Commands {
  import opened CTypes
  import Config
  import Debug
  import Door
  import Thermo

  /** `enum command`, plus the debug read code used by the firmware. */
  const CMD_DBG_READ: byte := 1
  const CMD_VOLT: byte := 2
  const CMD_TEMP: byte := 3
  const CMD_CFG_READ: byte := 4
  const CMD_CFG_WRITE: byte := 5

  /** Sizes of the reply records: `struct volt_response` (6) and `struct temp_response` (14 x 16). */
  const VOLT_RESPONSE_SIZE: byte := 6
  const TEMP_RESPONSE_SIZE: byte := 224

  /** The record `usbMsgPtr` is left pointing at. */
  datatype Reply = DebugRecord | VoltRecord | TempRecord | ConfigRecord | NoReply

  /**
   * The byte widths of the fields of each reply record, in declaration order;
   * avr-gcc inserts no padding, so a record's size is the sum of its fields.
   */
  const DEBUG_DATA_FIELDS: seq<nat> := [4, 4, 4, 4, 4, 4, 4, 4, 1, 1]  // eight uint32_t counters, door action and countdown
  const VOLT_RESPONSE_FIELDS: seq<nat> := [2, 2, 1, 1]                // voltage, current, relay, padding
  const TEMP_DATA_FIELDS: seq<nat> := [8, 2, 1, 1, 4]                 // id, temperature, age, valid, padding
  const CONFIG_FIELDS: seq<nat> := [8, 8, 1, 1, 1, 1, 1]              // the two door probe ids, then five uint8_t

  function Width(fields: seq<nat>): nat {
    if fields == [] then 0 else fields[0] + Width(fields[1..])
  }

  /** `sizeof` of the record a reply points at; `struct temp_response` is MAX_TEMP_COUNT `struct temp_data`. */
  function RecordSize(r: Reply): nat {
    match r
    case DebugRecord => Width(DEBUG_DATA_FIELDS)
    case VoltRecord => Width(VOLT_RESPONSE_FIELDS)
    case TempRecord => Thermo.MAX_TEMP_COUNT * Width(TEMP_DATA_FIELDS)
    case ConfigRecord => Width(CONFIG_FIELDS)
    case NoReply => 0
  }

  /** The record a request code selects. */
  function ReplyOf(bRequest: byte): Reply {
    if bRequest == CMD_DBG_READ then DebugRecord
    else if bRequest == CMD_VOLT then VoltRecord
    else if bRequest == CMD_TEMP then TempRecord
    else if bRequest == CMD_CFG_READ then ConfigRecord
    else NoReply
  }

  predicate KnownRequest(bRequest: byte) {
    CMD_DBG_READ <= bRequest <= CMD_CFG_WRITE
  }

  /**
   * The length `usbFunctionSetup` returns: the size of the requested record,
   * USB_NO_MSG for a configuration write of exactly one record (a data stage
   * follows), and 0 for a write of any other length or an unknown request.
   */
  function SetupLength(bRequest: byte, wLength: uint16): (len: byte)
    ensures !KnownRequest(bRequest) ==> len == 0
    ensures bRequest == CMD_CFG_WRITE ==>
              (len == Config.USB_NO_MSG <==> wLength == Config.CONFIG_SIZE) && (len == 0 <==> wLength != Config.CONFIG_SIZE)
    ensures KnownRequest(bRequest) && bRequest != CMD_CFG_WRITE ==> 0 < len < Config.USB_NO_MSG
    ensures ReplyOf(bRequest) != NoReply ==> len == RecordSize(ReplyOf(bRequest))
    ensures bRequest == CMD_CFG_READ ==> len == Config.CONFIG_SIZE
  {
    if bRequest == CMD_DBG_READ then Debug.DEBUG_DATA_SIZE
    else if bRequest == CMD_VOLT then VOLT_RESPONSE_SIZE
    else if bRequest == CMD_TEMP then TEMP_RESPONSE_SIZE
    else if bRequest == CMD_CFG_READ then Config.CONFIG_SIZE
    else if bRequest == CMD_CFG_WRITE then (if wLength != Config.CONFIG_SIZE then 0 else Config.USB_NO_MSG)
    else 0
  }

  /**
   * `usbFunctionSetup` with the request's `bRequest` and `wLength`: every
   * request is counted; the debug read refreshes the door snapshot first
   * (the countdown narrowed to `int8_t`); the configuration write arms the
   * cursor as `handle_cfg_write_request` does; an unknown request is also
   * counted as an error.
   */
  method Setup(bRequest: byte, wLength: uint16, debug: Debug.DebugData, store: Config.ConfigStore, door: Door.DoorController)
    returns (len: byte, reply: Reply)
    requires store.Valid()
    modifies debug`usbReqs, debug`usbReqErrors, debug`doorAction, debug`doorCountdown, store`cursor
    ensures store.Valid() && len == SetupLength(bRequest, wLength)
    ensures debug.usbReqs == Inc32(old(debug.usbReqs))
    ensures debug.usbReqErrors == if KnownRequest(bRequest) then old(debug.usbReqErrors) else Inc32(old(debug.usbReqErrors))
    ensures reply == ReplyOf(bRequest) && (reply != NoReply ==> len == RecordSize(reply))
    ensures bRequest == CMD_DBG_READ ==>
              debug.doorAction == Door.ActionCode(door.action) && debug.doorCountdown == ToInt8(door.countdown)
    ensures bRequest != CMD_DBG_READ ==>
              debug.doorAction == old(debug.doorAction) && debug.doorCountdown == old(debug.doorCountdown)
    ensures bRequest == CMD_CFG_WRITE && wLength == Config.CONFIG_SIZE ==> store.cursor == Some(0)
    ensures !(bRequest == CMD_CFG_WRITE && wLength == Config.CONFIG_SIZE) ==> store.cursor == old(store.cursor)
  {
    debug.usbReqs := Inc32(debug.usbReqs);
    reply := NoReply;
    if bRequest == CMD_DBG_READ {
      debug.doorAction := Door.ActionCode(door.action);
      debug.doorCountdown := ToInt8(door.countdown);
      return Debug.DEBUG_DATA_SIZE, DebugRecord;
    } else if bRequest == CMD_VOLT {
      return VOLT_RESPONSE_SIZE, VoltRecord;
    } else if bRequest == CMD_TEMP {
      return TEMP_RESPONSE_SIZE, TempRecord;
    } else if bRequest == CMD_CFG_READ {
      return Config.CONFIG_SIZE, ConfigRecord;
    } else if bRequest == CMD_CFG_WRITE {
      len := store.HandleWriteRequest(wLength);
      return;
    }
    debug.usbReqErrors := Inc32(debug.usbReqErrors);
    len := 0;
  }
}
