/**
 * `struct debug_data`: eight 32-bit event counters, incremented by the
 * handlers as events occur and never reset, plus a snapshot of the door mode
 * and countdown as signed bytes, refreshed when the host asks for it.
 */
module Debug {
  import opened CTypes

  /** `sizeof(struct debug_data)`: eight `uint32_t` and two `int8_t`. */
  const DEBUG_DATA_SIZE: byte := 34

  class DebugData {
    var usbPolls: uint32
    var usbReqs: uint32
    var usbReqErrors: uint32
    var tempScans: uint32
    var tempScanWarns: uint32
    var tempScanErrors: uint32
    var tempReads: uint32
    var tempReadErrors: uint32
    var doorAction: int8
    var doorCountdown: int8

    constructor ()
      ensures usbPolls == 0 && usbReqs == 0 && usbReqErrors == 0
      ensures tempScans == 0 && tempScanWarns == 0 && tempScanErrors == 0
      ensures tempReads == 0 && tempReadErrors == 0
      ensures doorAction == 0 && doorCountdown == 0
    {
      usbPolls, usbReqs, usbReqErrors := 0, 0, 0;
      tempScans, tempScanWarns, tempScanErrors := 0, 0, 0;
      tempReads, tempReadErrors := 0, 0;
      doorAction, doorCountdown := 0, 0;
    }

    /** `ISR(TIMER2_OVF_vect)`: after `usbPoll` (not part of this model) the poll counter is incremented. */
    method CountPoll()
      modifies this`usbPolls
      ensures usbPolls == Inc32(old(usbPolls))
    {
      usbPolls := Inc32(usbPolls);
    }
  }
}
