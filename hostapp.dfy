/**
 * The host-side reporting tool: the ordering `comp_temp` hands to `qsort`,
 * the integer part of a displayed temperature, the libusb status messages,
 * the choice of request code from the command line, the three-attempt
 * exchange with the device, and the loop that prints the sorted probe
 * temperatures up to the first empty slot.
 */
module HostApp {
  import opened CTypes
  import Thermo
  import Commands

  type TempData = Thermo.TempData

  /** `t->valid` as C tests it: any nonzero byte. */
  predicate Valid(t: TempData) {
    t.valid != 0
  }

  /**
   * `comp_temp`: empty slots sort after valid ones, valid ones by id. It
   * never answers 0 for two valid entries, so equal ids compare as -1 both
   * ways round.
   */
  function CompTemp(t1: TempData, t2: TempData): (r: int)
    ensures r == 0 <==> !Valid(t1) && !Valid(t2)
    ensures r == 1 <==> (!Valid(t1) && Valid(t2)) || (Valid(t1) && Valid(t2) && t1.id > t2.id)
    ensures r == -1 <==> Valid(t1) && (!Valid(t2) || t1.id <= t2.id)
  {
    if !Valid(t1) then
      if !Valid(t2) then 0 else 1
    else if !Valid(t2) then -1
    else if t1.id > t2.id then 1
    else -1
  }

  /** `comp_temp` is antisymmetric exactly when it does not see two valid entries with the same id. */
  lemma CompTempAntisymmetric(a: TempData, b: TempData)
    ensures CompTemp(a, b) == -CompTemp(b, a) <==> !(Valid(a) && Valid(b) && a.id == b.id)
  {
  }

  /** What `qsort` with `comp_temp` guarantees of its output: no pair out of order. */
  predicate SortedByComp(s: seq<TempData>) {
    forall i, j :: 0 <= i < j < |s| ==> CompTemp(s[i], s[j]) <= 0
  }

  /** The valid entries of a table, in table order. */
  function Valids(s: seq<TempData>): (v: seq<TempData>)
    ensures |v| <= |s|
    ensures forall k :: 0 <= k < |v| ==> Valid(v[k])
  {
    if s == [] then []
    else (if Valid(s[0]) then [s[0]] else []) + Valids(s[1..])
  }

  /** The entries before the first empty slot: what the print loop visits. */
  function ValidPrefix(s: seq<TempData>): (p: seq<TempData>)
    ensures |p| <= |s| && p == s[..|p|]
    ensures forall k :: 0 <= k < |p| ==> Valid(p[k])
    ensures |p| == |s| || !Valid(s[|p|])
  {
    if s == [] || !Valid(s[0]) then []
    else
      var rest := ValidPrefix(s[1..]);
      assert [s[0]] + rest == s[..|rest| + 1];
      assert |rest| + 1 == |s| || (|rest| + 1 < |s| && s[|rest| + 1] == s[1..][|rest|]);
      [s[0]] + rest
  }

  /**
   * In a table sorted by `comp_temp` every valid entry comes before every
   * empty slot and the ids ascend (strictly when they are distinct), so the
   * print loop shows exactly the valid entries.
   */
  lemma {:induction false} SortedPrintsAllValid(s: seq<TempData>)
    requires SortedByComp(s)
    ensures ValidPrefix(s) == Valids(s)
    ensures forall i, j :: 0 <= i < j < |s| && Valid(s[j]) ==> Valid(s[i]) && s[i].id <= s[j].id
  {
    if s != [] {
      assert SortedByComp(s[1..]) by {
        forall i, j | 0 <= i < j < |s[1..]| ensures CompTemp(s[1..][i], s[1..][j]) <= 0 {
          assert s[1..][i] == s[i + 1] && s[1..][j] == s[j + 1];
        }
      }
      SortedPrintsAllValid(s[1..]);
      if !Valid(s[0]) {
        assert forall j :: 0 < j < |s| ==> !Valid(s[j]) by {
          forall j | 0 < j < |s| ensures !Valid(s[j]) {
            assert CompTemp(s[0], s[j]) <= 0;
          }
        }
        NoValids(s[1..]);
      }
    }
  }

  lemma {:induction false} NoValids(s: seq<TempData>)
    requires forall k :: 0 <= k < |s| ==> !Valid(s[k])
    ensures Valids(s) == []
  {
    if s != [] {
      NoValids(s[1..]);
    }
  }

  /**
   * `(int)convert_temperature(t)`: `((int16_t)t << 4) >> 4` is computed in the
   * host's 32-bit `int`, so the shifts cancel (no 12-bit sign extension takes
   * place); dividing by 16 and casting back to `int` truncates toward zero.
   */
  function DisplayDegrees(t: uint16): (d: int)
    ensures d == TruncDiv(ToInt16(t), 16)
    ensures -0x800 <= d < 0x800
  {
    var shifted := ToInt16(t) * 16;
    // `>>` on a negative `int` is an arithmetic shift: a floor division.
    var restored := shifted / 16;
    TruncDiv(restored, 16)
  }

  /** Where the firmware's door reading is in `int8_t` range, the host shows the same degrees. */
  lemma DisplayAgreesWithProbe(t: uint16)
    requires -0x80 <= TruncDiv(ToInt16(t), 16) < 0x80
    ensures DisplayDegrees(t) == Thermo.ProbeTemp(t)
  {
  }

  /** The temperatures the print loop appends to the line, in order. */
  function Shown(s: seq<TempData>): (d: seq<int>)
    ensures |d| == |s|
    ensures forall k :: 0 <= k < |s| ==> d[k] == DisplayDegrees(s[k].temperature)
  {
    if s == [] then [] else [DisplayDegrees(s[0].temperature)] + Shown(s[1..])
  }

  /** The print loop of the temperature report: stops at the first empty slot. */
  method PrintTemps(data: seq<TempData>) returns (shown: seq<int>)
    ensures shown == Shown(ValidPrefix(data))
  {
    shown := [];
    var i := 0;
    while i < |data| && Valid(data[i])
      invariant 0 <= i <= |data|
      invariant forall k :: 0 <= k < i ==> Valid(data[k])
      invariant |shown| == i
      invariant forall k :: 0 <= k < i ==> shown[k] == DisplayDegrees(data[k].temperature)
    {
      shown := shown + [DisplayDegrees(data[i].temperature)];
      i := i + 1;
    }
    assert data[..i] == ValidPrefix(data);
  }

  /** `enum libusb_transfer_status`. */
  const LIBUSB_TRANSFER_COMPLETED: int := 0
  const LIBUSB_TRANSFER_ERROR: int := 1
  const LIBUSB_TRANSFER_TIMED_OUT: int := 2
  const LIBUSB_TRANSFER_CANCELLED: int := 3
  const LIBUSB_TRANSFER_STALL: int := 4
  const LIBUSB_TRANSFER_NO_DEVICE: int := 5
  const LIBUSB_TRANSFER_OVERFLOW: int := 6

  const UNKNOWN_STATUS: string := "Neznamy status"

  /** `translate_error`: no message for a completed transfer, a fixed text per known failure. */
  function TranslateError(status: int): (m: Option<string>)
    ensures m.None? <==> status == LIBUSB_TRANSFER_COMPLETED
    ensures m == Some(UNKNOWN_STATUS) <==> !(0 <= status <= 6)
  {
    if status == LIBUSB_TRANSFER_COMPLETED then None
    else if status == LIBUSB_TRANSFER_ERROR then Some("Chyba")
    else if status == LIBUSB_TRANSFER_TIMED_OUT then Some("Vyprsel cas")
    else if status == LIBUSB_TRANSFER_CANCELLED then Some("Zruseno")
    else if status == LIBUSB_TRANSFER_STALL then Some("Chyba prenosu dat")
    else if status == LIBUSB_TRANSFER_NO_DEVICE then Some("Odpojeno")
    else if status == LIBUSB_TRANSFER_OVERFLOW then Some("Preteceni datoveho bufferu")
    else Some(UNKNOWN_STATUS)
  }

  /** The message names the status: two known statuses with the same message are the same status. */
  lemma MessageIdentifiesStatus(a: int, b: int)
    requires 0 <= a <= 6 && 0 <= b <= 6
    ensures TranslateError(a) == TranslateError(b) <==> a == b
  {
    if a != b && TranslateError(a).Some? && TranslateError(b).Some? {
      var ma, mb := TranslateError(a).value, TranslateError(b).value;
      assert ma[0] != mb[0] || ma[1] != mb[1] || |ma| != |mb|;
    }
  }

  /** The request code chosen from `argv[1..]`: the report of probe temperatures by default. */
  function SelectCommand(args: seq<string>): (cmd: byte)
    ensures cmd in {Commands.CMD_VOLT, Commands.CMD_TEMP, Commands.CMD_CFG_READ, Commands.CMD_CFG_WRITE}
    ensures args == [] ==> cmd == Commands.CMD_TEMP
  {
    if |args| > 0 then
      if args[0] == "volt" then Commands.CMD_VOLT
      else if args[0] == "cr" then Commands.CMD_CFG_READ
      else if args[0] == "wdc" then Commands.CMD_CFG_WRITE
      else Commands.CMD_TEMP
    else Commands.CMD_TEMP
  }

  /** The command-line word that selects a request code. */
  function CommandWord(cmd: byte): string {
    if cmd == Commands.CMD_VOLT then "volt"
    else if cmd == Commands.CMD_CFG_READ then "cr"
    else if cmd == Commands.CMD_CFG_WRITE then "wdc"
    else ""
  }

  /**
   * Each non-default request has its word, and the first argument decides
   * alone: any word other than the three gives the temperature report.
   */
  lemma SelectCommandWords(cmd: byte, args: seq<string>)
    ensures cmd in {Commands.CMD_VOLT, Commands.CMD_CFG_READ, Commands.CMD_CFG_WRITE} ==>
              SelectCommand([CommandWord(cmd)] + args) == cmd
    ensures |args| > 0 && args[0] !in {"volt", "cr", "wdc"} ==> SelectCommand(args) == Commands.CMD_TEMP
  {
    if cmd == Commands.CMD_VOLT {
      assert ([CommandWord(cmd)] + args)[0] == "volt";
    } else if cmd == Commands.CMD_CFG_READ {
      assert ([CommandWord(cmd)] + args)[0] == "cr";
      assert "cr" != "volt";
    } else if cmd == Commands.CMD_CFG_WRITE {
      assert ([CommandWord(cmd)] + args)[0] == "wdc";
      assert "wdc" != "volt" && "wdc" != "cr";
    }
  }

  /** What libusb reports for one attempt's two transfers (the second is only made when the first completes). */
  datatype Attempt = Attempt(command: int, response: int)

  /** The externally visible steps of the exchange. */
  datatype HostEvent = SendCommand | FetchResponse | ResetDevice

  predicate Succeeds(a: Attempt) {
    a.command == LIBUSB_TRANSFER_COMPLETED && a.response == LIBUSB_TRANSFER_COMPLETED
  }

  /** Some attempt of the three would get through. */
  predicate AnySucceeds(outcomes: seq<Attempt>) {
    exists r :: 0 <= r < |outcomes| && Succeeds(outcomes[r])
  }

  /** The status of the last transfer a failed attempt made. */
  function FailedStatus(a: Attempt): int {
    if a.command != LIBUSB_TRANSFER_COMPLETED then a.command else a.response
  }

  /** How often an event occurs in a run. */
  function Count(e: seq<HostEvent>, x: HostEvent): nat {
    if e == [] then 0 else (if e[0] == x then 1 else 0) + Count(e[1..], x)
  }

  lemma {:induction false} CountConcat(a: seq<HostEvent>, b: seq<HostEvent>, x: HostEvent)
    ensures Count(a + b, x) == Count(a, x) + Count(b, x)
  {
    if a == [] {
      assert a + b == b;
    } else {
      assert (a + b)[1..] == a[1..] + b;
      CountConcat(a[1..], b, x);
    }
  }

  lemma CountsOfRetries(s0: seq<HostEvent>, s1: seq<HostEvent>, s2: seq<HostEvent>, x: HostEvent)
    ensures Count(s0 + (s1 + ([ResetDevice] + s2)), x) == Count(s0, x) + Count(s1, x) + Count([ResetDevice], x) + Count(s2, x)
  {
    CountConcat([ResetDevice], s2, x);
    CountConcat(s1, [ResetDevice] + s2, x);
    CountConcat(s0, s1 + ([ResetDevice] + s2), x);
  }

  /** The transfers of one attempt: the response is only fetched after the command completed. */
  function Steps(a: Attempt): seq<HostEvent> {
    if a.command == LIBUSB_TRANSFER_COMPLETED then [SendCommand, FetchResponse] else [SendCommand]
  }

  /** An attempt sends its command once and never resets the device. */
  lemma StepsCount(a: Attempt)
    ensures Count(Steps(a), SendCommand) == 1 && Count(Steps(a), ResetDevice) == 0
  {
    if a.command == LIBUSB_TRANSFER_COMPLETED {
      assert Steps(a)[1..] == [FetchResponse] && [FetchResponse][1..] == [];
    } else {
      assert Steps(a)[1..] == [];
    }
  }

  /** The steps of the retry loop from attempt `retry` on. */
  function RetryEvents(outcomes: seq<Attempt>, retry: nat): seq<HostEvent>
    requires retry <= |outcomes| == 3
    decreases 3 - retry
  {
    if retry == 3 then []
    else if Succeeds(outcomes[retry]) then Steps(outcomes[retry])
    else Steps(outcomes[retry]) + ResetAfter(retry) + RetryEvents(outcomes, retry + 1)
  }

  /** The device is reset after the second attempt fails. */
  function ResetAfter(retry: nat): seq<HostEvent> {
    if retry == 1 then [ResetDevice] else []
  }

  /** The number of attempts the loop makes: up to and including the first success, at most 3. */
  function Tries(outcomes: seq<Attempt>): nat
    requires |outcomes| == 3
  {
    if Succeeds(outcomes[0]) then 1 else if Succeeds(outcomes[1]) then 2 else 3
  }

  /**
   * The retry schedule: one command per attempt, never more than three, and a
   * device reset exactly when the first two attempts both failed.
   */
  lemma RetrySchedule(outcomes: seq<Attempt>)
    requires |outcomes| == 3
    ensures Count(RetryEvents(outcomes, 0), SendCommand) == Tries(outcomes) <= 3
    ensures Count(RetryEvents(outcomes, 0), ResetDevice) == if Succeeds(outcomes[0]) || Succeeds(outcomes[1]) then 0 else 1
  {
    var o := outcomes;
    var s0, s1, s2 := Steps(o[0]), Steps(o[1]), Steps(o[2]);
    StepsCount(o[0]);
    StepsCount(o[1]);
    StepsCount(o[2]);
    if Succeeds(o[0]) {
    } else if Succeeds(o[1]) {
      assert RetryEvents(o, 0) == s0 + s1;
      CountConcat(s0, s1, SendCommand);
      CountConcat(s0, s1, ResetDevice);
    } else {
      assert RetryEvents(o, 2) == s2;
      assert RetryEvents(o, 1) == s1 + [ResetDevice] + s2;
      AppendAssoc(s1, [ResetDevice], s2);
      assert RetryEvents(o, 0) == s0 + (s1 + ([ResetDevice] + s2));
      CountsOfRetries(s0, s1, s2, SendCommand);
      CountsOfRetries(s0, s1, s2, ResetDevice);
    }
  }

  /** A failed attempt, with its reset, is the head of the run from that attempt on. */
  lemma RetryAdvance(outcomes: seq<Attempt>, retry: nat, before: seq<HostEvent>, after: seq<HostEvent>)
    requires retry < |outcomes| == 3 && !Succeeds(outcomes[retry])
    requires after == before + Steps(outcomes[retry]) + ResetAfter(retry)
    ensures after + RetryEvents(outcomes, retry + 1) == before + RetryEvents(outcomes, retry)
  {
    var steps, reset, rest := Steps(outcomes[retry]), ResetAfter(retry), RetryEvents(outcomes, retry + 1);
    assert RetryEvents(outcomes, retry) == steps + reset + rest;
    AppendAssoc(before, steps + reset, rest);
  }

  lemma AppendAssoc<T>(a: seq<T>, b: seq<T>, c: seq<T>)
    ensures (a + b) + c == a + (b + c)
  {
  }

  /**
   * One attempt of the retry loop: the command transfer, and the response
   * transfer only when the command completed. `fail` is `transfer_fail` after
   * the last transfer made, `status` that transfer's status.
   */
  method Attempt1(a: Attempt) returns (steps: seq<HostEvent>, fail: bool, status: int)
    ensures steps == Steps(a)
    ensures fail <==> !Succeeds(a)
    ensures fail ==> status == FailedStatus(a)
  {
    steps := [SendCommand];
    status := a.command;
    fail := status != LIBUSB_TRANSFER_COMPLETED;
    if !fail {
      steps := steps + [FetchResponse];
      status := a.response;
      fail := status != LIBUSB_TRANSFER_COMPLETED;
    }
  }

  /**
   * The retry loop of `main`: `transfer_fail` follows the status of the last
   * transfer, and `gotData` stands for a non-null `response_data`.
   */
  method Exchange(outcomes: seq<Attempt>) returns (events: seq<HostEvent>, fail: bool, status: int, gotData: bool)
    requires |outcomes| == 3
    ensures events == RetryEvents(outcomes, 0)
    ensures gotData <==> !fail
    ensures !fail <==> AnySucceeds(outcomes)
    ensures fail ==> status == FailedStatus(outcomes[2]) && TranslateError(status).Some?
  {
    events, fail, status, gotData := [], false, LIBUSB_TRANSFER_COMPLETED, false;
    ghost var whole := RetryEvents(outcomes, 0);
    var retry := 0;
    assert events + RetryEvents(outcomes, retry) == whole;
    while retry < 3
      invariant 0 <= retry <= 3
      invariant !gotData ==> events + RetryEvents(outcomes, retry) == whole
      invariant !gotData ==> forall r :: 0 <= r < retry ==> !Succeeds(outcomes[r])
      invariant !gotData && retry > 0 ==> fail && status == FailedStatus(outcomes[retry - 1])
      invariant gotData ==> events == whole && !fail && AnySucceeds(outcomes)
      decreases 3 - retry
    {
      var steps;
      steps, fail, status := Attempt1(outcomes[retry]);
      if !fail {
        events := events + steps;
        gotData := true;
        assert Succeeds(outcomes[retry]);
        break;
      }
      ghost var before := events;
      events := events + steps;
      if retry == 1 {
        events := events + [ResetDevice];
      }
      RetryAdvance(outcomes, retry, before, events);
      retry := retry + 1;
    }
  }
}
