/**
  * The first AVR iteration of the CD-changer emulator (avclandrv.c), derived
  * from Slonicki's driver: bytes are read and written a field at a time,
  * even parity is counted in the global `parity_bit`, unicast and broadcast
  * frames have separate senders, and every answer is a raw byte array
  * `{type, length, payload...}` with type 0 meaning broadcast.
  *
  * The bus is modelled as in module Bus. In this driver an acknowledge slot a
  * sender reads is `false` on the wire when the receiver acknowledged it, and
  * the broadcast sender drives a `1` into every slot.
  */
module Slonicki {
  import opened Bits
  import opened Bus

  /* ---------------- constants (avclandrv.h, avclandrv.c, sniffer.c) ---------------- */

  const MAXMSGLEN: nat := 32
  /** The address halves `Setup` in sniffer.c assigns: this device is 0x360,
      the head unit 0x190. */
  const CD_ID_1: Byte := 0x03
  const CD_ID_2: Byte := 0x60
  const HU_ID_1: Byte := 0x01
  const HU_ID_2: Byte := 0x90
  const SW_ID: Byte := 0x11

  /* ---------------- AVCLan_Read_Byte ---------------- */

  /** Where a reader stands: the next pulse to consume, and `parity_bit`. */
  datatype Rd = Rd(pos: nat, parity: nat)

  /** A value read off the bus and the reader afterwards. */
  datatype Got = Got(value: nat, next: Rd)

  /**
    * The loop of `AVCLan_Read_Byte` with `length` bits still to come: each
    * short pulse adds one to `bite` and to `parity_bit`; `bite` is shifted
    * left unless that was the last bit.
    */
  function ReadLoop(ws: seq<nat>, pos: nat, length: nat, bite: nat, parity: nat): (r: Step<Got>)
    requires length >= 1
    ensures r.Ok? <==> pos + length <= |ws|
    ensures r.Ok? ==>
      var bits := Classify(ws[pos..pos + length]);
      r.value.value == bite * Pow2(length - 1) + FromBits(bits)
      && r.value.next == Rd(pos + length, parity + Ones(bits))
    decreases length
  {
    if pos >= |ws| then Fail(Starved)
    else
      var d := if ReadsAsOne(ws[pos]) then 1 else 0;
      if length == 1 then
        LeadingBit(ws, pos, 1);
        Ok(Got(bite + d, Rd(pos + 1, parity + d)))
      else
        var r := ReadLoop(ws, pos + 1, length - 1, 2 * (bite + d), parity + d);
        if r.Ok? then
          LeadingBit(ws, pos, length);
          LeadingValue(bite, d, length, FromBits(Classify(ws[pos + 1..pos + length])));
          r
        else r
  }

  /** The first pulse of a window classifies to the window's first bit. */
  lemma LeadingBit(ws: seq<nat>, pos: nat, length: nat)
    requires 1 <= length && pos + length <= |ws|
    ensures var bits := Classify(ws[pos..pos + length]);
      var rest := Classify(ws[pos + 1..pos + length]);
      var d := if ReadsAsOne(ws[pos]) then 1 else 0;
      FromBits(bits) == d * Pow2(length - 1) + FromBits(rest) && Ones(bits) == d + Ones(rest)
  {
    var bits := Classify(ws[pos..pos + length]);
    var rest := Classify(ws[pos + 1..pos + length]);
    var head := [ReadsAsOne(ws[pos])];
    assert bits == head + rest;
    FromBitsAppend(head, rest);
    OnesAppend(head, rest);
    assert head[..0] == [];
  }

  lemma LeadingValue(bite: nat, d: nat, length: nat, rest: nat)
    requires length >= 2
    ensures 2 * (bite + d) * Pow2(length - 2) + rest == bite * Pow2(length - 1) + (d * Pow2(length - 1) + rest)
  {
    assert Pow2(length - 1) == 2 * Pow2(length - 2);
  }

  /** `AVCLan_Read_Byte(length)`: `length` bits, most significant first;
      every `1` also counts into `parity_bit`. */
  function ReadByte(ws: seq<nat>, rd: Rd, length: nat): (r: Step<Got>)
    requires 1 <= length <= 8
    ensures r.Ok? <==> rd.pos + length <= |ws|
    ensures r.Ok? ==>
      var bits := Classify(ws[rd.pos..rd.pos + length]);
      r.value.value == FromBits(bits)
      && r.value.next == Rd(rd.pos + length, rd.parity + Ones(bits))
  {
    var r := ReadLoop(ws, rd.pos, length, 0, rd.parity);
    assert r.Ok? ==> 0 * Pow2(length - 1) == 0;
    r
  }

  /** An `n`-bit value survives the trip through its bits. */
  lemma SmallValue(v: nat, n: nat)
    requires v < Pow2(n)
    ensures FromBits(ToBits(v, n)) == v
  {
    FromToBits(v, n);
    DivModUnique(v, Pow2(n), 0, v);
  }

  /** A single pulse read as a number is 1 for a short pulse and 0 otherwise. */
  lemma SingleBit(ws: seq<nat>, pos: nat)
    requires pos < |ws|
    ensures FromBits(Classify(ws[pos..pos + 1])) == (if ReadsAsOne(ws[pos]) then 1 else 0)
    ensures Ones(Classify(ws[pos..pos + 1])) == (if ReadsAsOne(ws[pos]) then 1 else 0)
  {
    var bits := Classify(ws[pos..pos + 1]);
    assert bits[..0] == [];
  }

  /** Classifying two adjacent windows is classifying their union. */
  lemma SplitWindow(ws: seq<nat>, pos: nat, a: nat, b: nat)
    requires pos + a + b <= |ws|
    ensures Classify(ws[pos..pos + a + b]) == Classify(ws[pos..pos + a]) + Classify(ws[pos + a..pos + a + b])
  {
    var w := ws[pos..pos + a + b];
    ClassifySlice(w, 0, a);
    ClassifySlice(w, a, a + b);
    assert w[0..a] == ws[pos..pos + a];
    assert w[a..a + b] == ws[pos + a..pos + a + b];
    assert Classify(w) == Classify(w)[0..a] + Classify(w)[a..a + b];
  }

  /* ---------------- AVCLan_Read_Message: the fields ---------------- */

  /**
    * `(parity_bit & 1) != AVCLan_Read_Byte(1)`, with `parity_bit` read before
    * the call: the next pulse must carry the parity counted since the
    * counter was last cleared.
    */
  function CheckParity(ws: seq<nat>, rd: Rd, field: FieldName): (r: Step<nat>)
    ensures r.Ok? <==> rd.pos < |ws| && ReadsAsOne(ws[rd.pos]) == (rd.parity % 2 == 1)
    ensures r.Ok? ==> r.value == rd.pos + 1
    ensures r.Fail? ==> r.why == (if rd.pos < |ws| then ParityMismatch(field) else Starved)
  {
    var expected := rd.parity % 2;
    var bit :- ReadByte(ws, rd, 1);
    SingleBit(ws, rd.pos);
    if expected != bit.value then Fail(ParityMismatch(field)) else Ok(bit.next.pos)
  }

  /** A value and the position after its parity bit. */
  datatype Field = Field(value: nat, pos: nat)

  /** `parity_bit = 0`, an `n`-bit field, its parity bit. */
  function ReadChecked(ws: seq<nat>, pos: nat, n: nat, field: FieldName): (r: Step<Field>)
    requires 1 <= n <= 8
    ensures r.Ok? <==> pos + n < |ws| && ReadsAsOne(ws[pos + n]) == ParityBit(Classify(ws[pos..pos + n]))
    ensures r.Ok? ==> r.value == Field(FromBits(Classify(ws[pos..pos + n])), pos + n + 1)
    ensures r.Fail? && pos + n < |ws| ==> r.why == ParityMismatch(field)
  {
    var v := ReadByte(ws, Rd(pos, 0), n);
    FreshRead(ws, pos, n);
    if v.Fail? then Fail(v.why)
    else
      var bits := Classify(ws[pos..pos + n]);
      var c := CheckParity(ws, v.value.next, field);
      ParityRead(ws, pos + n, bits, field);
      if c.Fail? then Fail(c.why) else Ok(Field(v.value.value, c.value))
  }

  /** `ReadByte` from a cleared parity count. */
  lemma FreshRead(ws: seq<nat>, pos: nat, n: nat)
    requires 1 <= n <= 8
    ensures var v := ReadByte(ws, Rd(pos, 0), n);
      (v.Ok? <==> pos + n <= |ws|)
      && (v.Ok? ==> v.value == Got(FromBits(Classify(ws[pos..pos + n])), Rd(pos + n, Ones(Classify(ws[pos..pos + n])))))
  {
  }

  /** `CheckParity` after reading `bits`. */
  lemma ParityRead(ws: seq<nat>, p: nat, bits: seq<bool>, field: FieldName)
    ensures var c := CheckParity(ws, Rd(p, Ones(bits)), field);
      (c.Ok? <==> p < |ws| && ReadsAsOne(ws[p]) == ParityBit(bits))
      && (c.Ok? ==> c.value == p + 1)
      && (c.Fail? && p < |ws| ==> c.why == ParityMismatch(field))
  {
  }

  /** A 12-bit address as its two halves, and the position after its parity bit. */
  datatype Address = Address(hi: nat, lo: nat, pos: nat)

  /** `parity_bit = 0`, a 4-bit and an 8-bit read, one parity bit for both. */
  function ReadAddress(ws: seq<nat>, pos: nat, field: FieldName): (r: Step<Address>)
    ensures r.Ok? <==> pos + 12 < |ws| && ReadsAsOne(ws[pos + 12]) == ParityBit(Classify(ws[pos..pos + 12]))
    ensures r.Ok? ==> r.value == Address(FromBits(Classify(ws[pos..pos + 4])), FromBits(Classify(ws[pos + 4..pos + 12])), pos + 13)
    ensures r.Fail? && pos + 12 < |ws| ==> r.why == ParityMismatch(field)
  {
    var hi :- ReadByte(ws, Rd(pos, 0), 4);
    var lo :- ReadByte(ws, hi.next, 8);
    SplitWindow(ws, pos, 4, 8);
    OnesAppend(Classify(ws[pos..pos + 4]), Classify(ws[pos + 4..pos + 12]));
    assert lo.next.parity % 2 == 1 <==> ParityBit(Classify(ws[pos..pos + 12]));
    var after :- CheckParity(ws, lo.next, field);
    Ok(Address(hi.value, lo.value, after))
  }

  /**
    * The acknowledge slot after a field. On a frame addressed to this device
    * `AVCLan_Send_ACK` waits (for at most 900 ticks) for the sender's pulse
    * and answers it, so a missing pulse is not an error; any other listener
    * reads the slot with `AVCLan_Read_Byte(1)`.
    */
  function AckSlot(ws: seq<nat>, pos: nat, forMe: bool): (r: Step<nat>)
    ensures r.Ok? <==> forMe || pos < |ws|
    ensures r.Ok? ==> r.value == (if pos < |ws| then pos + 1 else pos)
  {
    if forMe then Ok(if pos < |ws| then pos + 1 else pos)
    else
      var slot :- ReadByte(ws, Rd(pos, 0), 1);
      Ok(slot.next.pos)
  }

  /* ---------------- AVCLan_Read_Message: the frame ---------------- */

  /** What `AVCLan_Read_Message` has read up to and including the length
      byte's acknowledge slot; `direction` is the bit it stores in `broadcast`. */
  datatype Header = Header(direction: bool, master1: nat, master2: nat, slave1: nat, slave2: nat,
                           control: nat, length: nat, pos: nat)
  {
    /** `for_me`: the frame is addressed to this device. */
    predicate ForMe()
    {
      slave1 == CD_ID_1 as nat && slave2 == CD_ID_2 as nat
    }
  }

  /** The addressing part of a frame: start bit, direction bit, master and
      slave addresses with their parity bits. */
  datatype Route = Route(direction: bool, master: Address, slave: Address)

  function ReadRoute(ws: seq<nat>): (r: Step<Route>)
    ensures r.Ok? ==> r.value.slave.pos == 28 <= |ws|
  {
    var start :- ReadByte(ws, Rd(0, 0), 1);
    var dir :- ReadByte(ws, start.next, 1);
    var m :- ReadAddress(ws, dir.next.pos, ControllerAddr);
    var s :- ReadAddress(ws, m.pos, PeripheralAddr);
    Ok(Route(dir.value == 1, m, s))
  }

  /** Control and length, each followed by its acknowledge slot, after the
      slave address's acknowledge slot at `pos`. */
  function ReadControl(ws: seq<nat>, pos: nat, forMe: bool): (r: Step<(Field, Field)>)
    requires pos <= |ws|
    ensures r.Ok? ==> r.value.1.pos <= |ws|
  {
    var p1 :- AckSlot(ws, pos, forMe);
    var c :- ReadChecked(ws, p1, 4, ControlBits);
    var p2 :- AckSlot(ws, c.pos, forMe);
    var l :- ReadChecked(ws, p2, 8, LengthByte);
    var p3 :- AckSlot(ws, l.pos, forMe);
    Ok((c, Field(l.value, p3)))
  }

  /** Everything up to and including the length byte's acknowledge slot; the
      slots are answered when the slave address is this device's. */
  function ReadHeader(ws: seq<nat>): (r: Step<Header>)
    ensures r.Ok? ==> r.value.pos <= |ws|
  {
    var route :- ReadRoute(ws);
    var forMe := route.slave.hi == CD_ID_1 as nat && route.slave.lo == CD_ID_2 as nat;
    var cl :- ReadControl(ws, route.slave.pos, forMe);
    Ok(Header(route.direction, route.master.hi, route.master.lo, route.slave.hi, route.slave.lo,
              cl.0.value, cl.1.value, cl.1.pos))
  }

  /** A window of `n` pulses reads as a number below `2^n`. */
  lemma {:induction false} WindowBound(ws: seq<nat>, pos: nat, n: nat)
    requires pos + n <= |ws|
    ensures FromBits(Classify(ws[pos..pos + n])) < Pow2(n)
  {
  }

  /** The payload read so far, and where reading ended or why it stopped. */
  datatype Payload = Payload(buffer: seq<Byte>, end: Step<nat>)

  /**
    * The payload loop from byte `i` on: `parity_bit = 0`, `message[i]` is
    * stored, then its parity bit is checked and its acknowledge slot
    * handled. A byte that fails its parity check stays in the buffer.
    */
  function ReadData(ws: seq<nat>, pos: nat, forMe: bool, length: nat, i: nat, buf: seq<Byte>): (r: Payload)
    requires i <= length <= |buf| && pos <= |ws|
    ensures |r.buffer| == |buf|
    ensures forall j :: 0 <= j < |buf| && !(i <= j < length) ==> r.buffer[j] == buf[j]
    ensures r.end.Ok? ==> r.end.value <= |ws|
    decreases length - i
  {
    if i == length then Payload(buf, Ok(pos))
    else match ReadByte(ws, Rd(pos, 0), 8)
      case Fail(why) => Payload(buf, Fail(why))
      case Ok(b) =>
        WindowBound(ws, pos, 8);
        var buf' := buf[i := b.value];
        match CheckParity(ws, b.next, DataByte(i))
        case Fail(why) => Payload(buf', Fail(why))
        case Ok(after) =>
          match AckSlot(ws, after, forMe)
          case Fail(why) => Payload(buf', Fail(why))
          case Ok(next) =>
            ReadData(ws, next, forMe, length, i + 1, buf')
  }

  /* ---------------- commands and CheckCmd ---------------- */

  /** The `cm...` request codes of avclandrv.h. */
  datatype Command =
    | Null | Status1 | Status2 | Status3 | Status4
    | PlayReq1 | PlayReq2 | PlayReq3 | StopReq | StopReq2
    | Register | Init | Check | PlayIt | Beep
    | NextTrack | PrevTrack | NextDisc | PrevDisc | ScanModeOn | ScanModeOff
  {
    /** Requests `AVCLan_SendAnswer` answers with one template, returning
        what sending it returned. */
    predicate SingleFrame()
    {
      Status1? || Status2? || Status3? || Status4? || Register? || PlayReq1?
    }

    /** The two stop requests, which share one answer. */
    predicate Stops()
    {
      StopReq? || StopReq2?
    }

    /** The second and third play requests, which share one answer. */
    predicate PlaysOn()
    {
      PlayReq2? || PlayReq3?
    }

    /** Requests `AVCLan_SendAnswer` has no case for. */
    predicate Unanswered()
    {
      Null? || NextTrack? || PrevTrack? || NextDisc? || PrevDisc? || ScanModeOn? || ScanModeOff?
    }
  }

  /** The value each command has in `answerReq`. */
  function Code(c: Command): (v: Byte)
    ensures v == 0 <==> c == Null
  {
    match c
    case Null => 0
    case Status1 => 1
    case Status2 => 2
    case Status3 => 3
    case Status4 => 4
    case PlayReq1 => 5
    case PlayReq2 => 6
    case PlayReq3 => 7
    case StopReq => 8
    case StopReq2 => 9
    case Register => 100
    case Init => 101
    case Check => 102
    case PlayIt => 103
    case Beep => 110
    case NextTrack => 120
    case PrevTrack => 121
    case NextDisc => 122
    case PrevDisc => 123
    case ScanModeOn => 130
    case ScanModeOff => 131
  }

  /** Distinct commands have distinct codes. */
  lemma CodeInjective(a: Command, b: Command)
    ensures Code(a) == Code(b) ==> a == b
  {
  }

  /** A recognised-message pattern: a length byte, then that many bytes. */
  predicate IsPattern(cmd: seq<Byte>)
  {
    |cmd| >= 1 && |cmd| == cmd[0] as int + 1
  }

  const stat1: seq<Byte> := [0x4, 0x00, 0x00, 0x01, 0x0A]
  const stat2: seq<Byte> := [0x4, 0x00, 0x00, 0x01, 0x08]
  const stat3: seq<Byte> := [0x4, 0x00, 0x00, 0x01, 0x0D]
  const stat4: seq<Byte> := [0x4, 0x00, 0x00, 0x01, 0x0C]
  const lan_stat1: seq<Byte> := [0x3, 0x00, 0x01, 0x0A]
  const lan_reg: seq<Byte> := [0x3, SW_ID, 0x01, 0x00]
  const lan_init: seq<Byte> := [0x3, SW_ID, 0x01, 0x01]
  const lan_check: seq<Byte> := [0x3, SW_ID, 0x01, 0x20]
  const lan_playit: seq<Byte> := [0x4, SW_ID, 0x01, 0x45, 0x63]
  const play_req1: seq<Byte> := [0x4, 0x00, 0x25, 0x63, 0x80]
  /** The pattern of a build without `__AVENSIS__`. */
  const play_req2: seq<Byte> := [0x6, 0x00, SW_ID, 0x63, 0x42, 0x01, 0x00]
  const play_req3: seq<Byte> := [0x5, 0x00, SW_ID, 0x63, 0x42, 0x41]
  const stop_req: seq<Byte> := [0x5, 0x00, SW_ID, 0x63, 0x43, 0x01]
  const stop_req2: seq<Byte> := [0x5, 0x00, SW_ID, 0x63, 0x43, 0x41]

  /** The `if` chain for frames addressed to this device, in source order. */
  const ForMeTable: seq<(seq<Byte>, Command)> := [
    (stat1, Status1), (stat2, Status2), (stat3, Status3), (stat4, Status4),
    (play_req1, PlayReq1), (play_req2, PlayReq2), (play_req3, PlayReq3),
    (stop_req, StopReq), (stop_req2, StopReq2)]

  /** The `if` chain for all other frames, in source order. */
  const BroadcastTable: seq<(seq<Byte>, Command)> := [
    (lan_playit, PlayIt), (lan_check, Check), (lan_reg, Register),
    (lan_init, Init), (lan_stat1, Status1)]

  predicate WellFormedTable(table: seq<(seq<Byte>, Command)>)
  {
    forall i :: 0 <= i < |table| ==> IsPattern(table[i].0) && table[i].0[0] <= MAXMSGLEN
  }

  lemma TablesWellFormed()
    ensures WellFormedTable(ForMeTable) && WellFormedTable(BroadcastTable)
  {
  }

  /** `CheckCmd`: `message[i]` against pattern byte `i + 1` for each `i` below
      the pattern's length byte, whatever the received frame's length. */
  function CheckCmd(message: seq<Byte>, cmd: seq<Byte>): (r: bool)
    requires IsPattern(cmd) && cmd[0] <= |message|
    ensures r <==> message[..cmd[0]] == cmd[1..]
  {
    CheckFrom(message, cmd, 0)
  }

  function CheckFrom(message: seq<Byte>, cmd: seq<Byte>, i: nat): (r: bool)
    requires IsPattern(cmd) && cmd[0] <= |message| && i <= cmd[0]
    ensures r <==> forall j :: i <= j < cmd[0] ==> message[j] == cmd[j + 1]
    decreases cmd[0] - i
  {
    if i == cmd[0] then true
    else if message[i] != cmd[i + 1] then false
    else CheckFrom(message, cmd, i + 1)
  }

  /** Index of the first table entry that `CheckCmd` accepts, or `|table|`. */
  function FirstMatch(table: seq<(seq<Byte>, Command)>, message: seq<Byte>, from: nat): (k: nat)
    requires WellFormedTable(table) && |message| >= MAXMSGLEN && from <= |table|
    ensures from <= k <= |table|
    ensures forall j :: from <= j < k ==> !CheckCmd(message, table[j].0)
    ensures k < |table| ==> CheckCmd(message, table[k].0)
    decreases |table| - from
  {
    if from == |table| then from
    else if CheckCmd(message, table[from].0) then from
    else FirstMatch(table, message, from + 1)
  }

  /** The command the `if` chain selects: the first matching entry's, else `cmNull`. */
  function Dispatch(table: seq<(seq<Byte>, Command)>, message: seq<Byte>): Command
    requires WellFormedTable(table) && |message| >= MAXMSGLEN
  {
    var k := FirstMatch(table, message, 0);
    if k < |table| then table[k].1 else Null
  }

  /* ---------------- device state ---------------- */

  datatype CdMode = Stop | Play

  /** An answer template: type (0 = broadcast), payload length, payload. */
  predicate IsTemplate(cmd: seq<Byte>)
  {
    |cmd| >= 2 && cmd[1] <= MAXMSGLEN && |cmd| >= 2 + cmd[1]
  }

  /** The payload `AVCLan_SendAnswerFrame` copies out of a template. */
  function PayloadOf(cmd: seq<Byte>): (p: seq<Byte>)
    requires IsTemplate(cmd)
    ensures |p| == cmd[1] <= MAXMSGLEN
  {
    cmd[2..2 + cmd[1]]
  }

  /** A template with its type byte, the length byte, then the payload. */
  function Template(kind: Byte, payload: seq<Byte>): (cmd: seq<Byte>)
    requires |payload| <= MAXMSGLEN
    ensures IsTemplate(cmd) && cmd[0] == kind && cmd[1] == |payload| && PayloadOf(cmd) == payload
    ensures |cmd| == 2 + |payload|
  {
    [kind, |payload| as Byte] + payload
  }

  /** A writable template of the given type whose array holds exactly its payload. */
  predicate Holds(cmd: seq<Byte>, kind: Byte, length: Byte)
  {
    |cmd| == 2 + length && cmd[0] == kind && cmd[1] == length && length <= MAXMSGLEN
  }

  const CMD_CHECK_INIT: seq<Byte> := Template(0x1, [0x00, 0x01, SW_ID, 0x30, 0x00, 0x00])
  const CMD_PLAY_OK4_INIT: seq<Byte> := Template(0x0, [0x63, 0x31, 0xF1, 0x01, 0x28, 0x00, 0x00, 0x00, 0x00, 0x00, 0x80])
  const CMD_STOP2_INIT: seq<Byte> := Template(0x0, [0x63, 0x31, 0xF1, 0x00, 0x30, 0x00, 0x00, 0x00, 0x00, 0x00, 0x80])

  /**
    * The driver's globals that outlive one call: the pending answer, play and
    * CD mode, the packed-BCD play position, `check_timeout`, the three
    * writable templates and the receive buffer `message`.
    */
  datatype Device = Device(
    answerReq: Command,
    playMode: Byte,
    cdMode: CdMode,
    disc: Byte,
    track: Byte,
    min: Byte,
    sec: Byte,
    checkTimeout: Byte,
    check: seq<Byte>,
    playOk4: seq<Byte>,
    stop2: seq<Byte>,
    message: seq<Byte>)
  {
    /** The array sizes, and the type and length bytes the driver never writes. */
    predicate Valid()
    {
      Holds(check, 0x1, 6) && Holds(playOk4, 0x0, 11) && Holds(stop2, 0x0, 11)
      && |message| == MAXMSGLEN
    }
  }

  /* ---------------- AVCLan_Read_Message ---------------- */

  datatype Received = Accepted(header: Header) | Dropped(why: Drop)

  datatype ReadResult = ReadResult(received: Received, next: Device)

  /** The value `AVCLan_Read_Message` returns (it never returns when starved). */
  function ReturnCode(r: Received): nat
  {
    if r.Accepted? then 1 else 0
  }

  /** The `if` chains at the end of `AVCLan_Read_Message`, on a complete frame. */
  function TakeRequest(forMe: bool, d: Device): (d': Device)
    requires d.Valid()
    ensures d'.Valid()
    ensures d'.answerReq == Dispatch(if forMe then ForMeTable else BroadcastTable, d.message)
    ensures d'.check == if !forMe && d'.answerReq == Check then d.check[6 := d.message[3]] else d.check
    ensures d' == d.(answerReq := d'.answerReq, check := d'.check)
  {
    TablesWellFormed();
    var cmd := Dispatch(if forMe then ForMeTable else BroadcastTable, d.message);
    var check := if !forMe && cmd == Check then d.check[6 := d.message[3]] else d.check;
    d.(answerReq := cmd, check := check)
  }

  /**
    * `AVCLan_Read_Message`: the header, the MAXMSGLEN check, the payload into
    * `message`, then the request the frame carries. A dropped frame leaves
    * `answerReq` alone but keeps what it wrote to `message`.
    */
  function ReadMessage(ws: seq<nat>, d: Device): (r: ReadResult)
    requires d.Valid()
    ensures r.next.Valid()
    ensures r.received.Dropped? ==> r.next == d.(message := r.next.message)
    ensures r.received.Accepted? ==>
      r.received.header.length <= MAXMSGLEN && r.next == TakeRequest(r.received.header.ForMe(), d.(message := r.next.message))
  {
    match ReadHeader(ws)
    case Fail(why) => ReadResult(Dropped(why), d)
    case Ok(h) =>
      if h.length > MAXMSGLEN then ReadResult(Dropped(TooLong(h.length)), d)
      else
        var p := ReadData(ws, h.pos, h.ForMe(), h.length, 0, d.message);
        var d' := d.(message := p.buffer);
        match p.end
        case Fail(why) => ReadResult(Dropped(why), d')
        case Ok(_) => ReadResult(Accepted(h), TakeRequest(h.ForMe(), d'))
  }

  /* ---------------- AVCLan_Send_Byte, AVCLan_Send_ParityBit ---------------- */

  /**
    * `AVCLan_Send_Byte(bite, len)`: the low `len` bits of `bite`, most
    * significant first (the byte is first shifted so that they sit at the
    * top); every `1` adds one to `parity_bit`.
    */
  method SendByte(bite: Byte, len: nat, parity: nat) returns (bits: seq<bool>, parity': nat)
    requires 1 <= len <= 8
    ensures bits == ToBits(bite, len)
    ensures parity' == parity + Ones(bits)
  {
    var b: Byte := bite;
    if len != 8 {
      AlignChunk(bite, len);
      b := AlignLeft(bite, len);
    }
    var ones;
    bits, ones := ShiftOutChunk(b, bite, len, [], 0);
    parity' := parity + ones;
  }

  /** `AVCLan_Send_ParityBit`: sends `parity_bit & 1` and clears the counter.
      The bit makes the number of `1`s sent since the last clear even, so any
      field counted into `parity` goes out as its even-parity form. */
  method SendParityBit(parity: nat) returns (bit: bool, parity': nat)
    ensures (parity + (if bit then 1 else 0)) % 2 == 0
    ensures forall field: seq<bool> :: Ones(field) == parity ==> WithParity(field) == field + [bit]
    ensures parity' == 0
  {
    bit := parity % 2 != 0;
    parity' := 0;
  }

  /** An address as the senders write it: `parity_bit = 0`, its 4-bit and
      8-bit halves, then the parity bit, which is the even parity of the 12. */
  method SendAddress(hi: Byte, lo: Byte) returns (bits: seq<bool>)
    ensures bits == WithParity(AddressBits(hi, lo))
  {
    var b1, b2, p;
    b1, p := SendByte(hi, 4, 0);
    b2, p := SendByte(lo, 8, p);
    OnesAppend(b1, b2);
    var bit;
    bit, p := SendParityBit(p);
    bits := b1 + b2 + [bit];
  }

  /** A 4- or 8-bit field after a parity bit was sent (so `parity_bit` is 0),
      then its own parity bit. */
  method SendChecked(v: Byte, len: nat) returns (bits: seq<bool>)
    requires len == 4 || len == 8
    ensures bits == WithParity(ToBits(v, len))
  {
    var b, p := SendByte(v, len, 0);
    var bit;
    bit, p := SendParityBit(p);
    bits := b + [bit];
  }

  /* ---------------- frame layout ---------------- */

  /** The fields of a frame as the senders write them and the reader reads
      them; `length` is the size of `data`. */
  datatype Frame = Frame(direction: bool, master1: nat, master2: nat, slave1: nat, slave2: nat,
                         control: nat, data: seq<Byte>)
  {
    /** Every field fits the bits it is sent in, and the payload fits the buffers. */
    predicate Fits()
    {
      master1 < 16 && master2 < 256 && slave1 < 16 && slave2 < 256 && control < 16 && |data| <= MAXMSGLEN
    }
  }

  /** A 12-bit address sent as its 4-bit and 8-bit halves. */
  function AddressBits(hi: nat, lo: nat): (r: seq<bool>)
    ensures |r| == 12
  {
    ToBits(hi, 4) + ToBits(lo, 8)
  }

  /** Direction bit, master address + parity, slave address + parity. */
  function HeaderBits(f: Frame): (r: seq<bool>)
    ensures |r| == 27
  {
    [f.direction] + WithParity(AddressBits(f.master1, f.master2)) + WithParity(AddressBits(f.slave1, f.slave2))
  }

  /** Each data byte with its parity bit, followed by an acknowledge slot holding `slot`. */
  function DataBits(data: seq<Byte>, slot: bool): (r: seq<bool>)
    ensures |r| == 10 * |data|
  {
    if |data| == 0 then [] else WithParity(ToBits(data[0], 8)) + [slot] + DataBits(data[1..], slot)
  }

  /** A complete transmission after the start bit, every acknowledge slot holding `slot`. */
  function FrameBits(f: Frame, slot: bool): (r: seq<bool>)
    ensures |r| == 44 + 10 * |f.data|
  {
    HeaderBits(f) + [slot] + WithParity(ToBits(f.control, 4)) + [slot]
    + WithParity(ToBits(|f.data|, 8)) + [slot] + DataBits(f.data, slot)
  }

  /** What `AVCLan_SendData` sends: this device to the head unit, control 0xF. */
  function UnicastFrame(data: seq<Byte>): Frame
  {
    Frame(true, CD_ID_1, CD_ID_2, HU_ID_1, HU_ID_2, 0xF, data)
  }

  /** What `AVCLan_SendDataBroadcast` sends: this device to every audio device (0x1FF). */
  function BroadcastFrame(data: seq<Byte>): Frame
  {
    Frame(false, CD_ID_1, CD_ID_2, 0x1, 0xFF, 0xF, data)
  }

  /* ---------------- AVCLan_SendData, AVCLan_SendDataBroadcast ---------------- */

  /** A transmission: the code returned, the wire, and the acknowledgements not read. */
  datatype Tx = Tx(code: nat, wire: seq<bool>, rest: seq<bool>)

  /** The oracle after `n` slots were read. */
  function After(acks: seq<bool>, n: nat): seq<bool>
  {
    if n <= |acks| then acks[n..] else []
  }

  /** The data loop of `AVCLan_SendData` from byte `i` on; slot `3 + i`
      follows byte `i`, and the first NAK returns 4. */
  function SendBytes(data: seq<Byte>, i: nat, acks: seq<bool>): (t: Tx)
    requires i <= |data|
    ensures t.code == 0 || t.code == 4
    ensures t.code == 0 <==> forall j :: 3 + i <= j < 3 + |data| ==> AckAt(acks, j)
    ensures t.code == 0 ==> t.wire == DataBits(data[i..], false) && t.rest == After(acks, 3 + |data|)
    decreases |data| - i
  {
    if i == |data| then Tx(0, [], After(acks, 3 + i))
    else
      var w := WithParity(ToBits(data[i], 8));
      if !AckAt(acks, 3 + i) then Tx(4, w + [true], After(acks, 4 + i))
      else
        var t := SendBytes(data, i + 1, acks);
        assert data[i..][1..] == data[i + 1..];
        Tx(t.code, w + [false] + t.wire, t.rest)
  }

  /**
    * After a NAK the data loop sends nothing more: the wire is the payload's
    * bits up to the slot of the first byte nobody acknowledged, which holds
    * the sender's own `1`, and the oracle has been read up to that slot.
    */
  lemma {:induction false} SendBytesNakWire(data: seq<Byte>, i: nat, acks: seq<bool>)
    requires i <= |data|
    ensures var t := SendBytes(data, i, acks);
      t.code == 4 ==>
        var k := FirstNak(acks, 3 + i, 3 + |data|);
        k < 3 + |data| && t.rest == After(acks, k + 1)
        && t.wire == DataBits(data[i..], false)[..10 * (k - 3 - i) + 9] + [true]
    decreases |data| - i
  {
    var t := SendBytes(data, i, acks);
    if i < |data| && t.code == 4 {
      var w := WithParity(ToBits(data[i], 8));
      var rest := DataBits(data[i + 1..], false);
      assert DataBits(data[i..], false) == w + [false] + rest by {
        assert data[i..][1..] == data[i + 1..];
      }
      if !AckAt(acks, 3 + i) {
        PrefixAppend(w, [false] + rest, 0);
      } else {
        SendBytesNakWire(data, i + 1, acks);
        var k := FirstNak(acks, 3 + i, 3 + |data|);
        PrefixAppend(w + [false], rest, 10 * (k - 4 - i) + 9);
      }
    }
  }

  /** A prefix reaching past the first part keeps the whole first part. */
  lemma PrefixAppend(a: seq<bool>, b: seq<bool>, m: nat)
    requires m <= |b|
    ensures (a + b)[..|a| + m] == a + b[..m]
  {
  }

  /** Where acknowledge slot `k` lies in `FrameBits`: after the addresses (27),
      the control (33), the length (43), and after each data byte. */
  function SlotAt(k: nat): nat
  {
    if k == 0 then 27 else if k == 1 then 33 else if k == 2 then 43 else 53 + 10 * (k - 3)
  }

  /**
    * `AVCLan_SendData` after the bus-free wait and the start bit, for any
    * frame. Each acknowledge slot is read; the first one nobody acknowledges
    * ends the frame with 1 (after the addresses), 2 (control), 3 (length) or
    * 4 (a data byte). A slot nobody acknowledges reads as the sender's own `1`.
    */
  function SendFrame(f: Frame, acks: seq<bool>): (t: Tx)
    ensures t.code <= 4
    ensures t.code == 0 <==> forall j :: 0 <= j < 3 + |f.data| ==> AckAt(acks, j)
    ensures t.code != 0 ==> t.code == NakCode(FirstNak(acks, 0, 3 + |f.data|))
    ensures t.code == 0 ==> t.wire == FrameBits(f, false) && t.rest == After(acks, 3 + |f.data|)
  {
    var head := HeaderBits(f);
    if !AckAt(acks, 0) then Tx(1, head + [true], After(acks, 1))
    else
      var w1 := head + [false] + WithParity(ToBits(f.control, 4));
      if !AckAt(acks, 1) then Tx(2, w1 + [true], After(acks, 2))
      else
        var w2 := w1 + [false] + WithParity(ToBits(|f.data|, 8));
        if !AckAt(acks, 2) then Tx(3, w2 + [true], After(acks, 3))
        else
          var t := SendBytes(f.data, 0, acks);
          assert f.data[0..] == f.data;
          FirstNakFrom(acks, 3 + |f.data|);
          Tx(t.code, w2 + [false] + t.wire, t.rest)
  }

  /**
    * After a NAK `AVCLan_SendData` returns at once: the wire is the frame up
    * to the slot nobody acknowledged, then the sender's own `1` in it, and
    * the oracle has been read up to that slot.
    */
  lemma SendFrameNakWire(f: Frame, acks: seq<bool>)
    ensures var t := SendFrame(f, acks);
      t.code != 0 ==>
        var k := FirstNak(acks, 0, 3 + |f.data|);
        k < 3 + |f.data| && t.rest == After(acks, k + 1)
        && t.wire == FrameBits(f, false)[..SlotAt(k)] + [true]
  {
    var t := SendFrame(f, acks);
    if t.code != 0 {
      FrameHeadPrefixes(f);
      if AckAt(acks, 0) && AckAt(acks, 1) && AckAt(acks, 2) {
        var k := FirstNak(acks, 0, 3 + |f.data|);
        FirstNakFrom(acks, 3 + |f.data|);
        SendBytesNakWire(f.data, 0, acks);
        assert f.data[0..] == f.data;
        FrameDataPrefixHolds(f, k);
      }
    }
  }

  /** The header part of a frame, up to each of the first three slots. */
  lemma FrameHeadPrefixes(f: Frame)
    ensures var head := HeaderBits(f);
      var w1 := head + [false] + WithParity(ToBits(f.control, 4));
      var w2 := w1 + [false] + WithParity(ToBits(|f.data|, 8));
      FrameBits(f, false)[..SlotAt(0)] == head
      && FrameBits(f, false)[..SlotAt(1)] == w1
      && FrameBits(f, false)[..SlotAt(2)] == w2
      && FrameBits(f, false) == w2 + [false] + DataBits(f.data, false)
  {
    var head := HeaderBits(f);
    var w1 := head + [false] + WithParity(ToBits(f.control, 4));
    var w2 := w1 + [false] + WithParity(ToBits(|f.data|, 8));
    var full := FrameBits(f, false);
    assert full == w2 + [false] + DataBits(f.data, false);
    assert full[..27] == head by { assert full == head + full[27..]; PrefixAppend(head, full[27..], 0); }
    assert full[..33] == w1 by { assert full == w1 + full[33..]; PrefixAppend(w1, full[33..], 0); }
    assert full[..43] == w2 by { assert full == w2 + full[43..]; PrefixAppend(w2, full[43..], 0); }
  }

  /** The frame up to the slot of data byte `k - 3`. */
  predicate FrameDataPrefix(f: Frame, k: nat)
    requires 3 <= k < 3 + |f.data|
  {
    var w2 := HeaderBits(f) + [false] + WithParity(ToBits(f.control, 4)) + [false] + WithParity(ToBits(|f.data|, 8));
    FrameBits(f, false)[..SlotAt(k)] == w2 + [false] + DataBits(f.data, false)[..10 * (k - 3) + 9]
  }

  lemma FrameDataPrefixHolds(f: Frame, k: nat)
    requires 3 <= k < 3 + |f.data|
    ensures FrameDataPrefix(f, k)
  {
    var w2 := HeaderBits(f) + [false] + WithParity(ToBits(f.control, 4)) + [false] + WithParity(ToBits(|f.data|, 8));
    FrameHeadPrefixes(f);
    PrefixAppend(w2 + [false], DataBits(f.data, false), 10 * (k - 3) + 9);
  }

  /** `AVCLan_SendData`: the payload from this device to the head unit. */
  function SendData(data: seq<Byte>, acks: seq<bool>): (t: Tx)
    ensures t.code <= 4
    ensures t.code == 0 <==> forall j :: 0 <= j < 3 + |data| ==> AckAt(acks, j)
    ensures t.code != 0 ==> t.code == NakCode(FirstNak(acks, 0, 3 + |data|))
    ensures t.code == 0 ==> t.wire == FrameBits(UnicastFrame(data), false) && t.rest == After(acks, 3 + |data|)
  {
    SendFrame(UnicastFrame(data), acks)
  }

  /** A refused `AVCLan_SendData` is cut after the slot nobody acknowledged. */
  lemma SendDataNakWire(data: seq<Byte>, acks: seq<bool>)
    ensures var t := SendData(data, acks);
      t.code != 0 ==>
        var k := FirstNak(acks, 0, 3 + |data|);
        k < 3 + |data| && t.wire == FrameBits(UnicastFrame(data), false)[..SlotAt(k)] + [true]
  {
    SendFrameNakWire(UnicastFrame(data), acks);
  }

  /** When the first three slots were acknowledged, the first NAK is a data slot's. */
  lemma FirstNakFrom(acks: seq<bool>, n: nat)
    requires n >= 3 && AckAt(acks, 0) && AckAt(acks, 1) && AckAt(acks, 2)
    ensures FirstNak(acks, 0, n) == FirstNak(acks, 3, n)
  {
  }

  /** `AVCLan_SendDataBroadcast`: direction bit 0, receiver 0x1FF, a `1`
      driven into every acknowledge slot, no acknowledgement read, and 0
      returned. */
  function SendDataBroadcast(data: seq<Byte>, acks: seq<bool>): (t: Tx)
    ensures t.code == 0 && t.rest == acks
    ensures t.wire == FrameBits(BroadcastFrame(data), true)
    ensures t.wire[0] == false && t.wire[27] && t.wire[33] && t.wire[43]
    ensures forall i :: 0 <= i < |data| ==> t.wire[53 + 10 * i]
  {
    var wire := FrameBits(BroadcastFrame(data), true);
    BroadcastSlots(BroadcastFrame(data));
    Tx(0, wire, acks)
  }

  /** Where the acknowledge slots of a frame lie, and what they hold. */
  lemma BroadcastSlots(f: Frame)
    ensures var w := FrameBits(f, true);
      w[0] == f.direction && w[27] && w[33] && w[43] && forall i :: 0 <= i < |f.data| ==> w[53 + 10 * i]
  {
    DataSlots(f.data, true);
  }

  lemma {:induction false} DataSlots(data: seq<Byte>, slot: bool)
    ensures forall i :: 0 <= i < |data| ==> DataBits(data, slot)[9 + 10 * i] == slot
  {
    if |data| > 0 {
      DataSlots(data[1..], slot);
      var w := DataBits(data, slot);
      assert w == WithParity(ToBits(data[0], 8)) + [slot] + DataBits(data[1..], slot);
      forall i | 1 <= i < |data|
        ensures w[9 + 10 * i] == slot
      {
        assert w[9 + 10 * i] == DataBits(data[1..], slot)[9 + 10 * (i - 1)];
      }
    }
  }

  /* ---------------- AVCLan_SendAnswerFrame and the answers ---------------- */

  /** The frame `AVCLan_SendAnswerFrame` sends for a template: `cmd[0] != 0`
      selects `AVCLan_SendData`, `cmd[0] == 0` the broadcast. */
  function FrameOf(cmd: seq<Byte>): (f: Frame)
    requires IsTemplate(cmd)
    ensures f.data == PayloadOf(cmd) && f.control == 0xF
    ensures f.direction <==> cmd[0] != 0
    ensures f.Fits()
  {
    if cmd[0] != 0 then UnicastFrame(PayloadOf(cmd)) else BroadcastFrame(PayloadOf(cmd))
  }

  /** `AVCLan_SendAnswerFrame`: a unicast template reports the first NAK; a
      broadcast one drives every slot itself and always reports success. */
  function SendAnswerFrame(cmd: seq<Byte>, acks: seq<bool>): (t: Tx)
    requires IsTemplate(cmd)
    ensures t.code <= 4
    ensures cmd[0] == 0 ==> t.code == 0 && t.rest == acks && t.wire == FrameBits(FrameOf(cmd), true)
    ensures cmd[0] != 0 ==> (t.code == 0 <==> forall j :: 0 <= j < 3 + cmd[1] ==> AckAt(acks, j))
    ensures cmd[0] != 0 && t.code == 0 ==> t.wire == FrameBits(FrameOf(cmd), false)
  {
    if cmd[0] != 0 then SendData(PayloadOf(cmd), acks) else SendDataBroadcast(PayloadOf(cmd), acks)
  }

  const CMD_REGISTER: seq<Byte> := Template(0x1, [0x00, 0x01, SW_ID, 0x10, 0x63])
  const CMD_STATUS1: seq<Byte> := Template(0x1, [0x00, 0x01, 0x00, 0x1A])
  const CMD_STATUS2: seq<Byte> := Template(0x1, [0x00, 0x01, 0x00, 0x18])
  const CMD_STATUS3: seq<Byte> := Template(0x1, [0x00, 0x01, 0x00, 0x1D])
  const CMD_STATUS4: seq<Byte> := Template(0x1, [0x00, 0x01, 0x00, 0x1C, 0x00])
  const CMD_PLAY_OK1: seq<Byte> := Template(0x1, [0x00, 0x63, SW_ID, 0x50, 0x01])
  const CMD_PLAY_OK2: seq<Byte> := Template(0x1, [0x00, 0x63, SW_ID, 0x52, 0x01])
  const CMD_PLAY_OK3: seq<Byte> := Template(0x0, [0x63, 0x31, 0xF1, 0x01, 0x00, 0x01, 0xFF, 0xFF, 0xFF, 0x00, 0x80])
  const CMD_STOP1: seq<Byte> := Template(0x1, [0x00, 0x63, SW_ID, 0x53, 0x01])
  const CMD_BEEP: seq<Byte> := Template(0x1, [0x00, 0x63, 0x29, 0x60, 0x02])

  /** The ten broadcasts of `AVCLan_SendInitCommands`, `c1` to `cA`. */
  const InitCommands: seq<seq<Byte>> := [
    Template(0x0, [0x63, 0x31, 0xF1, 0x00, 0x80, 0xFF, 0xFF, 0xFF, 0xFF, 0x00, 0x80]),
    Template(0x0, [0x63, 0x31, 0xF3, 0x00, 0x3F, 0x00, 0x00, 0x00, 0x00, 0x02]),
    Template(0x0, [0x63, 0x31, 0xF3, 0x00, 0x3F, 0x00, 0x01, 0x00, 0x01, 0x02]),
    Template(0x0, [0x63, 0x31, 0xF3, 0x00, 0x3D, 0x00, 0x01, 0x00, 0x01, 0x02]),
    Template(0x0, [0x63, 0x31, 0xF3, 0x00, 0x39, 0x00, 0x01, 0x00, 0x01, 0x02]),
    Template(0x0, [0x63, 0x31, 0xF3, 0x00, 0x31, 0x00, 0x01, 0x00, 0x01, 0x02]),
    Template(0x0, [0x63, 0x31, 0xF3, 0x00, 0x21, 0x00, 0x01, 0x00, 0x01, 0x02]),
    Template(0x0, [0x63, 0x31, 0xF1, 0x00, 0x90, 0x01, 0xFF, 0xFF, 0xFF, 0x00, 0x80]),
    Template(0x0, [0x63, 0x31, 0xF3, 0x00, 0x01, 0x00, 0x01, 0x00, 0x01, 0x02]),
    Template(0x0, [0x63, 0x31, 0xF1, 0x00, 0x30, 0x01, 0xFF, 0xFF, 0xFF, 0x00, 0x80])]

  /** One attempted transmission and the code it returned. */
  datatype Attempt = Attempt(frame: Frame, code: nat)

  /** A series of transmissions: the final code, what was attempted, and the
      acknowledgements not yet consumed. */
  datatype Session = Session(code: nat, log: seq<Attempt>, rest: seq<bool>)

  /** One template sent with `AVCLan_SendAnswerFrame`, logged. */
  function Send(cmd: seq<Byte>, acks: seq<bool>): (s: Session)
    requires IsTemplate(cmd)
    ensures s.code <= 4
    ensures s.log == [Attempt(FrameOf(cmd), s.code)]
    ensures cmd[0] == 0 ==> s.code == 0 && s.rest == acks
  {
    var t := SendAnswerFrame(cmd, acks);
    Session(t.code, [Attempt(FrameOf(cmd), t.code)], t.rest)
  }

  /** Every attempt but the last succeeded, and the session's code is the last one's. */
  predicate StoppedAtFirstFailure(s: Session)
  {
    (forall i :: 0 <= i < |s.log| - 1 ==> s.log[i].code == 0)
    && (|s.log| > 0 ==> s.code == s.log[|s.log| - 1].code)
    && (|s.log| == 0 ==> s.code == 0)
  }

  /** The `if (!r)` chain from template `k` on, after the first `k` went
      through and were logged in `log`. */
  function SendFrom(ms: seq<seq<Byte>>, k: nat, log: seq<Attempt>, acks: seq<bool>): (s: Session)
    requires forall i :: 0 <= i < |ms| ==> IsTemplate(ms[i])
    requires k <= |ms| && |log| == k
    requires forall i :: 0 <= i < k ==> log[i].frame == FrameOf(ms[i]) && log[i].code == 0
    ensures s.code <= 4 && k <= |s.log| <= |ms| && (k < |ms| ==> |s.log| > k)
    ensures forall i :: 0 <= i < |s.log| ==> s.log[i].frame == FrameOf(ms[i])
    ensures StoppedAtFirstFailure(s)
    ensures s.code == 0 ==> |s.log| == |ms|
    ensures |s.log| < |ms| ==> s.code != 0
    decreases |ms| - k
  {
    if k == |ms| then Session(0, log, acks)
    else
      var first := Send(ms[k], acks);
      var logged := log + [first.log[0]];
      LoggedInOrder(ms, log, first.log[0]);
      if first.code != 0 then Session(first.code, logged, first.rest)
      else SendFrom(ms, k + 1, logged, first.rest)
  }

  /** Logging the attempt at template `|log|` keeps the log in template order. */
  lemma LoggedInOrder(ms: seq<seq<Byte>>, log: seq<Attempt>, a: Attempt)
    requires forall i :: 0 <= i < |ms| ==> IsTemplate(ms[i])
    requires |log| < |ms| && a.frame == FrameOf(ms[|log|])
    requires forall i :: 0 <= i < |log| ==> log[i].frame == FrameOf(ms[i]) && log[i].code == 0
    ensures forall i :: 0 <= i <= |log| ==> (log + [a])[i].frame == FrameOf(ms[i])
    ensures a.code == 0 ==> forall i :: 0 <= i <= |log| ==> (log + [a])[i].code == 0
  {
  }

  /** A chain of broadcast templates never stops early: broadcasts always
      report success and read no acknowledgement. */
  lemma {:induction false} BroadcastsComplete(ms: seq<seq<Byte>>, k: nat, log: seq<Attempt>, acks: seq<bool>)
    requires forall i :: 0 <= i < |ms| ==> IsTemplate(ms[i]) && ms[i][0] == 0
    requires k <= |ms| && |log| == k
    requires forall i :: 0 <= i < k ==> log[i].frame == FrameOf(ms[i]) && log[i].code == 0
    ensures var s := SendFrom(ms, k, log, acks);
      s.code == 0 && |s.log| == |ms| && s.rest == acks
    decreases |ms| - k
  {
    if k < |ms| {
      var first := Send(ms[k], acks);
      LoggedInOrder(ms, log, first.log[0]);
      BroadcastsComplete(ms, k + 1, log + [first.log[0]], acks);
    }
  }

  /** The ten initialisation templates are well formed broadcasts. */
  lemma InitTemplates()
    ensures |InitCommands| == 10
    ensures forall i :: 0 <= i < |InitCommands| ==> IsTemplate(InitCommands[i]) && InitCommands[i][0] == 0
  {
  }

  /** The `if (!r)` chain over broadcast templates only: every one is sent
      and the result is 0. */
  function SendBroadcasts(ms: seq<seq<Byte>>, acks: seq<bool>): (s: Session)
    requires forall i :: 0 <= i < |ms| ==> IsTemplate(ms[i]) && ms[i][0] == 0
    ensures s.code == 0 && |s.log| == |ms| && s.rest == acks
    ensures forall i :: 0 <= i < |ms| ==> s.log[i].frame == FrameOf(ms[i]) && !s.log[i].frame.direction
  {
    BroadcastsComplete(ms, 0, [], acks);
    SendFrom(ms, 0, [], acks)
  }

  /** `AVCLan_SendInitCommands`: the ten templates in order while each one
      succeeds. All ten are broadcasts, so all ten are always sent and the
      result is 0. */
  function SendInitCommands(acks: seq<bool>): (s: Session)
    ensures s.code == 0 && |s.log| == 10 && s.rest == acks
    ensures forall i :: 0 <= i < 10 ==> s.log[i].frame == FrameOf(InitCommands[i]) && !s.log[i].frame.direction
  {
    InitTemplates();
    SendBroadcasts(InitCommands, acks)
  }

  /** The template `AVCLan_Send_Status` fills in: disc, track, minutes and
      seconds at indices 7..10, a zero at 11. */
  function StatusTemplate(d: Device): (cmd: seq<Byte>)
    ensures IsTemplate(cmd) && cmd[0] == 0 && |PayloadOf(cmd)| == 11
    ensures PayloadOf(cmd)[5..9] == [d.disc, d.track, d.min, d.sec] && PayloadOf(cmd)[9] == 0
  {
    Template(0x0, [0x63, 0x31, 0xF1, 0x01, 0x10, d.disc, d.track, d.min, d.sec, 0x00, 0x80])
  }

  /** `AVCLan_Send_Status`: one broadcast frame with the play position. */
  function SendStatus(d: Device, acks: seq<bool>): (s: Session)
    ensures s.code == 0 && s.rest == acks
    ensures |s.log| == 1 && !s.log[0].frame.direction && s.log[0].frame.slave2 == 0xFF
    ensures |s.log[0].frame.data| == 11 && s.log[0].frame.data[5..9] == [d.disc, d.track, d.min, d.sec]
  {
    Send(StatusTemplate(d), acks)
  }

  /** What `AVCLan_SendAnswer` did: its return value, the transmissions, the
      acknowledgements left, and the device afterwards. */
  datatype Answer = Answer(code: nat, log: seq<Attempt>, rest: seq<bool>, next: Device)

  /** Indices 7..10 of a 13-byte broadcast template set to the play position. */
  function PatchPosition(cmd: seq<Byte>, d: Device): (r: seq<Byte>)
    requires Holds(cmd, 0x0, 11)
    ensures Holds(r, 0x0, 11) && r[..7] == cmd[..7] && r[11..] == cmd[11..]
    ensures PayloadOf(r)[5..9] == [d.disc, d.track, d.min, d.sec]
  {
    cmd[7 := d.disc][8 := d.track][9 := d.min][10 := d.sec]
  }

  /** The state changes `AVCLan_SendAnswer` makes for `answerReq`; none of
      them depends on what the transmissions returned. */
  function AfterAnswer(d: Device): (n: Device)
    requires d.Valid()
    ensures n.Valid() && n.answerReq == Null
    ensures n.disc == d.disc && n.track == d.track && n.min == d.min && n.sec == d.sec && n.message == d.message
    ensures d.answerReq.Unanswered() ==> n == d.(answerReq := Null)
  {
    var done := d.(answerReq := Null);
    match d.answerReq
    case Check => done.(checkTimeout := 0, check := d.check[6 := Increment(d.check[6])])
    case PlayReq1 => done.(playMode := 0)
    case PlayReq2 => done.(playMode := 0, cdMode := Play)
    case PlayReq3 => done.(playMode := 0, cdMode := Play)
    case PlayIt => done.(playMode := 1, cdMode := Play, playOk4 := PatchPosition(d.playOk4, d))
    case StopReq => done.(playMode := 0, cdMode := Stop, stop2 := PatchPosition(d.stop2, d))
    case StopReq2 => done.(playMode := 0, cdMode := Stop, stop2 := PatchPosition(d.stop2, d))
    case _ => done
  }

  /**
    * What a case of `AVCLan_SendAnswer` transmits, as data:
    *   - `Silent`: nothing;
    *   - `Reply(cmd)`: one template, whose code is returned;
    *   - `Unreported(cmd)`: one template, whose code is dropped;
    *   - `Then(first, second)`: `second` only if `first` returned 0, the
    *     code of the last one sent;
    *   - `ThenQuietly(first, second)`: `second` only if `first` returned 0,
    *     `first`'s code;
    *   - `Both(first, second)`: both, `second`'s code;
    *   - `InitAll`: `AVCLan_SendInitCommands`.
    */
  datatype Plan =
    | Silent
    | Reply(cmd: seq<Byte>)
    | Unreported(cmd: seq<Byte>)
    | Then(first: seq<Byte>, second: seq<Byte>)
    | ThenQuietly(first: seq<Byte>, second: seq<Byte>)
    | Both(first: seq<Byte>, second: seq<Byte>)
    | InitAll
  {
    predicate Valid()
    {
      match this
      case Reply(cmd) => IsTemplate(cmd)
      case Unreported(cmd) => IsTemplate(cmd)
      case Then(first, second) => IsTemplate(first) && IsTemplate(second)
      case ThenQuietly(first, second) => IsTemplate(first) && IsTemplate(second)
      case Both(first, second) => IsTemplate(first) && IsTemplate(second)
      case _ => true
    }
  }

  /** The `switch (answerReq)` of `AVCLan_SendAnswer`: what each request sends. */
  function PlanFor(d: Device): (p: Plan)
    requires d.Valid()
    ensures p.Valid()
    ensures p == Silent <==> d.answerReq.Unanswered()
  {
    match d.answerReq
    case Status1 => Reply(CMD_STATUS1)
    case Status2 => Reply(CMD_STATUS2)
    case Status3 => Reply(CMD_STATUS3)
    case Status4 => Reply(CMD_STATUS4)
    case Register => Reply(CMD_REGISTER)
    case Init => InitAll
    case Check => Reply(d.check)
    case PlayReq1 => Reply(CMD_PLAY_OK1)
    case PlayReq2 => Then(CMD_PLAY_OK2, CMD_PLAY_OK3)
    case PlayReq3 => Then(CMD_PLAY_OK2, CMD_PLAY_OK3)
    case PlayIt => ThenQuietly(PatchPosition(d.playOk4, d), StatusTemplate(d))
    case StopReq => Both(CMD_STOP1, PatchPosition(d.stop2, d))
    case StopReq2 => Both(CMD_STOP1, PatchPosition(d.stop2, d))
    case Beep => Unreported(CMD_BEEP)
    case _ => Silent
  }

  /** `second` only if `first` went through; the code of the last frame sent. */
  function SendThen(first: seq<Byte>, second: seq<Byte>, acks: seq<bool>): (s: Session)
    requires IsTemplate(first) && IsTemplate(second)
    ensures s.code <= 4
    ensures 1 <= |s.log| <= 2 && s.log[0].frame == FrameOf(first)
    ensures |s.log| == 2 <==> s.log[0].code == 0
    ensures |s.log| == 2 ==> s.log[1].frame == FrameOf(second)
    ensures StoppedAtFirstFailure(s)
  {
    var s1 := Send(first, acks);
    if s1.code != 0 then s1
    else
      var s2 := Send(second, s1.rest);
      Session(s2.code, s1.log + s2.log, s2.rest)
  }

  /** `second` only if `first` went through; `first`'s code. */
  function SendThenQuietly(first: seq<Byte>, second: seq<Byte>, acks: seq<bool>): (s: Session)
    requires IsTemplate(first) && IsTemplate(second)
    ensures s.code <= 4
    ensures 1 <= |s.log| <= 2 && s.log[0].frame == FrameOf(first) && s.code == s.log[0].code
    ensures |s.log| == 2 <==> s.code == 0
    ensures |s.log| == 2 ==> s.log[1].frame == FrameOf(second)
  {
    var s1 := Send(first, acks);
    if s1.code != 0 then s1
    else
      var s2 := Send(second, s1.rest);
      Session(s1.code, s1.log + s2.log, s2.rest)
  }

  /** Both templates whatever the first returned; the second's code. */
  function SendBoth(first: seq<Byte>, second: seq<Byte>, acks: seq<bool>): (s: Session)
    requires IsTemplate(first) && IsTemplate(second)
    ensures s.code <= 4
    ensures |s.log| == 2 && s.code == s.log[1].code
    ensures s.log[0].frame == FrameOf(first) && s.log[1].frame == FrameOf(second)
    ensures second[0] == 0 ==> s.code == 0
  {
    var s1 := Send(first, acks);
    var s2 := Send(second, s1.rest);
    Session(s2.code, s1.log + s2.log, s2.rest)
  }

  /** The transmissions of a plan. */
  function Run(p: Plan, acks: seq<bool>): (s: Session)
    requires p.Valid()
    ensures s.code <= 4
    ensures p.Silent? ==> s == Session(0, [], acks)
  {
    match p
    case Silent => Session(0, [], acks)
    case Reply(cmd) => Send(cmd, acks)
    case Unreported(cmd) =>
      var s := Send(cmd, acks);
      Session(0, s.log, s.rest)
    case Then(first, second) => SendThen(first, second, acks)
    case ThenQuietly(first, second) => SendThenQuietly(first, second, acks)
    case Both(first, second) => SendBoth(first, second, acks)
    case InitAll => SendInitCommands(acks)
  }

  /** The transmissions `AVCLan_SendAnswer` makes for `answerReq`. */
  function AnswerSession(d: Device, acks: seq<bool>): (s: Session)
    requires d.Valid()
    ensures s.code <= 4
    ensures d.answerReq.Unanswered() ==> s == Session(0, [], acks)
  {
    Run(PlanFor(d), acks)
  }

  /** `AVCLan_SendAnswer`: the transmissions for `answerReq`, the state
      changes of its case, and `answerReq` cleared. */
  function SendAnswer(d: Device, acks: seq<bool>): (a: Answer)
    requires d.Valid()
    ensures a.code <= 4
    ensures a.next.Valid() && a.next.answerReq == Null
    ensures a.next.disc == d.disc && a.next.track == d.track && a.next.min == d.min && a.next.sec == d.sec
    ensures d.answerReq.Unanswered() ==>
      a.code == 0 && a.log == [] && a.rest == acks && a.next == d.(answerReq := Null)
  {
    var s := AnswerSession(d, acks);
    Answer(s.code, s.log, s.rest, AfterAnswer(d))
  }

  /** The status, register and first play requests are answered with one
      unicast frame, and the answer's code is that frame's: 0 exactly when
      every slot of it was acknowledged. */
  lemma AnswerSingleFrame(d: Device, acks: seq<bool>)
    requires d.Valid() && d.answerReq.SingleFrame()
    ensures var a := SendAnswer(d, acks); var p := PlanFor(d);
      p.Reply? && p.cmd[0] != 0
      && a.log == [Attempt(UnicastFrame(PayloadOf(p.cmd)), a.code)]
      && (a.code == 0 <==> forall j :: 0 <= j < 3 + p.cmd[1] ==> AckAt(acks, j))
  {
    var p := PlanFor(d);
    var s := AnswerSession(d, acks);
    SingleFrameSession(d, acks);
    var a := SendAnswer(d, acks);
    assert a.log == s.log && a.code == s.code;
    assert SingleLog(p.cmd, a.log, a.code, acks);
  }

  /** One unicast frame of `cmd`, whose code is 0 exactly when every slot was acknowledged. */
  predicate SingleLog(cmd: seq<Byte>, log: seq<Attempt>, code: nat, acks: seq<bool>)
    requires IsTemplate(cmd)
  {
    cmd[0] != 0
    && log == [Attempt(UnicastFrame(PayloadOf(cmd)), code)]
    && (code == 0 <==> forall j :: 0 <= j < 3 + cmd[1] ==> AckAt(acks, j))
  }

  /** The session half of `AnswerSingleFrame`. */
  lemma SingleFrameSession(d: Device, acks: seq<bool>)
    requires d.Valid() && d.answerReq.SingleFrame()
    ensures var p := PlanFor(d); var s := AnswerSession(d, acks);
      p.Reply? && SingleLog(p.cmd, s.log, s.code, acks)
  {
    var p := PlanFor(d);
    assert p.Reply? && p.cmd[0] != 0;
    assert Run(p, acks) == Send(p.cmd, acks);
  }

  /** The beep is sent as a unicast frame, but its failure is not reported. */
  lemma AnswerBeepIgnoresFailure(d: Device, acks: seq<bool>)
    requires d.Valid() && d.answerReq == Beep
    ensures var a := SendAnswer(d, acks);
      a.code == 0 && |a.log| == 1 && a.log[0].frame == UnicastFrame(PayloadOf(CMD_BEEP))
      && (a.log[0].code == 0 <==> forall j :: 0 <= j < 8 ==> AckAt(acks, j))
  {
    var p := PlanFor(d);
    assert p == Unreported(CMD_BEEP);
    assert Run(p, acks).log == Send(CMD_BEEP, acks).log;
  }

  /** The second and third play requests send PLAY_OK2, and PLAY_OK3 only
      when PLAY_OK2 went through; the code is the last frame's. */
  lemma AnswerPlaysOn(d: Device, acks: seq<bool>)
    requires d.Valid() && d.answerReq.PlaysOn()
    ensures var a := SendAnswer(d, acks);
      1 <= |a.log| <= 2 && a.log[0].frame == UnicastFrame(PayloadOf(CMD_PLAY_OK2))
      && (|a.log| == 2 <==> a.log[0].code == 0)
      && (|a.log| == 2 ==> a.log[1].frame == BroadcastFrame(PayloadOf(CMD_PLAY_OK3)))
      && a.code == a.log[|a.log| - 1].code
  {
    var s := AnswerSession(d, acks);
    assert PlaysOnLog(s.log, s.code) by {
      PlaysOnSession(d, acks);
    }
    var a := SendAnswer(d, acks);
    assert a.log == s.log && a.code == s.code;
    assert PlaysOnLog(a.log, a.code);
  }

  /** PLAY_OK2, then PLAY_OK3 only when PLAY_OK2 went through; the last code. */
  predicate PlaysOnLog(log: seq<Attempt>, code: nat)
  {
    1 <= |log| <= 2 && log[0].frame == UnicastFrame(PayloadOf(CMD_PLAY_OK2))
    && (|log| == 2 <==> log[0].code == 0)
    && (|log| == 2 ==> log[1].frame == BroadcastFrame(PayloadOf(CMD_PLAY_OK3)))
    && code == log[|log| - 1].code
  }

  /** The session half of `AnswerPlaysOn`. */
  lemma PlaysOnSession(d: Device, acks: seq<bool>)
    requires d.Valid() && d.answerReq.PlaysOn()
    ensures var s := AnswerSession(d, acks); PlaysOnLog(s.log, s.code)
  {
    var p := PlanFor(d);
    assert p == Then(CMD_PLAY_OK2, CMD_PLAY_OK3);
  }

  /** The play and stop requests set the play mode and CD mode; every other
      request leaves them alone. */
  lemma AnswerModes(d: Device)
    requires d.Valid()
    ensures var n := AfterAnswer(d);
      (d.answerReq == PlayReq1 ==> n.playMode == 0 && n.cdMode == d.cdMode)
      && (d.answerReq.PlaysOn() ==> n.playMode == 0 && n.cdMode == Play)
      && (d.answerReq == PlayIt ==> n.playMode == 1 && n.cdMode == Play)
      && (d.answerReq.Stops() ==> n.playMode == 0 && n.cdMode == Stop)
      && (!(d.answerReq == PlayReq1 || d.answerReq.PlaysOn() || d.answerReq == PlayIt || d.answerReq.Stops()) ==>
            n.playMode == d.playMode && n.cdMode == d.cdMode)
  {
  }

  /** PlayIt writes disc, track, minutes and seconds into indices 7..10 of
      PLAY_OK4, which are payload bytes 5..8. */
  lemma AnswerPlayItPatch(d: Device)
    requires d.Valid() && d.answerReq == PlayIt
    ensures var n := AfterAnswer(d);
      n.playOk4 == d.playOk4[7 := d.disc][8 := d.track][9 := d.min][10 := d.sec]
      && PayloadOf(n.playOk4)[5..9] == [d.disc, d.track, d.min, d.sec]
  {
  }

  /** PlayIt broadcasts the patched PLAY_OK4, then the status frame. */
  lemma AnswerPlayItFrames(d: Device, acks: seq<bool>)
    requires d.Valid() && d.answerReq == PlayIt
    ensures var s := AnswerSession(d, acks);
      s.code == 0 && |s.log| == 2 && s.rest == acks
      && s.log[0].frame == BroadcastFrame(PayloadOf(PatchPosition(d.playOk4, d)))
      && s.log[1].frame == BroadcastFrame(PayloadOf(StatusTemplate(d)))
  {
    var p := PlanFor(d);
    assert p == ThenQuietly(PatchPosition(d.playOk4, d), StatusTemplate(d));
  }

  /** The stop requests write the play position into indices 7..10 of STOP2. */
  lemma AnswerStopPatch(d: Device)
    requires d.Valid() && d.answerReq.Stops()
    ensures var n := AfterAnswer(d);
      n.stop2 == d.stop2[7 := d.disc][8 := d.track][9 := d.min][10 := d.sec]
      && PayloadOf(n.stop2)[5..9] == [d.disc, d.track, d.min, d.sec]
  {
  }

  /** The stop requests send STOP1 and then broadcast the patched STOP2
      whatever STOP1 returned, so the answer reports success. */
  lemma AnswerStopFrames(d: Device, acks: seq<bool>)
    requires d.Valid() && d.answerReq.Stops()
    ensures var s := AnswerSession(d, acks);
      |s.log| == 2 && s.log[0].frame == UnicastFrame(PayloadOf(CMD_STOP1))
      && s.log[1].frame == BroadcastFrame(PayloadOf(PatchPosition(d.stop2, d)))
      && s.code == 0
  {
    var p := PlanFor(d);
    assert p == Both(CMD_STOP1, PatchPosition(d.stop2, d));
  }

  /** Check clears `check_timeout` and increments index 6 of CMD_CHECK,
      which is payload byte 4: the next check answer carries the new value. */
  lemma AnswerCheckCounter(d: Device)
    requires d.Valid() && d.answerReq == Check
    ensures var n := AfterAnswer(d);
      n.check == d.check[6 := Increment(d.check[6])]
      && n.checkTimeout == 0
      && PayloadOf(n.check)[4] == Increment(PayloadOf(d.check)[4])
  {
  }

  /** Check sends CMD_CHECK as it stood before the increment, as one
      unicast frame whose code is the answer's. */
  lemma AnswerCheckFrame(d: Device, acks: seq<bool>)
    requires d.Valid() && d.answerReq == Check
    ensures var s := AnswerSession(d, acks);
      s.log == [Attempt(UnicastFrame(PayloadOf(d.check)), s.code)]
      && (s.code == 0 <==> forall j :: 0 <= j < 9 ==> AckAt(acks, j))
  {
    var p := PlanFor(d);
    assert p == Reply(d.check);
  }

  /** Only PlayIt, the stop requests and Check touch the writable templates. */
  lemma AnswerTemplatesUnchanged(d: Device)
    requires d.Valid()
    ensures var n := AfterAnswer(d);
      (d.answerReq != PlayIt ==> n.playOk4 == d.playOk4)
      && (!d.answerReq.Stops() ==> n.stop2 == d.stop2)
      && (d.answerReq != Check ==> n.check == d.check && n.checkTimeout == d.checkTimeout)
  {
  }

  /* ---------------- what the senders write, the reader reads ---------------- */

  /** A field sent with its parity bit reads back as the value it carried. */
  lemma ReadCheckedOf(ws: seq<nat>, pos: nat, v: nat, n: nat, field: FieldName)
    requires 1 <= n <= 8 && v < Pow2(n)
    requires Hears(ws, pos, WithParity(ToBits(v, n)))
    ensures ReadChecked(ws, pos, n, field) == Ok(Field(v, pos + n + 1))
  {
    var bits := ToBits(v, n);
    HearsAppend(ws, pos, bits, [ParityBit(bits)]);
    assert Classify(ws[pos + n..pos + n + 1])[0] == ReadsAsOne(ws[pos + n]);
    SmallValue(v, n);
  }

  /** An address sent as its halves and one parity bit reads back as those halves. */
  lemma ReadAddressOf(ws: seq<nat>, pos: nat, hi: nat, lo: nat, field: FieldName)
    requires hi < 16 && lo < 256
    requires Hears(ws, pos, WithParity(AddressBits(hi, lo)))
    ensures ReadAddress(ws, pos, field) == Ok(Address(hi, lo, pos + 13))
  {
    var bits := AddressBits(hi, lo);
    assert pos + 12 < |ws| && Hears(ws, pos, bits) && ReadsAsOne(ws[pos + 12]) == ParityBit(bits) by {
      HearsAppend(ws, pos, bits, [ParityBit(bits)]);
      assert Classify(ws[pos + 12..pos + 13])[0] == ReadsAsOne(ws[pos + 12]);
    }
    assert Classify(ws[pos..pos + 4]) == ToBits(hi, 4) && Classify(ws[pos + 4..pos + 12]) == ToBits(lo, 8) by {
      HearsAppend(ws, pos, ToBits(hi, 4), ToBits(lo, 8));
    }
    assert FromBits(ToBits(hi, 4)) == hi && FromBits(ToBits(lo, 8)) == lo by {
      assert Pow2(4) == 16 && Pow2(8) == 256;
      SmallValue(hi, 4);
      SmallValue(lo, 8);
    }
  }

  /** The pulses of a frame, as a listener measures them. */
  function FramePulses(f: Frame, slot: bool): (ws: seq<nat>)
    ensures |ws| == 45 + 10 * |f.data|
  {
    Pulses(FrameBits(f, slot))
  }

  /** A listener hears the direction bit at 1 and the addresses at 2 and 15. */
  lemma HeaderParts(ws: seq<nat>, f: Frame)
    requires Hears(ws, 1, HeaderBits(f))
    ensures Hears(ws, 1, [f.direction])
    ensures Hears(ws, 2, WithParity(AddressBits(f.master1, f.master2)))
    ensures Hears(ws, 15, WithParity(AddressBits(f.slave1, f.slave2)))
  {
    var m := WithParity(AddressBits(f.master1, f.master2));
    var s := WithParity(AddressBits(f.slave1, f.slave2));
    HearsAppend(ws, 1, [f.direction] + m, s);
    HearsAppend(ws, 1, [f.direction], m);
  }

  /** A listener hears each part of a frame where the layout puts it: the
      header from 1, control at 29, length at 35 and the payload at 45. */
  lemma FrameParts(f: Frame, slot: bool)
    ensures var ws := FramePulses(f, slot);
      Hears(ws, 1, HeaderBits(f))
      && Hears(ws, 29, WithParity(ToBits(f.control, 4)))
      && Hears(ws, 35, WithParity(ToBits(|f.data|, 8)))
      && Hears(ws, 45, DataBits(f.data, slot))
  {
    var ws := FramePulses(f, slot);
    var h := HeaderBits(f);
    var c := WithParity(ToBits(f.control, 4));
    var l := WithParity(ToBits(|f.data|, 8));
    PulsesHeard(FrameBits(f, slot));
    HearsAppend(ws, 1, h + [slot] + c + [slot] + l + [slot], DataBits(f.data, slot));
    HearsAppend(ws, 1, h + [slot] + c + [slot], l + [slot]);
    HearsAppend(ws, 35, l, [slot]);
    HearsAppend(ws, 1, h + [slot], c + [slot]);
    HearsAppend(ws, 29, c, [slot]);
    HearsAppend(ws, 1, h, [slot]);
  }

  /** The start bit, the direction bit and both addresses of a frame read
      back as sent. */
  lemma RouteOf(f: Frame, slot: bool)
    requires f.Fits()
    ensures ReadRoute(FramePulses(f, slot)) ==
      Ok(Route(f.direction, Address(f.master1, f.master2, 15), Address(f.slave1, f.slave2, 28)))
  {
    var ws := FramePulses(f, slot);
    FrameParts(f, slot);
    HeaderParts(ws, f);
    assert Classify(ws[1..2])[0] == ReadsAsOne(ws[1]);
    SingleBit(ws, 1);
    ReadAddressOf(ws, 2, f.master1, f.master2, ControllerAddr);
    ReadAddressOf(ws, 15, f.slave1, f.slave2, PeripheralAddr);
  }

  /** Control and length heard at 29 and 35 read back, with their slots. */
  lemma ControlHeard(ws: seq<nat>, control: nat, length: nat, forMe: bool)
    requires control < 16 && length < 256 && 45 <= |ws|
    requires Hears(ws, 29, WithParity(ToBits(control, 4)))
    requires Hears(ws, 35, WithParity(ToBits(length, 8)))
    ensures ReadControl(ws, 28, forMe) == Ok((Field(control, 34), Field(length, 45)))
  {
    assert ReadChecked(ws, 29, 4, ControlBits) == Ok(Field(control, 34)) by {
      assert Pow2(4) == 16;
      ReadCheckedOf(ws, 29, control, 4, ControlBits);
    }
    assert ReadChecked(ws, 35, 8, LengthByte) == Ok(Field(length, 44)) by {
      assert Pow2(8) == 256;
      ReadCheckedOf(ws, 35, length, 8, LengthByte);
    }
    ControlSteps(ws, control, length, forMe);
  }

  /** The slots around control and length, once both read back. */
  lemma ControlSteps(ws: seq<nat>, control: nat, length: nat, forMe: bool)
    requires 45 <= |ws|
    requires ReadChecked(ws, 29, 4, ControlBits) == Ok(Field(control, 34))
    requires ReadChecked(ws, 35, 8, LengthByte) == Ok(Field(length, 44))
    ensures ReadControl(ws, 28, forMe) == Ok((Field(control, 34), Field(length, 45)))
  {
    assert AckSlot(ws, 28, forMe) == Ok(29);
    assert AckSlot(ws, 34, forMe) == Ok(35);
    assert AckSlot(ws, 44, forMe) == Ok(45);
  }

  /** Control and length read back as sent, whoever the frame is for. */
  lemma ControlOf(f: Frame, slot: bool, forMe: bool)
    requires f.Fits()
    ensures ReadControl(FramePulses(f, slot), 28, forMe) == Ok((Field(f.control, 34), Field(|f.data|, 45)))
  {
    FrameParts(f, slot);
    ControlHeard(FramePulses(f, slot), f.control, |f.data|, forMe);
  }

  /** The header of a frame reads back as sent; the payload starts at 45. */
  lemma HeaderOf(f: Frame, slot: bool)
    requires f.Fits()
    ensures ReadHeader(FramePulses(f, slot)) ==
      Ok(Header(f.direction, f.master1, f.master2, f.slave1, f.slave2, f.control, |f.data|, 45))
  {
    RouteOf(f, slot);
    ControlOf(f, slot, f.slave1 == CD_ID_1 as nat && f.slave2 == CD_ID_2 as nat);
  }

  /** Where a listener hears the parts of payload byte `i`: its bits at
      `pos`, its parity bit at `pos + 8`, the rest of the payload at `pos + 10`. */
  lemma DataParts(ws: seq<nat>, pos: nat, data: seq<Byte>, slot: bool, i: nat)
    requires i < |data|
    requires Hears(ws, pos, DataBits(data[i..], slot))
    ensures Hears(ws, pos, ToBits(data[i], 8)) && pos + 9 < |ws|
    ensures ReadsAsOne(ws[pos + 8]) == ParityBit(ToBits(data[i], 8))
    ensures Hears(ws, pos + 10, DataBits(data[i + 1..], slot))
  {
    var bits := ToBits(data[i], 8);
    var b := WithParity(bits);
    var rest := DataBits(data[i + 1..], slot);
    assert Hears(ws, pos, b + ([slot] + rest)) by {
      assert data[i..][1..] == data[i + 1..];
      assert DataBits(data[i..], slot) == b + ([slot] + rest);
    }
    assert Hears(ws, pos, b) && Hears(ws, pos + 9, [slot] + rest) by {
      HearsAppend(ws, pos, b, [slot] + rest);
    }
    assert Hears(ws, pos + 10, rest) by {
      HearsAppend(ws, pos + 9, [slot], rest);
    }
    assert Hears(ws, pos, bits) && ReadsAsOne(ws[pos + 8]) == ParityBit(bits) by {
      HearsAppend(ws, pos, bits, [ParityBit(bits)]);
      assert Classify(ws[pos + 8..pos + 9])[0] == ReadsAsOne(ws[pos + 8]);
    }
  }

  /** One payload byte, its parity bit and its slot read back as sent. */
  lemma DataStep(ws: seq<nat>, pos: nat, forMe: bool, data: seq<Byte>, slot: bool, i: nat, buf: seq<Byte>)
    requires i < |data| <= |buf| && pos <= |ws|
    requires Hears(ws, pos, DataBits(data[i..], slot))
    ensures pos + 10 <= |ws| && Hears(ws, pos + 10, DataBits(data[i + 1..], slot))
    ensures ReadData(ws, pos, forMe, |data|, i, buf) == ReadData(ws, pos + 10, forMe, |data|, i + 1, buf[i := data[i]])
  {
    var bits := ToBits(data[i], 8);
    DataParts(ws, pos, data, slot, i);
    var rb := ReadByte(ws, Rd(pos, 0), 8);
    assert rb == Ok(Got(data[i] as nat, Rd(pos + 8, Ones(bits)))) by {
      assert Pow2(8) == 256;
      SmallValue(data[i] as nat, 8);
    }
    assert CheckParity(ws, rb.value.next, DataByte(i)) == Ok(pos + 9);
    assert AckSlot(ws, pos + 9, forMe) == Ok(pos + 10);
  }

  /** The reader of a payload heard from byte `i` on stops cleanly at `end`,
      ten pulses per remaining byte further on. */
  lemma {:induction false} DataEnd(ws: seq<nat>, pos: nat, forMe: bool, data: seq<Byte>, slot: bool,
                                   i: nat, buf: seq<Byte>, end: nat)
    requires i <= |data| <= |buf| && pos <= |ws|
    requires Hears(ws, pos, DataBits(data[i..], slot))
    requires end == pos + 10 * (|data| - i)
    ensures ReadData(ws, pos, forMe, |data|, i, buf).end == Ok(end)
    decreases |data| - i
  {
    if i < |data| {
      DataStep(ws, pos, forMe, data, slot, i, buf);
      DataEnd(ws, pos + 10, forMe, data, slot, i + 1, buf[i := data[i]], end);
    }
  }

  /** The payload heard from byte `i` on is what the reader writes to
      `buffer[i..]`. */
  lemma {:induction false} DataOf(ws: seq<nat>, pos: nat, forMe: bool, data: seq<Byte>, slot: bool,
                                  i: nat, buf: seq<Byte>)
    requires i <= |data| <= |buf| && pos <= |ws|
    requires Hears(ws, pos, DataBits(data[i..], slot))
    ensures forall j :: i <= j < |data| ==> ReadData(ws, pos, forMe, |data|, i, buf).buffer[j] == data[j]
    decreases |data| - i
  {
    if i < |data| {
      var buf' := buf[i := data[i]];
      var r' := ReadData(ws, pos + 10, forMe, |data|, i + 1, buf');
      assert pos + 10 <= |ws| && Hears(ws, pos + 10, DataBits(data[i + 1..], slot))
        && ReadData(ws, pos, forMe, |data|, i, buf) == r' by {
        DataStep(ws, pos, forMe, data, slot, i, buf);
      }
      DataOf(ws, pos + 10, forMe, data, slot, i + 1, buf');
      assert r'.buffer[i] == data[i];
    }
  }

  /** A header and a payload that both read cleanly make an accepted frame. */
  lemma ReadMessageAccepts(ws: seq<nat>, h: Header, d: Device)
    requires d.Valid() && ReadHeader(ws) == Ok(h) && h.length <= MAXMSGLEN
    requires ReadData(ws, h.pos, h.ForMe(), h.length, 0, d.message).end.Ok?
    ensures var r := ReadMessage(ws, d);
      r.received == Accepted(h) && r.next.message == ReadData(ws, h.pos, h.ForMe(), h.length, 0, d.message).buffer
  {
  }

  /** A whole payload reads back cleanly and lands at the head of the buffer. */
  lemma PayloadLands(ws: seq<nat>, pos: nat, forMe: bool, data: seq<Byte>, slot: bool, buf: seq<Byte>)
    requires |data| <= |buf| && pos <= |ws|
    requires Hears(ws, pos, DataBits(data, slot))
    ensures var p := ReadData(ws, pos, forMe, |data|, 0, buf);
      p.end.Ok? && p.buffer[..|data|] == data
  {
    assert data[0..] == data;
    DataEnd(ws, pos, forMe, data, slot, 0, buf, pos + 10 * |data|);
    DataOf(ws, pos, forMe, data, slot, 0, buf);
  }

  /**
    * Round trip: whatever `AVCLan_SendData` or `AVCLan_SendDataBroadcast`
    * writes, `AVCLan_Read_Message` accepts with the same direction,
    * addresses, control and length, and with the payload at the head of
    * `message`.
    */
  lemma MessageRoundTrip(f: Frame, slot: bool, d: Device)
    requires f.Fits() && d.Valid()
    ensures var r := ReadMessage(FramePulses(f, slot), d);
      r.received == Accepted(Header(f.direction, f.master1, f.master2, f.slave1, f.slave2, f.control, |f.data|, 45))
      && r.next.message[..|f.data|] == f.data
  {
    var ws := FramePulses(f, slot);
    var h := Header(f.direction, f.master1, f.master2, f.slave1, f.slave2, f.control, |f.data|, 45);
    HeaderOf(f, slot);
    FrameParts(f, slot);
    PayloadLands(ws, 45, h.ForMe(), f.data, slot, d.message);
    ReadMessageAccepts(ws, h, d);
  }

  /** What a successful `AVCLan_SendData` put on the bus is read back as a
      frame from this device to the head unit carrying the same payload. */
  lemma SendDataRoundTrip(data: seq<Byte>, acks: seq<bool>, d: Device)
    requires |data| <= MAXMSGLEN && d.Valid()
    requires SendData(data, acks).code == 0
    ensures var r := ReadMessage(Pulses(SendData(data, acks).wire), d);
      r.received.Accepted? && r.received.header.direction
      && r.received.header.master1 == CD_ID_1 as nat && r.received.header.master2 == CD_ID_2 as nat
      && r.received.header.slave1 == HU_ID_1 as nat && r.received.header.slave2 == HU_ID_2 as nat
      && r.next.message[..|data|] == data
  {
    MessageRoundTrip(UnicastFrame(data), false, d);
  }

  /** A broadcast is read back as a frame to 0x1FF with the same payload. */
  lemma BroadcastRoundTrip(data: seq<Byte>, acks: seq<bool>, d: Device)
    requires |data| <= MAXMSGLEN && d.Valid()
    ensures var r := ReadMessage(Pulses(SendDataBroadcast(data, acks).wire), d);
      r.received.Accepted? && !r.received.header.direction && !r.received.header.ForMe()
      && r.received.header.slave1 == 1 && r.received.header.slave2 == 0xFF
      && r.next.message[..|data|] == data
  {
    MessageRoundTrip(BroadcastFrame(data), true, d);
  }
}
