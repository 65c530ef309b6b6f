/**
  * The refactored frame-struct AVC-LAN driver (src/avclandrv.c), which lets
  * an AVR pretend to be a Toyota CD changer on the head unit's AVC-LAN bus.
  *
  * The bus is modelled as in module Bus; an acknowledge slot on the wire is
  * `false` when the receiver pulled it to `0` (acknowledged).
  *
  * Several behaviours of this iteration are reproduced exactly as written;
  * the lemmas in the last section exhibit them.
  */
module Mockingboard {
  import opened Bits
  import opened Bus

  /* ---------------- constants (src/avclandrv.h, src/sniffer.c) ---------------- */

  const MAXMSGLEN: nat := 32
  /** CD_ID and HU_ID as `Setup` in src/sniffer.c assigns them. */
  const CD_ID: Word := 0x360
  const HU_ID: Word := 0x190
  const SW_ID: Byte := 0x11

  /** MSG_TYPE: BROADCAST = 0, UNICAST = 1. */
  const BROADCAST: Byte := 0
  const UNICAST: Byte := 1

  /* ---------------- serialisers ---------------- */

  /**
    * `AVCLAN_sendbitsi(bits, len)`: `mem[p]` is `*bits`; the low `len & 7` bits
    * of it go out first (all eight when `len` is a multiple of 8), then every
    * byte below it, each most significant bit first. Returns the even-parity
    * bit of what was sent.
    */
  method SendBitsI(mem: seq<Byte>, p: nat, len: nat) returns (bits: seq<bool>, parity: nat)
    requires p < |mem| && len <= 8 * (p + 1) && len < 128
    ensures bits == ChunkBits(mem, p, len)
    ensures parity == Ones(bits) % 2
  {
    var b: Byte := mem[p];
    var ones: nat := 0;
    var lenMod8: nat := 8;
    if len % 8 != 0 {
      lenMod8 := len % 8;
      AlignChunk(mem[p], lenMod8);
      b := AlignLeft(b, lenMod8);
    }
    var n: nat := len;
    var q: nat := p;
    bits := [];
    while n > 0
      invariant q <= p
      invariant Emitted(mem, p, len, q, n, bits)
      invariant n > 0 ==> lenMod8 == FirstChunk(n) && ToBits(b, 8)[..lenMod8] == ToBits(mem[q], lenMod8)
      invariant ones == Ones(bits)
      decreases n
    {
      q, n, b, bits, ones := SendChunk(mem, p, len, q, n, b, lenMod8, bits, ones);
      lenMod8 := 8;
    }
    parity := ones % 2;
  }

  /** One pass of the outer loop of `AVCLAN_sendbitsi`: the top `k` bits of
      the register go out, then the register is reloaded from the next byte
      down. */
  method SendChunk(mem: seq<Byte>, p: nat, len: nat, q: nat, n: nat, b: Byte, k: nat,
                   bits: seq<bool>, ones: nat)
    returns (q': nat, n': nat, b': Byte, bits': seq<bool>, ones': nat)
    requires p < |mem| && len <= 8 * (p + 1) && q <= p && n > 0
    requires Emitted(mem, p, len, q, n, bits) && k == FirstChunk(n)
    requires ToBits(b, 8)[..k] == ToBits(mem[q], k) && ones == Ones(bits)
    ensures q' <= p && n' < n && Emitted(mem, p, len, q', n', bits') && ones' == Ones(bits')
    ensures n' > 0 ==> FirstChunk(n') == 8 && ToBits(b', 8)[..8] == ToBits(mem[q'], 8)
  {
    ChunkAdvance(mem, p, len, q, n, bits);
    bits', ones' := ShiftOutChunk(b, mem[q], k, bits, ones);
    n' := n - k;
    q', b' := q, b;
    if n' > 0 {
      q' := q - 1;
      b' := mem[q'];
      assert ToBits(b', 8)[..8] == ToBits(b', 8);
    }
  }

  /** `AVCLAN_sendbitsl(bits, 12)`: a 16-bit address stored little-endian is
      serialised from its high byte down, i.e. as its low 12 bits. */
  method SendBitsL(addr: Word) returns (bits: seq<bool>, parity: nat)
    ensures bits == ToBits(addr, 12)
    ensures parity == Ones(bits) % 2
  {
    var lo: Byte := addr % 256;
    var hi: Byte := addr / 256;
    bits, parity := SendBitsI([lo, hi], 1, 12);
    ChunkBitsTwelve(lo, hi);
  }

  /** `AVCLAN_sendbyte`: all eight bits of a byte, most significant first. */
  method SendByte(x: Byte) returns (bits: seq<bool>, parity: nat)
    ensures bits == ToBits(x, 8)
    ensures parity == Ones(bits) % 2
  {
    var ones;
    bits, ones := ShiftOutChunk(x, x, 8, [], 0);
    parity := ones % 2;
  }

  /* ---------------- the capture interrupt and the readers ---------------- */

  /** READING_BYTE and READING_PARITY (GPIOR1, GPIOR3). */
  datatype Capture = Capture(byte: Byte, parity: Byte)

  /** The TCB0 capture interrupt: a short pulse adds one to both registers,
      then the byte register is shifted left. */
  function Isr(c: Capture, width: nat): Capture
  {
    var one := ReadsAsOne(width);
    var b := if one then Increment(c.byte) else c.byte;
    Capture(ShiftLeft(b), if one then Increment(c.parity) else c.parity)
  }

  /** The interrupt applied to each pulse of `ws` in turn. */
  function IsrRun(c: Capture, ws: seq<nat>): Capture
  {
    if |ws| == 0 then c else Isr(IsrRun(c, ws[..|ws| - 1]), ws[|ws| - 1])
  }

  /** After any number of captures from a cleared byte register, the register
      holds the bits read shifted left one place too far, and the parity
      register has counted their ones. */
  lemma {:induction false} IsrShiftsOnceTooFar(ws: seq<nat>, acc: Byte)
    ensures IsrRun(Capture(0, acc), ws).byte == (2 * FromBits(Classify(ws))) % 256
    ensures IsrRun(Capture(0, acc), ws).parity == (acc + Ones(Classify(ws))) % 256
  {
    if |ws| > 0 {
      var init := ws[..|ws| - 1];
      IsrShiftsOnceTooFar(init, acc);
      var bits := Classify(ws);
      assert bits[..|ws| - 1] == Classify(init);
      var d := if ReadsAsOne(ws[|ws| - 1]) then 1 else 0;
      var f := FromBits(Classify(init));
      assert FromBits(bits) == 2 * f + d;
      assert Ones(bits) == Ones(Classify(init)) + d;
      ModAddSmall(2 * f, d);
      ModDouble(2 * f + d);
      ModAddSmall(acc + Ones(Classify(init)), d);
    }
  }

  /** Where a reader stands: the next pulse to consume and the capture registers. */
  datatype Rx = Rx(pos: nat, cap: Capture)

  /** A field read off the bus: its value, the parity a reader function returns,
      and the reader afterwards. */
  datatype Field = Field(value: nat, parity: nat, next: Rx)

  /** `AVCLAN_readbitsi`: clears both capture registers, waits for `len`
      captures and returns READING_BYTE with READING_PARITY & 1. */
  function ReadBitsI(ws: seq<nat>, rx: Rx, len: nat): (r: Step<Field>)
    ensures r.Ok? <==> rx.pos + len <= |ws|
    ensures r.Ok? ==>
      var bits := Classify(ws[rx.pos..rx.pos + len]);
      r.value.value == (2 * FromBits(bits)) % 256 && r.value.value % 2 == 0
      && r.value.parity == Ones(bits) % 2
      && r.value.next.pos == rx.pos + len
      && r.value.next.cap.parity == Ones(bits) % 256
  {
    if rx.pos + len > |ws| then Fail(Starved)
    else
      var pulses := ws[rx.pos..rx.pos + len];
      IsrShiftsOnceTooFar(pulses, 0);
      DoubleModEven(FromBits(Classify(pulses)));
      ModParity(Ones(Classify(pulses)));
      var c := IsrRun(Capture(0, 0), pulses);
      Ok(Field(c.byte, c.parity % 2, Rx(rx.pos + len, c)))
  }

  /** `AVCLAN_readbitsl`: for more than 8 bits, the first `len - 8` land in the
      LOW byte of the little-endian word and the last 8 in the HIGH byte; each
      byte is shifted like every read. The parity covers all bits. */
  function ReadBitsL(ws: seq<nat>, rx: Rx, len: nat): (r: Step<Field>)
    requires 8 < len < 128
    ensures r.Ok? <==> rx.pos + len <= |ws|
    ensures r.Ok? ==>
      var mid := rx.pos + (len - 8);
      var over := Classify(ws[rx.pos..mid]);
      var last := Classify(ws[mid..rx.pos + len]);
      r.value.value == 256 * ((2 * FromBits(last)) % 256) + (2 * FromBits(over)) % 256
      && r.value.value % 2 == 0
      && r.value.parity == Ones(over + last) % 2
      && r.value.next.pos == rx.pos + len
  {
    if rx.pos + len > |ws| then Fail(Starved)
    else
      var mid := rx.pos + (len - 8);
      var lo := ReadBitsI(ws, rx, len - 8).value;
      var hi := ReadBitsI(ws, lo.next, 8).value;
      assert lo.next.pos + 8 == rx.pos + len;
      var over := Classify(ws[rx.pos..mid]);
      var last := Classify(ws[mid..rx.pos + len]);
      HalvesJoin(over, last, lo, hi);
      Ok(Field(256 * hi.value + lo.value, (lo.parity + hi.parity) % 2, hi.next))
  }

  /** How `AVCLAN_readbitsl` puts its two reads together: the first `len - 8`
      bits in the low byte, the last eight in the high byte, parities added. */
  lemma HalvesJoin(over: seq<bool>, last: seq<bool>, lo: Field, hi: Field)
    requires lo.value == (2 * FromBits(over)) % 256 && lo.value % 2 == 0 && lo.parity == Ones(over) % 2
    requires hi.value == (2 * FromBits(last)) % 256 && hi.parity == Ones(last) % 2
    ensures var f := Field(256 * hi.value + lo.value, (lo.parity + hi.parity) % 2, hi.next);
      f.value == 256 * ((2 * FromBits(last)) % 256) + (2 * FromBits(over)) % 256
      && f.value % 2 == 0 && f.parity == Ones(over + last) % 2
  {
    ParityAppend(over, last, lo.parity, hi.parity);
    ModMultiple(lo.value, 128 * hi.value, 2);
  }

  /** `AVCLAN_readbyte`: clears the byte register but NOT the parity
      register, so the parity it returns also counts whatever the previous
      read left there. */
  function ReadByte(ws: seq<nat>, rx: Rx): (r: Step<Field>)
    ensures r.Ok? <==> rx.pos + 8 <= |ws|
    ensures r.Ok? ==>
      var bits := Classify(ws[rx.pos..rx.pos + 8]);
      r.value.value == (2 * FromBits(bits)) % 256 && r.value.value % 2 == 0
      && r.value.parity == (rx.cap.parity + Ones(bits)) % 2
      && r.value.next.pos == rx.pos + 8
  {
    if rx.pos + 8 > |ws| then Fail(Starved)
    else
      var pulses := ws[rx.pos..rx.pos + 8];
      IsrShiftsOnceTooFar(pulses, rx.cap.parity);
      DoubleModEven(FromBits(Classify(pulses)));
      ModParity(rx.cap.parity + Ones(Classify(pulses)));
      var c := IsrRun(Capture(0, rx.cap.parity), pulses);
      Ok(Field(c.byte, c.parity % 2, Rx(rx.pos + 8, c)))
  }

  /** An acknowledge slot as the reader handles it: a frame for this device is
      acknowledged by driving the slot (its pulse is not measured, and a
      missing pulse only makes `AVCLAN_sendbit_ACK` time out); any other
      frame's slot is read as one bit. */
  function AckSlot(ws: seq<nat>, rx: Rx, forMe: bool): (r: Step<Field>)
    ensures forMe ==> r.Ok? && r.value.next.cap == rx.cap
    ensures !forMe ==> (r.Ok? <==> rx.pos < |ws|)
  {
    if forMe then Ok(Field(0, 0, Rx(if rx.pos < |ws| then rx.pos + 1 else rx.pos, rx.cap)))
    else ReadBitsI(ws, rx, 1)
  }

  /* ---------------- frames and commands ---------------- */

  /** AVCLAN_frame_t; `data` stands for the bytes behind the data pointer
      (the bytes a sent frame points at; see `Device.rxData` for a received one). */
  datatype Frame = Frame(broadcast: Byte, controller: Word, peripheral: Word,
                         control: Byte, length: Byte, data: seq<Byte>)

  /** The `commands` enumeration. */
  datatype Command =
    | Null | Status1 | Status2 | Status3 | Status4
    | PlayReq1 | PlayReq2 | PlayReq3 | StopReq | StopReq2
    | Register | Init | Check | PlayIt | Beep
    | NextTrack | PrevTrack | NextDisc | PrevDisc | ScanModeOn | ScanModeOff | CDStatus
  {
    /** Requests `AVCLan_SendAnswer` answers with exactly one template. */
    predicate SingleFrame()
    {
      Status1? || Status2? || Status3? || Status4? || Register? || PlayReq1? || Beep?
    }

    /** Requests whose answer sets the play mode or the CD mode. */
    predicate ChangesModes()
    {
      PlayReq1? || PlayReq2? || PlayReq3? || PlayIt? || StopReq? || StopReq2?
    }

    /** The two stop requests, which share one answer. */
    predicate Stops()
    {
      StopReq? || StopReq2?
    }

    /** The second and third play requests, which share one answer. */
    predicate PlaysOn()
    {
      PlayReq2? || PlayReq3?
    }

    /** Requests `AVCLan_SendAnswer` has no case for. */
    predicate Unanswered()
    {
      Null? || NextTrack? || PrevTrack? || NextDisc? || PrevDisc? || ScanModeOn? || ScanModeOff? || CDStatus?
    }
  }

  /** The value each command has in `answerReq`. */
  function Code(c: Command): (v: Byte)
    ensures v == 0 <==> c == Null
  {
    match c
    case Null => 0
    case Status1 => 1
    case Status2 => 2
    case Status3 => 3
    case Status4 => 4
    case PlayReq1 => 5
    case PlayReq2 => 6
    case PlayReq3 => 7
    case StopReq => 8
    case StopReq2 => 9
    case Register => 100
    case Init => 101
    case Check => 102
    case PlayIt => 103
    case Beep => 110
    case NextTrack => 120
    case PrevTrack => 121
    case NextDisc => 122
    case PrevDisc => 123
    case ScanModeOn => 130
    case ScanModeOff => 131
    case CDStatus => 132
  }

  /** Distinct commands have distinct codes. */
  lemma CodeInjective(a: Command, b: Command)
    ensures Code(a) == Code(b) ==> a == b
  {
  }

  /** A recognised-message pattern: a length byte, then that many payload bytes. */
  predicate IsPattern(cmd: seq<Byte>)
  {
    |cmd| >= 1 && |cmd| == cmd[0] as int + 1
  }

  const stat1: seq<Byte> := [0x4, 0x00, 0x00, 0x01, 0x0A]
  const stat2: seq<Byte> := [0x4, 0x00, 0x00, 0x01, 0x08]
  const stat3: seq<Byte> := [0x4, 0x00, 0x00, 0x01, 0x0D]
  const stat4: seq<Byte> := [0x4, 0x00, 0x00, 0x01, 0x0C]
  const lan_stat1: seq<Byte> := [0x3, 0x00, 0x01, 0x0A]
  const lan_reg: seq<Byte> := [0x3, SW_ID, 0x01, 0x00]
  const lan_init: seq<Byte> := [0x3, SW_ID, 0x01, 0x01]
  const lan_check: seq<Byte> := [0x3, SW_ID, 0x01, 0x20]
  const lan_playit: seq<Byte> := [0x4, SW_ID, 0x01, 0x45, 0x63]
  const play_req1: seq<Byte> := [0x4, 0x00, 0x25, 0x63, 0x80]
  /** The pattern of a build without `__AVENSIS__`. */
  const play_req2: seq<Byte> := [0x6, 0x00, SW_ID, 0x63, 0x42, 0x01, 0x00]
  const play_req3: seq<Byte> := [0x5, 0x00, SW_ID, 0x63, 0x42, 0x41]
  const stop_req: seq<Byte> := [0x5, 0x00, SW_ID, 0x63, 0x43, 0x01]
  const stop_req2: seq<Byte> := [0x5, 0x00, SW_ID, 0x63, 0x43, 0x41]

  /** The `if` chain for frames addressed to this device, in source order. */
  const ForMeTable: seq<(seq<Byte>, Command)> := [
    (stat1, Status1), (stat2, Status2), (stat3, Status3), (stat4, Status4),
    (play_req1, PlayReq1), (play_req2, PlayReq2), (play_req3, PlayReq3),
    (stop_req, StopReq), (stop_req2, StopReq2)]

  /** The `if` chain for all other frames, in source order. */
  const BroadcastTable: seq<(seq<Byte>, Command)> := [
    (lan_playit, PlayIt), (lan_check, Check), (lan_reg, Register),
    (lan_init, Init), (lan_stat1, Status1)]

  predicate WellFormedTable(table: seq<(seq<Byte>, Command)>)
  {
    forall i :: 0 <= i < |table| ==> IsPattern(table[i].0) && table[i].0[0] <= MAXMSGLEN
  }

  lemma TablesWellFormed()
    ensures WellFormedTable(ForMeTable) && WellFormedTable(BroadcastTable)
  {
  }

  /** `CheckCmd`: compares `data[i]` with pattern byte `i + 1` for each `i`
      below the pattern's length byte, whatever the received frame's length. */
  function CheckCmd(data: seq<Byte>, cmd: seq<Byte>): (r: bool)
    requires IsPattern(cmd) && cmd[0] <= |data|
    ensures r <==> data[..cmd[0]] == cmd[1..]
  {
    CheckFrom(data, cmd, 0)
  }

  function CheckFrom(data: seq<Byte>, cmd: seq<Byte>, i: nat): (r: bool)
    requires IsPattern(cmd) && cmd[0] <= |data| && i <= cmd[0]
    ensures r <==> forall j :: i <= j < cmd[0] ==> data[j] == cmd[j + 1]
    decreases cmd[0] - i
  {
    if i == cmd[0] then true
    else if data[i] != cmd[i + 1] then false
    else CheckFrom(data, cmd, i + 1)
  }

  /** Index of the first table entry that `CheckCmd` accepts, or `|table|`. */
  function FirstMatch(table: seq<(seq<Byte>, Command)>, data: seq<Byte>, from: nat): (k: nat)
    requires WellFormedTable(table) && |data| >= MAXMSGLEN && from <= |table|
    ensures from <= k <= |table|
    ensures forall j :: from <= j < k ==> !CheckCmd(data, table[j].0)
    ensures k < |table| ==> CheckCmd(data, table[k].0)
    decreases |table| - from
  {
    if from == |table| then from
    else if CheckCmd(data, table[from].0) then from
    else FirstMatch(table, data, from + 1)
  }

  /** The command the `if` chain selects: the first matching entry's, else `cm_Null`. */
  function Dispatch(table: seq<(seq<Byte>, Command)>, data: seq<Byte>): Command
    requires WellFormedTable(table) && |data| >= MAXMSGLEN
  {
    var k := FirstMatch(table, data, 0);
    if k < |table| then table[k].1 else Null
  }

  /* ---------------- device state ---------------- */

  datatype CdMode = Stop | Play

  /**
    * The driver's globals: the pending answer, play mode and CD mode, the
    * packed-BCD play position, the three mutable answer templates' data
    * arrays, and `rxData`, the MAXMSGLEN bytes a received payload is stored
    * to and matched from. In the source that store goes through the data
    * pointer of a zero-initialised local frame, which is null; `rxData`
    * models it as ordinary memory that keeps what was written.
    */
  datatype Device = Device(
    answerReq: Command,
    playMode: Byte,
    cdMode: CdMode,
    track: Byte,
    min: Byte,
    sec: Byte,
    check: seq<Byte>,
    playOk4: seq<Byte>,
    stop2: seq<Byte>,
    rxData: seq<Byte>)
  {
    predicate Valid()
    {
      |check| == 11 && |playOk4| == 11 && |stop2| == 11 && |rxData| == MAXMSGLEN
    }
  }

  /* ---------------- AVCLAN_readframe ---------------- */

  datatype Received = Accepted(frame: Frame, forMe: bool) | Dropped(why: Drop)

  datatype ReadResult = ReadResult(received: Received, next: Device)

  /** The value `AVCLAN_readframe` returns (it never returns when starved). */
  function ReturnCode(r: Received): nat
  {
    if r.Accepted? then 1 else 0
  }

  datatype Header = Header(broadcast: Byte, controller: Word, peripheral: Word,
                           forMe: bool, control: Byte, length: Byte, next: Rx)

  /** A field followed by its parity bit; the source compares the returned
      parity with the parity bit as `readbits` returns it (shifted, 0 or 2). */
  function ParityChecked(ws: seq<nat>, f: Field, name: FieldName): (r: Step<Rx>)
    ensures r.Ok? ==> r.value.pos == f.next.pos + 1
    ensures f.next.pos >= |ws| ==> r == Fail(Starved)
    ensures f.parity < 2 && f.next.pos < |ws| ==>
      (r.Ok? <==> f.parity == 0 && !ReadsAsOne(ws[f.next.pos]))
    ensures r.Fail? && f.next.pos < |ws| ==> r == Fail(ParityMismatch(name))
  {
    var p :- ReadBitsI(ws, f.next, 1);
    ReadOneBit(ws, f.next);
    if f.parity != p.value then Fail(ParityMismatch(name)) else Ok(p.next)
  }

  /** A single bit comes back from `AVCLAN_readbitsi` as 2 or 0. */
  lemma ReadOneBit(ws: seq<nat>, rx: Rx)
    requires rx.pos < |ws|
    ensures ReadBitsI(ws, rx, 1).value.value == if ReadsAsOne(ws[rx.pos]) then 2 else 0
  {
    var bits := Classify(ws[rx.pos..rx.pos + 1]);
    assert bits == [ReadsAsOne(ws[rx.pos])];
    assert bits[..0] == [];
  }

  /** Everything up to and including the length byte's acknowledge slot. */
  function ReadHeader(ws: seq<nat>): (r: Step<Header>)
    ensures r.Ok? ==> (r.value.forMe <==> r.value.peripheral == CD_ID)
    ensures r.Ok? ==> !r.value.forMe
    ensures r.Ok? ==> r.value.control % 2 == 0 && r.value.length % 2 == 0 && r.value.peripheral % 2 == 0
  {
    var start :- ReadBitsI(ws, Rx(0, Capture(0, 0)), 1);
    var dir :- ReadBitsI(ws, start.next, 1);
    var ctl :- ReadBitsL(ws, dir.next, 12);
    var rx1 :- ParityChecked(ws, ctl, ControllerAddr);
    var per :- ReadBitsL(ws, rx1, 12);
    var rx2 :- ParityChecked(ws, per, PeripheralAddr);
    var forMe := per.value == CD_ID;
    assert !forMe by { NeverOwnAddress(ws, rx1); }
    var a1 :- AckSlot(ws, rx2, forMe);
    var con :- ReadBitsI(ws, a1.next, 4);
    var rx3 :- ParityChecked(ws, con, ControlBits);
    var a2 :- AckSlot(ws, rx3, forMe);
    var len :- ReadByte(ws, a2.next);
    var rx4 :- ParityChecked(ws, len, LengthByte);
    var a3 :- AckSlot(ws, rx4, forMe);
    Ok(Header(dir.value, ctl.value, per.value, forMe, con.value, len.value, a3.next))
  }

  /**
    * A 12-bit read never yields CD_ID: its low byte holds the first four bits
    * shifted once, so it is even and at most 30, while CD_ID's low byte is 0x60.
    */
  lemma NeverOwnAddress(ws: seq<nat>, rx: Rx)
    requires rx.pos + 12 <= |ws|
    ensures ReadBitsL(ws, rx, 12).value.value != CD_ID
  {
    var over := Classify(ws[rx.pos..rx.pos + 4]);
    var last := Classify(ws[rx.pos + 4..rx.pos + 12]);
    var lo := (2 * FromBits(over)) % 256;
    assert |over| == 4;
    assert FromBits(over) < 16 by { assert Pow2(4) == 16; }
    assert lo <= 30;
    var v := ReadBitsL(ws, rx, 12).value.value;
    assert v == 256 * ((2 * FromBits(last)) % 256) + lo;
    if v == CD_ID {
      DivModUnique(v, 256, (2 * FromBits(last)) % 256, lo);
      DivModUnique(v, 256, 3, 0x60);
    }
  }

  datatype DataRead = DataRead(buf: seq<Byte>, failed: Step<Rx>)

  /** The payload loop: byte `i` is stored before its parity is checked. */
  function ReadData(ws: seq<nat>, rx: Rx, forMe: bool, length: nat, i: nat, buf: seq<Byte>): (r: DataRead)
    requires i <= length <= |buf|
    ensures |r.buf| == |buf|
    ensures forall j :: 0 <= j < |buf| && !(i <= j < length) ==> r.buf[j] == buf[j]
    decreases length - i
  {
    if i == length then DataRead(buf, Ok(rx))
    else match ReadByte(ws, rx)
      case Fail(why) => DataRead(buf, Fail(why))
      case Ok(b) =>
        var buf' := buf[i := b.value];
        match ParityChecked(ws, b, DataByte(i))
        case Fail(why) => DataRead(buf', Fail(why))
        case Ok(rx') =>
          match AckSlot(ws, rx', forMe)
          case Fail(why) => DataRead(buf', Fail(why))
          case Ok(a) => ReadData(ws, a.next, forMe, length, i + 1, buf')
  }

  /**
    * `AVCLAN_readframe`: read the header, refuse lengths above MAXMSGLEN, read
    * the payload, then set `answerReq` from the table that matches the
    * addressing. A frame that is dropped leaves `answerReq` alone.
    */
  function ReadFrame(ws: seq<nat>, d: Device): (r: ReadResult)
    requires d.Valid()
    ensures r.next.Valid()
    ensures r.received.Dropped? ==> r.next.answerReq == d.answerReq && r.next.check == d.check
    ensures r.received.Accepted? ==>
      var f := r.received.frame;
      f.length <= MAXMSGLEN && f.data == r.next.rxData[..f.length]
      && f.control % 2 == 0 && f.length % 2 == 0
      && (r.received.forMe <==> f.peripheral == CD_ID)
      && !r.received.forMe
      && r.next.answerReq == Dispatch(if r.received.forMe then ForMeTable else BroadcastTable, r.next.rxData)
    ensures r.next.playMode == d.playMode && r.next.cdMode == d.cdMode && r.next.track == d.track
      && r.next.min == d.min && r.next.sec == d.sec && r.next.playOk4 == d.playOk4 && r.next.stop2 == d.stop2
  {
    match ReadHeader(ws)
    case Fail(why) => ReadResult(Dropped(why), d)
    case Ok(h) =>
      if h.length > MAXMSGLEN then ReadResult(Dropped(TooLong(h.length)), d)
      else
        var dr := ReadData(ws, h.next, h.forMe, h.length, 0, d.rxData);
        var d' := d.(rxData := dr.buf);
        match dr.failed
        case Fail(why) => ReadResult(Dropped(why), d')
        case Ok(_) =>
          var f := Frame(h.broadcast, h.controller, h.peripheral, h.control, h.length, dr.buf[..h.length]);
          TablesWellFormed();
          var table := if h.forMe then ForMeTable else BroadcastTable;
          var cmd := Dispatch(table, dr.buf);
          var check := if !h.forMe && cmd == Check then d.check[4 := dr.buf[3]] else d.check;
          ReadResult(Accepted(f, h.forMe), d'.(answerReq := cmd, check := check))
  }

  /* ---------------- AVCLAN_sendframe ---------------- */

  /**
    * The frame as a list of segments, each of which is followed by an
    * acknowledge slot on the bus: (direction, controller + parity,
    * peripheral + parity), control + parity, length + parity, then each
    * data byte + parity.
    */
  function Segments(f: Frame): (segs: seq<seq<bool>>)
    requires f.length <= |f.data|
    ensures |segs| == 3 + f.length
  {
    [[f.broadcast % 2 == 1] + WithParity(ToBits(f.controller, 12)) + WithParity(ToBits(f.peripheral, 12)),
     WithParity(ToBits(f.control, 4)),
     WithParity(ToBits(f.length, 8))]
    + seq(f.length, i requires 0 <= i < f.length => WithParity(ToBits(f.data[i], 8)))
  }

  function Flatten(segs: seq<seq<bool>>): seq<bool>
  {
    if |segs| == 0 then [] else segs[0] + Flatten(segs[1..])
  }

  /** The segments with an acknowledged (`0`) slot after each. */
  function WithSlots(segs: seq<seq<bool>>): seq<bool>
  {
    if |segs| == 0 then [] else segs[0] + [false] + WithSlots(segs[1..])
  }

  /** What a transmission put on the wire and the code it returned. */
  datatype Tx = Tx(code: nat, wire: seq<bool>)

  /** Emits the segments from `i` on; after segment `i`, when `readAck`, reads
      acknowledge slot `i` and stops at the first NAK. */
  function SendSegments(segs: seq<seq<bool>>, i: nat, readAck: bool, acks: seq<bool>): (t: Tx)
    requires i <= |segs|
    ensures t.code <= 4
    ensures !readAck ==> t.code == 0 && t.wire == Flatten(segs[i..])
    ensures readAck ==>
      var k := FirstNak(acks, i, |segs|);
      (k == |segs| ==> t.code == 0 && t.wire == WithSlots(segs[i..]))
      && (k < |segs| ==> t.code == NakCode(k))
    decreases |segs| - i
  {
    if i == |segs| then Tx(0, [])
    else
      var ack := AckAt(acks, i);
      var slot := if readAck then [!ack] else [];
      if readAck && !ack then Tx(NakCode(i), segs[i] + slot)
      else
        var t := SendSegments(segs, i + 1, readAck, acks);
        assert segs[i..] == [segs[i]] + segs[i + 1..];
        Tx(t.code, segs[i] + slot + t.wire)
  }

  /**
    * After a NAK nothing more is sent: the wire holds the segments before
    * the refused one with their acknowledged slots, the refused segment, and
    * the sender's own `1` in its slot.
    */
  lemma {:induction false} SegmentsNakWire(segs: seq<seq<bool>>, i: nat, acks: seq<bool>)
    requires i <= |segs|
    ensures var k := FirstNak(acks, i, |segs|);
      k < |segs| ==> SendSegments(segs, i, true, acks).wire == WithSlots(segs[i..k]) + segs[k] + [true]
    decreases |segs| - i
  {
    var k := FirstNak(acks, i, |segs|);
    if i < |segs| && k < |segs| {
      if !AckAt(acks, i) {
        assert segs[i..i] == [];
      } else {
        SegmentsNakWire(segs, i + 1, acks);
        SlotsStepHolds(segs, i, k);
      }
    }
  }

  /** Laying out slots from `i` up to `k` is segment `i`, its slot, then the rest. */
  predicate SlotsStep(segs: seq<seq<bool>>, i: nat, k: nat)
    requires i < k <= |segs|
  {
    WithSlots(segs[i..k]) == segs[i] + [false] + WithSlots(segs[i + 1..k])
  }

  lemma SlotsStepHolds(segs: seq<seq<bool>>, i: nat, k: nat)
    requires i < k <= |segs|
    ensures SlotsStep(segs, i, k)
  {
    assert segs[i..k][1..] == segs[i + 1..k];
  }

  /** A transmission together with the acknowledgements it left unread. */
  datatype Sent = Sent(code: nat, wire: seq<bool>, rest: seq<bool>)

  /**
    * `AVCLAN_sendframe` after the start bit. The acknowledge slots are read
    * only when `!frame->broadcast`, that is for BROADCAST (= 0) frames; a
    * UNICAST frame is sent without any slot and always reports success.
    */
  function SendFrame(f: Frame, acks: seq<bool>): (t: Sent)
    requires f.length <= |f.data|
    ensures t.code <= 4
    ensures f.broadcast != BROADCAST ==> t.code == 0 && t.wire == Flatten(Segments(f)) && t.rest == acks
    ensures f.broadcast == BROADCAST ==>
      (t.code == 0 <==> forall j :: 0 <= j < 3 + f.length ==> AckAt(acks, j))
    ensures f.broadcast == BROADCAST && t.code == 0 ==>
      t.wire == WithSlots(Segments(f)) && |acks| >= 3 + f.length && t.rest == acks[3 + f.length..]
    ensures f.broadcast == BROADCAST && t.code != 0 ==>
      var k := FirstNak(acks, 0, 3 + f.length);
      k < 3 + f.length && t.code == NakCode(k)
      && t.wire == WithSlots(Segments(f)[..k]) + Segments(f)[k] + [true]
  {
    var segs := Segments(f);
    var readAck := f.broadcast == BROADCAST;
    var t := SendSegments(segs, 0, readAck, acks);
    assert segs[0..] == segs;
    var k := FirstNak(acks, 0, |segs|);
    var used := if k < |segs| then k + 1 else k;
    var rest := if !readAck then acks else if used <= |acks| then acks[used..] else [];
    assert k == |segs| && |segs| > 0 ==> AckAt(acks, |segs| - 1);
    assert readAck && k < |segs| ==> t.wire == WithSlots(segs[..k]) + segs[k] + [true] by {
      if readAck {
        SegmentsNakWire(segs, 0, acks);
      }
    }
    Sent(t.code, t.wire, rest)
  }

  /* ---------------- answers ---------------- */

  /** AVCLAN_KnownMessage_t: message type, length and an 11-byte data array. */
  datatype Known = Known(broadcast: Byte, length: Byte, data: seq<Byte>)

  const CMD_REGISTER := Known(UNICAST, 5, [0x00, 0x01, SW_ID, 0x10, 0x63, 0, 0, 0, 0, 0, 0])
  const CMD_STATUS1 := Known(UNICAST, 4, [0x00, 0x01, 0x00, 0x1A, 0, 0, 0, 0, 0, 0, 0])
  const CMD_STATUS2 := Known(UNICAST, 4, [0x00, 0x01, 0x00, 0x18, 0, 0, 0, 0, 0, 0, 0])
  const CMD_STATUS3 := Known(UNICAST, 4, [0x00, 0x01, 0x00, 0x1D, 0, 0, 0, 0, 0, 0, 0])
  const CMD_STATUS4 := Known(UNICAST, 5, [0x00, 0x01, 0x00, 0x1C, 0x00, 0, 0, 0, 0, 0, 0])
  const CMD_PLAY_OK1 := Known(UNICAST, 5, [0x00, 0x63, SW_ID, 0x50, 0x01, 0, 0, 0, 0, 0, 0])
  const CMD_PLAY_OK2 := Known(UNICAST, 5, [0x00, 0x63, SW_ID, 0x52, 0x01, 0, 0, 0, 0, 0, 0])
  const CMD_PLAY_OK3 := Known(BROADCAST, 11, [0x63, 0x31, 0xF1, 0x01, 0x00, 0x01, 0xFF, 0xFF, 0xFF, 0x00, 0x80])
  const CMD_STOP1 := Known(UNICAST, 5, [0x00, 0x63, SW_ID, 0x53, 0x01, 0, 0, 0, 0, 0, 0])
  const CMD_BEEP := Known(UNICAST, 5, [0x00, 0x63, 0x29, 0x60, 0x02, 0, 0, 0, 0, 0, 0])

  /** Initial contents of the three templates the driver patches. */
  const CHECK_DATA: seq<Byte> := [0x00, 0x01, SW_ID, 0x30, 0x00, 0x00, 0, 0, 0, 0, 0]
  const PLAY_OK4_DATA: seq<Byte> := [0x63, 0x31, 0xF1, 0x01, 0x28, 0x00, 0x00, 0x01, 0x00, 0x00, 0x80]
  const STOP2_DATA: seq<Byte> := [0x63, 0x31, 0xF1, 0x00, 0x30, 0x00, 0x00, 0x01, 0x00, 0x00, 0x80]

  /** The ten initialisation broadcasts, in the order they are sent. */
  const InitCommands: seq<Known> := [
    Known(BROADCAST, 10, [0x63, 0x31, 0xF1, 0x00, 0x80, 0xFF, 0xFF, 0xFF, 0xFF, 0x00, 0x80]),
    Known(BROADCAST, 10, [0x63, 0x31, 0xF3, 0x00, 0x3F, 0x00, 0x00, 0x00, 0x00, 0x02, 0]),
    Known(BROADCAST, 10, [0x63, 0x31, 0xF3, 0x00, 0x3F, 0x00, 0x01, 0x00, 0x01, 0x02, 0]),
    Known(BROADCAST, 10, [0x63, 0x31, 0xF3, 0x00, 0x3D, 0x00, 0x01, 0x00, 0x01, 0x02, 0]),
    Known(BROADCAST, 10, [0x63, 0x31, 0xF3, 0x00, 0x39, 0x00, 0x01, 0x00, 0x01, 0x02, 0]),
    Known(BROADCAST, 10, [0x63, 0x31, 0xF3, 0x00, 0x31, 0x00, 0x01, 0x00, 0x01, 0x02, 0]),
    Known(BROADCAST, 10, [0x63, 0x31, 0xF3, 0x00, 0x21, 0x00, 0x01, 0x00, 0x01, 0x02, 0]),
    Known(BROADCAST, 11, [0x63, 0x31, 0xF1, 0x00, 0x90, 0x01, 0xFF, 0xFF, 0xFF, 0x00, 0x80]),
    Known(BROADCAST, 10, [0x63, 0x31, 0xF3, 0x00, 0x01, 0x00, 0x01, 0x00, 0x01, 0x02, 0]),
    Known(BROADCAST, 11, [0x63, 0x31, 0xF1, 0x00, 0x30, 0x01, 0xFF, 0xFF, 0xFF, 0x00, 0x80])]

  predicate FitsTemplate(m: Known)
  {
    |m.data| == 11 && m.length <= 11
  }

  /** The frame `AVCLan_SendAnswer` and its helpers build around a template:
      from this device to the head unit, control 0xF. */
  function AnswerFrame(m: Known): (f: Frame)
    requires FitsTemplate(m)
    ensures f.length <= |f.data|
  {
    Frame(m.broadcast, CD_ID, HU_ID, 0xF, m.length, m.data)
  }

  /** One attempted transmission and the code `AVCLAN_sendframe` returned. */
  datatype Attempt = Attempt(frame: Frame, code: nat)

  /** A series of transmissions: the final code, what was attempted, and the
      acknowledgements not yet consumed. */
  datatype Session = Session(code: nat, log: seq<Attempt>, rest: seq<bool>)

  function Send(m: Known, acks: seq<bool>): (s: Session)
    requires FitsTemplate(m)
    ensures s.code <= 4
    ensures |s.log| == 1 && s.log[0].frame == AnswerFrame(m) && s.log[0].code == s.code
    ensures m.broadcast != BROADCAST ==> s.code == 0 && s.rest == acks
  {
    var t := SendFrame(AnswerFrame(m), acks);
    Session(t.code, [Attempt(AnswerFrame(m), t.code)], t.rest)
  }

  /** Every attempt but the last succeeded, and the session's code is the last one's. */
  predicate StoppedAtFirstFailure(s: Session)
  {
    (forall i :: 0 <= i < |s.log| - 1 ==> s.log[i].code == 0)
    && (|s.log| > 0 ==> s.code == s.log[|s.log| - 1].code)
    && (|s.log| == 0 ==> s.code == 0)
  }

  /** `AVCLan_SendInitCommands`: sends the templates in order while every
      transmission succeeds. */
  function SendAll(ms: seq<Known>, acks: seq<bool>): (s: Session)
    requires forall i :: 0 <= i < |ms| ==> FitsTemplate(ms[i])
    ensures s.code <= 4 && |s.log| <= |ms| && (|ms| > 0 ==> |s.log| >= 1)
    ensures forall i :: 0 <= i < |s.log| ==> s.log[i].frame == AnswerFrame(ms[i])
    ensures StoppedAtFirstFailure(s)
    ensures s.code == 0 ==> |s.log| == |ms|
    ensures |s.log| < |ms| ==> s.code != 0
  {
    SendFrom(ms, 0, [], acks)
  }

  /** The loop of `AVCLan_SendInitCommands` from template `k` on, after the
      first `k` went through and were logged in `log`. */
  function SendFrom(ms: seq<Known>, k: nat, log: seq<Attempt>, acks: seq<bool>): (s: Session)
    requires forall i :: 0 <= i < |ms| ==> FitsTemplate(ms[i])
    requires k <= |ms| && |log| == k
    requires forall i :: 0 <= i < k ==> log[i].frame == AnswerFrame(ms[i]) && log[i].code == 0
    ensures s.code <= 4 && k <= |s.log| <= |ms| && (k < |ms| ==> |s.log| > k)
    ensures forall i :: 0 <= i < |s.log| ==> s.log[i].frame == AnswerFrame(ms[i])
    ensures StoppedAtFirstFailure(s)
    ensures s.code == 0 ==> |s.log| == |ms|
    ensures |s.log| < |ms| ==> s.code != 0
    decreases |ms| - k
  {
    if k == |ms| then Session(0, log, acks)
    else
      var first := Send(ms[k], acks);
      var logged := log + [first.log[0]];
      LoggedInOrder(ms, log, first.log[0]);
      if first.code != 0 then Session(first.code, logged, first.rest)
      else SendFrom(ms, k + 1, logged, first.rest)
  }

  /** Logging the attempt at template `|log|` keeps the log in template order. */
  lemma LoggedInOrder(ms: seq<Known>, log: seq<Attempt>, a: Attempt)
    requires forall i :: 0 <= i < |ms| ==> FitsTemplate(ms[i])
    requires |log| < |ms| && a.frame == AnswerFrame(ms[|log|])
    requires forall i :: 0 <= i < |log| ==> log[i].frame == AnswerFrame(ms[i]) && log[i].code == 0
    ensures forall i :: 0 <= i <= |log| ==> (log + [a])[i].frame == AnswerFrame(ms[i])
    ensures a.code == 0 ==> forall i :: 0 <= i <= |log| ==> (log + [a])[i].code == 0
  {
  }

  function SendInitCommands(acks: seq<bool>): (s: Session)
    ensures s.code <= 4 && 1 <= |s.log| <= 10 && StoppedAtFirstFailure(s)
    ensures forall i :: 0 <= i < |s.log| ==> s.log[i].frame == AnswerFrame(InitCommands[i])
    ensures s.code == 0 <==> |s.log| == 10 && s.log[9].code == 0
  {
    SendAll(InitCommands, acks)
  }

  /** The status payload `AVCLan_Send_Status` fills in. */
  function StatusData(track: Byte, min: Byte, sec: Byte): (data: seq<Byte>)
    ensures |data| == 11 && data[6..10] == [track, min, sec, 0]
  {
    [0x63, 0x31, 0xF1, 0x01, 0x10, 0x01, track, min, sec, 0x00, 0x80]
  }

  /** `AVCLan_Send_Status`: one UNICAST frame of 11 bytes with the play position. */
  function SendStatus(d: Device, acks: seq<bool>): (s: Session)
    ensures |s.log| == 1 && s.log[0].frame.broadcast == UNICAST && s.log[0].frame.length == 11
    ensures |s.log[0].frame.data| == 11
    ensures s.log[0].frame.data[6..9] == [d.track, d.min, d.sec]
  {
    var data := StatusData(d.track, d.min, d.sec);
    assert data[6..9] == data[6..10][..3];
    Send(Known(UNICAST, 11, data), acks)
  }

  /** What `AVCLan_SendAnswer` did: its return value, the transmissions, the
      acknowledgements left, and the device afterwards. */
  datatype Answer = Answer(code: nat, log: seq<Attempt>, rest: seq<bool>, next: Device)

  /** Bytes 8..10 of a broadcast template set to the play position. */
  function PatchPosition(data: seq<Byte>, d: Device): (r: seq<Byte>)
    requires |data| == 11
    ensures |r| == 11 && r[..8] == data[..8] && r[8..] == [d.track, d.min, d.sec]
  {
    data[8 := d.track][9 := d.min][10 := d.sec]
  }

  /**
    * The state changes `AVCLan_SendAnswer` makes for `answerReq`, none of
    * which depends on what the transmissions returned.
    */
  function AfterAnswer(d: Device): (n: Device)
    requires d.Valid()
    ensures n.Valid() && n.answerReq == Null
    ensures n.track == d.track && n.min == d.min && n.sec == d.sec && n.rxData == d.rxData
    ensures d.answerReq.Unanswered() ==> n == d.(answerReq := Null)
  {
    var done := d.(answerReq := Null);
    match d.answerReq
    case Check => done.(check := d.check[6 := Increment(d.check[6])])
    case PlayReq1 => done.(playMode := 0)
    case PlayReq2 => done.(playMode := 0, cdMode := Play)
    case PlayReq3 => done.(playMode := 0, cdMode := Play)
    case PlayIt => done.(playMode := 1, cdMode := Play, playOk4 := PatchPosition(d.playOk4, d))
    case StopReq => done.(playMode := 0, cdMode := Stop, stop2 := PatchPosition(d.stop2, d))
    case StopReq2 => done.(playMode := 0, cdMode := Stop, stop2 := PatchPosition(d.stop2, d))
    case _ => done
  }

  /** The transmissions `AVCLan_SendAnswer` makes for `answerReq`. */
  function AnswerSession(d: Device, acks: seq<bool>): (s: Session)
    requires d.Valid()
    ensures s.code <= 4
    ensures d.answerReq.Unanswered() ==> s == Session(0, [], acks)
  {
    if d.answerReq.Unanswered() then Session(0, [], acks)
    else if d.answerReq.SingleFrame() then Send(SingleReply(d.answerReq), acks)
    else if d.answerReq.Stops() then StopSession(d, acks)
    else if d.answerReq.PlaysOn() then PlayOkSession(acks)
    else if d.answerReq == Init then SendInitCommands(acks)
    else if d.answerReq == Check then Send(Known(UNICAST, 6, d.check), acks)
    else PlayItSession(d, acks)
  }

  /** `AVCLan_SendAnswer`: the transmissions for `answerReq`, the state
      changes of its case, and `answerReq` cleared. */
  function SendAnswer(d: Device, acks: seq<bool>): (a: Answer)
    requires d.Valid()
    ensures a.code <= 4
    ensures a.next.Valid() && a.next.answerReq == Null
    ensures a.next.track == d.track && a.next.min == d.min && a.next.sec == d.sec && a.next.rxData == d.rxData
    ensures d.answerReq.Unanswered() ==>
      a.code == 0 && a.log == [] && a.rest == acks && a.next == d.(answerReq := Null)
  {
    var s := AnswerSession(d, acks);
    Answer(s.code, s.log, s.rest, AfterAnswer(d))
  }

  /** The one template each single-frame answer sends. */
  function SingleReply(c: Command): (m: Known)
    requires c.SingleFrame()
    ensures FitsTemplate(m) && m.broadcast == UNICAST
  {
    match c
    case Status1 => CMD_STATUS1
    case Status2 => CMD_STATUS2
    case Status3 => CMD_STATUS3
    case Status4 => CMD_STATUS4
    case Register => CMD_REGISTER
    case PlayReq1 => CMD_PLAY_OK1
    case Beep => CMD_BEEP
  }

  /** The status, register, first play and beep requests are answered with
      exactly one UNICAST frame, which therefore always reports success. */
  lemma AnswerSingleFrame(d: Device, acks: seq<bool>)
    requires d.Valid() && d.answerReq.SingleFrame()
    ensures var a := SendAnswer(d, acks);
      a.log == [Attempt(AnswerFrame(SingleReply(d.answerReq)), 0)] && a.code == 0 && a.rest == acks
  {
  }

  /** The play and stop requests set the play mode and CD mode; every other
      request leaves them alone. */
  lemma AnswerModes(d: Device)
    requires d.Valid()
    ensures var n := AfterAnswer(d);
      (d.answerReq == PlayReq1 ==> n.playMode == 0 && n.cdMode == d.cdMode)
      && ((d.answerReq == PlayReq2 || d.answerReq == PlayReq3) ==> n.playMode == 0 && n.cdMode == Play)
      && (d.answerReq == PlayIt ==> n.playMode == 1 && n.cdMode == Play)
      && (d.answerReq.Stops() ==> n.playMode == 0 && n.cdMode == Stop)
      && (!d.answerReq.ChangesModes() ==>
            n.playMode == d.playMode && n.cdMode == d.cdMode)
  {
  }

  /** PlayIt writes the play position into bytes 8..10 of PLAY_OK4 and
      broadcasts it. */
  lemma AnswerPlayItPatch(d: Device, acks: seq<bool>)
    requires d.Valid() && d.answerReq == PlayIt
    ensures var a := SendAnswer(d, acks);
      a.next.playOk4 == d.playOk4[8 := d.track][9 := d.min][10 := d.sec]
      && |a.log| >= 1 && a.log[0].frame == AnswerFrame(Known(BROADCAST, 11, a.next.playOk4))
  {
  }

  /** The stop requests write the play position into bytes 8..10 of STOP2
      and broadcast it after STOP1, whatever STOP1 returned; the answer's code
      is STOP2's. */
  lemma AnswerStopPatch(d: Device, acks: seq<bool>)
    requires d.Valid() && d.answerReq.Stops()
    ensures var a := SendAnswer(d, acks);
      a.next.stop2 == d.stop2[8 := d.track][9 := d.min][10 := d.sec]
      && |a.log| == 2 && a.log[0].frame == AnswerFrame(CMD_STOP1)
      && a.log[1].frame == AnswerFrame(Known(BROADCAST, 11, a.next.stop2))
      && a.code == a.log[1].code
  {
  }

  /** Check sends CMD_CHECK as it stands and then increments its byte 6. */
  lemma AnswerCheckCounter(d: Device, acks: seq<bool>)
    requires d.Valid() && d.answerReq == Check
    ensures var a := SendAnswer(d, acks);
      a.next.check == d.check[6 := Increment(d.check[6])]
      && a.log == [Attempt(AnswerFrame(Known(UNICAST, 6, d.check)), 0)]
  {
  }

  /** Only PlayIt, the stop requests and Check touch the mutable templates. */
  lemma AnswerTemplatesUnchanged(d: Device)
    requires d.Valid()
    ensures var n := AfterAnswer(d);
      (d.answerReq != PlayIt ==> n.playOk4 == d.playOk4)
      && (!d.answerReq.Stops() ==> n.stop2 == d.stop2)
      && (d.answerReq != Check ==> n.check == d.check)
  {
  }

  /** `cm_PlayReq2` / `cm_PlayReq3`: PLAY_OK2, then PLAY_OK3 if that went through. */
  function PlayOkSession(acks: seq<bool>): (s: Session)
    ensures s.code <= 4
    ensures 1 <= |s.log| <= 2 && s.log[0].frame == AnswerFrame(CMD_PLAY_OK2)
    ensures |s.log| == 2 ==> s.log[1].frame == AnswerFrame(CMD_PLAY_OK3)
    ensures StoppedAtFirstFailure(s)
  {
    var s2 := Send(CMD_PLAY_OK2, acks);
    if s2.code == 0 then
      var s3 := Send(CMD_PLAY_OK3, s2.rest);
      Session(s3.code, s2.log + s3.log, s3.rest)
    else s2
  }

  /** `cm_PlayIt`: the patched PLAY_OK4, then the status frame if that went
      through; the status frame's own code is not kept. */
  function PlayItSession(d: Device, acks: seq<bool>): (s: Session)
    requires d.Valid()
    ensures s.code <= 4
    ensures 1 <= |s.log| <= 2 && s.log[0].frame == AnswerFrame(Known(BROADCAST, 11, PatchPosition(d.playOk4, d)))
    ensures s.code == s.log[0].code
    ensures |s.log| == 2 <==> s.code == 0
  {
    var s4 := Send(Known(BROADCAST, 11, PatchPosition(d.playOk4, d)), acks);
    if s4.code == 0 then
      var st := SendStatus(d, s4.rest);
      Session(0, s4.log + st.log, st.rest)
    else s4
  }

  /** `cm_StopReq` / `cm_StopReq2`: STOP1, then the patched STOP2 whatever
      STOP1 returned; the code is STOP2's. */
  function StopSession(d: Device, acks: seq<bool>): (s: Session)
    requires d.Valid()
    ensures s.code <= 4
    ensures |s.log| == 2 && s.code == s.log[1].code
    ensures s.log[0].frame == AnswerFrame(CMD_STOP1)
    ensures s.log[1].frame == AnswerFrame(Known(BROADCAST, 11, PatchPosition(d.stop2, d)))
  {
    var s1 := Send(CMD_STOP1, acks);
    var s2 := Send(Known(BROADCAST, 11, PatchPosition(d.stop2, d)), s1.rest);
    Session(s2.code, s1.log + s2.log, s2.rest)
  }

  /* ---------------- behaviours reproduced as written ---------------- */

  /** A frame whose controller parity bit reads as `1` is always dropped:
      the parity bit comes back from `readbits` shifted (as 2), so it never
      equals the 0/1 parity it is compared with. */
  lemma ParityBitOneRejects(ws: seq<nat>, d: Device)
    requires d.Valid() && |ws| >= 15 && ReadsAsOne(ws[14])
    ensures ReadFrame(ws, d).received == Dropped(ParityMismatch(ControllerAddr))
  {
    var start := ReadBitsI(ws, Rx(0, Capture(0, 0)), 1).value;
    var dir := ReadBitsI(ws, start.next, 1).value;
    var ctl := ReadBitsL(ws, dir.next, 12).value;
    assert ctl.next.pos == 14;
  }

  /** Whatever follows, a transmission starts with its first segment. */
  lemma FirstSegmentLeads(segs: seq<seq<bool>>, j: nat)
    requires |segs| > 0 && j < |segs[0]|
    ensures Flatten(segs)[j] == segs[0][j] && WithSlots(segs)[j] == segs[0][j]
  {
  }

  /** Every frame whose controller address has an odd number of ones is
      dropped by this driver, whether or not it carries acknowledge slots. */
  lemma OddControllerRejected(f: Frame, d: Device)
    requires d.Valid() && f.length <= |f.data| && ParityBit(ToBits(f.controller, 12))
    ensures ReadFrame(Pulses(Flatten(Segments(f))), d).received == Dropped(ParityMismatch(ControllerAddr))
    ensures ReadFrame(Pulses(WithSlots(Segments(f))), d).received == Dropped(ParityMismatch(ControllerAddr))
  {
    var segs := Segments(f);
    assert segs[0][13] == ParityBit(ToBits(f.controller, 12));
    FirstSegmentLeads(segs, 13);
    var w1 := Flatten(segs);
    var w2 := WithSlots(segs);
    BitCodecSeparates(true);
    ParityBitOneRejects(Pulses(w1), d);
    ParityBitOneRejects(Pulses(w2), d);
  }

  /** The head unit's address 0x190 has three ones ... */
  lemma HeadUnitAddressOnes()
    ensures PopCount(HU_ID, 12) == 3
  {
    calc {
      PopCount(0x190, 12);
      PopCount(0xC8, 11);
      PopCount(0x64, 10);
      PopCount(0x32, 9);
      PopCount(0x19, 8);
      1 + PopCount(0xC, 7);
      1 + PopCount(0x6, 6);
      1 + PopCount(0x3, 5);
      2 + PopCount(0x1, 4);
      3 + PopCount(0, 3);
      { PopCountZero(3); }
      3;
    }
  }

  /** ... and this device's 0x360 has four. */
  lemma OwnAddressOnes()
    ensures PopCount(CD_ID, 12) == 4
  {
    calc {
      PopCount(0x360, 12);
      PopCount(0x1B0, 11);
      PopCount(0xD8, 10);
      PopCount(0x6C, 9);
      PopCount(0x36, 8);
      PopCount(0x1B, 7);
      1 + PopCount(0xD, 6);
      2 + PopCount(0x6, 5);
      2 + PopCount(0x3, 4);
      3 + PopCount(0x1, 3);
      4 + PopCount(0, 2);
      { PopCountZero(2); }
      4;
    }
  }

  /** So the head unit's address has odd parity, and no frame the head unit
      sends is ever accepted. */
  lemma HeadUnitFramesRejected(f: Frame, d: Device)
    requires d.Valid() && f.length <= |f.data| && f.controller == HU_ID
    ensures ReadFrame(Pulses(Flatten(Segments(f))), d).received == Dropped(ParityMismatch(ControllerAddr))
    ensures ReadFrame(Pulses(WithSlots(Segments(f))), d).received == Dropped(ParityMismatch(ControllerAddr))
  {
    HeadUnitAddressOnes();
    OnesToBits(f.controller, 12);
    OddControllerRejected(f, d);
  }

  /** The receive side of the bit codec: `n` bits of a transmission, read
      from the pulses they produced. */
  lemma ReadBitsOfPulses(wire: seq<bool>, a: nat, n: nat, cap: Capture)
    requires a + n <= |wire|
    ensures var r := ReadBitsI(Pulses(wire), Rx(a + 1, cap), n);
      r.Ok? && r.value.value == (2 * FromBits(wire[a..a + n])) % 256
      && r.value.parity == Ones(wire[a..a + n]) % 2 && r.value.next.pos == a + 1 + n
  {
    ClassifyWindow(wire, a, n);
  }

  /** Any field of up to eight bits comes back from `AVCLAN_readbitsi`
      shifted left by one place (and its top bit lost when it has eight). */
  lemma FieldReadBackShifted(v: nat, n: nat, cap: Capture)
    requires n <= 8
    ensures ReadBitsI(Pulses(ToBits(v, n)), Rx(1, cap), n).value.value == (2 * (v % Pow2(n))) % 256
  {
    ReadBitsOfPulses(ToBits(v, n), 0, n, cap);
    assert ToBits(v, n)[0..n] == ToBits(v, n);
    FromToBits(v, n);
  }

  /** A 12-bit address comes back from `AVCLAN_readbitsl` with its top four
      bits, shifted, in the low byte and its low eight bits, shifted, in the
      high byte. */
  lemma AddressReadBack(v: Word, cap: Capture)
    ensures ReadBitsL(Pulses(ToBits(v, 12)), Rx(1, cap), 12).value.value
      == 256 * ShiftLeft(v % 256) + ShiftLeft((v / 256) % 16)
  {
    var wire := ToBits(v, 12);
    WordReadBack(wire, cap);
    ToBitsSplit(v, 4, 8);
    assert Pow2(8) == 256 && Pow2(4) == 16;
    assert wire[0..4] == ToBits(Shr(v, 8), 4);
    assert wire[4..12] == ToBits(v, 8);
    FromToBits(Shr(v, 8), 4);
    FromToBits(v, 8);
  }

  /** The two halves `AVCLAN_readbitsl` assembles from a 12-bit transmission. */
  lemma WordReadBack(wire: seq<bool>, cap: Capture)
    requires |wire| >= 12
    ensures ReadBitsL(Pulses(wire), Rx(1, cap), 12).Ok?
    ensures ReadBitsL(Pulses(wire), Rx(1, cap), 12).value.value
      == 256 * ((2 * FromBits(wire[4..12])) % 256) + (2 * FromBits(wire[0..4])) % 256
  {
    var ws := Pulses(wire);
    assert Classify(ws[1..5]) == wire[0..4] by { ClassifyWindow(wire, 0, 4); }
    assert Classify(ws[5..13]) == wire[4..12] by { ClassifyWindow(wire, 4, 8); }
  }

  /** The device's own address 0x360 reads back as 0xC006. */
  lemma OwnAddressReadBack(v: Word, cap: Capture)
    requires v == CD_ID
    ensures ReadBitsL(Pulses(ToBits(v, 12)), Rx(1, cap), 12).value.value == 0xC006
  {
    AddressReadBack(v, cap);
    OwnAddressBytes(v);
  }

  lemma OwnAddressBytes(v: Word)
    requires v == CD_ID
    ensures 256 * ShiftLeft(v % 256) + ShiftLeft((v / 256) % 16) == 0xC006
  {
    DivModUnique(v, 256, 3, 0x60);
  }

  /** A UNICAST frame never reads an acknowledgement: it reports success even
      when no device acknowledges anything. */
  lemma UnicastIgnoresNak(f: Frame)
    requires f.length <= |f.data| && f.broadcast == UNICAST
    ensures SendFrame(f, []).code == 0
  {
  }

  /** A BROADCAST frame that nobody acknowledges fails at the address slot. */
  lemma BroadcastNeedsAck(f: Frame)
    requires f.length <= |f.data| && f.broadcast == BROADCAST
    ensures SendFrame(f, []).code == 1
  {
  }

  /** Answering `cm_Check` increments byte 6 of CMD_CHECK's data, which lies
      outside its 6-byte payload, so the next Check answer carries the same
      payload; the counter `readframe` refreshes is byte 4. */
  lemma CheckCounterOutsidePayload(d: Device, acks: seq<bool>)
    requires d.Valid() && d.answerReq == Check
    ensures var a := SendAnswer(d, acks);
      a.next.check[..6] == d.check[..6] && a.log[0].frame.data[..6] == d.check[..6]
  {
    AnswerCheckCounter(d, acks);
  }

  /** PlayIt writes the seconds into byte 10 of the 11-byte PLAY_OK4 payload,
      overwriting the 0x80 that ends the template. */
  lemma PlayItOverwritesTrailer(d: Device, acks: seq<bool>)
    requires d.Valid() && d.answerReq == PlayIt && d.playOk4 == PLAY_OK4_DATA
    ensures SendAnswer(d, acks).log[0].frame.data[10] == d.sec
    ensures PLAY_OK4_DATA[10] == 0x80
  {
  }
}
