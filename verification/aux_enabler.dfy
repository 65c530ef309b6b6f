/**
  * Frigon's AUX enabler (AVCLanDriver.c, AVCLanDriver.h): a device that
  * listens to the head unit as CD changer 0x360 and, when the head unit asks
  * to eject a CD while no CD player is the active source, toggles the head
  * unit's AUX input by sending it "Enable AUX" or "Disable AUX".
  *
  * The driver keeps the last frame in global registers (`Broadcast`,
  * `MasterAddress`, `SlaveAddress`, `Control`, `DataSize`, `Data[256]`); the
  * model passes them around as a `Registers` value. A reception is a
  * `seq<nat>` of measured high times in Timer 0 counts (two per
  * microsecond), one per bit and per acknowledge slot, starting with the start
  * bit; a transmission is the `seq<bool>` of logical bits after the start bit;
  * the acknowledgements a sender sees are the high times it measures in its
  * acknowledge slots.
  */
module AuxEnabler {
  import opened Bits

  /* ---------------- AVCLanDriver.h ---------------- */

  const HuAddress: nat := 0x190
  const MyAddress: nat := 0x360
  const BroadcastAddress: nat := 0x1FF
  const ControlFlags: nat := 0xF

  /** Timer 0 counts: the length of a bit, how long a `1`, a `0` and the
      start bit hold the line high, and the length of the start bit. */
  const NormalBitLength: nat := 74
  const Bit1HoldOn: nat := 40
  const Bit0HoldOn: nat := 64
  const StartBitLength: nat := 372
  const StartBitHoldOn: nat := 336

  /** Half way between a `1` and a `0`, as `ReadBits` and `ReadAcknowledge`
      compute it: 64 - (64 - 40) / 2. */
  const ReadThreshold: nat := Bit0HoldOn - (Bit0HoldOn - Bit1HoldOn) / 2

  /** `AvcTransmissionMode`: the direction bit, with broadcast as 0. */
  datatype Mode = Broadcast | Normal
  {
    function Bit(): bool
    {
      this == Normal
    }
  }

  function ModeOf(bit: bool): (m: Mode)
    ensures m.Bit() == bit
  {
    if bit then Normal else Broadcast
  }

  /** `AvcActionID`, in declaration order (`ACT_NONE` is 0, i.e. `FALSE`). */
  datatype Action =
    | None | AuxInUse | TunerInUse | TapeInUse | CdInUse
    | EjectCd | NoCd | TunerInfo | AudioStatus
    | Status | Register | Init | Check

  /** The driver's global message registers; `Data` has 256 entries. */
  datatype Registers = Registers(mode: Mode, master: Word, slave: Word, control: Byte, dataSize: Byte, data: seq<Byte>)
  {
    predicate Valid()
    {
      |data| == 256
    }
  }

  lemma Pow2Table()
    ensures Pow2(4) == 16 && Pow2(8) == 256 && Pow2(12) == 4096
  {
    assert Pow2(4) == 16;
    assert Pow2(8) == 256 by {
      assert Pow2(8) == Pow2(4) * Pow2(4) by { Pow2Add(4, 4); }
    }
    assert Pow2(12) == 4096 by { Pow2Add(8, 4); }
  }

  /** The timer counts keep the three kinds of pulse apart: a `1` is held for
      less than the threshold, a `0` for more, both end within a normal bit,
      and the start bit is longer than any of them. */
  lemma TimingOrder()
    ensures Bit1HoldOn < ReadThreshold < Bit0HoldOn < NormalBitLength
    ensures NormalBitLength < StartBitHoldOn < StartBitLength
    ensures ReadThreshold == 52
  {
  }

  /** `TCNT0`, `ticks` counts after `TCNT0 = 0`. Timer 0 of the ATmega328P
      (ToyotaAuxEnabler.c) is an 8-bit counter: it wraps from 255 to 0. */
  function Tcnt0(ticks: nat): (v: nat)
    ensures v < 256
    ensures ticks < 256 ==> v == ticks
  {
    if ticks < 256 then ticks else Tcnt0(ticks - 256)
  }

  /** The counter shows the count modulo 256. */
  lemma {:induction false} Tcnt0Mod(ticks: nat)
    ensures Tcnt0(ticks) == ticks % 256
  {
    if ticks >= 256 {
      Tcnt0Mod(ticks - 256);
      DivModUnique(ticks, 256, ticks / 256, Tcnt0(ticks));
    }
  }

  /** `TCNT0 = 0; while ( TCNT0 < limit );` ends after exactly `limit` counts
      when the limit fits the counter. */
  lemma WaitEnds(limit: nat)
    requires limit < 256
    ensures !(Tcnt0(limit) < limit)
    ensures forall t: nat :: t < limit ==> Tcnt0(t) < limit
  {
  }

  /** The same wait never ends when the limit does not fit: every count the
      counter can show is below it. */
  lemma WaitSpins(limit: nat)
    requires limit >= 256
    ensures forall t: nat :: Tcnt0(t) < limit
  {
  }

  /**
    * The waits of the bit senders end, but both waits of `SendStartBit` (336
    * and 372 counts) spin for ever: the line stays driven until the watchdog
    * resets the device, so `SendMessage` never gets past its start bit.
    */
  lemma StartBitNeverEnds()
    ensures forall t: nat :: Tcnt0(t) < StartBitHoldOn
    ensures forall t: nat :: Tcnt0(t) < StartBitLength
    ensures !(Tcnt0(Bit1HoldOn) < Bit1HoldOn) && !(Tcnt0(Bit0HoldOn) < Bit0HoldOn)
    ensures !(Tcnt0(NormalBitLength) < NormalBitLength)
  {
    WaitSpins(StartBitHoldOn);
    WaitSpins(StartBitLength);
    WaitEnds(Bit1HoldOn);
    WaitEnds(Bit0HoldOn);
    WaitEnds(NormalBitLength);
  }

  /** On the receiving side the wrap is harmless for the head unit's start
      bit: its 336 counts show as 80 on `TCNT0`, which still reads as `0`. */
  lemma StartBitReadsAsZero()
    ensures Tcnt0(StartBitHoldOn) == 80 && !ReadsAsOne(StartBitHoldOn)
  {
  }

  /** Every address the driver uses fits the 12 bits `Send12BitWord` sends. */
  lemma AddressesFit()
    ensures HuAddress < Pow2(12) && MyAddress < Pow2(12) && BroadcastAddress < Pow2(12)
    ensures ControlFlags < Pow2(4)
  {
    Pow2Table();
  }

  /* ---------------- ReadBits and the pulse codec ---------------- */

  /** `ReadBits`'s test on one high time of `width` counts: the 8-bit
      `TCNT0` it leaves below 52 is a `1`. */
  predicate ReadsAsOne(width: nat)
  {
    Tcnt0(width) < ReadThreshold
  }

  /** `ReadAcknowledge`'s test: `TCNT0` above 52 at the falling edge means
      the receiver held the line to acknowledge. */
  predicate AckSeen(width: nat)
  {
    Tcnt0(width) > ReadThreshold
  }

  /** Both tests read the wrapped counter, so a high time of 256 counts or
      more is classified by its remainder: 300 counts show as 44, which reads
      as a `1` and is no acknowledgement, and 320 counts show as 64, which
      reads as a `0` and is one. Below 256 counts the raw width decides. */
  lemma LongPulsesWrap()
    ensures Tcnt0(300) == 44 && ReadsAsOne(300) && !AckSeen(300)
    ensures Tcnt0(320) == 64 && !ReadsAsOne(320) && AckSeen(320)
    ensures forall w: nat :: w < 256 ==> (ReadsAsOne(w) <==> w < ReadThreshold)
    ensures forall w: nat :: w < 256 ==> (AckSeen(w) <==> w > ReadThreshold)
    ensures Levels([300]) == [true] && FirstNak(Normal, [300], 0, 1) == 0
  {
  }

  /** How long `Send1BitWord` and the word senders hold the line for a bit. */
  function HoldTicks(bit: bool): nat
  {
    if bit then Bit1HoldOn else Bit0HoldOn
  }

  /** The levels a listener reads from a run of high times. */
  function Levels(ws: seq<nat>): (levels: seq<bool>)
    ensures |levels| == |ws|
    ensures forall i {:trigger levels[i]} :: 0 <= i < |ws| ==> levels[i] == ReadsAsOne(ws[i])
  {
    seq(|ws|, i requires 0 <= i < |ws| => ReadsAsOne(ws[i]))
  }

  /** The high times of a transmission: the start bit, then one per bit. The
      start bit is the 336 counts `SendStartBit` waits for; on the 8-bit
      Timer 0 that wait never ends (`StartBitNeverEnds`), so this is the
      transmission the sender intends rather than one it completes. */
  function Pulses(wire: seq<bool>): (ws: seq<nat>)
    ensures |ws| == |wire| + 1 && ws[0] == StartBitHoldOn
    ensures forall i :: 0 <= i < |wire| ==> ws[i + 1] == HoldTicks(wire[i])
  {
    [StartBitHoldOn] + seq(|wire|, i requires 0 <= i < |wire| => HoldTicks(wire[i]))
  }

  /** A listener reads a transmission back bit for bit, after a start bit
      that reads as `0`. A pulse that leaves `TCNT0` at exactly 52 is the one
      reading that is neither a `1` to `ReadBits` nor an acknowledgement to
      `ReadAcknowledge`. */
  lemma PulsesRead(wire: seq<bool>)
    ensures Levels(Pulses(wire)) == [false] + wire
    ensures AckSeen(HoldTicks(false)) && !AckSeen(HoldTicks(true))
    ensures !ReadsAsOne(ReadThreshold) && !AckSeen(ReadThreshold)
  {
    var ls := Levels(Pulses(wire));
    forall i | 0 <= i < |ls|
      ensures ls[i] == ([false] + wire)[i]
    {
      if i > 0 {
        assert Pulses(wire)[i] == HoldTicks(wire[i - 1]);
      }
    }
  }

  /** `x << 1` then `x |= 1` for a `1` on a 16-bit `word`. */
  lemma ShiftInBit(x: nat, b: nat)
    requires b <= 1
    ensures (2 * (x % 0x1_0000)) % 0x1_0000 + b == (2 * x + b) % 0x1_0000
  {
    var m := 0x1_0000;
    var r := (2 * x) % m;
    ModMultiple(2 * (x % m), 2 * (x / m), m);
    assert 2 * (x % m) + m * (2 * (x / m)) == 2 * x;
    DivModUnique(2 * x, m, (2 * x) / m, r);
    assert r % 2 == 0 by {
      DivModUnique(r, 2, x - 0x8000 * ((2 * x) / m), 0);
    }
    DivModUnique(2 * x + b, m, (2 * x) / m, r + b);
  }

  /** Extending the read prefix by one level. */
  lemma ReadStep(levels: seq<bool>, k: nat)
    requires k < |levels|
    ensures FromBits(levels[..k + 1]) == 2 * FromBits(levels[..k]) + (if levels[k] then 1 else 0)
    ensures ParityBit(levels[..k + 1]) == (ParityBit(levels[..k]) != levels[k])
  {
    assert levels[..k + 1][..k] == levels[..k];
    ParitySnoc(levels[..k], levels[k]);
    assert levels[..k] + [levels[k]] == levels[..k + 1];
  }

  /**
    * `ReadBits(nbBits)`: `nbBits` bits, most significant first, shifted into
    * a 16-bit `word`; `ParityBit` is cleared on entry and toggled by every
    * `1`. The source waits for each rising edge without a timeout, so the
    * pulses must be there.
    */
  method ReadBits(ws: seq<nat>, pos: nat, n: nat) returns (data: Word, parity: bool)
    requires pos + n <= |ws|
    ensures data == FromBits(Levels(ws)[pos..pos + n]) % 0x1_0000
    ensures parity == ParityBit(Levels(ws)[pos..pos + n])
  {
    var levels := Levels(ws)[pos..pos + n];
    data := 0;
    parity := false;
    var k := 0;
    while k < n
      invariant k <= n
      invariant data == FromBits(levels[..k]) % 0x1_0000
      invariant parity == ParityBit(levels[..k])
    {
      ReadStep(levels, k);
      var bit := if ReadsAsOne(ws[pos + k]) then 1 else 0;
      ShiftInBit(FromBits(levels[..k]), bit);
      data := (2 * data) % 0x1_0000;
      if ReadsAsOne(ws[pos + k]) {
        data := data + 1;
        parity := !parity;
      }
      k := k + 1;
    }
    assert levels[..n] == levels;
  }

  /** For the widths the driver reads (at most 12 bits) nothing wraps. */
  lemma ShortReadExact(levels: seq<bool>)
    requires |levels| <= 12
    ensures FromBits(levels) % 0x1_0000 == FromBits(levels)
  {
    var v := FromBits(levels);
    assert v < 0x1_0000 by {
      Pow2Table();
      Pow2Le(|levels|, 12);
    }
    DivModUnique(v, 0x1_0000, 0, v);
  }

  lemma {:induction false} Pow2Le(n: nat, m: nat)
    requires n <= m
    ensures Pow2(n) <= Pow2(m)
    decreases m
  {
    if n < m {
      Pow2Le(n, m - 1);
    }
  }

  /* ---------------- Send12BitWord, Send8BitWord, Send4BitWord ---------------- */

  method Send12BitWord(data: Word) returns (bits: seq<bool>, parity: bool)
    ensures bits == ToBits(data, 12) && parity == ParityBit(bits)
  {
    assert Pow2(16) == 0x1_0000 by {
      Pow2Table();
      Pow2Add(8, 8);
    }
    bits, parity := SendWord(data, 12, 16);
  }

  method Send8BitWord(data: Byte) returns (bits: seq<bool>, parity: bool)
    ensures bits == ToBits(data, 8) && parity == ParityBit(bits)
  {
    Pow2Table();
    bits, parity := SendWord(data, 8, 8);
  }

  method Send4BitWord(data: Byte) returns (bits: seq<bool>, parity: bool)
    ensures bits == ToBits(data, 4) && parity == ParityBit(bits)
  {
    Pow2Table();
    bits, parity := SendWord(data, 4, 8);
  }

  /* ---------------- MessageTable and GetActionID ---------------- */

  /** An `AvcIncomingMessageStruct`: the action, how many leading payload
      bytes identify the message, and the bytes written in its initialiser. */
  datatype InMessage = InMessage(action: Action, size: nat, pattern: seq<Byte>)
  {
    predicate Valid()
    {
      size <= |pattern| <= 11
    }
  }

  /** `MessageTable`, in order, ending with the zero-size sentinel
      `{ (AvcActionID)FALSE }`. */
  const MessageTable: seq<InMessage> := [
    InMessage(AuxInUse, 4, [0x11, 0x01, 0x45, 0x01]),
    InMessage(TunerInUse, 4, [0x11, 0x01, 0x45, 0x60]),
    InMessage(TapeInUse, 4, [0x11, 0x01, 0x45, 0x61]),
    InMessage(CdInUse, 4, [0x11, 0x01, 0x45, 0x62]),
    InMessage(None, 3, [0x11, 0x01, 0x46]),
    InMessage(None, 3, [0x11, 0x01, 0x20]),
    InMessage(TunerInfo, 5, [0x60, 0x31, 0xF1, 0x01, 0x01]),
    InMessage(EjectCd, 10, [0x62, 0x31, 0xF1, 0x00, 0x30, 0x01, 0x01, 0x00, 0x00, 0x00, 0x80]),
    InMessage(NoCd, 10, [0x62, 0x31, 0xF1, 0x00, 0xF8, 0x01, 0x01, 0x00, 0x00, 0x00, 0x80]),
    InMessage(AudioStatus, 4, [0x74, 0x31, 0xF1, 0x90]),
    InMessage(Status, 3, [0x00, 0x01, 0x0A]),
    InMessage(Register, 3, [0x11, 0x01, 0x00]),
    InMessage(Init, 3, [0x11, 0x01, 0x01]),
    InMessage(Check, 3, [0x11, 0x01, 0x20]),
    InMessage(None, 0, [])
  ]

  /** Positions of the "Ping" and "LAN Check" entries and of the sentinel. */
  const PingEntry: nat := 5
  const CheckEntry: nat := 13
  const Sentinel: nat := 14

  /** The first `size` bytes of `Data` equal the entry's pattern. */
  predicate Matches(data: seq<Byte>, e: InMessage)
    requires e.Valid() && |data| == 256
  {
    data[..e.size] == e.pattern[..e.size]
  }

  /** Entry `j` is the first in `table` whose pattern `data` matches. */
  predicate FirstMatchAt(data: seq<Byte>, table: seq<InMessage>, j: nat)
    requires |data| == 256 && forall e :: e in table ==> e.Valid()
  {
    j < |table| && Matches(data, table[j]) && forall m :: 0 <= m < j ==> !Matches(data, table[m])
  }

  /** A table `GetActionID` can scan: every entry fits `Data[11]` and the
      last one, of size 0, matches anything. */
  predicate WellFormed(table: seq<InMessage>)
  {
    |table| > 0 && (forall e :: e in table ==> e.Valid()) && table[|table| - 1].size == 0
  }

  lemma TableFacts()
    ensures WellFormed(MessageTable) && |MessageTable| == 15
    ensures MessageTable[Sentinel] == InMessage(None, 0, [])
  {
  }

  lemma PingAndCheck()
    ensures |MessageTable| == 15
    ensures MessageTable[PingEntry].size == MessageTable[CheckEntry].size == 3
    ensures MessageTable[PingEntry].pattern == MessageTable[CheckEntry].pattern == [0x11, 0x01, 0x20]
    ensures MessageTable[PingEntry].action == None && MessageTable[CheckEntry].action == Check
    ensures forall j :: 0 <= j < |MessageTable| && MessageTable[j].action == Check ==> j == CheckEntry
    ensures forall m :: 0 <= m < PingEntry ==> MessageTable[m].size >= 3 && MessageTable[m].pattern[2] != 0x20
  {
  }

  /** The index of the first entry from `k` on that `data` matches, or `|table|`. */
  function FirstMatch(data: seq<Byte>, table: seq<InMessage>, k: nat): (j: nat)
    requires |data| == 256 && forall e :: e in table ==> e.Valid()
    requires k <= |table|
    ensures k <= j <= |table|
    ensures forall m :: k <= m < j ==> !Matches(data, table[m])
    ensures j < |table| ==> Matches(data, table[j])
    decreases |table| - k
  {
    if k == |table| || Matches(data, table[k]) then k else FirstMatch(data, table, k + 1)
  }

  /** The action of the first entry of a well-formed table that `data`
      matches; the final entry guarantees there is one. */
  function ActionIn(data: seq<Byte>, table: seq<InMessage>): (a: Action)
    requires |data| == 256 && WellFormed(table)
    ensures exists j: nat :: FirstMatchAt(data, table, j) && a == table[j].action
  {
    var j := FirstMatch(data, table, 0);
    assert j < |table| by {
      assert Matches(data, table[|table| - 1]);
    }
    assert FirstMatchAt(data, table, j);
    table[j].action
  }

  /** What `GetActionID` returns for the bytes in `Data`. */
  function ActionFor(data: seq<Byte>): (a: Action)
    requires |data| == 256
    ensures (TableFacts(); exists j: nat :: FirstMatchAt(data, MessageTable, j) && a == MessageTable[j].action)
  {
    TableFacts();
    ActionIn(data, MessageTable)
  }

  /** An entry whose pattern repeats an earlier entry's is never the first
      match. */
  lemma ShadowedEntry(data: seq<Byte>, table: seq<InMessage>, i: nat, j: nat)
    requires |data| == 256 && forall e :: e in table ==> e.Valid()
    requires i < j < |table| && table[i].size == table[j].size && table[i].pattern == table[j].pattern
    ensures !FirstMatchAt(data, table, j)
  {
    assert Matches(data, table[i]) == Matches(data, table[j]);
  }

  /** "Ping" comes before "LAN Check" with the same three bytes, so
      `GetActionID` never reports `ACT_CHECK`: those frames count as
      `ACT_NONE`. */
  lemma CheckIsShadowed(data: seq<Byte>)
    requires |data| == 256
    ensures ActionFor(data) != Check
    ensures data[..3] == [0x11, 0x01, 0x20] ==> ActionFor(data) == None
  {
    TableFacts();
    PingAndCheck();
    var a := ActionFor(data);
    var j: nat :| FirstMatchAt(data, MessageTable, j) && a == MessageTable[j].action;
    ShadowedEntry(data, MessageTable, PingEntry, CheckEntry);
    if data[..3] == [0x11, 0x01, 0x20] {
      assert Matches(data, MessageTable[PingEntry]);
      assert data[2] == 0x20 by { assert data[..3][2] == data[2]; }
      forall m | 0 <= m < PingEntry
        ensures !Matches(data, MessageTable[m])
      {
        var e := MessageTable[m];
        assert data[..e.size][2] != e.pattern[..e.size][2];
      }
    }
  }

  /** Two first matches are the same entry. */
  lemma FirstMatchUnique(data: seq<Byte>, table: seq<InMessage>, i: nat, j: nat)
    requires |data| == 256 && forall e :: e in table ==> e.Valid()
    requires FirstMatchAt(data, table, i) && FirstMatchAt(data, table, j)
    ensures i == j
  {
  }

  /** `GetActionID`'s inner loop: compare `Data[i]` with the entry's bytes
      for `i < DataSize` of the entry, stopping at the first difference. */
  method EntryMatches(data: seq<Byte>, e: InMessage) returns (found: bool)
    requires e.Valid() && |data| == 256
    ensures found <==> Matches(data, e)
  {
    found := true;
    var i := 0;
    while i < e.size
      invariant i <= e.size
      invariant forall k :: 0 <= k < i ==> data[k] == e.pattern[k]
    {
      if data[i] != e.pattern[i] {
        assert data[..e.size][i] != e.pattern[..e.size][i];
        found := false;
        break;
      }
      i := i + 1;
    }
    if found {
      assert data[..e.size] == e.pattern[..e.size];
    }
  }

  /** `GetActionID`'s outer loop over a well-formed table: try the entries in
      order until one matches. The last entry matches everything, so the
      scan always stops at or before it. */
  method ScanTable(data: seq<Byte>, table: seq<InMessage>) returns (a: Action)
    requires |data| == 256 && WellFormed(table)
    ensures a == ActionIn(data, table)
  {
    var last := |table| - 1;
    var msg := 0;
    var found := EntryMatches(data, table[0]);
    assert Matches(data, table[last]);
    while !found
      invariant msg <= last
      invariant found <==> Matches(data, table[msg])
      invariant forall m :: 0 <= m < msg ==> !Matches(data, table[m])
      decreases last - msg
    {
      msg := msg + 1;
      found := EntryMatches(data, table[msg]);
    }
    a := table[msg].action;
    assert FirstMatchAt(data, table, msg);
    var j: nat :| FirstMatchAt(data, table, j) && ActionIn(data, table) == table[j].action;
    FirstMatchUnique(data, table, msg, j);
  }

  /** `GetActionID`: the action of the first `MessageTable` entry that `Data`
      matches. The source's trailing `return ACT_NONE` cannot be reached. */
  method GetActionID(data: seq<Byte>) returns (a: Action)
    requires |data| == 256
    ensures exists j: nat :: FirstMatchAt(data, MessageTable, j) && a == MessageTable[j].action
    ensures a == ActionFor(data)
  {
    TableFacts();
    a := ScanTable(data, MessageTable);
  }

  /* ---------------- AvcReadMessage ---------------- */

  /** Where `AvcReadMessage` gave up, by the field whose parity failed. */
  datatype FieldName = MasterField | SlaveField | ControlField | SizeField | DataField(index: nat)

  /** How a reception ended. `Starved` stands for `ReadBits` waiting forever
      for a pulse the listener never hears. */
  datatype Outcome = Complete | ParityError(field: FieldName) | Starved

  /** What `AvcReadMessage` returns and the registers it leaves behind. */
  datatype Heard = Heard(action: Action, regs: Registers, outcome: Outcome)

  /** A reception still in progress, or one that has stopped. */
  datatype Progress = Going(regs: Registers) | Stopped(regs: Registers, outcome: Outcome)

  /** The value of the `n`-bit field read from `levels[at..]`; for the widths
      the driver reads it fits the 16-bit register without wrapping. */
  function Field(levels: seq<bool>, at: nat, n: nat): (v: Word)
    requires at + n <= |levels| && n <= 12
    ensures v < Pow2(n)
    ensures v == FromBits(levels[at..at + n]) % 0x1_0000
  {
    ShortReadExact(levels[at..at + n]);
    FromBits(levels[at..at + n])
  }

  /** `p = ParityBit; if (p != ReadBits(1)) ...` passes: the bit after the
      field equals the parity of the field as read. */
  predicate ParityOk(levels: seq<bool>, at: nat, n: nat)
    requires at + n < |levels|
  {
    levels[at + n] == ParityBit(levels[at..at + n])
  }

  /** A listener the frame is not for reads one bit in each acknowledge slot,
      so it waits for that pulse; the addressee drives the slot itself. */
  predicate SlotMissing(levels: seq<bool>, forMe: bool, at: nat)
  {
    !forMe && |levels| <= at
  }

  /** The start bit, the direction bit and both addresses with their parity
      bits. Each register is written before its parity bit is checked. */
  function ReadAddresses(levels: seq<bool>, r: Registers): (p: Progress)
    requires r.Valid()
    ensures p.regs.Valid() && p.regs.control == r.control && p.regs.dataSize == r.dataSize && p.regs.data == r.data
    ensures p.Going? ==> 28 <= |levels| && ParityOk(levels, 2, 12) && ParityOk(levels, 15, 12)
    ensures p.Going? ==> p.regs.mode == ModeOf(levels[1]) && p.regs.master == Field(levels, 2, 12) && p.regs.slave == Field(levels, 15, 12)
    ensures p.Stopped? && p.outcome.ParityError? ==> p.outcome.field == MasterField || p.outcome.field == SlaveField
  {
    if |levels| < 2 then Stopped(r, Starved)
    else
      var r1 := r.(mode := ModeOf(levels[1]));
      if |levels| < 14 then Stopped(r1, Starved)
      else
        var r2 := r1.(master := Field(levels, 2, 12));
        if |levels| < 15 then Stopped(r2, Starved)
        else if !ParityOk(levels, 2, 12) then Stopped(r2, ParityError(MasterField))
        else if |levels| < 27 then Stopped(r2, Starved)
        else
          var r3 := r2.(slave := Field(levels, 15, 12));
          if |levels| < 28 then Stopped(r3, Starved)
          else if !ParityOk(levels, 15, 12) then Stopped(r3, ParityError(SlaveField))
          else Going(r3)
  }

  /** The first acknowledge slot, then the control nibble and its parity
      bit. */
  function ReadControl(levels: seq<bool>, r: Registers): (p: Progress)
    requires r.Valid()
    ensures p.regs == r.(control := p.regs.control) && p.regs.Valid()
    ensures p.Going? ==> 34 <= |levels| && ParityOk(levels, 29, 4) && p.regs.control == Field(levels, 29, 4)
    ensures p.Stopped? && p.outcome.ParityError? ==> p.outcome.field == ControlField
  {
    if SlotMissing(levels, r.slave == MyAddress, 28) || |levels| < 33 then Stopped(r, Starved)
    else
      var r4 := r.(control := Field(levels, 29, 4));
      if |levels| < 34 then Stopped(r4, Starved)
      else if !ParityOk(levels, 29, 4) then Stopped(r4, ParityError(ControlField))
      else Going(r4)
  }

  /** The second acknowledge slot, the data size and its parity bit, and the
      third acknowledge slot. */
  function ReadSize(levels: seq<bool>, r: Registers): (p: Progress)
    requires r.Valid()
    ensures p.regs == r.(dataSize := p.regs.dataSize) && p.regs.Valid()
    ensures p.Going? ==> 44 <= |levels| && ParityOk(levels, 35, 8) && p.regs.dataSize == Field(levels, 35, 8)
    ensures p.Going? && r.slave != MyAddress ==> 45 <= |levels|
    ensures p.Stopped? && p.outcome.ParityError? ==> p.outcome.field == SizeField
  {
    var forMe := r.slave == MyAddress;
    if SlotMissing(levels, forMe, 34) || |levels| < 43 then Stopped(r, Starved)
    else
      var r5 := r.(dataSize := Field(levels, 35, 8));
      if |levels| < 44 then Stopped(r5, Starved)
      else if !ParityOk(levels, 35, 8) then Stopped(r5, ParityError(SizeField))
      else if SlotMissing(levels, forMe, 44) then Stopped(r5, Starved)
      else Going(r5)
  }

  /** Where payload byte `i` starts: after 45 levels of header, ten per byte. */
  function ByteAt(i: nat): nat
  {
    45 + 10 * i
  }

  /**
    * The payload loop `for (i = 0; i < DataSize; i++)`: `Data[i]` is written,
    * then its parity bit is checked, then its acknowledge slot is handled.
    * When every byte has been read the action is looked up in the whole
    * `Data` buffer.
    */
  function ReadPayload(levels: seq<bool>, forMe: bool, r: Registers, i: nat): (h: Heard)
    requires r.Valid() && i <= r.dataSize
    ensures h.regs.Valid() && h.regs.(data := r.data) == r
    ensures forall k :: 0 <= k < 256 && (k < i || r.dataSize <= k) ==> h.regs.data[k] == r.data[k]
    ensures h.outcome.Complete? ==> h.action == ActionFor(h.regs.data)
    ensures !h.outcome.Complete? ==> h.action == None
    ensures h.outcome.Complete? ==> forall k :: i <= k < r.dataSize ==>
              ByteAt(k) + 9 <= |levels| && ParityOk(levels, ByteAt(k), 8) && h.regs.data[k] == Field(levels, ByteAt(k), 8)
    ensures h.outcome.ParityError? ==> h.outcome.field.DataField? && i <= h.outcome.field.index < r.dataSize
    decreases r.dataSize - i
  {
    if i == r.dataSize then
      Heard(ActionFor(r.data), r, Complete)
    else
      var at := ByteAt(i);
      if |levels| < at + 8 then Heard(None, r, Starved)
      else
        var r' := r.(data := r.data[i := Field(levels, at, 8)]);
        if |levels| < at + 9 then Heard(None, r', Starved)
        else if !ParityOk(levels, at, 8) then Heard(None, r', ParityError(DataField(i)))
        else if SlotMissing(levels, forMe, at + 9) then Heard(None, r', Starved)
        else ReadPayload(levels, forMe, r', i + 1)
  }

  /** What a reception that stopped in the header reports. */
  function Abandoned(regs: Registers, o: Outcome): (h: Heard)
    requires regs.Valid() && !o.Complete?
    ensures h.regs == regs && h.outcome == o && h.action == None
  {
    Heard(None, regs, o)
  }

  /** The rest of the header after both addresses, then the payload. */
  function ReadAfterAddresses(levels: seq<bool>, r: Registers): (h: Heard)
    requires r.Valid()
    ensures h.regs.Valid()
    ensures h.outcome.Complete? ==> h.action == ActionFor(h.regs.data)
    ensures !h.outcome.Complete? ==> h.action == None
    ensures forall k :: h.regs.dataSize <= k < 256 ==> h.regs.data[k] == r.data[k]
  {
    match ReadControl(levels, r)
    case Stopped(r4, o) => Abandoned(r4, o)
    case Going(r4) =>
      match ReadSize(levels, r4)
      case Stopped(r5, o) => Abandoned(r5, o)
      case Going(r5) => ReadPayload(levels, r.slave == MyAddress, r5, 0)
  }

  /** `AvcReadMessage` on the levels a listener reads, the start bit first:
      the header, then the payload, then the table lookup. Any parity error
      (or a frame that stops) yields `ACT_NONE`; the registers written so far
      keep their new values, and bytes of `Data` beyond the data size keep
      their old ones. */
  function ReadFrame(levels: seq<bool>, r: Registers): (h: Heard)
    requires r.Valid()
    ensures h.regs.Valid()
    ensures h.outcome.Complete? ==> h.action == ActionFor(h.regs.data)
    ensures !h.outcome.Complete? ==> h.action == None
    ensures forall k :: h.regs.dataSize <= k < 256 ==> h.regs.data[k] == r.data[k]
  {
    match ReadAddresses(levels, r)
    case Stopped(r3, o) => Abandoned(r3, o)
    case Going(r3) => ReadAfterAddresses(levels, r3)
  }

  /** `AvcReadMessage` on the measured high times. */
  function AvcReadMessage(ws: seq<nat>, r: Registers): (h: Heard)
    requires r.Valid()
    ensures h == ReadFrame(Levels(ws), r)
    ensures h.outcome.Complete? ==> h.action == ActionFor(h.regs.data) && h.action != Check
  {
    var h := ReadFrame(Levels(ws), r);
    if h.outcome.Complete? then CheckIsShadowed(h.regs.data); h else h
  }

  /* ---------------- SendMessage ---------------- */

  /** The bits `SendMessage` sends before acknowledge slot `k` (after the
      start bit): the direction bit and both addresses with parity before
      slot 0, the control nibble before slot 1, the data size before slot 2,
      and payload byte `k - 3` before slot `k`. */
  function FieldBits(r: Registers, k: nat): (bits: seq<bool>)
    requires r.Valid() && k < 3 + r.dataSize
  {
    if k == 0 then [r.mode.Bit()] + WithParity(ToBits(r.master, 12)) + WithParity(ToBits(r.slave, 12))
    else if k == 1 then WithParity(ToBits(r.control, 4))
    else if k == 2 then WithParity(ToBits(r.dataSize, 8))
    else WithParity(ToBits(r.data[k - 3], 8))
  }

  /** The number of acknowledge slots in a frame. */
  function Slots(r: Registers): nat
  {
    3 + r.dataSize
  }

  /** `HandleAcknowledge` for slot `k`: a broadcast acknowledges itself;
      otherwise the slot counts when the measured high time leaves `TCNT0`
      above 52 (`AckSeen`). A
      missing measurement is a slot nobody held. */
  predicate Acked(mode: Mode, acks: seq<nat>, k: nat)
  {
    mode == Broadcast || (k < |acks| && AckSeen(acks[k]))
  }

  /** What a listener reads in an acknowledged slot (a `0`: the sender's own
      `0` in a broadcast, the receiver stretching the sender's `1` otherwise)
      and in one nobody acknowledged (the sender's `1`). */
  function SlotLevel(acked: bool): bool
  {
    !acked
  }

  /** The fields of a frame, one per acknowledge slot. */
  function Fields(r: Registers): (fs: seq<seq<bool>>)
    requires r.Valid()
    ensures |fs| == Slots(r)
    ensures forall k :: 0 <= k < Slots(r) ==> fs[k] == FieldBits(r, k)
  {
    seq(Slots(r), k requires 0 <= k < Slots(r) => FieldBits(r, k))
  }

  /** The line from field `k` up to field `m` when slots `k .. m - 1` are
      all acknowledged. */
  function AckedRun(fs: seq<seq<bool>>, k: nat, m: nat): (bits: seq<bool>)
    requires k <= m <= |fs|
    decreases m - k
  {
    if k == m then [] else fs[k] + [SlotLevel(true)] + AckedRun(fs, k + 1, m)
  }

  /** The whole frame, after the start bit, when every slot is acknowledged. */
  function FrameBits(r: Registers): seq<bool>
    requires r.Valid()
  {
    AckedRun(Fields(r), 0, Slots(r))
  }

  /** The result of `SendMessage` and the bits it put on the line after the
      start bit. */
  datatype Sent = Sent(ok: bool, wire: seq<bool>)

  /** The first slot from `k` on that is not acknowledged, or `Slots(r)`. */
  function FirstNak(mode: Mode, acks: seq<nat>, k: nat, n: nat): (m: nat)
    requires k <= n
    ensures k <= m <= n
    ensures forall j :: k <= j < m ==> Acked(mode, acks, j)
    ensures m < n ==> !Acked(mode, acks, m)
    decreases n - k
  {
    if k == n || !Acked(mode, acks, k) then k else FirstNak(mode, acks, k + 1, n)
  }

  /** `SendMessage` from slot `k` on: each field, then `HandleAcknowledge`;
      the first slot not acknowledged ends the frame with `FALSE`. */
  function SendFrom(mode: Mode, acks: seq<nat>, fs: seq<seq<bool>>, k: nat): (s: Sent)
    requires k <= |fs|
    ensures s.ok <==> FirstNak(mode, acks, k, |fs|) == |fs|
    ensures s.ok ==> s.wire == AckedRun(fs, k, |fs|)
    ensures !s.ok ==> var m := FirstNak(mode, acks, k, |fs|);
              s.wire == AckedRun(fs, k, m) + fs[m] + [SlotLevel(false)]
    decreases |fs| - k
  {
    if k == |fs| then Sent(true, [])
    else if !Acked(mode, acks, k) then Sent(false, fs[k] + [SlotLevel(false)])
    else
      var rest := SendFrom(mode, acks, fs, k + 1);
      Sent(rest.ok, fs[k] + [SlotLevel(true)] + rest.wire)
  }

  /** `SendMessage` (after the bus-free wait and the start bit): `TRUE` iff
      every acknowledge slot was acknowledged, in which case the whole frame
      went out; a broadcast cannot fail. */
  function SendMessage(r: Registers, acks: seq<nat>): (s: Sent)
    requires r.Valid()
    ensures s.ok <==> forall k :: 0 <= k < Slots(r) ==> Acked(r.mode, acks, k)
    ensures s.ok ==> s.wire == FrameBits(r)
    ensures r.mode == Broadcast ==> s.ok
    ensures !s.ok ==> |s.wire| > 0 && s.wire[|s.wire| - 1] == SlotLevel(false)
  {
    var s := SendFrom(r.mode, acks, Fields(r), 0);
    var m := FirstNak(r.mode, acks, 0, Slots(r));
    assert s.ok <==> m == Slots(r);
    s
  }

  /** An acknowledged run grows at its end one field and one slot at a time. */
  lemma {:induction false} AckedRunSnoc(fs: seq<seq<bool>>, i: nat, m: nat)
    requires i <= m < |fs|
    ensures AckedRun(fs, i, m + 1) == AckedRun(fs, i, m) + fs[m] + [SlotLevel(true)]
    decreases m - i
  {
    if i < m {
      AckedRunSnoc(fs, i + 1, m);
    }
  }

  /** Sending from field `i` is sending the acknowledged fields `i .. k - 1`
      and then sending from field `k`. */
  lemma {:induction false} SendSplit(mode: Mode, acks: seq<nat>, fs: seq<seq<bool>>, i: nat, k: nat)
    requires i <= k <= |fs|
    requires forall j :: i <= j < k ==> Acked(mode, acks, j)
    ensures SendFrom(mode, acks, fs, i).ok == SendFrom(mode, acks, fs, k).ok
    ensures SendFrom(mode, acks, fs, i).wire == AckedRun(fs, i, k) + SendFrom(mode, acks, fs, k).wire
    decreases k - i
  {
    if i < k {
      SendSplit(mode, acks, fs, i + 1, k);
      SendAckedStep(mode, acks, fs, i);
      JoinRuns(fs[i] + [SlotLevel(true)], AckedRun(fs, i + 1, k), SendFrom(mode, acks, fs, k).wire,
               SendFrom(mode, acks, fs, i + 1).wire, SendFrom(mode, acks, fs, i).wire);
    }
  }

  lemma JoinRuns(head: seq<bool>, run: seq<bool>, tail: seq<bool>, rest: seq<bool>, all: seq<bool>)
    requires rest == run + tail && all == head + rest
    ensures all == (head + run) + tail
  {
  }

  /** An acknowledged field is followed by the rest of the frame. */
  lemma SendAckedStep(mode: Mode, acks: seq<nat>, fs: seq<seq<bool>>, i: nat)
    requires i < |fs| && Acked(mode, acks, i)
    ensures SendFrom(mode, acks, fs, i).ok == SendFrom(mode, acks, fs, i + 1).ok
    ensures SendFrom(mode, acks, fs, i).wire == fs[i] + [SlotLevel(true)] + SendFrom(mode, acks, fs, i + 1).wire
  {
  }

  /** One field, its parity bit included, then `HandleAcknowledge`: a
      broadcast sends a `0` in the slot and carries on; otherwise
      `ReadAcknowledge` drives a `1` and measures the slot. */
  method SendField(mode: Mode, acks: seq<nat>, fs: seq<seq<bool>>, k: nat, wire: seq<bool>, field: seq<bool>)
    returns (acked: bool, wire': seq<bool>)
    requires k < |fs| && field == fs[k] && wire == AckedRun(fs, 0, k)
    ensures acked == Acked(mode, acks, k)
    ensures acked ==> wire' == AckedRun(fs, 0, k + 1)
    ensures !acked ==> wire' == AckedRun(fs, 0, k) + fs[k] + [SlotLevel(false)]
  {
    if mode == Broadcast {
      acked := true;
    } else {
      acked := k < |acks| && AckSeen(acks[k]);
    }
    wire' := wire + field + [SlotLevel(acked)];
    if acked {
      AckedRunSnoc(fs, 0, k);
    }
  }

  /** `SendField` while every earlier slot was acknowledged: either the run
      grows by one field, or the frame ends as `SendMessage` says. */
  method SendStep(mode: Mode, acks: seq<nat>, fs: seq<seq<bool>>, k: nat, wire: seq<bool>, field: seq<bool>)
    returns (ok: bool, wire': seq<bool>)
    requires k < |fs| && field == fs[k] && wire == AckedRun(fs, 0, k)
    requires forall j :: 0 <= j < k ==> Acked(mode, acks, j)
    ensures ok ==> wire' == AckedRun(fs, 0, k + 1) && forall j :: 0 <= j < k + 1 ==> Acked(mode, acks, j)
    ensures !ok ==> Sent(ok, wire') == SendFrom(mode, acks, fs, 0)
  {
    ok, wire' := SendField(mode, acks, fs, k, wire, field);
    if !ok {
      assert Sent(ok, wire') == SendFrom(mode, acks, fs, 0) by {
        SendSplit(mode, acks, fs, 0, k);
      }
    }
  }

  /** Header field `k` as the word senders produce it: the direction bit
      and `Send12BitWord` for both addresses, `Send4BitWord` for the control,
      `Send8BitWord` for the data size, each followed by `ParityBit`. */
  method HeaderField(r: Registers, k: nat) returns (field: seq<bool>)
    requires r.Valid() && k < 3
    ensures field == FieldBits(r, k)
  {
    if k == 0 {
      var master, pm := Send12BitWord(r.master);
      var slave, ps := Send12BitWord(r.slave);
      field := [r.mode.Bit()] + master + [pm] + slave + [ps];
    } else if k == 1 {
      var control, pc := Send4BitWord(r.control);
      field := control + [pc];
    } else {
      var size, pz := Send8BitWord(r.dataSize);
      field := size + [pz];
    }
  }

  /** The three header fields of `SendMessage`, each followed by
      `HandleAcknowledge`; a missing acknowledgement ends the frame. */
  method SendHeader(r: Registers, acks: seq<nat>, fs: seq<seq<bool>>) returns (ok: bool, wire: seq<bool>)
    requires r.Valid() && fs == Fields(r)
    ensures ok ==> wire == AckedRun(fs, 0, 3) && forall j :: 0 <= j < 3 ==> Acked(r.mode, acks, j)
    ensures !ok ==> Sent(ok, wire) == SendFrom(r.mode, acks, fs, 0)
  {
    ok, wire := true, [];
    var k := 0;
    while k < 3
      invariant k <= 3
      invariant ok ==> wire == AckedRun(fs, 0, k) && forall j :: 0 <= j < k ==> Acked(r.mode, acks, j)
      invariant !ok ==> Sent(ok, wire) == SendFrom(r.mode, acks, fs, 0)
    {
      if ok {
        var field := HeaderField(r, k);
        ok, wire := SendStep(r.mode, acks, fs, k, wire, field);
      }
      k := k + 1;
    }
  }

  /** The payload loop of `SendMessage`: each data byte with its parity bit
      and `HandleAcknowledge`, stopping at the first missing acknowledgement. */
  method SendPayload(r: Registers, acks: seq<nat>, fs: seq<seq<bool>>, start: seq<bool>) returns (ok: bool, wire: seq<bool>)
    requires r.Valid() && fs == Fields(r)
    requires start == AckedRun(fs, 0, 3) && forall j :: 0 <= j < 3 ==> Acked(r.mode, acks, j)
    ensures Sent(ok, wire) == SendFrom(r.mode, acks, fs, 0)
  {
    wire := start;
    var i := 0;
    while i < r.dataSize
      invariant i <= r.dataSize
      invariant wire == AckedRun(fs, 0, 3 + i)
      invariant forall j :: 0 <= j < 3 + i ==> Acked(r.mode, acks, j)
    {
      ok, wire := SendDataByte(r, acks, fs, i, wire);
      if !ok {
        return;
      }
      i := i + 1;
    }
    ok := true;
    assert Sent(ok, wire) == SendFrom(r.mode, acks, fs, 0) by {
      SendSplit(r.mode, acks, fs, 0, Slots(r));
    }
  }

  /** One turn of the payload loop: `Send8BitWord(Data[i])`, its parity bit
      and `HandleAcknowledge`. */
  method SendDataByte(r: Registers, acks: seq<nat>, fs: seq<seq<bool>>, i: nat, wire: seq<bool>) returns (ok: bool, wire': seq<bool>)
    requires r.Valid() && fs == Fields(r) && i < r.dataSize
    requires wire == AckedRun(fs, 0, 3 + i) && forall j :: 0 <= j < 3 + i ==> Acked(r.mode, acks, j)
    ensures ok ==> wire' == AckedRun(fs, 0, 4 + i) && forall j :: 0 <= j < 4 + i ==> Acked(r.mode, acks, j)
    ensures !ok ==> Sent(ok, wire') == SendFrom(r.mode, acks, fs, 0)
  {
    var b, pb := Send8BitWord(r.data[i]);
    assert b + [pb] == fs[3 + i] by {
      assert fs[3 + i] == FieldBits(r, 3 + i);
    }
    ok, wire' := SendStep(r.mode, acks, fs, 3 + i, wire, b + [pb]);
  }

  /**
    * The statements of `SendMessage` after the bus-free wait and the start
    * bit, with the word senders: the direction bit, `Send12BitWord` for each
    * address, `Send4BitWord` for the control, `Send8BitWord` for the size
    * and each data byte, each followed by `ParityBit` and `HandleAcknowledge`.
    * It sends what the functional `SendMessage` describes.
    */
  method Transmit(r: Registers, acks: seq<nat>) returns (ok: bool, wire: seq<bool>)
    requires r.Valid()
    ensures Sent(ok, wire) == SendMessage(r, acks)
    ensures ok <==> forall k :: 0 <= k < Slots(r) ==> Acked(r.mode, acks, k)
  {
    var fs := Fields(r);
    ok, wire := SendHeader(r, acks, fs);
    if ok {
      ok, wire := SendPayload(r, acks, fs, wire);
    }
  }

  /* ---------------- the frame round trip ---------------- */

  /** From `levels[p]` on, a listener reads `bits`. */
  predicate At(levels: seq<bool>, p: nat, bits: seq<bool>)
  {
    p + |bits| <= |levels| && levels[p..p + |bits|] == bits
  }

  lemma AtSplit(levels: seq<bool>, p: nat, a: seq<bool>, b: seq<bool>)
    requires At(levels, p, a + b)
    ensures At(levels, p, a) && At(levels, p + |a|, b)
  {
    assert levels[p..p + |a|] == (a + b)[..|a|];
    assert levels[p + |a|..p + |a| + |b|] == (a + b)[|a|..];
  }

  /** Where field `k` starts among the levels a listener reads (the start bit
      is level 0). */
  function Offset(k: nat): nat
  {
    if k == 0 then 1 else if k == 1 then 29 else if k == 2 then 35 else ByteAt(k - 3)
  }

  /** Each field, with its slot, ends where the next one starts. */
  predicate Laid(fs: seq<seq<bool>>)
  {
    forall k :: 0 <= k < |fs| ==> Offset(k) + |fs[k]| + 1 == Offset(k + 1)
  }

  lemma FieldsLaid(r: Registers)
    requires r.Valid()
    ensures Laid(Fields(r))
  {
    var fs := Fields(r);
    forall k | 0 <= k < |fs|
      ensures Offset(k) + |fs[k]| + 1 == Offset(k + 1)
    {
      assert fs[k] == FieldBits(r, k);
    }
  }

  /** Every field of an acknowledged run sits at its offset, followed by its
      acknowledged slot. */
  lemma {:induction false} RunFields(levels: seq<bool>, fs: seq<seq<bool>>, k: nat, m: nat, j: nat)
    requires Laid(fs) && k <= j < m <= |fs|
    requires At(levels, Offset(k), AckedRun(fs, k, m))
    ensures At(levels, Offset(j), fs[j] + [SlotLevel(true)])
    decreases j - k
  {
    var a := fs[k] + [SlotLevel(true)];
    assert AckedRun(fs, k, m) == a + AckedRun(fs, k + 1, m);
    AtSplit(levels, Offset(k), a, AckedRun(fs, k + 1, m));
    if j > k {
      RunFields(levels, fs, k + 1, m, j);
    }
  }

  /** A field sent with its parity bit reads back as its low `n` bits, its
      parity check passes, and its slot follows it. */
  lemma FieldReads(levels: seq<bool>, p: nat, v: nat, n: nat, rest: seq<bool>)
    requires n <= 12 && |rest| > 0
    requires At(levels, p, WithParity(ToBits(v, n)) + rest)
    ensures p + n + 1 < |levels| && ParityOk(levels, p, n) && Field(levels, p, n) == v % Pow2(n)
  {
    var bits := ToBits(v, n);
    assert At(levels, p, bits) && At(levels, p + n, [ParityBit(bits)]) by {
      AtSplit(levels, p, WithParity(bits), rest);
      AtSplit(levels, p, bits, [ParityBit(bits)]);
    }
    assert p + n + 1 < |levels| by {
      AtSplit(levels, p, WithParity(bits), rest);
    }
    assert levels[p..p + n] == bits;
    assert FromBits(bits) == v % Pow2(n) by {
      FromToBits(v, n);
    }
  }

  lemma ModeRoundTrip(m: Mode)
    ensures ModeOf(m.Bit()) == m
  {
  }

  /** The direction bit and both addresses of a sent frame read back, the
      addresses reduced to the 12 bits `Send12BitWord` sends. */
  lemma AddressesRead(levels: seq<bool>, r: Registers, r0: Registers)
    requires r.Valid() && r0.Valid()
    requires At(levels, Offset(0), FieldBits(r, 0) + [SlotLevel(true)])
    ensures ReadAddresses(levels, r0) == Going(r0.(mode := r.mode, master := r.master % 4096, slave := r.slave % 4096))
  {
    var t := [SlotLevel(true)];
    var master := WithParity(ToBits(r.master, 12));
    var slave := WithParity(ToBits(r.slave, 12));
    assert FieldBits(r, 0) + t == [r.mode.Bit()] + (master + (slave + t));
    AtSplit(levels, 1, [r.mode.Bit()], master + (slave + t));
    FieldReads(levels, 2, r.master, 12, slave + t);
    AtSplit(levels, 2, master, slave + t);
    FieldReads(levels, 15, r.slave, 12, t);
    Pow2Table();
    ModeRoundTrip(r.mode);
  }

  /** The control nibble of a sent frame reads back, reduced to the 4 bits
      `Send4BitWord` sends. */
  lemma ControlRead(levels: seq<bool>, r: Registers, r3: Registers)
    requires r.Valid() && r3.Valid()
    requires At(levels, Offset(1), FieldBits(r, 1) + [SlotLevel(true)])
    ensures ReadControl(levels, r3) == Going(r3.(control := r.control % 16))
  {
    FieldReads(levels, 29, r.control, 4, [SlotLevel(true)]);
    assert Field(levels, 29, 4) == r.control % 16 by {
      Pow2Table();
    }
    assert !SlotMissing(levels, r3.slave == MyAddress, 28) && 34 <= |levels|;
  }

  /** The data size of a sent frame reads back. */
  lemma SizeRead(levels: seq<bool>, r: Registers, r4: Registers)
    requires r.Valid() && r4.Valid()
    requires At(levels, Offset(2), FieldBits(r, 2) + [SlotLevel(true)])
    ensures ReadSize(levels, r4) == Going(r4.(dataSize := r.dataSize))
  {
    FieldReads(levels, 35, r.dataSize, 8, [SlotLevel(true)]);
    assert Field(levels, 35, 8) == r.dataSize by {
      Pow2Table();
      DivModUnique(r.dataSize, 256, 0, r.dataSize);
    }
    var forMe := r4.slave == MyAddress;
    assert !SlotMissing(levels, forMe, 34) && !SlotMissing(levels, forMe, 44) && 44 <= |levels|;
  }

  /** Reading the payload of a sent frame completes. */
  lemma {:induction false} PayloadComplete(levels: seq<bool>, forMe: bool, r: Registers, rr: Registers, i: nat)
    requires r.Valid() && rr.Valid() && rr.dataSize == r.dataSize && i <= r.dataSize
    requires forall j :: 3 + i <= j < Slots(r) ==> At(levels, Offset(j), FieldBits(r, j) + [SlotLevel(true)])
    ensures ReadPayload(levels, forMe, rr, i).outcome == Complete
    decreases r.dataSize - i
  {
    if i < r.dataSize {
      assert At(levels, ByteAt(i), WithParity(ToBits(r.data[i], 8)) + [SlotLevel(true)]) by {
        assert Offset(3 + i) == ByteAt(i);
      }
      FieldReads(levels, ByteAt(i), r.data[i], 8, [SlotLevel(true)]);
      var rr' := rr.(data := rr.data[i := Field(levels, ByteAt(i), 8)]);
      PayloadComplete(levels, forMe, r, rr', i + 1);
    }
  }

  /** Payload byte `k` of a sent frame reads back as sent. */
  lemma PayloadByteRead(levels: seq<bool>, r: Registers, k: nat)
    requires r.Valid() && k < r.dataSize
    requires At(levels, Offset(3 + k), FieldBits(r, 3 + k) + [SlotLevel(true)])
    ensures ByteAt(k) + 9 <= |levels| && Field(levels, ByteAt(k), 8) == r.data[k]
  {
    FieldReads(levels, ByteAt(k), r.data[k], 8, [SlotLevel(true)]);
    Pow2Table();
  }

  /** Where a listener finds each field of a frame sent with every slot
      acknowledged. */
  lemma FrameLaidOut(r: Registers)
    requires r.Valid()
    ensures forall j :: 0 <= j < Slots(r) ==> At([false] + FrameBits(r), Offset(j), FieldBits(r, j) + [SlotLevel(true)])
  {
    var levels := [false] + FrameBits(r);
    var fs := Fields(r);
    assert At(levels, Offset(0), AckedRun(fs, 0, Slots(r))) by {
      assert levels[1..] == FrameBits(r);
    }
    FieldsLaid(r);
    forall j | 0 <= j < Slots(r)
      ensures At(levels, Offset(j), FieldBits(r, j) + [SlotLevel(true)])
    {
      RunFields(levels, fs, 0, Slots(r), j);
    }
  }

  /** The header of a sent frame reads back into the registers. */
  lemma HeaderRead(levels: seq<bool>, r: Registers, r0: Registers)
    requires r.Valid() && r0.Valid()
    requires forall j :: 0 <= j < Slots(r) ==> At(levels, Offset(j), FieldBits(r, j) + [SlotLevel(true)])
    ensures ReadFrame(levels, r0) == ReadPayload(levels, r.slave % 4096 == MyAddress,
      r0.(mode := r.mode, master := r.master % 4096, slave := r.slave % 4096, control := r.control % 16, dataSize := r.dataSize), 0)
  {
    var r3 := r0.(mode := r.mode, master := r.master % 4096, slave := r.slave % 4096);
    AddressesRead(levels, r, r0);
    var r4 := r3.(control := r.control % 16);
    ControlRead(levels, r, r3);
    SizeRead(levels, r, r4);
  }

  /**
    * Round trip: a listener that hears a frame `SendMessage` sent with every
    * slot acknowledged reads it completely, whoever it is addressed to, and
    * ends up with the sender's registers (addresses cut to 12 bits, control
    * to 4) and its own stale bytes beyond the data size.
    */
  lemma FrameRoundTrip(r: Registers, r0: Registers)
    requires r.Valid() && r0.Valid()
    ensures var h := ReadFrame([false] + FrameBits(r), r0);
      && h.outcome == Complete
      && h.action == ActionFor(h.regs.data)
      && h.regs.mode == r.mode && h.regs.master == r.master % 4096 && h.regs.slave == r.slave % 4096
      && h.regs.control == r.control % 16 && h.regs.dataSize == r.dataSize
      && (forall k :: 0 <= k < r.dataSize ==> h.regs.data[k] == r.data[k])
      && (forall k :: r.dataSize <= k < 256 ==> h.regs.data[k] == r0.data[k])
  {
    var levels := [false] + FrameBits(r);
    FrameLaidOut(r);
    var r5 := r0.(mode := r.mode, master := r.master % 4096, slave := r.slave % 4096, control := r.control % 16, dataSize := r.dataSize);
    HeaderRead(levels, r, r0);
    PayloadComplete(levels, r.slave % 4096 == MyAddress, r, r5, 0);
    var h := ReadFrame(levels, r0);
    forall k | 0 <= k < r.dataSize
      ensures h.regs.data[k] == r.data[k]
    {
      PayloadByteRead(levels, r, k);
    }
  }

  /* ---------------- outgoing messages and LoadDataInGlogalRegisters ---------------- */

  /** An `AvcOutgoingMessageStruct`: mode, data size and payload. */
  datatype OutMessage = OutMessage(mode: Mode, size: nat, payload: seq<Byte>)
  {
    predicate Valid()
    {
      size <= |payload| <= 11
    }
  }

  const CmdReset: OutMessage := OutMessage(Broadcast, 5, [0x00, 0x00, 0x00, 0x00, 0x00])
  const CmdEnableAux: OutMessage := OutMessage(Normal, 5, [0x00, 0x01, 0x11, 0x50, 0x61])
  const CmdDisableAux: OutMessage := OutMessage(Normal, 5, [0x00, 0x01, 0x11, 0x51, 0x61])

  /**
    * `LoadDataInGlogalRegisters`: the mode and data size of `msg`, this
    * device as master, the head unit (or everyone, for a broadcast) as slave,
    * and the first `DataSize` bytes of `Data` from `msg`. `Control` and the
    * rest of `Data` keep what the last frame left there.
    */
  function Load(msg: OutMessage, r: Registers): (r': Registers)
    requires msg.Valid() && r.Valid()
    ensures r'.Valid() && r'.mode == msg.mode && r'.dataSize == msg.size
    ensures r'.master == MyAddress
    ensures r'.slave == BroadcastAddress <==> msg.mode == Broadcast
    ensures r'.slave == HuAddress <==> msg.mode == Normal
    ensures r'.control == r.control
    ensures r'.data[..msg.size] == msg.payload[..msg.size]
    ensures forall k :: msg.size <= k < 256 ==> r'.data[k] == r.data[k]
  {
    var data := seq(256, k requires 0 <= k < 256 => if k < msg.size then msg.payload[k] else r.data[k]);
    Registers(msg.mode, MyAddress, if msg.mode == Broadcast then BroadcastAddress else HuAddress,
              r.control, msg.size, data)
  }

  lemma OutMessagesValid()
    ensures CmdReset.Valid() && CmdEnableAux.Valid() && CmdDisableAux.Valid()
  {
  }

  /* ---------------- AvcProcessActionID ---------------- */

  /** The driver's state: `AUX_Enabled`, `DeviceEnabled` and the registers. */
  datatype State = State(aux: bool, device: Action, regs: Registers)
  {
    predicate Valid()
    {
      regs.Valid()
    }
  }

  /** Whether processing an action put a frame on the line, and how it went. */
  datatype Transmission = Quiet | Transmitted(sent: Sent)

  datatype Processed = Processed(result: bool, next: State, tx: Transmission)

  /** The sources `AvcProcessActionID` treats as a device taking over the
      head unit. */
  predicate TakesOver(a: Action)
  {
    a == TunerInUse || a == TapeInUse || a == CdInUse
  }

  /**
    * `AvcProcessActionID`: "AUX in use" records that AUX is on; a tuner, tape
    * or CD taking over records the device and turns AUX off; "Eject CD" while
    * the CD player is not the active device toggles AUX and sends the head
    * unit the matching command, returning what `SendMessage` returns. Every
    * other action returns `FALSE` and changes nothing.
    */
  function ProcessAction(a: Action, s: State, acks: seq<nat>): (p: Processed)
    requires s.Valid()
    ensures p.next.Valid()
    ensures p.tx.Transmitted? <==> a == EjectCd && s.device != CdInUse
    ensures p.tx.Quiet? ==> !p.result && p.next.regs == s.regs
    ensures p.tx.Transmitted? ==> p.result == p.tx.sent.ok && p.next.regs.control == s.regs.control
    ensures p.next.device == (if TakesOver(a) then a else s.device)
  {
    match a
    case AuxInUse => Processed(false, s.(aux := true), Quiet)
    case TunerInUse => Processed(false, s.(device := a, aux := false), Quiet)
    case TapeInUse => Processed(false, s.(device := a, aux := false), Quiet)
    case CdInUse => Processed(false, s.(device := a, aux := false), Quiet)
    case EjectCd =>
      if s.device == CdInUse then Processed(false, s, Quiet)
      else
        var msg := if s.aux then CmdDisableAux else CmdEnableAux;
        var regs := Load(msg, s.regs);
        var sent := SendMessage(regs, acks);
        Processed(sent.ok, State(!s.aux, s.device, regs), Transmitted(sent))
    case _ => Processed(false, s, Quiet)
  }

  /** How each action moves `AUX_Enabled`. */
  lemma AuxFlag(a: Action, s: State, acks: seq<nat>)
    requires s.Valid()
    ensures var p := ProcessAction(a, s, acks);
      && (a == AuxInUse ==> p.next.aux)
      && (TakesOver(a) ==> !p.next.aux)
      && (a == EjectCd && s.device != CdInUse ==> p.next.aux == !s.aux)
      && (a == EjectCd && s.device == CdInUse ==> p == Processed(false, s, Quiet))
      && (a != AuxInUse && !TakesOver(a) && a != EjectCd ==> p == Processed(false, s, Quiet))
  {
  }

  /** Two "Eject CD" presses while no CD player is active leave AUX as it
      was, whatever the head unit acknowledged. */
  lemma EjectTwiceRestores(s: State, acks1: seq<nat>, acks2: seq<nat>)
    requires s.Valid() && s.device != CdInUse
    ensures var p1 := ProcessAction(EjectCd, s, acks1);
      var p2 := ProcessAction(EjectCd, p1.next, acks2);
      p2.next.aux == s.aux && p2.next.device == s.device && p1.tx.Transmitted? && p2.tx.Transmitted?
  {
  }

  /** The registers "Eject CD" loads: a unicast from this device to the head
      unit, five bytes ending in 0x51 0x61 to disable AUX when it was on and
      0x50 0x61 to enable it when it was off, with the control nibble of the
      last frame received. */
  lemma EjectRegisters(s: State, acks: seq<nat>)
    requires s.Valid() && s.device != CdInUse
    ensures var r := ProcessAction(EjectCd, s, acks).next.regs;
      && r.mode == Normal && r.master == MyAddress && r.slave == HuAddress
      && r.control == s.regs.control && r.dataSize == 5
      && r.data[..5] == [0x00, 0x01, 0x11, if s.aux then 0x51 else 0x50, 0x61]
  {
  }

  /** "Eject CD" succeeds exactly when the head unit acknowledges all eight
      slots, and then the whole frame goes out. */
  lemma EjectSends(s: State, acks: seq<nat>)
    requires s.Valid() && s.device != CdInUse
    ensures var p := ProcessAction(EjectCd, s, acks);
      && p.tx.Transmitted?
      && (p.result <==> forall k :: 0 <= k < 8 ==> Acked(Normal, acks, k))
      && (p.result ==> p.tx.sent.wire == FrameBits(p.next.regs))
  {
    EjectRegisters(s, acks);
  }

  /** A listener reads back a frame whose addresses fit in 12 bits with the
      sender's mode, addresses and payload, and its control nibble. */
  lemma SentFrameHeard(r: Registers, hu: Registers)
    requires r.Valid() && hu.Valid() && r.master < 4096 && r.slave < 4096
    ensures var h := ReadFrame([false] + FrameBits(r), hu);
      && h.outcome == Complete
      && h.regs.mode == r.mode && h.regs.master == r.master && h.regs.slave == r.slave
      && h.regs.control == r.control % 16 && h.regs.dataSize == r.dataSize
      && h.regs.data[..r.dataSize] == r.data[..r.dataSize]
  {
    var h := ReadFrame([false] + FrameBits(r), hu);
    FrameRoundTrip(r, hu);
    SameFields(r, h.regs);
  }

  /** Registers read back with 12-bit addresses and the sent payload are the
      sent ones, when the addresses already fit. */
  lemma SameFields(r: Registers, g: Registers)
    requires r.Valid() && g.Valid() && r.master < 4096 && r.slave < 4096
    requires g.master == r.master % 4096 && g.slave == r.slave % 4096 && g.dataSize == r.dataSize
    requires forall k :: 0 <= k < r.dataSize ==> g.data[k] == r.data[k]
    ensures g.master == r.master && g.slave == r.slave
    ensures g.data[..r.dataSize] == r.data[..r.dataSize]
  {
    DivModUnique(r.master, 4096, 0, r.master);
    DivModUnique(r.slave, 4096, 0, r.slave);
  }

  /** The head unit reads the command "Eject CD" sends, when it acknowledges
      every slot: addressed from 0x360 to 0x190, with the last received control
      nibble and the enable or disable payload. */
  lemma EjectCommandHeard(s: State, acks: seq<nat>, hu: Registers)
    requires s.Valid() && s.device != CdInUse && hu.Valid()
    requires forall k :: 0 <= k < 8 ==> Acked(Normal, acks, k)
    ensures var p := ProcessAction(EjectCd, s, acks);
      p.result && p.tx.Transmitted? &&
      var h := ReadFrame([false] + p.tx.sent.wire, hu);
      && h.outcome == Complete
      && h.regs.mode == Normal && h.regs.master == MyAddress && h.regs.slave == HuAddress
      && h.regs.control == s.regs.control % 16 && h.regs.dataSize == 5
      && h.regs.data[..5] == [0x00, 0x01, 0x11, if s.aux then 0x51 else 0x50, 0x61]
  {
    var p := ProcessAction(EjectCd, s, acks);
    var r := p.next.regs;
    assert p.result && p.tx.sent.wire == FrameBits(r) by {
      EjectSends(s, acks);
    }
    assert r.mode == Normal && r.master == MyAddress && r.slave == HuAddress && r.control == s.regs.control
      && r.dataSize == 5 && r.data[..5] == [0x00, 0x01, 0x11, if s.aux then 0x51 else 0x50, 0x61] by {
      EjectRegisters(s, acks);
    }
    SentFrameHeard(r, hu);
  }

  /* ---------------- AvcRegisterMe ---------------- */

  /** `AvcRegisterMe`: the registers are addressed from this device to the head
      unit with control 0xF, and `ACT_REGISTER` is processed, which
      `AvcProcessActionID` does not handle; so nothing is sent, yet it
      reports `TRUE`. */
  function RegisterMe(s: State): (p: Processed)
    requires s.Valid()
    ensures p.result && p.tx == Quiet
    ensures p.next.aux == s.aux && p.next.device == s.device
    ensures p.next.regs == s.regs.(mode := Normal, master := MyAddress, slave := HuAddress, control := ControlFlags)
  {
    var s' := s.(regs := s.regs.(mode := Normal, master := MyAddress, slave := HuAddress, control := ControlFlags));
    var p := ProcessAction(Register, s', []);
    Processed(true, p.next, p.tx)
  }

  /** After `AvcRegisterMe`, the next "Eject CD" command goes out with
      control 0xF. */
  lemma RegisteredControl(s: State, acks: seq<nat>)
    requires s.Valid() && s.device != CdInUse
    ensures ProcessAction(EjectCd, RegisterMe(s).next, acks).next.regs.control == ControlFlags
  {
  }

  /* ---------------- IsAvcBusFree ---------------- */

  /**
    * `IsAvcBusFree`: with Timer 0 cleared, the line must stay clear until
    * the count passes 74. `clear(t)` says whether the line is clear when the
    * loop samples it at count `t`.
    */
  method IsAvcBusFree(clear: nat -> bool) returns (free: bool)
    ensures free <==> forall u :: 0 <= u <= NormalBitLength + 1 ==> clear(u)
  {
    var t := 0;
    while clear(t)
      invariant t <= NormalBitLength + 1
      invariant forall u :: 0 <= u < t ==> clear(u)
      decreases NormalBitLength + 1 - t
    {
      if t > NormalBitLength {
        return true;
      }
      t := t + 1;
    }
    return false;
  }
}
