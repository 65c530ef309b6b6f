/**
  * The AVC-LAN bit codec of the two AVR drivers (avclandrv.c and its
  * refactoring src/avclandrv.c), which use the same timer counts, as data.
  *
  *   - a transmission is the `seq<bool>` of logical bits that follow the start
  *     bit; each acknowledge slot is one element of it;
  *   - a reception consumes a `seq<nat>` of measured high times, one per bit
  *     (the start bit included) and one per acknowledge slot;
  *   - the acknowledgements a transmitter sees come from an oracle `seq<bool>`,
  *     one entry per slot it reads; a missing entry is a NAK, as silence is.
  */
module Bus {
  import opened Bits

  /** Timer counts (125 ns ticks at 16 MHz with CLKDIV2): how long the start
      bit, a `1` and a `0` drive the line, and the high time below which a
      receiver reads a `1`. */
  const StartBitTicks: nat := 1328
  const Bit1Ticks: nat := 164
  const Bit0Ticks: nat := 272
  const ReadThreshold: nat := 208

  /* ---------------- bit codec ---------------- */

  /** A receiver's classification of one measured high time. */
  predicate ReadsAsOne(width: nat)
  {
    width < ReadThreshold
  }

  /** How long the senders of a `1` and of a `0` drive the line. */
  function DriveTicks(bit: bool): nat
  {
    if bit then Bit1Ticks else Bit0Ticks
  }

  /** The high times a listener measures for a transmission: the start bit,
      then one pulse per logical bit. */
  function Pulses(wire: seq<bool>): (ws: seq<nat>)
    ensures |ws| == |wire| + 1 && ws[0] == StartBitTicks
    ensures forall i :: 0 <= i < |wire| ==> ws[i + 1] == DriveTicks(wire[i])
  {
    [StartBitTicks] + seq(|wire|, i requires 0 <= i < |wire| => DriveTicks(wire[i]))
  }

  /** The bits a receiver reads from a run of measured high times. */
  function Classify(ws: seq<nat>): (bits: seq<bool>)
    ensures |bits| == |ws|
    ensures forall i {:trigger bits[i]} :: 0 <= i < |ws| ==> bits[i] == ReadsAsOne(ws[i])
  {
    seq(|ws|, i requires 0 <= i < |ws| => ReadsAsOne(ws[i]))
  }

  lemma ClassifySlice(ws: seq<nat>, x: nat, y: nat)
    requires x <= y <= |ws|
    ensures Classify(ws[x..y]) == Classify(ws)[x..y]
  {
  }

  /** A driven `1` reads back as `1`, a driven `0` as `0`, and the start bit
      is long enough to read as `0`. */
  lemma BitCodecSeparates(b: bool)
    ensures ReadsAsOne(DriveTicks(b)) == b
    ensures !ReadsAsOne(StartBitTicks)
    ensures Bit1Ticks < ReadThreshold < Bit0Ticks < StartBitTicks
  {
  }

  /** Classifying the pulses of a transmission gives back its bits. */
  lemma ClassifyPulses(wire: seq<bool>)
    ensures Classify(Pulses(wire)[1..]) == wire
  {
    var ws := Pulses(wire);
    forall i | 0 <= i < |wire|
      ensures Classify(ws[1..])[i] == wire[i]
    {
      BitCodecSeparates(wire[i]);
    }
  }

  /** The pulses of bits `a .. a + n` of a transmission classify back to
      those bits (the start bit shifts every pulse one place along). */
  lemma ClassifyWindow(wire: seq<bool>, a: nat, n: nat)
    requires a + n <= |wire|
    ensures Classify(Pulses(wire)[a + 1..a + 1 + n]) == wire[a..a + n]
  {
    var ws := Pulses(wire);
    ClassifyPulses(wire);
    assert ws[a + 1..a + 1 + n] == ws[1..][a..a + n];
    ClassifySlice(ws[1..], a, a + n);
  }

  /** From `ws[pos]` on, a receiver classifies the pulses as `bits`. */
  predicate Hears(ws: seq<nat>, pos: nat, bits: seq<bool>)
  {
    pos + |bits| <= |ws| && Classify(ws[pos..pos + |bits|]) == bits
  }

  /** A listener hears a whole transmission just after its start bit. */
  lemma PulsesHeard(wire: seq<bool>)
    ensures Hears(Pulses(wire), 1, wire)
  {
    ClassifyWindow(wire, 0, |wire|);
    assert wire[0..|wire|] == wire;
  }

  /** Hearing `a + b` is hearing `a`, then `b`. */
  lemma HearsAppend(ws: seq<nat>, pos: nat, a: seq<bool>, b: seq<bool>)
    requires Hears(ws, pos, a + b)
    ensures Hears(ws, pos, a) && Hears(ws, pos + |a|, b)
  {
    var w := ws[pos..pos + |a| + |b|];
    ClassifySlice(w, 0, |a|);
    ClassifySlice(w, |a|, |a| + |b|);
    assert w[0..|a|] == ws[pos..pos + |a|];
    assert w[|a|..|a| + |b|] == ws[pos + |a|..pos + |a| + |b|];
    assert (a + b)[..|a|] == a && (a + b)[|a|..] == b;
  }

  /* ---------------- receiving and acknowledging ---------------- */

  /** Why a receiver gives up on a frame. `Starved` stands for the source's
      endless wait for a pulse that never comes. */
  datatype Drop = Starved | ParityMismatch(field: FieldName) | TooLong(length: nat)
  datatype FieldName = ControllerAddr | PeripheralAddr | ControlBits | LengthByte | DataByte(index: nat)

  datatype Step<T> = Ok(value: T) | Fail(why: Drop)
  {
    predicate IsFailure() { Fail? }
    function PropagateFailure<U>(): Step<U>
      requires Fail?
    {
      Fail(why)
    }
    function Extract(): T
      requires Ok?
    {
      value
    }
  }

  /** The acknowledgement the oracle gives for slot `i`; silence is a NAK. */
  predicate AckAt(acks: seq<bool>, i: nat)
  {
    i < |acks| && acks[i]
  }

  /** What a sender returns when acknowledge slot `i` is not acknowledged:
      1 for the address slot, 2 for control, 3 for length, 4 for any data byte. */
  function NakCode(i: nat): nat
  {
    if i < 3 then i + 1 else 4
  }

  /** The first slot, from `from` on and below `n`, that the oracle does not
      acknowledge; `n` when there is none. */
  function FirstNak(acks: seq<bool>, from: nat, n: nat): (k: nat)
    requires from <= n
    ensures from <= k <= n
    ensures forall m :: from <= m < k ==> AckAt(acks, m)
    ensures k < n ==> !AckAt(acks, k)
    decreases n - from
  {
    if from == n || !AckAt(acks, from) then from else FirstNak(acks, from + 1, n)
  }

  /* ---------------- the bus-idle wait ---------------- */

  /**
    * The wait at the top of `AVCLAN_sendframe` (and of `AVCLan_SendData` and
    * `AVCLan_SendDataBroadcast` in the first iteration). `clear(t)` tells whether the
    * line is idle at timer count `t`. The counter is cleared once, before the
    * loop, so the wait ends at the first count above 864 at which the inner
    * loop stops: when the line is busy, or at 900. A line that never goes
    * idle does not hold the sender back: the wait ends at 865 all the same.
    */
  method WaitForFreeLine(clear: nat -> bool) returns (t: nat)
    ensures 865 <= t <= 900
    ensures forall u :: 865 <= u < t ==> clear(u)
    ensures t < 900 ==> !clear(t)
    ensures (forall u :: !clear(u)) ==> t == 865
  {
    t := 0;
    var busy := true;
    while busy
      invariant t <= 900
      invariant busy ==> t <= 865
      invariant !busy ==> 865 <= t && (forall u :: 865 <= u < t ==> clear(u)) && (t < 900 ==> !clear(t))
      invariant (forall u :: !clear(u)) && !busy ==> t == 865
      decreases 901 - t, busy
    {
      ghost var t0 := t;
      while clear(t) && t < 900
        invariant t <= 900
        invariant forall u :: 865 <= u < t ==> clear(u)
        invariant (forall u :: !clear(u)) ==> t == t0
        decreases 900 - t
      {
        t := t + 1;
      }
      if t > 864 {
        busy := false;
      } else {
        t := t + 1;
      }
    }
  }
}
