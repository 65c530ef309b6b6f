/**
  * The bit-timing profile of src/timing.h: how long the transmitter drives
  * (logic 0 on the wire) and releases (logic 1) the line for a start bit, a
  * `1` and a `0`, the read threshold and the longest admissible bit, all in
  * nanoseconds, and the length of one TCB timer tick that turns them into
  * timer counts. The header computes in C floating point; here every
  * quantity is an exact `real`.
  */
module Timing {
  import Bus

  /** `TCB_CLKSEL`: the TCB timer counts CPU cycles, every other CPU cycle,
      or TCA ticks. */
  datatype TimerClock = ClkDiv1 | ClkDiv2 | ClkTca

  /**
    * The build configuration the header reads: `FREQSEL` in hertz, whether
    * `CLK_PRESCALE` enables the main clock prescaler, the prescaler's
    * `__CLK_PRESCALE_DIV`, and `TCB_CLKSEL`.
    */
  datatype Config = Config(freqsel: nat, prescaled: bool, prescaleDiv: nat, clock: TimerClock)
  {
    /** The prescaler divides by one of the `__CLKCTRL_PDIV_*X_gc` factors. */
    predicate Valid()
    {
      prescaled ==> prescaleDiv in PrescaleDivisors
    }
  }

  const PrescaleDivisors: set<nat> := {2, 4, 8, 16, 32, 64, 6, 10, 12, 24, 48}

  /** A configuration the header computes a value for, or one it stops the
      build on with `#error "Not implemented"`. */
  datatype Build<T> = Built(value: T) | NotImplemented

  /** `CYCLE_MUL`: the prescaler factor when the prescaler is on, else 1. */
  function CycleMul(c: Config): nat
  {
    if c.prescaled then c.prescaleDiv else 1
  }

  /** How many CPU cycles one timer tick spans. */
  function TimerDivider(clock: TimerClock): nat
  {
    match clock
    case ClkDiv1 => 1
    case ClkDiv2 => 2
    case ClkTca => 0
  }

  /** `CPU_CYCLE`: the length of one CPU clock cycle, in nanoseconds. */
  function CpuCycle(c: Config): (r: Build<real>)
    requires c.Valid()
    ensures r.Built? <==> c.freqsel == 20_000_000 || c.freqsel == 16_000_000
    ensures r.Built? ==> r.value > 0.0 && r.value * c.freqsel as real == 1_000_000_000.0 * CycleMul(c) as real
  {
    if c.freqsel == 20_000_000 then Built(50.0 * CycleMul(c) as real)
    else if c.freqsel == 16_000_000 then Built(62.5 * CycleMul(c) as real)
    else NotImplemented
  }

  /** `TCB_TICK`: the length of one timer count, in nanoseconds. */
  function TcbTick(c: Config): (r: Build<real>)
    requires c.Valid()
    ensures r.Built? <==> (c.freqsel == 20_000_000 || c.freqsel == 16_000_000) && c.clock != ClkTca
    ensures r.Built? ==>
      r.value > 0.0
      && r.value * c.freqsel as real == 1_000_000_000.0 * (CycleMul(c) * TimerDivider(c.clock)) as real
  {
    match CpuCycle(c)
    case NotImplemented => NotImplemented
    case Built(cycle) =>
      match c.clock
      case ClkDiv1 => Built(cycle)
      case ClkDiv2 => Built(cycle * 2.0)
      case ClkTca => NotImplemented
  }

  /* ---------------- the profile ---------------- */

  /** The eight durations of the header, in one unit (nanoseconds or ticks). */
  datatype Profile = Profile(startDriven: real, startReleased: real,
                             bit1Driven: real, bit1Released: real,
                             bit0Driven: real, bit0Released: real,
                             readThreshold: real, bitLengthMax: real)

  /** The durations the header states, in nanoseconds (measured at ±20 ns). */
  const Nanoseconds: Profile := Profile(169_000.0, 20_600.0, 19_700.0, 18_100.0,
                                        32_850.0, 6_200.0, 26_000.0, 39_100.0)

  /**
    * What lets a receiver tell the bits apart without a shared clock: the
    * read threshold lies strictly between the driven times of a `1` and a
    * `0`, the start bit is driven longer than either, and a whole data bit
    * fits in the longest admissible bit.
    */
  predicate Separable(p: Profile)
  {
    p.bit1Driven < p.readThreshold < p.bit0Driven
    && p.bit1Driven < p.startDriven && p.bit0Driven < p.startDriven
    && p.bit1Driven + p.bit1Released <= p.bitLengthMax
    && p.bit0Driven + p.bit0Released <= p.bitLengthMax
  }

  /** Every duration divided by the tick, as each `#define` does. */
  function InTicks(p: Profile, tick: real): Profile
    requires tick > 0.0
  {
    Profile(p.startDriven / tick, p.startReleased / tick,
            p.bit1Driven / tick, p.bit1Released / tick,
            p.bit0Driven / tick, p.bit0Released / tick,
            p.readThreshold / tick, p.bitLengthMax / tick)
  }

  /** The profile in timer counts for a configuration. */
  function ProfileFor(c: Config): (r: Build<Profile>)
    requires c.Valid()
    ensures r.Built? <==> TcbTick(c).Built?
    ensures r.Built? ==> Separable(r.value)
    ensures r.Built? ==> r.value.readThreshold * TcbTick(c).value == Nanoseconds.readThreshold
  {
    match TcbTick(c)
    case NotImplemented => NotImplemented
    case Built(tick) =>
      assert Separable(InTicks(Nanoseconds, tick)) by {
        ScalingKeepsSeparation(Nanoseconds, tick);
      }
      Built(InTicks(Nanoseconds, tick))
  }

  /* ---------------- lemmas ---------------- */

  lemma DivideStrict(a: real, b: real, t: real)
    requires t > 0.0 && a < b
    ensures a / t < b / t
  {
    assert b / t - a / t == (b - a) / t;
  }

  lemma DivideSum(a: real, b: real, m: real, t: real)
    requires t > 0.0 && a + b <= m
    ensures a / t + b / t <= m / t
  {
    assert a / t + b / t == (a + b) / t;
    assert m / t - (a + b) / t == (m - (a + b)) / t;
  }

  /** Dividing every duration by the same positive tick keeps them separable:
      the orderings hold in timer counts as they do in nanoseconds. */
  lemma ScalingKeepsSeparation(p: Profile, tick: real)
    requires tick > 0.0 && Separable(p)
    ensures Separable(InTicks(p, tick))
  {
    DivideStrict(p.bit1Driven, p.readThreshold, tick);
    DivideStrict(p.readThreshold, p.bit0Driven, tick);
    DivideStrict(p.bit1Driven, p.startDriven, tick);
    DivideStrict(p.bit0Driven, p.startDriven, tick);
    DivideSum(p.bit1Driven, p.bit1Released, p.bitLengthMax, tick);
    DivideSum(p.bit0Driven, p.bit0Released, p.bitLengthMax, tick);
  }

  /** The header's durations are separable in nanoseconds. */
  lemma NanosecondsSeparable()
    ensures Separable(Nanoseconds)
    ensures Nanoseconds.bit0Driven + Nanoseconds.bit0Released == 39_050.0
    ensures Nanoseconds.bit1Driven + Nanoseconds.bit1Released == 37_800.0
  {
  }

  /** The drivers' configuration: a 16 MHz clock without prescaler and the
      timers on CLKDIV2. */
  const DriverConfig: Config := Config(16_000_000, false, 1, ClkDiv2)

  /**
    * In the drivers' configuration a tick is 125 ns and the header's read
    * threshold is exactly the 208 counts the drivers compare against; the
    * driven counts the drivers hard-code straddle that threshold the same way
    * the header's do.
    */
  lemma DriverThreshold()
    ensures TcbTick(DriverConfig) == Built(125.0)
    ensures ProfileFor(DriverConfig).Built?
    ensures ProfileFor(DriverConfig).value.readThreshold == Bus.ReadThreshold as real
    ensures Bus.Bit1Ticks as real < ProfileFor(DriverConfig).value.readThreshold < Bus.Bit0Ticks as real
    ensures Bus.Bit0Ticks as real < Bus.StartBitTicks as real
  {
    assert TcbTick(DriverConfig) == Built(125.0);
  }
}
