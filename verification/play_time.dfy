/**
  * The CD changer's play position: minutes and seconds kept as packed BCD
  * bytes, advanced once a second by the RTC periodic interrupt while the
  * changer plays. `incBCD` is the same text in avclandrv.c and src/sniffer.c,
  * and the interrupt body is the same in src/sniffer.c and sniffer.c.
  */
module PlayTime {
  import opened Bits

  /* ---------------- packed BCD ---------------- */

  /** A byte whose two nibbles are decimal digits. */
  predicate IsBcd(x: Byte)
  {
    x / 16 <= 9 && x % 16 <= 9
  }

  /** The number a packed BCD byte stands for. */
  function Decimal(x: Byte): nat
  {
    10 * (x / 16) + x % 16
  }

  /** The packed BCD byte of a number below 100. */
  function Packed(n: nat): (x: Byte)
    requires n < 100
    ensures IsBcd(x) && Decimal(x) == n
  {
    16 * (n / 10) + n % 10
  }

  /** `(data & 0x9) == 0x9`: bits 0 and 3 of the byte are both set. */
  predicate LowNibbleHasNine(data: Byte)
  {
    data % 2 == 1 && (data / 8) % 2 == 1
  }

  /**
    * `incBCD`: add 7 when the low nibble has the bits of 9 set (so that a
    * low digit 9 carries into the high nibble), else add 1; the sum is
    * truncated to a byte.
    */
  function IncBcd(data: Byte): (r: Byte)
    ensures LowNibbleHasNine(data) ==> r == (data + 7) % 256
    ensures !LowNibbleHasNine(data) ==> r == (data + 1) % 256
  {
    if LowNibbleHasNine(data) then (data + 7) % 256 else (data + 1) % 256
  }

  /** Within packed BCD, the only low digit with bits 0 and 3 set is 9. */
  lemma NineTest(x: Byte)
    requires IsBcd(x)
    ensures LowNibbleHasNine(x) <==> x % 16 == 9
  {
    var lo := x % 16;
    assert x % 2 == lo % 2 by {
      DivModUnique(x, 2, 8 * (x / 16) + lo / 2, lo % 2);
    }
    assert (x / 8) % 2 == lo / 8 by {
      DivModUnique(x, 8, 2 * (x / 16) + lo / 8, lo % 8);
      DivModUnique(2 * (x / 16) + lo / 8, 2, x / 16, lo / 8);
    }
  }

  /** `incBCD` is the BCD successor below 0x99, and 0x99 becomes 0xA0. */
  lemma IncBcdSuccessor(x: Byte)
    requires IsBcd(x)
    ensures x != 0x99 ==> IsBcd(IncBcd(x)) && Decimal(IncBcd(x)) == Decimal(x) + 1
    ensures x == 0x99 ==> IncBcd(x) == 0xA0
  {
    if x % 16 == 9 {
      if x != 0x99 {
        CarryStep(x);
      }
    } else {
      DigitStep(x);
    }
  }

  /** A low digit 9 carries into the high digit. */
  lemma CarryStep(x: Byte)
    requires IsBcd(x) && x % 16 == 9 && x != 0x99
    ensures x + 7 < 256 && IncBcd(x) == x + 7 && IsBcd(x + 7) && Decimal(x + 7) == Decimal(x) + 1
  {
    NineTest(x);
    DivModUnique(x + 7, 256, 0, x + 7);
    var hi := x / 16;
    assert x == 16 * hi + 9;
    DivModUnique(x + 7, 16, hi + 1, 0);
  }

  /** A low digit below 9 just goes up by one. */
  lemma DigitStep(x: Byte)
    requires IsBcd(x) && x % 16 != 9
    ensures x + 1 < 256 && IncBcd(x) == x + 1 && IsBcd(x + 1) && Decimal(x + 1) == Decimal(x) + 1
  {
    NineTest(x);
    DivModUnique(x + 1, 256, 0, x + 1);
    var hi, lo := x / 16, x % 16;
    assert x == 16 * hi + lo;
    DivModUnique(x + 1, 16, hi, lo + 1);
  }

  /** `incBCD(Packed(n))` is `Packed(n + 1)` for every `n` below 99. */
  lemma IncBcdPacked(n: nat)
    requires n < 99
    ensures IncBcd(Packed(n)) == Packed(n + 1)
  {
    var x := Packed(n);
    IncBcdSuccessor(x);
    DecimalInjective(IncBcd(x), Packed(n + 1));
  }

  lemma DecimalInjective(x: Byte, y: Byte)
    requires IsBcd(x) && IsBcd(y) && Decimal(x) == Decimal(y)
    ensures x == y
  {
    DivModUnique(Decimal(x), 10, x / 16, x % 16);
    DivModUnique(Decimal(y), 10, y / 16, y % 16);
  }

  /* ---------------- the RTC tick ---------------- */

  /** `cd_modes`: stStop = 0, stPlay = 1. */
  datatype CdMode = Stop | Play

  /** `cd_Time_Min`, `cd_Time_Sec`. */
  datatype Clock = Clock(minutes: Byte, seconds: Byte)
  {
    /** Both digits pairs are BCD and the seconds are below 60. */
    predicate Valid()
    {
      IsBcd(minutes) && IsBcd(seconds) && seconds <= 0x59
    }

    /** The position in seconds. */
    function Elapsed(): nat
    {
      60 * Decimal(minutes) + Decimal(seconds)
    }
  }

  /** `Event`, a `uint8_t` of flags; EV_STATUS is 4. */
  const EV_STATUS: bv8 := 4

  datatype Ticked = Ticked(clock: Clock, event: bv8)

  /**
    * The body of `ISR(RTC_PIT_vect)`: while playing, the seconds advance,
    * 0x60 seconds become 0 and advance the minutes, and 0xA0 minutes become
    * 0; in any mode EV_STATUS is raised.
    */
  function Tick(mode: CdMode, c: Clock, event: bv8): (r: Ticked)
    ensures r.event == event | EV_STATUS
    ensures mode == Stop ==> r.clock == c
    ensures mode == Play && c.Valid() ==>
      r.clock.Valid() && r.clock.Elapsed() == (c.Elapsed() + 1) % 6000
  {
    var c' := if mode == Play then Advance(c) else c;
    assert mode == Play && c.Valid() ==> c'.Valid() && c'.Elapsed() == (c.Elapsed() + 1) % 6000 by {
      if mode == Play && c.Valid() {
        AdvanceStep(c);
      }
    }
    Ticked(c', event | EV_STATUS)
  }

  /** The play-mode branch of the tick. */
  function Advance(c: Clock): Clock
  {
    var s := IncBcd(c.seconds);
    if s == 0x60 then
      var m := IncBcd(c.minutes);
      Clock(if m == 0xA0 then 0 else m, 0)
    else
      Clock(c.minutes, s)
  }

  /** From a valid clock the play-mode branch reaches the next second, and
      99:59 wraps to 00:00. */
  lemma AdvanceStep(c: Clock)
    requires c.Valid()
    ensures Advance(c).Valid() && Advance(c).Elapsed() == (c.Elapsed() + 1) % 6000
  {
    var e := c.Elapsed();
    var n := Advance(c);
    if c.seconds != 0x59 || c.minutes != 0x99 {
      assert n.Valid() && n.Elapsed() == e + 1 by {
        if c.seconds != 0x59 {
          SecondStep(c);
        } else {
          MinuteStep(c);
        }
      }
      assert e + 1 < 6000 by {
        ElapsedBound(n);
      }
      DivModUnique(e + 1, 6000, 0, e + 1);
    } else {
      assert n == Clock(0, 0) by {
        IncBcdSuccessor(c.seconds);
        IncBcdSuccessor(c.minutes);
      }
      assert e == 5999;
      assert (e + 1) % 6000 == 0 by {
        DivModUnique(e + 1, 6000, 1, 0);
      }
      assert n.Elapsed() == 0;
    }
  }

  /** A valid clock shows less than 100 minutes. */
  lemma ElapsedBound(c: Clock)
    requires c.Valid()
    ensures c.Elapsed() < 6000
  {
  }

  /** Below 59 seconds only the seconds advance. */
  lemma SecondStep(c: Clock)
    requires c.Valid() && c.seconds != 0x59
    ensures Advance(c) == Clock(c.minutes, IncBcd(c.seconds))
    ensures Advance(c).Valid() && Advance(c).Elapsed() == c.Elapsed() + 1
  {
    IncBcdSuccessor(c.seconds);
    DecimalBound(IncBcd(c.seconds), Decimal(c.seconds) + 1);
  }

  /** At 59 seconds below 99 minutes the minutes advance. */
  lemma MinuteStep(c: Clock)
    requires c.Valid() && c.seconds == 0x59 && c.minutes != 0x99
    ensures Advance(c) == Clock(IncBcd(c.minutes), 0)
    ensures Advance(c).Valid() && Advance(c).Elapsed() == c.Elapsed() + 1
  {
    IncBcdSuccessor(c.seconds);
    IncBcdSuccessor(c.minutes);
  }

  /** A BCD byte standing for less than 60 is at most 0x59. */
  lemma DecimalBound(x: Byte, n: nat)
    requires IsBcd(x) && Decimal(x) == n && n < 60
    ensures x <= 0x59 && x != 0x60
  {
  }

  /** 99:59 ticks over to 00:00. */
  lemma HourWrap()
    ensures Advance(Clock(0x99, 0x59)) == Clock(0, 0)
  {
    assert IncBcd(0x59) == 0x60 by {
      IncBcdSuccessor(0x59);
    }
    assert IncBcd(0x99) == 0xA0 by {
      IncBcdSuccessor(0x99);
    }
  }

  /** Ticks do not count: several before the main loop looks leave one
      EV_STATUS flag, the same as a single tick. */
  lemma TicksCoalesce(mode: CdMode, c: Clock, event: bv8)
    ensures Tick(mode, Tick(mode, c, event).clock, Tick(mode, c, event).event).event
         == Tick(mode, c, event).event
  {
  }
}
