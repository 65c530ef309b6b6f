/**
  * The main loop shared by the two sniffers (src/sniffer.c and sniffer.c)
  * and its interplay with the 1 Hz tick. Reading a frame and answering the
  * head unit are the drivers' business (modules Mockingboard and Slonicki);
  * here they are the work a pass of the loop chooses.
  */
module SnifferLoop {
  import opened Bits
  import opened PlayTime

  /** What a pass of the loop does on the bus. */
  datatype BusWork = ReadFrame | Answer | NoWork

  /**
    * The top of the loop: a line that is already high means a frame is
    * arriving and is read; otherwise a pending `answerReq` is answered.
    */
  function BusWorkFor(lineBusy: bool, answerReq: nat): (w: BusWork)
    ensures w == ReadFrame <==> lineBusy
    ensures w == Answer <==> !lineBusy && answerReq != 0
  {
    if lineBusy then ReadFrame
    else if answerReq != 0 then Answer
    else NoWork
  }

  /** One pass: the bus work, whether a status frame went out, and `Event`
      afterwards. */
  datatype Pass = Pass(work: BusWork, statusSent: bool, event: bv8)

  /**
    * `switch (Event) { case EV_STATUS: Event &= ~EV_STATUS;
    * AVCLan_Send_Status(); }`: the switch compares the whole byte, so a
    * status frame goes out only when EV_STATUS is the one flag raised.
    */
  function LoopPass(lineBusy: bool, answerReq: nat, event: bv8): (r: Pass)
    ensures r.work == BusWorkFor(lineBusy, answerReq)
    ensures r.statusSent <==> event == EV_STATUS
    ensures r.statusSent ==> r.event == 0
    ensures !r.statusSent ==> r.event == event
  {
    var work := BusWorkFor(lineBusy, answerReq);
    if event == EV_STATUS then Pass(work, true, event & !EV_STATUS)
    else Pass(work, false, event)
  }

  /** `Event` as these programs leave it: EV_NOTHING or EV_STATUS. */
  predicate Reachable(event: bv8)
  {
    event == 0 || event == EV_STATUS
  }

  /** What happens between two looks at the state: a tick of the RTC, or a
      pass of the main loop with the line state and `answerReq` it sees. */
  datatype Occurrence = TickOccurs | PassOccurs(lineBusy: bool, answerReq: nat)

  datatype Outcome = Outcome(clock: Clock, event: bv8, statusFrames: nat)

  /** The state after a run of occurrences, with the status frames sent. */
  function Run(mode: CdMode, c: Clock, event: bv8, run: seq<Occurrence>): Outcome
    decreases |run|
  {
    if run == [] then Outcome(c, event, 0)
    else match run[0]
      case TickOccurs =>
        var t := Tick(mode, c, event);
        Run(mode, t.clock, t.event, run[1..])
      case PassOccurs(busy, req) =>
        var p := LoopPass(busy, req, event);
        var rest := Run(mode, c, p.event, run[1..]);
        Outcome(rest.clock, rest.event, rest.statusFrames + (if p.statusSent then 1 else 0))
  }

  /** Reference count: the passes that find at least one tick since the
      previous pass (`pending` says whether one is outstanding). */
  function Served(run: seq<Occurrence>, pending: bool): nat
    decreases |run|
  {
    if run == [] then 0
    else if run[0].TickOccurs? then Served(run[1..], true)
    else (if pending then 1 else 0) + Served(run[1..], false)
  }

  /** How many ticks a run holds. */
  function Ticks(run: seq<Occurrence>): nat
    decreases |run|
  {
    if run == [] then 0 else (if run[0].TickOccurs? then 1 else 0) + Ticks(run[1..])
  }

  /**
    * From a reachable `Event`, one status frame goes out per pass that
    * follows a tick, however many ticks came in between, and `Event` stays
    * reachable.
    */
  lemma {:induction false} StatusPerServedPass(mode: CdMode, c: Clock, event: bv8, run: seq<Occurrence>)
    requires Reachable(event)
    ensures Reachable(Run(mode, c, event, run).event)
    ensures Run(mode, c, event, run).statusFrames == Served(run, event == EV_STATUS)
    decreases |run|
  {
    if run != [] {
      match run[0]
      case TickOccurs =>
        var t := Tick(mode, c, event);
        assert t.event == EV_STATUS;
        StatusPerServedPass(mode, t.clock, t.event, run[1..]);
      case PassOccurs(busy, req) =>
        var p := LoopPass(busy, req, event);
        assert p.event == 0;
        StatusPerServedPass(mode, c, p.event, run[1..]);
    }
  }

  /** The play-mode clock after `n` ticks. */
  function AdvanceBy(c: Clock, n: nat): Clock
    decreases n
  {
    if n == 0 then c else AdvanceBy(Advance(c), n - 1)
  }

  /** While the changer plays, the main loop leaves the clock to the ticks:
      after a run it has advanced once per tick. */
  lemma {:induction false} PlayClockFollowsTicks(c: Clock, event: bv8, run: seq<Occurrence>)
    ensures Run(Play, c, event, run).clock == AdvanceBy(c, Ticks(run))
    decreases |run|
  {
    if run != [] {
      match run[0]
      case TickOccurs =>
        var t := Tick(Play, c, event);
        PlayClockFollowsTicks(t.clock, t.event, run[1..]);
      case PassOccurs(busy, req) =>
        PlayClockFollowsTicks(c, LoopPass(busy, req, event).event, run[1..]);
    }
  }

  /** `n` ticks from a valid clock land `n` seconds on, modulo 100 minutes. */
  lemma {:induction false} AdvanceByCounts(c: Clock, n: nat)
    requires c.Valid()
    ensures AdvanceBy(c, n).Valid()
    ensures AdvanceBy(c, n).Elapsed() == (c.Elapsed() + n) % 6000
    decreases n
  {
    var e := c.Elapsed();
    if n == 0 {
      assert e < 6000 by { ElapsedBound(c); }
      DivModUnique(e, 6000, 0, e);
    } else {
      var d := Advance(c);
      assert d.Valid() && d.Elapsed() == (e + 1) % 6000 by { AdvanceStep(c); }
      AdvanceByCounts(d, n - 1);
      ModChain(e, d.Elapsed(), AdvanceBy(d, n - 1).Elapsed(), n - 1);
    }
  }

  /** One second and then `n` more is `n + 1` seconds, modulo 100 minutes. */
  lemma ModChain(e: nat, a: nat, last: nat, n: nat)
    requires a == (e + 1) % 6000 && last == (a + n) % 6000
    ensures last == (e + 1 + n) % 6000
  {
    ModAfterStep(e, n);
  }

  /** While the changer plays, a valid clock advances one second per tick,
      wrapping after 99:59, whatever the main loop does in between. */
  lemma ClockCountsTicks(c: Clock, event: bv8, run: seq<Occurrence>)
    requires c.Valid()
    ensures Run(Play, c, event, run).clock.Valid()
    ensures Run(Play, c, event, run).clock.Elapsed() == (c.Elapsed() + Ticks(run)) % 6000
  {
    PlayClockFollowsTicks(c, event, run);
    AdvanceByCounts(c, Ticks(run));
  }

  lemma ModAfterStep(e: nat, n: nat)
    ensures ((e + 1) % 6000 + n) % 6000 == (e + 1 + n) % 6000
  {
    var q := (e + 1) / 6000;
    var r := (e + 1) % 6000;
    ModMultiple(r + n, q, 6000);
    assert e + 1 + n == r + n + 6000 * q;
  }

  /** While stopped, ticks leave the clock alone. */
  lemma {:induction false} StoppedClockStill(c: Clock, event: bv8, run: seq<Occurrence>)
    ensures Run(Stop, c, event, run).clock == c
    decreases |run|
  {
    if run != [] {
      match run[0]
      case TickOccurs =>
        StoppedClockStill(c, Tick(Stop, c, event).event, run[1..]);
      case PassOccurs(busy, req) =>
        StoppedClockStill(c, LoopPass(busy, req, event).event, run[1..]);
    }
  }
}
