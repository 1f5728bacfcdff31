/** The error state of the system state machine: the on-board LED blinks the
    low-level error id so that a user can count it, with a long pause after
    each group of blinks (src/StateMachine/ErrorState.cpp). */
module ErrorStateMachine {
  import opened Bytes

  /** The period the blink timer was last started with. */
  datatype Period = Stopped | BlinkOnPeriod | BlinkOffShortPeriod | BlinkOffLongPeriod

  /** LED, blink counter and timer period together. */
  datatype Blink = Blink(ledOn: bool, cnt: uint8, timer: Period)

  /** The LED off and the counter 0 at the start of a long pause. */
  const LONG_PAUSE: Blink := Blink(false, 0, BlinkOffLongPeriod)

  /** The state after one `process` call whose timer has timed out. The
      counter is an 8-bit value and is compared with the error id cast to
      8 bits. */
  function Step(s: Blink, errorId: nat, noErrorId: nat): (t: Blink)
    ensures t.ledOn == !s.ledOn
    ensures !s.ledOn ==> t.cnt == s.cnt && t.timer == BlinkOnPeriod
    ensures s.ledOn && errorId == noErrorId ==> t.cnt == s.cnt && t.timer == BlinkOffShortPeriod
    ensures s.ledOn && errorId != noErrorId ==>
      (t.timer == BlinkOffShortPeriod <==> (s.cnt as int + 1) % 0x100 < errorId % 0x100)
  {
    if !s.ledOn then
      Blink(true, s.cnt, BlinkOnPeriod)
    else if errorId == noErrorId then
      Blink(false, s.cnt, BlinkOffShortPeriod)
    else
      var cnt := ((s.cnt as int + 1) % 0x100) as uint8;
      if (cnt as int) < errorId % 0x100 then Blink(false, cnt, BlinkOffShortPeriod)
      else Blink(false, 0, BlinkOffLongPeriod)
  }

  /** The state after n timed-out `process` calls. */
  function StepN(s: Blink, n: nat, errorId: nat, noErrorId: nat): Blink
  {
    if n == 0 then s else Step(StepN(s, n - 1, errorId, noErrorId), errorId, noErrorId)
  }

  /** How often the LED was switched on during n timed-out `process` calls. */
  function OnCount(s: Blink, n: nat, errorId: nat, noErrorId: nat): nat
  {
    if n == 0 then 0
    else OnCount(s, n - 1, errorId, noErrorId) + (if StepN(s, n - 1, errorId, noErrorId).ledOn then 0 else 1)
  }

  /** With a real error the counter never reaches the error id: it is reset
      to 0 when it would. */
  lemma CounterStaysBelowErrorId(s: Blink, errorId: nat, noErrorId: nat)
    requires errorId != noErrorId && (s.cnt as int) < errorId % 0x100
    ensures (Step(s, errorId, noErrorId).cnt as int) < errorId % 0x100
  {
  }

  /** Without an error every pause is short and the counter keeps its value
      over any number of steps. */
  lemma {:induction false} NoErrorKeepsCounter(s: Blink, n: nat, noErrorId: nat)
    ensures StepN(s, n, noErrorId, noErrorId).cnt == s.cnt
    ensures StepN(s, n, noErrorId, noErrorId).timer != BlinkOffLongPeriod || (n == 0 && s.timer == BlinkOffLongPeriod)
  {
    if n > 0 {
      NoErrorKeepsCounter(s, n - 1, noErrorId);
    }
  }

  /** The state after k on/off pairs from a long pause, for k up to the
      8-bit error id m: the long pause at 0 and m, the k-th short pause in
      between. */
  function AfterPairs(k: nat, m: nat): Blink
    requires k <= m < 0x100
  {
    if k == 0 || k == m then LONG_PAUSE else Blink(false, k as uint8, BlinkOffShortPeriod)
  }

  /** One on/off pair: from the state after k pairs the LED is switched on
      (keeping the counter) and then off into the state after k + 1 pairs. */
  lemma PairStep(k: nat, errorId: nat, noErrorId: nat)
    requires errorId != noErrorId && k < errorId % 0x100
    ensures Step(AfterPairs(k, errorId % 0x100), errorId, noErrorId) == Blink(true, k as uint8, BlinkOnPeriod)
    ensures Step(Blink(true, k as uint8, BlinkOnPeriod), errorId, noErrorId) == AfterPairs(k + 1, errorId % 0x100)
  {
  }

  /** After k on/off pairs from the start of a long pause (k at most the
      error id), the LED was switched on k times, no long pause occurred
      in between, and the state is the k-th short pause, or the next long
      pause once k reaches the error id. */
  lemma {:induction false} BlinkPrefix(k: nat, errorId: nat, noErrorId: nat)
    requires errorId != noErrorId && 1 <= errorId % 0x100 && k <= errorId % 0x100
    ensures StepN(LONG_PAUSE, 2 * k, errorId, noErrorId) == AfterPairs(k, errorId % 0x100)
    ensures OnCount(LONG_PAUSE, 2 * k, errorId, noErrorId) == k
    ensures forall j :: 0 < j < 2 * k ==> StepN(LONG_PAUSE, j, errorId, noErrorId).timer != BlinkOffLongPeriod
  {
    if k > 0 {
      var m := errorId % 0x100;
      BlinkPrefix(k - 1, errorId, noErrorId);
      PairStep(k - 1, errorId, noErrorId);
      assert StepN(LONG_PAUSE, 2 * k - 1, errorId, noErrorId) == Blink(true, (k - 1) as uint8, BlinkOnPeriod);
      assert StepN(LONG_PAUSE, 2 * k, errorId, noErrorId) == AfterPairs(k, m);
      assert OnCount(LONG_PAUSE, 2 * k - 1, errorId, noErrorId) == k;
      forall j | 0 < j < 2 * k
        ensures StepN(LONG_PAUSE, j, errorId, noErrorId).timer != BlinkOffLongPeriod
      {
        if j == 2 * k - 2 {
          assert AfterPairs(k - 1, m).timer == BlinkOffShortPeriod;
        }
      }
    }
  }

  /** Between two long pauses the LED is switched on exactly errorId times:
      2 * errorId timed-out steps from a long pause lead back to it, with no
      long pause in between. */
  lemma BlinkCycle(errorId: nat, noErrorId: nat)
    requires errorId != noErrorId && 1 <= errorId % 0x100
    ensures StepN(LONG_PAUSE, 2 * (errorId % 0x100), errorId, noErrorId) == LONG_PAUSE
    ensures OnCount(LONG_PAUSE, 2 * (errorId % 0x100), errorId, noErrorId) == errorId % 0x100
    ensures forall j :: 0 < j < 2 * (errorId % 0x100) ==>
      StepN(LONG_PAUSE, j, errorId, noErrorId).timer != BlinkOffLongPeriod
  {
    BlinkPrefix(errorId % 0x100, errorId, noErrorId);
    assert AfterPairs(errorId % 0x100, errorId % 0x100) == LONG_PAUSE;
  }

  class ErrorState {
    /** The low-level error id to blink. */
    const errorId: nat
    /** The id that stands for "no low-level error". */
    const noErrorId: nat
    /** The on-board LED. */
    var ledOn: bool
    var cnt: uint8
    var timer: Period

    function State(): Blink
      reads this
    {
      Blink(ledOn, cnt, timer)
    }

    /** The LED keeps whatever state the board left it in; the timer is not
        running. */
    constructor (errorId: nat, noErrorId: nat, ledOn: bool)
      ensures this.errorId == errorId && this.noErrorId == noErrorId
      ensures State() == Blink(ledOn, 0, Stopped)
    {
      this.errorId := errorId;
      this.noErrorId := noErrorId;
      this.ledOn := ledOn;
      cnt := 0;
      timer := Stopped;
    }

    /** Entering the state: the LED on, the on period running, the counter 0. */
    method Entry()
      modifies this`ledOn, this`cnt, this`timer
      ensures State() == Blink(true, 0, BlinkOnPeriod)
    {
      timer := BlinkOnPeriod;
      ledOn := true;
      cnt := 0;
    }

    /** One `process` call: nothing changes until the timer has timed out,
        then one blink step. The state is never left from here. */
    method Process(timedOut: bool)
      modifies this`ledOn, this`cnt, this`timer
      ensures State() == if timedOut then Step(old(State()), errorId, noErrorId) else old(State())
    {
      if timedOut {
        if !ledOn {
          ledOn := true;
          timer := BlinkOnPeriod;
        } else {
          ledOn := false;
          if errorId == noErrorId {
            timer := BlinkOffShortPeriod;
          } else {
            cnt := ((cnt as int + 1) % 0x100) as uint8;
            if (cnt as int) < errorId % 0x100 {
              timer := BlinkOffShortPeriod;
            } else {
              timer := BlinkOffLongPeriod;
              cnt := 0;
            }
          }
        }
      }
    }
  }
}
