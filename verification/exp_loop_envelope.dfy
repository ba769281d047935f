/**
 * The envelope of CV_ExpLoopEnvelope: eight looping sections like
 * LoopEnvelope, but each section glides to its level through a one-pole
 * controller instead of a ramp, and release glides to 0 until the value
 * falls below a threshold, then a short linear tail ends at 0.
 *
 * The controller's step (`cutoffToP` followed by `process`) is the
 * parameter `smooth`: given the sample rate, the transition time, the
 * controller's value and its target, it gives the controller's next value.
 */
module ExpLoopEnvelope {
  import opened Wrappers
  import opened LoopEnvelope

  const Sections: nat := 8
  /** `nSections` in the source is the index of the last section. */
  const LastSection: U8 := 7
  const ReleaseState: U8 := 8
  const Tail: U8 := 9
  const Terminated: U8 := 10
  const Threshold: real := 0.00001

  type Smoother = (real, real, real, real) -> real

  /** The members `process` only reads. */
  datatype Settings = Settings(
    loopStart: U8,
    loopEnd: U8,
    sampleRate: real,
    tailLength: U32,
    period: real,
    releaseTime: real,
    decayTime: seq<real>,
    holdTime: seq<real>,
    level: seq<real>)

  /** The members `process` moves; `control` is the controller's value. */
  datatype Envelope = Envelope(
    state: U8, counter: U32, tailCounter: U32, value: real, control: real, settings: Settings)

  /** The member initializers. */
  function Initial(): (e: Envelope)
    ensures e.state == Terminated && e.settings.tailLength == 32
  {
    var zeros := seq(Sections, i => 0.0);
    Envelope.Envelope(Terminated, 0, 32, 0.0, 0.0, Settings.Settings(1, 2, 44100.0, 32, 1.0, 1.0, zeros, zeros, zeros))
  }

  predicate ValidSettings(s: Settings) {
    && |s.decayTime| == Sections && |s.holdTime| == Sections && |s.level| == Sections
    && s.loopEnd <= ReleaseState
    && (s.loopEnd < ReleaseState ==> s.loopStart <= s.loopEnd)
  }

  /** What every reachable envelope satisfies. */
  predicate Valid(e: Envelope) {
    ValidSettings(e.settings) && e.state <= Terminated && e.counter < MaxU32
  }

  lemma InitialValid()
    ensures Valid(Initial())
  {
  }

  /** `--tailCounter` on a `uint32_t`. */
  function Dec32(c: U32): U32 {
    if c == 0 then MaxU32 else c - 1
  }

  // ---------------------------------------------------------------------
  // Controls

  /** `setup`: the tail lasts a hundredth of a second. */
  function Setup(e: Envelope, sampleRate: real): (r: Envelope)
    ensures r.settings.sampleRate == sampleRate
    ensures r.settings.tailLength == ToU32(0.01 * sampleRate)
    ensures sampleRate >= 100.0 ==> r.settings.tailLength >= 1
    ensures 0.0 <= sampleRate < 100.0 ==> r.settings.tailLength == 0
    ensures Valid(e) ==> Valid(r)
  {
    e.(settings := e.settings.(sampleRate := sampleRate, tailLength := ToU32(0.01 * sampleRate)))
  }

  /** `trigger`: restart from section 0; the controller glides on from where it is. */
  function Trigger(e: Envelope): (r: Envelope)
    ensures r.state == 0 && r.counter == 0
    ensures r.control == e.control && r.settings == e.settings
    ensures Valid(e) ==> Valid(r)
  {
    e.(state := 0, counter := 0)
  }

  /** `setLoop`: as in LoopEnvelope, but an end up to and including section 7 is kept. */
  function SetLoop(e: Envelope, start: U8, end: U8): (r: Envelope)
    ensures start > end ==> r == e
    ensures start <= end ==> r.settings.loopStart == start
    ensures start <= end ==> r.settings.loopEnd == if end <= LastSection then end else ReleaseState
    ensures r.state == e.state && r.counter == e.counter
    ensures Valid(e) ==> Valid(r)
  {
    if start > end then e
    else e.(settings := e.settings.(loopStart := start,
                                    loopEnd := if end <= LastSection then end else ReleaseState))
  }

  /** `set`: the source requires `rate > 0`; later section times are scaled by the period. */
  function Set(e: Envelope, rate: real, releaseTime: real): (r: Envelope)
    requires rate > 0.0
    ensures r.settings.period * rate == 1.0
    ensures r.settings.releaseTime == releaseTime / rate
    ensures r.state == e.state && r.settings.decayTime == e.settings.decayTime
    ensures Valid(e) ==> Valid(r)
  {
    var period := 1.0 / rate;
    e.(settings := e.settings.(period := period, releaseTime := releaseTime * period))
  }

  /** `setDecayTime`, `setHoldTime`: section times in periods. */
  function SetTimes(e: Envelope, decay: seq<real>, hold: seq<real>): (r: Envelope)
    requires |decay| == |hold| == Sections
    ensures |r.settings.decayTime| == |r.settings.holdTime| == Sections
    ensures forall i :: 0 <= i < Sections ==>
      r.settings.decayTime[i] == decay[i] * e.settings.period && r.settings.holdTime[i] == hold[i] * e.settings.period
    ensures r.state == e.state && r.settings.level == e.settings.level
    ensures Valid(e) ==> Valid(r)
  {
    var p := e.settings.period;
    e.(settings := e.settings.(
      decayTime := seq(Sections, i requires 0 <= i < Sections => decay[i] * p),
      holdTime := seq(Sections, i requires 0 <= i < Sections => hold[i] * p)))
  }

  /** `setLevel`. */
  function SetLevel(e: Envelope, level: seq<real>): (r: Envelope)
    requires |level| == Sections
    ensures r.settings.level == level && r.state == e.state
    ensures Valid(e) ==> Valid(r)
  {
    e.(settings := e.settings.(level := level))
  }

  /** `release`: enter release from a looping envelope; the counter is left alone. */
  function Release(e: Envelope): (r: Envelope)
    ensures r.state == if e.settings.loopEnd < ReleaseState then ReleaseState else e.state
    ensures r.counter == e.counter && r.tailCounter == e.tailCounter
    ensures r.value == e.value && r.control == e.control && r.settings == e.settings
    ensures Valid(e) ==> Valid(r)
  {
    if e.settings.loopEnd < ReleaseState then e.(state := ReleaseState) else e
  }

  /** `terminate`: stop, with the controller reset to 0. */
  function Terminate(e: Envelope): (r: Envelope)
    ensures r.state == Terminated && r.control == 0.0
    ensures r.counter == e.counter && r.settings == e.settings
    ensures Valid(e) ==> Valid(r)
  {
    e.(state := Terminated, control := 0.0)
  }

  // ---------------------------------------------------------------------
  // Processing

  /** Samples spent in section `i`. */
  function SectionLength(s: Settings, i: nat): U32
    requires i < |s.decayTime| && i < |s.holdTime|
  {
    ToU32(s.sampleRate * (s.decayTime[i] + s.holdTime[i]))
  }

  function After(s: Settings, i: U8): int {
    if i == s.loopEnd then s.loopStart else i + 1
  }

  /**
   * One tail step as the source writes it: the counter is decremented
   * first and the tail ends when it reaches 0, so a tail loaded with 0
   * wraps around.  The result is the new counter and whether the tail ended.
   */
  function TailStepAsWritten(tailCounter: U32): (r: (U32, bool))
    ensures tailCounter >= 1 ==> r == (tailCounter - 1, tailCounter == 1)
  {
    var c := Dec32(tailCounter);
    (c, c == 0)
  }

  /** A tail of length 0 does not end at its first step: the counter wraps to its maximum. */
  lemma TailAsWrittenWraps()
    ensures TailStepAsWritten(0) == (MaxU32, false)
  {
  }

  /** The intended tail step: a counter at 0 stays there and the tail ends. */
  function TailStep(tailCounter: U32): (r: (U32, bool))
    ensures r.1 <==> r.0 == 0
    ensures r.0 == if tailCounter == 0 then 0 else tailCounter - 1
    ensures tailCounter >= 1 ==> r == TailStepAsWritten(tailCounter)
  {
    var c := if tailCounter == 0 then 0 else tailCounter - 1;
    (c, c == 0)
  }

  /** What a tail call of `process` leaves: the state, the tail counter and the output. */
  datatype TailResult = TailResult(state: U8, tailCounter: U32, out: Option<real>)

  /**
   * The tail case of `process` as the source writes it.  The output is
   * `threshold * tailCounter / float(tailLength)` after the decrement; with
   * a tail length of 0 that divides by zero and is not a finite number,
   * which is `None` here.
   */
  function TailProcessAsWritten(e: Envelope): (r: TailResult)
    requires e.state == Tail
    ensures r.out.None? <==> e.settings.tailLength == 0
    ensures e.tailCounter >= 1 ==> r.tailCounter == e.tailCounter - 1
    ensures e.tailCounter >= 1 ==> (r.state == Terminated <==> e.tailCounter == 1)
    ensures r.state == Terminated || r.state == Tail
  {
    var (c, done) := TailStepAsWritten(e.tailCounter);
    var out := if e.settings.tailLength == 0 then None else Some(Threshold * c as real / e.settings.tailLength as real);
    TailResult(if done then Terminated else Tail, c, out)
  }

  /**
   * A tail loaded with a length of 0 does not end: the call leaves the
   * envelope in the tail with the counter at its maximum and an output that
   * is not a finite number.
   */
  lemma EmptyTailAsWrittenRunsOn(e: Envelope)
    requires e.state == Tail && e.tailCounter == 0 && e.settings.tailLength == 0
    ensures TailProcessAsWritten(e) == TailResult(Tail, MaxU32, None)
  {
    TailAsWrittenWraps();
  }

  /**
   * With a tail length of at least 1 and a counter not yet at 0 (every
   * tail `process` itself reaches), the tail call of `Process` is the
   * source's.
   */
  lemma TailProcessAgrees(e: Envelope, smooth: Smoother)
    requires Valid(e) && e.state == Tail && e.tailCounter >= 1 && e.settings.tailLength >= 1
    ensures var (r, out) := Process(e, smooth);
      TailProcessAsWritten(e) == TailResult(r.state, r.tailCounter, Some(out))
  {
  }

  /**
   * `process`: a section glides toward its level and advances like
   * LoopEnvelope's; release glides toward 0 and enters the tail below the
   * threshold; the tail falls linearly from the threshold to 0 and
   * terminates; any other state outputs 0 and leaves the envelope as it is.
   * The tail takes the corrected step: a tail loaded with a length of 0
   * ends at once with output 0 (TailProcessAsWritten is the source's).
   */
  function Process(e: Envelope, smooth: Smoother): (r: (Envelope, real))
    requires Valid(e)
    ensures Valid(r.0) && r.0.settings == e.settings
    ensures e.state > Tail ==> r == (e, 0.0)
    ensures e.state <= Tail ==> r.0.value == r.1
    ensures e.state < ReleaseState ==> r.0.tailCounter == e.tailCounter
    ensures e.state >= ReleaseState ==> r.0.counter == e.counter
  {
    var s := e.settings;
    if e.state < Sections then
      var i := e.state;
      var c := Inc32(e.counter);
      var e1 := if c >= SectionLength(s, i) then e.(state := After(s, i), counter := 0) else e.(counter := c);
      var out := smooth(s.sampleRate, s.decayTime[i], e.control, s.level[i]);
      (e1.(control := out, value := out), out)
    else if e.state == ReleaseState then
      var out := smooth(s.sampleRate, s.releaseTime, e.control, 0.0);
      if out < Threshold then
        (e.(control := out, value := Threshold, state := Tail, tailCounter := s.tailLength), Threshold)
      else (e.(control := out, value := out), out)
    else if e.state == Tail then
      var (c, done) := TailStep(e.tailCounter);
      var out := if s.tailLength == 0 then 0.0 else Threshold * c as real / s.tailLength as real;
      if done then (e.(tailCounter := c, value := out, state := Terminated, control := 0.0), out)
      else (e.(tailCounter := c, value := out, control := out), out)
    else (e, 0.0)
  }

  /** `process` called `k` times. */
  function Steps(e: Envelope, smooth: Smoother, k: nat): (r: (Envelope, seq<real>))
    requires Valid(e)
    ensures Valid(r.0) && r.0.settings == e.settings && |r.1| == k
    decreases k
  {
    if k == 0 then (e, [])
    else
      var (e1, out) := Process(e, smooth);
      var (e2, outs) := Steps(e1, smooth, k - 1);
      (e2, [out] + outs)
  }

  lemma {:induction false} StepsLast(e: Envelope, smooth: Smoother, k: nat)
    requires Valid(e) && k > 0
    ensures Steps(e, smooth, k).0 == Process(Steps(e, smooth, k - 1).0, smooth).0
    ensures Steps(e, smooth, k).1 == Steps(e, smooth, k - 1).1 + [Process(Steps(e, smooth, k - 1).0, smooth).1]
    decreases k
  {
    if k > 1 {
      StepsLast(Process(e, smooth).0, smooth, k - 1);
    }
  }

  /**
   * Section completion: the counter reaching the section's length moves to
   * the loop start at the loop end and to the next state elsewhere, with
   * the counter back at 0; before that the counter counts calls.
   */
  lemma SectionStep(e: Envelope, smooth: Smoother)
    requires Valid(e) && e.state < Sections
    ensures var r := Process(e, smooth).0;
      && (e.counter + 1 >= SectionLength(e.settings, e.state) ==>
            r.state == After(e.settings, e.state) && r.counter == 0)
      && (e.counter + 1 < SectionLength(e.settings, e.state) ==>
            r.state == e.state && r.counter == e.counter + 1)
  {
  }

  /** A section `N >= 1` samples long, entered with counter 0, is occupied for exactly `N` calls. */
  lemma {:induction false} SectionOccupancy(e: Envelope, smooth: Smoother, k: nat)
    requires Valid(e) && e.state < Sections && e.counter == 0
    requires k <= SectionLength(e.settings, e.state)
    ensures var r := Steps(e, smooth, k).0;
      && (k < SectionLength(e.settings, e.state) ==> r.state == e.state && r.counter == k)
      && (0 < k == SectionLength(e.settings, e.state) ==> r.state == After(e.settings, e.state) && r.counter == 0)
  {
    if k > 0 {
      SectionOccupancy(e, smooth, k - 1);
      StepsLast(e, smooth, k);
      SectionStep(Steps(e, smooth, k - 1).0, smooth);
    }
  }

  /**
   * Release glides toward 0 and, once the controller falls below the
   * threshold, holds the threshold and loads the tail counter with the
   * tail length.
   */
  lemma ReleaseToTail(e: Envelope, smooth: Smoother)
    requires Valid(e) && e.state == ReleaseState
    ensures var g := smooth(e.settings.sampleRate, e.settings.releaseTime, e.control, 0.0);
      var (r, out) := Process(e, smooth);
      && (g < Threshold ==> r.state == Tail && r.tailCounter == e.settings.tailLength && out == Threshold)
      && (g >= Threshold ==> r.state == ReleaseState && out == g && out >= Threshold)
  {
  }

  /**
   * A tail loaded with `L >= 1` lasts exactly `L` calls: after `k < L` calls
   * it is still running with `L - k` to go, and the `L`-th call terminates
   * with output 0 and the controller at 0.
   */
  lemma {:induction false} TailOccupancy(e: Envelope, smooth: Smoother, k: nat)
    requires Valid(e) && e.state == Tail && e.tailCounter == e.settings.tailLength >= 1
    requires k <= e.settings.tailLength
    ensures var (r, outs) := Steps(e, smooth, k);
      && (k < e.settings.tailLength ==> r.state == Tail && r.tailCounter == e.tailCounter - k)
      && (k == e.settings.tailLength ==>
            r.state == Terminated && r.control == 0.0 && r.value == 0.0 && outs[k - 1] == 0.0)
  {
    if k > 0 {
      TailOccupancy(e, smooth, k - 1);
      StepsLast(e, smooth, k);
    }
  }

  /** An empty tail ends at once instead of wrapping. */
  lemma EmptyTailEnds(e: Envelope, smooth: Smoother)
    requires Valid(e) && e.state == Tail && e.tailCounter == 0
    ensures Process(e, smooth).0.state == Terminated && Process(e, smooth).1 == 0.0
  {
  }

  /** A terminated envelope stays terminated and silent. */
  lemma {:induction false} TerminatedSilent(e: Envelope, smooth: Smoother, k: nat)
    requires Valid(e) && e.state == Terminated
    ensures Steps(e, smooth, k).0 == e
    ensures forall j :: 0 <= j < k ==> Steps(e, smooth, k).1[j] == 0.0
    decreases k
  {
    if k > 0 {
      TerminatedSilent(e, smooth, k - 1);
    }
  }

  /** `getAttackTime` and `getLoopTime` are LoopEnvelope's, over these settings. */
  method Times(e: Envelope) returns (attack: real, loop: real)
    requires Valid(e)
    ensures attack == SumTimes(e.settings.decayTime, e.settings.holdTime, 0, Min(e.settings.loopStart, Sections))
    ensures var start := Min(e.settings.loopStart, Sections);
      var end := Min(e.settings.loopEnd, LastSection);
      loop == if start <= end then SumTimes(e.settings.decayTime, e.settings.holdTime, start, end + 1) else 0.0
  {
    attack := AttackTime(e.settings.decayTime, e.settings.holdTime, e.settings.loopStart);
    loop := LoopTime(e.settings.decayTime, e.settings.holdTime, e.settings.loopStart, e.settings.loopEnd);
  }
}
