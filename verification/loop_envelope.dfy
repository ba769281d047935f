/**
 * The looping envelope of CV_PolyLoopEnvelope (eight sections) and of
 * CV_PolyLoopEnvelope2 (two sections).  Each section ramps to its level
 * and holds it; the sections from `loopStart` to `loopEnd` repeat until
 * `release`, after which the release ramp falls to 0 and the envelope
 * terminates.
 *
 * Times and levels are reals.  `somepow`, the curve of each ramp, is the
 * parameter `pow`; float-to-`uint32_t` conversions truncate as `ToU32`
 * says.
 */
module LoopEnvelope {

  type U8 = x: int | 0 <= x < 0x100
  type U32 = x: int | 0 <= x < 0x1_0000_0000

  const MaxU32: int := 0xFFFF_FFFF

  /** The two builds: they differ in section count, default loop and `release`. */
  datatype Variant = PolyLoop | PolyLoop2

  function Sections(v: Variant): (n: nat)
    ensures 2 <= n <= 8
  {
    match v
    case PolyLoop => 8
    case PolyLoop2 => 2
  }

  /** `State::release` and `State::terminated` follow the sections. */
  function ReleaseState(v: Variant): U8 {
    Sections(v)
  }

  function Terminated(v: Variant): U8 {
    Sections(v) + 1
  }

  /** The members `process` only reads: the loop, the sample rate and the parameters. */
  datatype Settings = Settings(
    loopStart: U8,
    loopEnd: U8,
    sampleRate: real,
    releaseTime: real,
    releaseCurve: real,
    decayTime: seq<real>,
    holdTime: seq<real>,
    level: seq<real>,
    curve: seq<real>)

  /** The members `process` moves: the state, the counter and the levels. */
  datatype Envelope = Envelope(state: U8, counter: U32, value: real, prevLevel: real, settings: Settings)

  /** The member initializers. */
  function Initial(v: Variant): (e: Envelope)
    ensures e.state == Terminated(v)
  {
    var zeros := seq(Sections(v), i => 0.0);
    Envelope(Terminated(v), 0, 0.0, 0.0,
             Settings(if v == PolyLoop then 1 else 0, if v == PolyLoop then 2 else 1,
                      44100.0, 1.0, 1.0, zeros, zeros, zeros, zeros))
  }

  /**
   * One entry per section, and a loop end that is a section or release
   * with the loop start no later than a section loop end.
   */
  predicate ValidSettings(v: Variant, s: Settings) {
    var n := Sections(v);
    && |s.decayTime| == n && |s.holdTime| == n && |s.level| == n && |s.curve| == n
    && s.loopEnd <= n
    && (s.loopEnd < n ==> s.loopStart <= s.loopEnd)
  }

  /** What every reachable envelope satisfies: also a known state and a counter one short of wrapping. */
  predicate Valid(v: Variant, e: Envelope) {
    ValidSettings(v, e.settings) && e.state <= Sections(v) + 1 && e.counter < MaxU32
  }

  lemma InitialValid(v: Variant)
    ensures Valid(v, Initial(v))
  {
  }

  /** `uint32_t(x)`: truncation toward 0; out-of-range conversions saturate. */
  function ToU32(x: real): (r: U32)
    ensures 0.0 <= x < 4294967296.0 ==> r == x.Floor
    ensures r > 0 <==> x >= 1.0
  {
    if x < 1.0 then 0 else if x >= 4294967295.0 then MaxU32 else x.Floor
  }

  /** `++counter` on a `uint32_t`. */
  function Inc32(c: U32): U32 {
    if c == MaxU32 then 0 else c + 1
  }

  function Abs(x: real): real {
    if x < 0.0 then -x else x
  }

  // ---------------------------------------------------------------------
  // Controls

  /** `trigger`: restart from section 0, ramping from the current value. */
  function Trigger(v: Variant, e: Envelope): (r: Envelope)
    ensures r.state == 0 && r.counter == 0 && r.prevLevel == e.value
    ensures r.value == e.value && r.settings == e.settings
    ensures Valid(v, e) ==> Valid(v, r)
  {
    e.(state := 0, counter := 0, prevLevel := e.value)
  }

  /**
   * `setLoop`: a start after the end is ignored; an end past the last
   * section makes the envelope one-shot, running on into release.
   */
  function SetLoop(v: Variant, e: Envelope, start: U8, end: U8): (r: Envelope)
    ensures start > end ==> r == e
    ensures start <= end ==> r.settings.loopStart == start
    ensures start <= end ==> r.settings.loopEnd == if end < Sections(v) then end else ReleaseState(v)
    ensures r.state == e.state && r.counter == e.counter
    ensures Valid(v, e) ==> Valid(v, r)
  {
    if start > end then e
    else e.(settings := e.settings.(loopStart := start,
                                    loopEnd := if end < Sections(v) then end else ReleaseState(v)))
  }

  /** `set`, with the times given in units of `1 / rate` seconds; the source requires `rate > 0`. */
  function Set(v: Variant, e: Envelope, rate: real, releaseTime: real, releaseCurve: real,
               decayTime: seq<real>, holdTime: seq<real>, level: seq<real>, curve: seq<real>): (r: Envelope)
    requires rate > 0.0
    requires |decayTime| == |holdTime| == |level| == |curve| == Sections(v)
    ensures Valid(v, e) ==> Valid(v, r)
    ensures r.state == e.state && r.counter == e.counter
    ensures r.settings.loopStart == e.settings.loopStart && r.settings.loopEnd == e.settings.loopEnd
    ensures |r.settings.decayTime| == |r.settings.holdTime| == Sections(v)
    ensures forall i :: 0 <= i < Sections(v) ==>
      r.settings.decayTime[i] == decayTime[i] / rate && r.settings.holdTime[i] == holdTime[i] / rate
    ensures r.settings.releaseTime == releaseTime / rate
    ensures r.settings.level == level && r.settings.curve == curve
  {
    var period := 1.0 / rate;
    e.(settings := e.settings.(
      releaseTime := releaseTime * period, releaseCurve := releaseCurve,
      decayTime := seq(|decayTime|, i requires 0 <= i < |decayTime| => decayTime[i] * period),
      holdTime := seq(|holdTime|, i requires 0 <= i < |holdTime| => holdTime[i] * period),
      level := level, curve := curve))
  }

  /**
   * `release`.  The eight-section build always restarts the counter and
   * captures the current value, and enters release only from a looping
   * envelope; the two-section build does nothing at all for a one-shot one.
   */
  function Release(v: Variant, e: Envelope): (r: Envelope)
    ensures e.settings.loopEnd < ReleaseState(v) ==>
      r.state == ReleaseState(v) && r.counter == 0 && r.prevLevel == e.value
    ensures e.settings.loopEnd >= ReleaseState(v) && v == PolyLoop ==>
      r.state == e.state && r.counter == 0 && r.prevLevel == e.value
    ensures e.settings.loopEnd >= ReleaseState(v) && v == PolyLoop2 ==> r == e
    ensures r.value == e.value && r.settings == e.settings
    ensures Valid(v, e) ==> Valid(v, r)
  {
    match v
    case PolyLoop =>
      var s := if e.settings.loopEnd < ReleaseState(v) then ReleaseState(v) else e.state;
      e.(state := s, counter := 0, prevLevel := e.value)
    case PolyLoop2 =>
      if e.settings.loopEnd >= ReleaseState(v) then e
      else e.(state := ReleaseState(v), counter := 0, prevLevel := e.value)
  }

  /** `terminate`: stop at once, silent. */
  function Terminate(v: Variant, e: Envelope): (r: Envelope)
    ensures r.state == Terminated(v) && r.value == 0.0
    ensures r.counter == e.counter && r.settings == e.settings
    ensures Valid(v, e) ==> Valid(v, r)
  {
    e.(state := Terminated(v), value := 0.0)
  }

  // ---------------------------------------------------------------------
  // Processing

  /** The ramp's progress at `counter` of `trLen` samples, bent by `curve`. */
  function Ratio(counter: U32, trLen: real, curve: real, pow: (real, real) -> real): real
    requires trLen > 0.0
  {
    if curve >= 0.0 then pow(counter as real / trLen, curve + 1.0)
    else 1.0 - pow((trLen - counter as real) / trLen, Abs(curve) + 1.0)
  }

  /** Samples spent in section `i`: its decay plus hold time. */
  function SectionLength(s: Settings, i: nat): U32
    requires i < |s.decayTime| && i < |s.holdTime|
  {
    ToU32(s.sampleRate * (s.decayTime[i] + s.holdTime[i]))
  }

  function ReleaseLength(s: Settings): U32 {
    ToU32(s.sampleRate * s.releaseTime)
  }

  /** The state after section `i`: the loop start at the loop end, else the next state. */
  function After(s: Settings, i: U8): int {
    if i == s.loopEnd then s.loopStart else i + 1
  }

  /** `processSection` for the current section: the moved envelope and the output. */
  function ProcessSection(v: Variant, e: Envelope, pow: (real, real) -> real): (r: (Envelope, real))
    requires Valid(v, e) && e.state < Sections(v)
    ensures Valid(v, r.0) && r.0.settings == e.settings && r.0.value == e.value
    ensures e.counter + 1 >= SectionLength(e.settings, e.state) ==>
      r.0.state == After(e.settings, e.state) && r.0.counter == 0 && r.0.prevLevel == e.settings.level[e.state]
    ensures e.counter + 1 < SectionLength(e.settings, e.state) ==>
      r.0.state == e.state && r.0.counter == e.counter + 1 && r.0.prevLevel == e.prevLevel
  {
    var s := e.settings;
    var i := e.state;
    var c := Inc32(e.counter);
    var e1 :=
      if c >= SectionLength(s, i) then e.(state := After(s, i), counter := 0, prevLevel := s.level[i])
      else e.(counter := c);
    var trLen := s.sampleRate * s.decayTime[i];
    var out :=
      if e1.counter < ToU32(trLen)
      then e1.prevLevel + Ratio(e1.counter, trLen, s.curve[i], pow) * (s.level[i] - e1.prevLevel)
      else s.level[i];
    (e1, out)
  }

  /** `processRelease`: ramp from the captured value to 0, then terminate. */
  function ProcessRelease(v: Variant, e: Envelope, pow: (real, real) -> real): (r: (Envelope, real))
    requires Valid(v, e) && e.state == ReleaseState(v)
    ensures Valid(v, r.0) && r.0.settings == e.settings && r.0.value == e.value
    ensures e.counter + 1 >= ReleaseLength(e.settings) ==>
      r.0.state == Terminated(v) && r.0.counter == 0 && r.0.prevLevel == 0.0
    ensures e.counter + 1 < ReleaseLength(e.settings) ==>
      r.0.state == e.state && r.0.counter == e.counter + 1 && r.0.prevLevel == e.prevLevel
  {
    var s := e.settings;
    var c := Inc32(e.counter);
    var e1 :=
      if c >= ReleaseLength(s) then e.(state := Terminated(v), counter := 0, prevLevel := 0.0)
      else e.(counter := c);
    var trLen := s.sampleRate * s.releaseTime;
    var out :=
      if e1.counter < ToU32(trLen)
      then e1.prevLevel - Ratio(e1.counter, trLen, s.releaseCurve, pow) * e1.prevLevel
      else 0.0;
    (e1, out)
  }

  /**
   * `process`: run the current section or the release and remember the
   * output; any other state outputs 0 and leaves the envelope as it is.
   */
  function Process(v: Variant, e: Envelope, pow: (real, real) -> real): (r: (Envelope, real))
    requires Valid(v, e)
    ensures Valid(v, r.0) && r.0.settings == e.settings
    ensures e.state > ReleaseState(v) ==> r == (e, 0.0)
    ensures e.state <= ReleaseState(v) ==> r.0.value == r.1
  {
    if e.state < Sections(v) then
      var (e1, out) := ProcessSection(v, e, pow);
      (e1.(value := out), out)
    else if e.state == ReleaseState(v) then
      var (e1, out) := ProcessRelease(v, e, pow);
      (e1.(value := out), out)
    else (e, 0.0)
  }

  /** `process` called `k` times: the final envelope and the outputs. */
  function Steps(v: Variant, e: Envelope, pow: (real, real) -> real, k: nat): (r: (Envelope, seq<real>))
    requires Valid(v, e)
    ensures Valid(v, r.0) && r.0.settings == e.settings && |r.1| == k
    decreases k
  {
    if k == 0 then (e, [])
    else
      var (e1, out) := Process(v, e, pow);
      var (e2, outs) := Steps(v, e1, pow, k - 1);
      (e2, [out] + outs)
  }

  /** `k` calls are `k - 1` calls and one more. */
  lemma {:induction false} StepsLast(v: Variant, e: Envelope, pow: (real, real) -> real, k: nat)
    requires Valid(v, e) && k > 0
    ensures Steps(v, e, pow, k).0 == Process(v, Steps(v, e, pow, k - 1).0, pow).0
    ensures Steps(v, e, pow, k).1 == Steps(v, e, pow, k - 1).1 + [Process(v, Steps(v, e, pow, k - 1).0, pow).1]
    decreases k
  {
    if k > 1 {
      StepsLast(v, Process(v, e, pow).0, pow, k - 1);
    }
  }

  /**
   * A section `N >= 1` samples long, entered with counter 0, is occupied for
   * exactly `N` calls of `process`: after `k < N` calls the envelope is still
   * in it with counter `k`, and the `N`-th call moves on to `After`.  (A
   * section of 0 samples behaves like one of 1.)
   */
  lemma {:induction false} SectionOccupancy(v: Variant, e: Envelope, pow: (real, real) -> real, k: nat)
    requires Valid(v, e) && e.state < Sections(v) && e.counter == 0
    requires k <= SectionLength(e.settings, e.state)
    ensures var r := Steps(v, e, pow, k).0;
      && (k < SectionLength(e.settings, e.state) ==> r.state == e.state && r.counter == k)
      && (0 < k == SectionLength(e.settings, e.state) ==>
            r.state == After(e.settings, e.state) && r.counter == 0 && r.prevLevel == e.settings.level[e.state])
  {
    if k > 0 {
      SectionOccupancy(v, e, pow, k - 1);
      StepsLast(v, e, pow, k);
    }
  }

  /** A one-shot envelope runs from its last section into release. */
  lemma OneShotReachesRelease(v: Variant, e: Envelope, pow: (real, real) -> real)
    requires Valid(v, e) && e.settings.loopEnd == ReleaseState(v) && e.state == Sections(v) - 1
    requires e.counter + 1 >= SectionLength(e.settings, e.state)
    ensures Process(v, e, pow).0.state == ReleaseState(v)
  {
  }

  /** A looping envelope returns from its loop end to its loop start. */
  lemma LoopReturns(v: Variant, e: Envelope, pow: (real, real) -> real)
    requires Valid(v, e) && e.state < Sections(v) && e.state == e.settings.loopEnd
    requires e.counter + 1 >= SectionLength(e.settings, e.state)
    ensures Process(v, e, pow).0.state == e.settings.loopStart
  {
  }

  /**
   * Release entered with counter 0 and `R >= 1` samples long lasts exactly
   * `R` calls, then the envelope is terminated with no level to ramp from.
   */
  lemma {:induction false} ReleaseOccupancy(v: Variant, e: Envelope, pow: (real, real) -> real, k: nat)
    requires Valid(v, e) && e.state == ReleaseState(v) && e.counter == 0
    requires k <= ReleaseLength(e.settings)
    ensures var r := Steps(v, e, pow, k).0;
      && (k < ReleaseLength(e.settings) ==> r.state == ReleaseState(v) && r.counter == k)
      && (0 < k == ReleaseLength(e.settings) ==> r.state == Terminated(v) && r.counter == 0 && r.prevLevel == 0.0)
  {
    if k > 0 {
      ReleaseOccupancy(v, e, pow, k - 1);
      StepsLast(v, e, pow, k);
    }
  }

  /** A terminated envelope stays terminated and silent. */
  lemma {:induction false} TerminatedSilent(v: Variant, e: Envelope, pow: (real, real) -> real, k: nat)
    requires Valid(v, e) && e.state == Terminated(v)
    ensures Steps(v, e, pow, k).0 == e
    ensures forall j :: 0 <= j < k ==> Steps(v, e, pow, k).1[j] == 0.0
    decreases k
  {
    if k > 0 {
      TerminatedSilent(v, e, pow, k - 1);
    }
  }

  // ---------------------------------------------------------------------
  // Times and levels shown in the UI; ExpLoopEnvelope shares them.

  /** Decay plus hold time of the sections `lo` to `hi - 1`. */
  function SumTimes(decay: seq<real>, hold: seq<real>, lo: nat, hi: nat): real
    requires lo <= hi <= |decay| && hi <= |hold|
    decreases hi - lo
  {
    if lo == hi then 0.0 else decay[lo] + hold[lo] + SumTimes(decay, hold, lo + 1, hi)
  }

  lemma {:induction false} SumTimesSplit(decay: seq<real>, hold: seq<real>, lo: nat, mid: nat, hi: nat)
    requires lo <= mid <= hi <= |decay| && hi <= |hold|
    ensures SumTimes(decay, hold, lo, hi) == SumTimes(decay, hold, lo, mid) + SumTimes(decay, hold, mid, hi)
    decreases mid - lo
  {
    if lo < mid {
      SumTimesSplit(decay, hold, lo + 1, mid, hi);
    }
  }

  lemma SumTimesSnoc(decay: seq<real>, hold: seq<real>, lo: nat, hi: nat)
    requires lo < hi <= |decay| && hi <= |hold|
    ensures SumTimes(decay, hold, lo, hi) == SumTimes(decay, hold, lo, hi - 1) + decay[hi - 1] + hold[hi - 1]
  {
    SumTimesSplit(decay, hold, lo, hi - 1, hi);
  }

  function Min(a: int, b: int): int {
    if a < b then a else b
  }

  /** `getAttackTime`: the sections before the loop start. */
  method AttackTime(decay: seq<real>, hold: seq<real>, loopStart: U8) returns (sum: real)
    requires |decay| == |hold|
    ensures sum == SumTimes(decay, hold, 0, Min(loopStart, |decay|))
  {
    var start := Min(loopStart, |decay|);
    sum := 0.0;
    var i := 0;
    while i < start
      invariant 0 <= i <= start
      invariant sum == SumTimes(decay, hold, 0, i)
    {
      SumTimesSnoc(decay, hold, 0, i + 1);
      sum := sum + decay[i] + hold[i];
      i := i + 1;
    }
  }

  /**
   * `getLoopTime`: the sections from the loop start to the loop end, the
   * last section standing in for release; nothing when the start lies past
   * the end.
   */
  method LoopTime(decay: seq<real>, hold: seq<real>, loopStart: U8, loopEnd: U8) returns (sum: real)
    requires |decay| == |hold| > 0
    ensures var start := Min(loopStart, |decay|);
      var end := Min(loopEnd, |decay| - 1);
      sum == if start <= end then SumTimes(decay, hold, start, end + 1) else 0.0
  {
    var start := Min(loopStart, |decay|);
    var end := Min(loopEnd, |decay| - 1);
    sum := 0.0;
    var i := start;
    while i <= end
      invariant start <= i && (start <= end ==> i <= end + 1)
      invariant sum == if start <= end then SumTimes(decay, hold, start, i) else 0.0
    {
      SumTimesSnoc(decay, hold, start, i + 1);
      sum := sum + decay[i] + hold[i];
      i := i + 1;
    }
  }

  /**
   * Attack and one loop pass together take the time of every section up to
   * the loop end, whenever the loop start is a section no later than it.
   */
  lemma AttackThenLoop(decay: seq<real>, hold: seq<real>, loopStart: U8, loopEnd: U8)
    requires |decay| == |hold| && loopStart < |decay| && loopStart <= loopEnd
    ensures var end := Min(loopEnd, |decay| - 1);
      SumTimes(decay, hold, 0, loopStart) + SumTimes(decay, hold, loopStart, end + 1)
        == SumTimes(decay, hold, 0, end + 1)
  {
    SumTimesSplit(decay, hold, 0, loopStart, Min(loopEnd, |decay| - 1) + 1);
  }

  /** `getMax`: the highest section level. */
  function MaxLevel(level: seq<real>): (r: real)
    requires |level| > 0
    ensures r in level && forall i :: 0 <= i < |level| ==> level[i] <= r
  {
    if |level| == 1 then level[0]
    else
      var m := MaxLevel(level[1..]);
      assert forall i :: 1 <= i < |level| ==> level[i] == level[1..][i - 1];
      if level[0] >= m then level[0] else m
  }

  /** `getMin`: the lowest section level. */
  function MinLevel(level: seq<real>): (r: real)
    requires |level| > 0
    ensures r in level && forall i :: 0 <= i < |level| ==> r <= level[i]
  {
    if |level| == 1 then level[0]
    else
      var m := MinLevel(level[1..]);
      assert forall i :: 1 <= i < |level| ==> level[i] == level[1..][i - 1];
      if level[0] <= m then level[0] else m
  }
}
