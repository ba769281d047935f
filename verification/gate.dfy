/**
 * CV_Gate16's per-channel gate (dsp/gate.hpp): a gate that a note opens after
 * an optional delay, in one of three modes, and the `IntDelay` ring buffer
 * kept beside it.
 *
 * Sample values are reals.  The gain smoother's next output is a parameter
 * of `Process`, and float-to-integer conversions of "seconds times sample
 * rate" are taken as their integer results.
 */
module CvGate {

  /** C++ `uint32_t`. */
  type U32 = x: int | 0 <= x < 0x1_0000_0000

  /** `GateType`; the field is a plain `uint32_t`, so other values can occur. */
  const TypeTrigger: U32 := 0
  const TypeGate: U32 := 1
  const TypeDC: U32 := 2

  datatype Gate = Gate(open: bool, gateType: U32, delay: U32)

  /** The member initializers. */
  const InitialGate: Gate := Gate(false, 0, 0)

  /** `setType`: a gate type follows the held note, a DC type is always open, others close. */
  function SetType(g: Gate, t: U32, isNoteOn: bool): (r: Gate)
    ensures r.gateType == t && r.delay == g.delay
    ensures r.open <==> (t == TypeGate && isNoteOn) || t == TypeDC
  {
    Gate(if t == TypeGate then isNoteOn else t == TypeDC, t, g.delay)
  }

  /** `reset`; the gain smoother's reset is outside the model. */
  function Reset(g: Gate): (r: Gate)
    ensures !r.open && r.delay == 0 && r.gateType == g.gateType
  {
    g.(open := false, delay := 0)
  }

  /** `trigger`, with `delaySamples` the truncated `delaySeconds * sampleRate`. */
  function Trigger(g: Gate, delaySamples: U32): (r: Gate)
    ensures r.open && r.gateType == g.gateType
    ensures r.delay == if g.gateType == TypeDC then 0 else delaySamples
  {
    Gate(true, g.gateType, if g.gateType == TypeDC then 0 else delaySamples)
  }

  /** `release`: only a gate-type gate closes on note-off. */
  function Release(g: Gate): (r: Gate)
    ensures r.gateType == g.gateType && r.delay == g.delay
    ensures r.open <==> g.open && g.gateType != TypeGate
  {
    if g.gateType == TypeGate then g.(open := false) else g
  }

  /**
   * `process`, with `gain` the smoother's next output.  A pending delay
   * counts down and outputs silence; otherwise an open gate passes the gain
   * and a trigger-type gate closes after that one sample.
   */
  function Process(g: Gate, gain: real): (r: (Gate, real))
    ensures g.delay > 0 ==> r.0 == g.(delay := g.delay - 1) && r.1 == 0.0
    ensures g.delay == 0 && !g.open ==> r.1 == 0.0
    ensures g.delay == 0 && g.open ==> r.1 == gain
    ensures g.delay == 0 ==> r.0.delay == 0 && r.0.gateType == g.gateType
    ensures g.delay == 0 ==> (r.0.open <==> g.open && g.gateType != TypeTrigger)
  {
    if g.delay > 0 then (g.(delay := g.delay - 1), 0.0)
    else
      var out := if g.open then gain else 0.0;
      (if g.gateType == TypeTrigger then g.(open := false) else g, out)
  }

  /** `process` once per entry of `gains`: the final gate and the outputs. */
  function Run(g: Gate, gains: seq<real>): (r: (Gate, seq<real>))
    ensures |r.1| == |gains|
    decreases |gains|
  {
    if |gains| == 0 then (g, [])
    else
      var (g1, out) := Process(g, gains[0]);
      var (g2, outs) := Run(g1, gains[1..]);
      (g2, [out] + outs)
  }

  /**
   * A delayed gate is silent for exactly `delay` samples and keeps its
   * type and open state meanwhile.
   */
  lemma {:induction false} RunDelay(g: Gate, gains: seq<real>)
    requires |gains| <= g.delay
    ensures Run(g, gains).0 == g.(delay := g.delay - |gains|)
    ensures forall k :: 0 <= k < |gains| ==> Run(g, gains).1[k] == 0.0
    decreases |gains|
  {
    if |gains| > 0 {
      RunDelay(g.(delay := g.delay - 1), gains[1..]);
    }
  }

  /**
   * After a note's trigger, the first `delaySamples` outputs are silent
   * (none for a DC gate) and the next one passes the gain.
   */
  lemma TriggerThenRun(g: Gate, delaySamples: U32, gains: seq<real>)
    requires g.gateType != TypeDC && |gains| > delaySamples
    ensures forall k :: 0 <= k < delaySamples ==> Run(Trigger(g, delaySamples), gains).1[k] == 0.0
    ensures Run(Trigger(g, delaySamples), gains).1[delaySamples] == gains[delaySamples]
  {
    var t := Trigger(g, delaySamples);
    var waiting, rest := gains[..delaySamples], gains[delaySamples..];
    var running := t.(delay := 0);
    assert Run(t, gains).1 == Run(t, waiting).1 + Run(running, rest).1 by {
      assert gains == waiting + rest;
      RunSplit(t, waiting, rest);
      RunDelay(t, waiting);
    }
    assert forall k :: 0 <= k < delaySamples ==> Run(t, waiting).1[k] == 0.0 by {
      RunDelay(t, waiting);
    }
    assert Run(running, rest).1[0] == rest[0];
  }

  /** A DC gate passes the gain from the sample of its trigger on. */
  lemma DCTriggerThenProcess(g: Gate, delaySamples: U32, gain: real)
    requires g.gateType == TypeDC
    ensures Process(Trigger(g, delaySamples), gain).1 == gain
    ensures Process(Trigger(g, delaySamples), gain).0 == Trigger(g, delaySamples)
  {
  }

  /** A trigger-type gate produces one sample of gain and then stays silent until retriggered. */
  lemma {:induction false} TriggerGateFiresOnce(g: Gate, gains: seq<real>)
    requires g.gateType == TypeTrigger && g.delay == 0 && g.open && |gains| > 0
    ensures Run(g, gains).1[0] == gains[0]
    ensures forall k :: 1 <= k < |gains| ==> Run(g, gains).1[k] == 0.0
  {
    ClosedStaysSilent(g.(open := false), gains[1..]);
  }

  /** A closed gate with no delay pending stays closed and silent. */
  lemma {:induction false} ClosedStaysSilent(g: Gate, gains: seq<real>)
    requires !g.open && g.delay == 0
    ensures Run(g, gains).0 == g
    ensures forall k :: 0 <= k < |gains| ==> Run(g, gains).1[k] == 0.0
  {
    if |gains| > 0 {
      ClosedStaysSilent(g, gains[1..]);
    }
  }

  /** After `reset` the gate is silent until it is triggered again. */
  lemma ResetSilent(g: Gate, gains: seq<real>)
    ensures forall k :: 0 <= k < |gains| ==> Run(Reset(g), gains).1[k] == 0.0
  {
    ClosedStaysSilent(Reset(g), gains);
  }

  /** A released gate-type gate is silent once its delay has run out. */
  lemma ReleasedGateSilent(g: Gate, gains: seq<real>)
    requires g.gateType == TypeGate && g.delay == 0
    ensures forall k :: 0 <= k < |gains| ==> Run(Release(g), gains).1[k] == 0.0
  {
    ClosedStaysSilent(Release(g), gains);
  }

  lemma {:induction false} RunSplit(g: Gate, a: seq<real>, b: seq<real>)
    ensures Run(g, a + b).0 == Run(Run(g, a).0, b).0
    ensures Run(g, a + b).1 == Run(g, a).1 + Run(Run(g, a).0, b).1
    decreases |a|
  {
    if |a| > 0 {
      assert (a + b)[0] == a[0];
      assert (a + b)[1..] == a[1..] + b;
      RunSplit(Process(g, a[0]).0, a[1..], b);
    } else {
      assert a + b == b;
    }
  }

  // ---------------------------------------------------------------------
  // IntDelay: a ring buffer whose read pointer trails the write pointer

  datatype IntDelay = IntDelay(wptr: int, rptr: int, size: int, buf: seq<real>)

  /** The pointers index the buffer and the buffer has `size` slots. */
  predicate Valid(d: IntDelay) {
    0 < d.size && |d.buf| == d.size && 0 <= d.wptr < d.size && 0 <= d.rptr < d.size
  }

  /** The member initializers; the buffer is empty until `setup`. */
  const InitialDelay: IntDelay := IntDelay(0, 0, 4, [])

  function Zeros(n: nat): (r: seq<real>)
    ensures |r| == n && forall i :: 0 <= i < n ==> r[i] == 0.0
  {
    seq(n, i => 0.0)
  }

  /**
   * `setup` as written, with `maxSamples` the truncated
   * `sampleRate * maxTime`: the guard admits a size of 0, and the pointers
   * keep their old values whatever the new size.
   */
  function SetupAsWritten(d: IntDelay, maxSamples: int): (r: IntDelay)
    ensures r.size == (if maxSamples + 1 < 0 then 4 else maxSamples + 1)
    ensures r.wptr == d.wptr && r.rptr == d.rptr
  {
    var size := if maxSamples + 1 < 0 then 4 else maxSamples + 1;
    IntDelay(d.wptr, d.rptr, size, Zeros(size))
  }

  /** A `maxSamples` of -1 leaves a ring of no slots, which `process` then indexes. */
  lemma SetupAsWrittenEmpty()
    ensures SetupAsWritten(InitialDelay, -1).size == 0
    ensures !Valid(SetupAsWritten(InitialDelay, -1))
  {
  }

  /** Shrinking the ring below the write pointer leaves that pointer outside it. */
  lemma SetupAsWrittenShrinks()
    ensures !Valid(SetupAsWritten(IntDelay(7, 0, 10, Zeros(10)), 2))
  {
  }

  /** `setup` with at least one slot and the pointers rewound, as a fresh ring has them. */
  function Setup(d: IntDelay, maxSamples: int): (r: IntDelay)
    ensures Valid(r)
    ensures r.size == (if maxSamples + 1 <= 0 then 4 else maxSamples + 1)
    ensures forall i :: 0 <= i < r.size ==> r.buf[i] == 0.0
  {
    var size := if maxSamples + 1 <= 0 then 4 else maxSamples + 1;
    IntDelay(0, 0, size, Zeros(size))
  }

  /** `reset`: silence the buffer, keep the pointers. */
  function ResetDelay(d: IntDelay): (r: IntDelay)
    ensures r.wptr == d.wptr && r.rptr == d.rptr && r.size == d.size
    ensures Valid(d) ==> Valid(r) && forall i :: 0 <= i < r.size ==> r.buf[i] == 0.0
  {
    d.(buf := Zeros(|d.buf|))
  }

  function Clamp(x: int, lo: int, hi: int): (r: int)
    requires lo <= hi
    ensures lo <= r <= hi
    ensures lo <= x <= hi ==> r == x
  {
    if x < lo then lo else if x > hi then hi else x
  }

  /** How many steps round a ring of `n` slots lead from `b` to `a`. */
  function Dist(a: int, b: int, n: int): (r: int)
    requires 0 <= a < n && 0 <= b < n
    ensures 0 <= r < n && (r == 0 <==> a == b)
  {
    if a >= b then a - b else a - b + n
  }

  /** How many samples the read pointer trails the write pointer. */
  function Lag(d: IntDelay): (r: int)
    requires Valid(d)
    ensures 0 <= r < d.size
  {
    Dist(d.wptr, d.rptr, d.size)
  }

  /**
   * `setTime` as written, with `samples` the truncated
   * `sampleRate * seconds`: the clamp's upper bound is `size`, one past the
   * longest lag the ring can hold.
   */
  function SetTimeAsWritten(d: IntDelay, samples: int): (r: IntDelay)
    requires 0 <= d.size
    ensures r.wptr == d.wptr && r.size == d.size && r.buf == d.buf
    ensures r.rptr == d.wptr - Clamp(samples, 0, d.size) || r.rptr == d.wptr - Clamp(samples, 0, d.size) + d.size
    ensures 0 <= d.wptr ==> 0 <= r.rptr
    ensures Valid(d) ==> Valid(r)
    ensures Valid(d) ==> Lag(r) == if Clamp(samples, 0, d.size) == d.size then 0 else Clamp(samples, 0, d.size)
  {
    var rptr := d.wptr - Clamp(samples, 0, d.size);
    d.(rptr := if rptr < 0 then rptr + d.size else rptr)
  }

  /** Asking for a lag of `size` or more gives no lag at all rather than the longest one. */
  lemma SetTimeAsWrittenWraps(d: IntDelay, samples: int)
    requires Valid(d) && samples >= d.size
    ensures Lag(SetTimeAsWritten(d, samples)) == 0
  {
  }

  /** `setTime` clamped to the longest lag the ring holds. */
  function SetTime(d: IntDelay, samples: int): (r: IntDelay)
    requires 0 < d.size
    ensures r.wptr == d.wptr && r.size == d.size && r.buf == d.buf
    ensures 0 <= d.wptr < d.size ==> 0 <= r.rptr < d.size && Dist(d.wptr, r.rptr, d.size) == Clamp(samples, 0, d.size - 1)
    ensures Valid(d) ==> Valid(r) && Lag(r) == Clamp(samples, 0, d.size - 1)
  {
    var rptr := d.wptr - Clamp(samples, 0, d.size - 1);
    d.(rptr := if rptr < 0 then rptr + d.size else rptr)
  }

  /** One step from `p` round the ring. */
  function Next(p: int, size: int): (r: int)
    requires 0 <= p < size
    ensures 0 <= r < size
  {
    if p + 1 >= size then p + 1 - size else p + 1
  }

  /** The slot before `p`. */
  function Prev(p: int, size: int): (r: int)
    requires 0 <= p < size
    ensures 0 <= r < size && Next(r, size) == p
  {
    if p == 0 then size - 1 else p - 1
  }

  /** `process`: write the input, advance both pointers, return the slot read. */
  function DelayProcess(d: IntDelay, input: real): (r: (IntDelay, real))
    requires Valid(d)
    ensures Valid(r.0) && r.0.size == d.size
    ensures Lag(r.0) == Lag(d)
    ensures r.0.wptr == Next(d.wptr, d.size) && r.0.rptr == Next(d.rptr, d.size)
    ensures r.0.buf == d.buf[d.wptr := input] && r.1 == r.0.buf[d.rptr]
  {
    var buf := d.buf[d.wptr := input];
    (IntDelay(Next(d.wptr, d.size), Next(d.rptr, d.size), d.size, buf), buf[d.rptr])
  }

  /**
   * What the ring holds after the writes of `written`: each slot keeps the
   * input written `age` steps before the last write, or its old value if no
   * write has reached it yet.
   */
  ghost predicate Holds(d0: IntDelay, written: seq<real>, d: IntDelay)
    requires Valid(d0) && Valid(d) && d.size == d0.size
  {
    forall p :: 0 <= p < d.size ==>
      var age := Dist(Prev(d.wptr, d.size), p, d.size);
      d.buf[p] == if age < |written| then written[|written| - 1 - age] else d0.buf[p]
  }

  /** `x` taken back into [0, n) once. */
  function Wrap(x: int, n: int): int {
    if x < n then x else x - n
  }

  /**
   * What a ring delaying by its lag returns on call `k`: the input written
   * `Lag` calls earlier, or, while the ring is still filling, the old
   * contents of the slot read (silence after `Setup` or `ResetDelay`).  A lag
   * of 0 returns the current input, because the write comes before the read.
   */
  function Delayed(d0: IntDelay, inputs: seq<real>, k: int): real
    requires Valid(d0) && 0 <= k < |inputs|
  {
    if k >= Lag(d0) then inputs[k - Lag(d0)] else d0.buf[Wrap(d0.rptr + k, d0.size)]
  }

  /** `process` called once per input, in order: the final ring and what each call returned. */
  method DelayRun(d0: IntDelay, inputs: seq<real>) returns (d: IntDelay, outs: seq<real>)
    requires Valid(d0)
    ensures Valid(d) && d.size == d0.size && Lag(d) == Lag(d0)
    ensures |outs| == |inputs|
    ensures forall k :: 0 <= k < |inputs| ==> outs[k] == Delayed(d0, inputs, k)
  {
    d := d0;
    outs := [];
    var i := 0;
    while i < |inputs|
      invariant 0 <= i <= |inputs|
      invariant Valid(d) && d.size == d0.size && Lag(d) == Lag(d0)
      invariant Holds(d0, inputs[..i], d)
      invariant i < d0.size ==> d.rptr == Wrap(d0.rptr + i, d0.size)
      invariant |outs| == i
      invariant forall k :: 0 <= k < i ==> outs[k] == Delayed(d0, inputs, k)
    {
      StepOutput(d0, inputs, i, d);
      var step := DelayProcess(d, inputs[i]);
      d := step.0;
      outs := outs + [step.1];
      i := i + 1;
    }
  }

  /**
   * One call of `process` after `i` calls: it returns `Delayed(.., i)`, and
   * the ring then holds the first `i + 1` inputs as `Holds` describes.
   */
  lemma StepOutput(d0: IntDelay, inputs: seq<real>, i: nat, d: IntDelay)
    requires Valid(d0) && Valid(d) && d.size == d0.size && Lag(d) == Lag(d0) && i < |inputs|
    requires Holds(d0, inputs[..i], d)
    requires i < d0.size ==> d.rptr == Wrap(d0.rptr + i, d0.size)
    ensures DelayProcess(d, inputs[i]).1 == Delayed(d0, inputs, i)
    ensures Holds(d0, inputs[..i + 1], DelayProcess(d, inputs[i]).0)
    ensures i + 1 < d0.size ==> DelayProcess(d, inputs[i]).0.rptr == Wrap(d0.rptr + i + 1, d0.size)
  {
    var n := d0.size;
    var d2 := DelayProcess(d, inputs[i]).0;
    var written := inputs[..i + 1];
    assert written[..i] == inputs[..i];
    HoldsStep(d0, written, d);
    var p := d.rptr;
    assert Prev(d2.wptr, n) == d.wptr;
    var age := Dist(d.wptr, p, n);
    assert d2.buf[p] == if age < i + 1 then written[i - age] else d0.buf[p];
  }

  /** One more write keeps `Holds`: the written slot has age 0, every other slot ages by one. */
  lemma HoldsStep(d0: IntDelay, written: seq<real>, d1: IntDelay)
    requires Valid(d0) && Valid(d1) && d1.size == d0.size && |written| > 0
    requires Holds(d0, written[..|written| - 1], d1)
    ensures Holds(d0, written, DelayProcess(d1, written[|written| - 1]).0)
  {
    var n := d0.size;
    var k := |written| - 1;
    var front := written[..k];
    var d2 := DelayProcess(d1, written[k]).0;
    assert Prev(d2.wptr, n) == d1.wptr;
    forall p | 0 <= p < n
      ensures var age := Dist(d1.wptr, p, n);
        d2.buf[p] == if age < k + 1 then written[k - age] else d0.buf[p]
    {
      if p != d1.wptr {
        var age := Dist(Prev(d1.wptr, n), p, n);
        assert Dist(d1.wptr, p, n) == age + 1;
        assert age < k ==> front[k - 1 - age] == written[k - 1 - age];
      }
    }
  }
}
