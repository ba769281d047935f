/**
 * The control side of CV_PolyLoopEnvelope's DSPCore: the queue of MIDI
 * events waiting for their frame, the stack of held notes, the CV gate's
 * edges, and how they trigger, release and terminate the envelope.
 *
 * `midiNoteToRatio` (a float power of 2) is the parameter `toRatio`, and
 * the rate smoother is represented by the last target pushed to it.
 */
module PolyLoopCore {
  import opened Wrappers
  import LoopEnvelope

  type I16 = x: int | -0x8000 <= x < 0x8000
  type I32 = x: int | -0x8000_0000 <= x < 0x8000_0000

  /** A queued MIDI event, as `pushMidiNote` records it. */
  datatype MidiNote = MidiNote(
    isNoteOn: bool, frame: LoopEnvelope.U32, id: I32, pitch: I16, tuning: real, velocity: real)

  /** A held note: its id and its frequency ratio to A4. */
  datatype NoteInfo = NoteInfo(id: I32, noteRatio: real)

  /** The parameters the note handlers read: rate key-follow and the rate. */
  datatype Params = Params(rateKeyFollow: bool, rate: real)

  /**
   * Everything but the event queue; `rateTarget` is the value last pushed
   * to the rate smoother.
   */
  datatype Voice = Voice(
    noteStack: seq<NoteInfo>,
    noteRatio: real,
    rateTarget: real,
    isGateOpen: bool,
    envelope: LoopEnvelope.Envelope)

  type Ratio = (int, real) -> real

  const GateThreshold: real := 0.00001

  // ---------------------------------------------------------------------
  // Notes

  /**
   * `std::find_if` for an element whose key is `k`: the index of the first
   * one, or none exactly when no element has that key.
   */
  function FindFirst<T, K(==)>(xs: seq<T>, key: T -> K, k: K): (r: Option<nat>)
    ensures r.None? <==> forall i :: 0 <= i < |xs| ==> key(xs[i]) != k
    ensures r.Some? ==> r.value < |xs| && key(xs[r.value]) == k
    ensures r.Some? ==> forall i :: 0 <= i < r.value ==> key(xs[i]) != k
  {
    if |xs| == 0 then None
    else if key(xs[0]) == k then Some(0)
    else
      match FindFirst(xs[1..], key, k)
      case None => None
      case Some(i) => Some(i + 1)
  }

  function NoteId(n: NoteInfo): I32 {
    n.id
  }

  /** The index of the oldest held note with `id`. */
  function FindId(stack: seq<NoteInfo>, id: I32): Option<nat> {
    FindFirst(stack, NoteId, id)
  }

  /** `noteOn`: push the note, follow its pitch if asked to, and retrigger. */
  function NoteOn(v: Voice, p: Params, toRatio: Ratio, id: I32, pitch: I16, tuning: real): (r: Voice)
    ensures r.noteStack == v.noteStack + [NoteInfo(id, toRatio(pitch, tuning))]
    ensures r.envelope == LoopEnvelope.Trigger(LoopEnvelope.PolyLoop, v.envelope)
    ensures p.rateKeyFollow ==> r.noteRatio == toRatio(pitch, tuning) && r.rateTarget == p.rate * r.noteRatio
    ensures !p.rateKeyFollow ==> r.noteRatio == v.noteRatio && r.rateTarget == v.rateTarget
    ensures r.isGateOpen == v.isGateOpen
  {
    var info := NoteInfo(id, toRatio(pitch, tuning));
    var v1 := v.(noteStack := v.noteStack + [info]);
    var v2 := if p.rateKeyFollow then v1.(noteRatio := info.noteRatio, rateTarget := p.rate * info.noteRatio) else v1;
    v2.(envelope := LoopEnvelope.Trigger(LoopEnvelope.PolyLoop, v.envelope))
  }

  /** With key-follow on and a note held, the rate follows the newest held note. */
  function FollowTop(v: Voice, p: Params): (r: Voice)
    ensures p.rateKeyFollow && |v.noteStack| > 0 ==>
      r.noteRatio == v.noteStack[|v.noteStack| - 1].noteRatio && r.rateTarget == p.rate * r.noteRatio
    ensures !(p.rateKeyFollow && |v.noteStack| > 0) ==> r.noteRatio == v.noteRatio && r.rateTarget == v.rateTarget
    ensures r.noteStack == v.noteStack && r.isGateOpen == v.isGateOpen && r.envelope == v.envelope
  {
    if p.rateKeyFollow && |v.noteStack| > 0
    then
      var ratio := v.noteStack[|v.noteStack| - 1].noteRatio;
      v.(noteRatio := ratio, rateTarget := p.rate * ratio)
    else v
  }

  /**
   * Forget the held note at `k`, follow the newest remaining note's pitch
   * if asked to, and release the envelope once no note is held and the
   * gate is closed.
   */
  function RemoveNote(v: Voice, p: Params, k: nat): (r: Voice)
    requires k < |v.noteStack|
    ensures r.noteStack == v.noteStack[..k] + v.noteStack[k + 1..]
    ensures p.rateKeyFollow && |r.noteStack| > 0 ==>
      r.noteRatio == r.noteStack[|r.noteStack| - 1].noteRatio && r.rateTarget == p.rate * r.noteRatio
    ensures !(p.rateKeyFollow && |r.noteStack| > 0) ==> r.noteRatio == v.noteRatio && r.rateTarget == v.rateTarget
    ensures r.envelope == if |r.noteStack| == 0 && !v.isGateOpen
                          then LoopEnvelope.Release(LoopEnvelope.PolyLoop, v.envelope) else v.envelope
    ensures r.isGateOpen == v.isGateOpen
  {
    var v1 := FollowTop(v.(noteStack := v.noteStack[..k] + v.noteStack[k + 1..]), p);
    v1.(envelope := if |v1.noteStack| == 0 && !v.isGateOpen
                    then LoopEnvelope.Release(LoopEnvelope.PolyLoop, v.envelope) else v.envelope)
  }

  /**
   * `noteOff`: remove the oldest held note with `id`, as `RemoveNote`
   * says; an id that is not held changes nothing.
   */
  function NoteOff(v: Voice, p: Params, id: I32): (r: Voice)
    ensures (forall i :: 0 <= i < |v.noteStack| ==> v.noteStack[i].id != id) ==> r == v
    ensures FindId(v.noteStack, id).Some? ==> r == RemoveNote(v, p, FindId(v.noteStack, id).value)
  {
    match FindId(v.noteStack, id)
    case None => v
    case Some(k) => RemoveNote(v, p, k)
  }

  /** Pressing and releasing a new note gives the stack back as it was. */
  lemma NoteOnThenOff(v: Voice, p: Params, toRatio: Ratio, id: I32, pitch: I16, tuning: real)
    requires forall i :: 0 <= i < |v.noteStack| ==> v.noteStack[i].id != id
    ensures NoteOff(NoteOn(v, p, toRatio, id, pitch, tuning), p, id).noteStack == v.noteStack
  {
    var s := NoteOn(v, p, toRatio, id, pitch, tuning).noteStack;
    assert s[|v.noteStack|].id == id;
    assert forall i :: 0 <= i < |v.noteStack| ==> s[i] == v.noteStack[i];
    assert FindId(s, id) == Some(|v.noteStack|);
    assert s[..|v.noteStack|] == v.noteStack;
  }

  /** `reset`: drop every held note, zero the rate smoother and silence the envelope. */
  function Reset(v: Voice): (r: Voice)
    ensures r.noteStack == [] && r.rateTarget == 0.0
    ensures r.envelope.state == LoopEnvelope.Terminated(LoopEnvelope.PolyLoop) && r.envelope.value == 0.0
    ensures r.isGateOpen == v.isGateOpen
  {
    v.(noteStack := [], rateTarget := 0.0, envelope := LoopEnvelope.Terminate(LoopEnvelope.PolyLoop, v.envelope))
  }

  // ---------------------------------------------------------------------
  // The CV gate

  /**
   * The gate input of one frame: a rising edge opens the gate and triggers;
   * a falling edge closes it and releases only when no note is held.
   */
  function Gate(v: Voice, input: real): (r: Voice)
    ensures r.isGateOpen <==> input >= GateThreshold
    ensures !v.isGateOpen && input >= GateThreshold ==>
      r.envelope == LoopEnvelope.Trigger(LoopEnvelope.PolyLoop, v.envelope)
    ensures v.isGateOpen && input < GateThreshold ==>
      r.envelope == if |v.noteStack| == 0 then LoopEnvelope.Release(LoopEnvelope.PolyLoop, v.envelope) else v.envelope
    ensures v.isGateOpen == (input >= GateThreshold) ==> r == v
    ensures r.noteStack == v.noteStack
  {
    if !v.isGateOpen && input >= GateThreshold then
      v.(isGateOpen := true, envelope := LoopEnvelope.Trigger(LoopEnvelope.PolyLoop, v.envelope))
    else if v.isGateOpen && input < GateThreshold then
      var v1 := v.(isGateOpen := false);
      if |v.noteStack| == 0 then v1.(envelope := LoopEnvelope.Release(LoopEnvelope.PolyLoop, v.envelope)) else v1
    else v
  }

  /** A gate held high triggers once: every later high frame changes nothing. */
  lemma {:induction false} GateTriggersOnce(v: Voice, inputs: seq<real>)
    requires |inputs| > 0 && forall i :: 0 <= i < |inputs| ==> inputs[i] >= GateThreshold
    requires !v.isGateOpen
    ensures GateRun(v, inputs) == Gate(v, inputs[0])
    decreases |inputs|
  {
    if |inputs| > 1 {
      GateHeld(Gate(v, inputs[0]), inputs[1..]);
    }
  }

  lemma {:induction false} GateHeld(v: Voice, inputs: seq<real>)
    requires forall i :: 0 <= i < |inputs| ==> inputs[i] >= GateThreshold
    requires v.isGateOpen
    ensures GateRun(v, inputs) == v
    decreases |inputs|
  {
    if |inputs| > 0 {
      GateHeld(Gate(v, inputs[0]), inputs[1..]);
    }
  }

  /** The gate inputs of successive frames. */
  function GateRun(v: Voice, inputs: seq<real>): (r: Voice)
    ensures r.noteStack == v.noteStack
    decreases |inputs|
  {
    if |inputs| == 0 then v else GateRun(Gate(v, inputs[0]), inputs[1..])
  }

  // ---------------------------------------------------------------------
  // The MIDI event queue

  /** `pushMidiNote`: append one event, fields as given. */
  function PushMidiNote(queue: seq<MidiNote>, isNoteOn: bool, frame: LoopEnvelope.U32, id: I32,
                        pitch: I16, tuning: real, velocity: real): (r: seq<MidiNote>)
    ensures |r| == |queue| + 1 && r[..|queue|] == queue
    ensures r[|queue|] == MidiNote(isNoteOn, frame, id, pitch, tuning, velocity)
  {
    queue + [MidiNote(isNoteOn, frame, id, pitch, tuning, velocity)]
  }

  /** Handle one event: note-on or note-off. */
  function Dispatch(v: Voice, p: Params, toRatio: Ratio, n: MidiNote): Voice {
    if n.isNoteOn then NoteOn(v, p, toRatio, n.id, n.pitch, n.tuning) else NoteOff(v, p, n.id)
  }

  function EventFrame(n: MidiNote): LoopEnvelope.U32 {
    n.frame
  }

  /** The index of the first event of `frame`. */
  function FindFrame(queue: seq<MidiNote>, frame: LoopEnvelope.U32): Option<nat> {
    FindFirst(queue, EventFrame, frame)
  }

  /**
   * `processMidiNote` as the source loops: find the first event of the
   * frame, dispatch it, erase it, and look again.
   */
  function ProcessMidiNote(queue: seq<MidiNote>, v: Voice, p: Params, toRatio: Ratio, frame: LoopEnvelope.U32)
    : (r: (seq<MidiNote>, Voice))
    decreases |queue|
  {
    match FindFrame(queue, frame)
    case None => (queue, v)
    case Some(i) =>
      ProcessMidiNote(queue[..i] + queue[i + 1..], Dispatch(v, p, toRatio, queue[i]), p, toRatio, frame)
  }

  /** The events of `frame`, in queue order. */
  function OfFrame(queue: seq<MidiNote>, frame: LoopEnvelope.U32): (r: seq<MidiNote>)
    ensures forall i :: 0 <= i < |r| ==> r[i].frame == frame
    ensures |r| <= |queue|
  {
    if |queue| == 0 then []
    else (if queue[0].frame == frame then [queue[0]] else []) + OfFrame(queue[1..], frame)
  }

  /** The events of other frames, in queue order. */
  function NotOfFrame(queue: seq<MidiNote>, frame: LoopEnvelope.U32): (r: seq<MidiNote>)
    ensures forall i :: 0 <= i < |r| ==> r[i].frame != frame
  {
    if |queue| == 0 then []
    else (if queue[0].frame != frame then [queue[0]] else []) + NotOfFrame(queue[1..], frame)
  }

  /** Dispatch events one after another. */
  function DispatchAll(v: Voice, p: Params, toRatio: Ratio, notes: seq<MidiNote>): Voice
    decreases |notes|
  {
    if |notes| == 0 then v else DispatchAll(Dispatch(v, p, toRatio, notes[0]), p, toRatio, notes[1..])
  }

  lemma {:induction false} OfFrameAppend(a: seq<MidiNote>, b: seq<MidiNote>, frame: LoopEnvelope.U32)
    ensures OfFrame(a + b, frame) == OfFrame(a, frame) + OfFrame(b, frame)
    ensures NotOfFrame(a + b, frame) == NotOfFrame(a, frame) + NotOfFrame(b, frame)
    decreases |a|
  {
    if |a| > 0 {
      OfFrameAppend(a[1..], b, frame);
      assert (a + b)[0] == a[0] && (a + b)[1..] == a[1..] + b;
    } else {
      assert a + b == b;
    }
  }

  lemma {:induction false} OfFrameNone(a: seq<MidiNote>, frame: LoopEnvelope.U32)
    requires forall i :: 0 <= i < |a| ==> a[i].frame != frame
    ensures OfFrame(a, frame) == [] && NotOfFrame(a, frame) == a
    decreases |a|
  {
    if |a| > 0 {
      OfFrameNone(a[1..], frame);
    }
  }

  lemma OfFrameCons(x: MidiNote, b: seq<MidiNote>, frame: LoopEnvelope.U32)
    ensures OfFrame([x] + b, frame) == (if x.frame == frame then [x] else []) + OfFrame(b, frame)
    ensures NotOfFrame([x] + b, frame) == (if x.frame != frame then [x] else []) + NotOfFrame(b, frame)
  {
    assert ([x] + b)[0] == x && ([x] + b)[1..] == b;
  }

  /** Splitting the queue at the first event `x` of the frame. */
  lemma SplitAtFirst(a: seq<MidiNote>, x: MidiNote, b: seq<MidiNote>, frame: LoopEnvelope.U32)
    requires x.frame == frame
    requires forall j :: 0 <= j < |a| ==> a[j].frame != frame
    ensures OfFrame(a + ([x] + b), frame) == [x] + OfFrame(a + b, frame)
    ensures NotOfFrame(a + ([x] + b), frame) == NotOfFrame(a + b, frame)
  {
    OfFrameNone(a, frame);
    OfFrameCons(x, b, frame);
    OfFrameAppend(a, [x] + b, frame);
    OfFrameAppend(a, b, frame);
  }

  /**
   * `processMidiNote(frame)` dispatches exactly the events of the frame, in
   * queue order, and leaves the others queued in their order.
   */
  lemma {:induction false} ProcessMidiNoteCorrect(
    queue: seq<MidiNote>, v: Voice, p: Params, toRatio: Ratio, frame: LoopEnvelope.U32)
    ensures ProcessMidiNote(queue, v, p, toRatio, frame)
         == (NotOfFrame(queue, frame), DispatchAll(v, p, toRatio, OfFrame(queue, frame)))
    decreases |queue|
  {
    match FindFrame(queue, frame)
    case None =>
      OfFrameNone(queue, frame);
    case Some(i) =>
      var x, a, b := queue[i], queue[..i], queue[i + 1..];
      var rest := a + b;
      assert OfFrame(queue, frame) == [x] + OfFrame(rest, frame) && NotOfFrame(queue, frame) == NotOfFrame(rest, frame) by {
        assert queue == a + ([x] + b);
        SplitAtFirst(a, x, b, frame);
      }
      var m := OfFrame(rest, frame);
      assert DispatchAll(v, p, toRatio, [x] + m) == DispatchAll(Dispatch(v, p, toRatio, x), p, toRatio, m) by {
        assert ([x] + m)[0] == x && ([x] + m)[1..] == m;
      }
      ProcessMidiNoteCorrect(rest, Dispatch(v, p, toRatio, x), p, toRatio, frame);
  }

  /** No event of the processed frame remains, and none of another frame is lost. */
  lemma ProcessMidiNoteDrains(
    queue: seq<MidiNote>, v: Voice, p: Params, toRatio: Ratio, frame: LoopEnvelope.U32)
    ensures var q := ProcessMidiNote(queue, v, p, toRatio, frame).0;
      && (forall i :: 0 <= i < |q| ==> q[i].frame != frame)
      && |q| == |queue| - |OfFrame(queue, frame)|
  {
    ProcessMidiNoteCorrect(queue, v, p, toRatio, frame);
    OfFrameCount(queue, frame);
  }

  lemma {:induction false} OfFrameCount(queue: seq<MidiNote>, frame: LoopEnvelope.U32)
    ensures |OfFrame(queue, frame)| + |NotOfFrame(queue, frame)| == |queue|
    decreases |queue|
  {
    if |queue| > 0 {
      OfFrameCount(queue[1..], frame);
    }
  }

  /** An event pushed for a frame is the last one that frame dispatches. */
  lemma PushedDispatchedLast(queue: seq<MidiNote>, isNoteOn: bool, frame: LoopEnvelope.U32, id: I32,
                             pitch: I16, tuning: real, velocity: real)
    ensures var q := PushMidiNote(queue, isNoteOn, frame, id, pitch, tuning, velocity);
      OfFrame(q, frame) == OfFrame(queue, frame) + [MidiNote(isNoteOn, frame, id, pitch, tuning, velocity)]
  {
    var n := MidiNote(isNoteOn, frame, id, pitch, tuning, velocity);
    OfFrameAppend(queue, [n], frame);
    assert OfFrame([n], frame) == [n] + OfFrame([n][1..], frame);
  }

  // ---------------------------------------------------------------------
  // One frame of `process`

  /**
   * The control part of one frame of `process`: the frame's MIDI events,
   * then the gate input.
   */
  function Frame(queue: seq<MidiNote>, v: Voice, p: Params, toRatio: Ratio, frame: LoopEnvelope.U32, gate: real)
    : (r: (seq<MidiNote>, Voice))
    ensures r.0 == NotOfFrame(queue, frame)
    ensures r.1 == Gate(DispatchAll(v, p, toRatio, OfFrame(queue, frame)), gate)
  {
    ProcessMidiNoteCorrect(queue, v, p, toRatio, frame);
    var (q, v1) := ProcessMidiNote(queue, v, p, toRatio, frame);
    (q, Gate(v1, gate))
  }
}
