/**
 The driver side of a capture: the double-buffer timeline, and the output buffers, which follow
 each other as padding, channel-mapped playback and silence for every buffer size.
 */
module OutputTimeline {
  import opened AlignedReader
  import opened Arithmetic
  import opened FakeLoopback
  import opened FrameStreams
  import opened Wrappers

  datatype Block = Block(start: nat, frames: nat)

  /** AsioBufferTimeline. */
  class Timeline {
    const total: nat
    const bufferFrames: pos
    var output: nat
    var recorded: nat
    var firstInput: bool

    constructor (total: int, bufferFrames: pos)
      ensures this.total == Max(0, total) && this.bufferFrames == bufferFrames
      ensures output == 0 && recorded == 0 && firstInput
    {
      this.total := Max(0, total);
      this.bufferFrames := bufferFrames;
      this.output := 0;
      this.recorded := 0;
      this.firstInput := true;
    }

    function RemainingBlock(cursor: nat): (b: Block)
      ensures b.start == cursor && b.frames <= bufferFrames
      ensures cursor <= total ==> cursor + b.frames == Min(total, cursor + bufferFrames)
      ensures cursor >= total ==> b.frames == 0
    {
      Block(cursor, Min(Max(0, total - cursor), bufferFrames))
    }

    method NextOutputBlock() returns (b: Block)
      modifies this`output
      ensures b == RemainingBlock(old(output)) && output == old(output) + b.frames
    {
      b := RemainingBlock(output);
      output := output + b.frames;
    }

    /** The first input callback carries nothing that was recorded. */
    method NextInputBlock() returns (b: Option<Block>)
      modifies this`recorded, this`firstInput
      ensures !firstInput
      ensures if old(firstInput) then b == None && recorded == old(recorded)
              else b == Some(RemainingBlock(old(recorded))) && recorded == old(recorded) + b.value.frames
    {
      if firstInput {
        firstInput := false;
        return None;
      }
      b := Some(RemainingBlock(recorded));
      recorded := recorded + b.value.frames;
    }

    predicate RecordingComplete()
      reads this
    {
      recorded >= total
    }
  }

  // ---------------------------------------------------------------- one output buffer

  function Zeros(count: nat): (r: seq<real>)
    ensures |r| == count && forall i :: 0 <= i < count ==> r[i] == 0.0
  {
    seq(count, _ => 0.0)
  }

  /** Outside the playback the device plays silence. */
  lemma SilentFrame(s: Setup, played: seq<real>, f: int)
    requires s.PlaybackFrame(f) < 0 || s.PlaybackFrame(f) >= s.plan.playbackFrames
    ensures DelayedFrame(s, played, f) == Zeros(s.recordChannels)
  {
  }

  /** Frame k of the buffer is frame `first + k` of the signal. */
  ghost predicate IsFrameAt(s: Setup, played: seq<real>, buffer: seq<real>, first: nat, k: nat) {
    && Samples(k, s.recordChannels) + s.recordChannels <= |buffer|
    && buffer[Samples(k, s.recordChannels)..Samples(k, s.recordChannels) + s.recordChannels]
         == DelayedFrame(s, played, first + k)
  }

  lemma {:induction false} FramesAreSignal(s: Setup, played: seq<real>, buffer: seq<real>, first: nat, frames: nat)
    requires forall k: nat {:trigger IsFrameAt(s, played, buffer, first, k)} ::
               k < frames ==> IsFrameAt(s, played, buffer, first, k)
    requires Samples(frames, s.recordChannels) <= |buffer|
    ensures buffer[..Samples(frames, s.recordChannels)] == DelayedFrames(s, played, first, frames)
  {
    hide DelayedFrame;
    if frames > 0 {
      var n := Samples(frames - 1, s.recordChannels);
      FramesAreSignal(s, played, buffer, first, frames - 1);
      assert IsFrameAt(s, played, buffer, first, frames - 1);
      assert buffer[..n + s.recordChannels] == buffer[..n] + buffer[n..n + s.recordChannels];
    }
  }

  lemma SilenceIsFrame(s: Setup, played: seq<real>, buffer: seq<real>, first: nat, k: nat, frames: nat)
    requires k < frames && |buffer| == Samples(frames, s.recordChannels)
    requires Samples(k + 1, s.recordChannels) <= |buffer|
    requires s.PlaybackFrame(first + k) < 0 || s.PlaybackFrame(first + k) >= s.plan.playbackFrames
    requires forall i :: Samples(k, s.recordChannels) <= i < Samples(k + 1, s.recordChannels) ==> buffer[i] == 0.0
    ensures IsFrameAt(s, played, buffer, first, k)
  {
    hide DelayedFrame;
    SilentFrame(s, played, first + k);
    SamplesAdd(k, 1, s.recordChannels);
    OneFrame(s.recordChannels);
    SamplesMonotone(k + 1, frames, s.recordChannels);
  }

  /** The channel loop for one frame of the overlap. */
  method CopyFrame(s: Setup, ghost played: seq<real>, source: seq<real>, from: nat, buffer: array<real>, k: nat,
                   ghost frames: nat, ghost first: nat, ghost inStep: bool)
    requires k < frames && buffer.Length == Samples(frames, s.recordChannels)
    requires Samples(k, s.recordChannels) <= Samples(k + 1, s.recordChannels) <= buffer.Length
    requires s.mapped <= s.recordChannels && s.mapped <= s.plan.channels
    requires from + s.plan.channels <= |source|
    requires inStep ==>
      && 0 <= s.PlaybackFrame(first + k) < s.plan.playbackFrames
      && Samples(s.PlaybackFrame(first + k), s.plan.channels) + s.plan.channels <= |played|
      && source[from..from + s.plan.channels]
           == played[Samples(s.PlaybackFrame(first + k), s.plan.channels)..][..s.plan.channels]
    requires forall i :: Samples(k, s.recordChannels) <= i < buffer.Length ==> buffer[i] == 0.0
    modifies buffer
    ensures inStep ==> IsFrameAt(s, played, buffer[..], first, k)
    ensures buffer[..Samples(k, s.recordChannels)] == old(buffer[..Samples(k, s.recordChannels)])
    ensures forall i :: Samples(k + 1, s.recordChannels) <= i < buffer.Length ==> buffer[i] == 0.0
  {
    hide Samples;
    var at := Samples(k, s.recordChannels);
    SamplesAdd(k, 1, s.recordChannels);
    OneFrame(s.recordChannels);
    for c := 0 to s.mapped
      invariant inStep ==> forall i :: at <= i < at + c ==> buffer[i] == Delayed(s, played, first + k, i - at)
      invariant forall i :: at + c <= i < buffer.Length ==> buffer[i] == 0.0
      invariant buffer[..at] == old(buffer[..at])
    {
      buffer[at + c] := source[from + c];
      assert source[from + c] == source[from..from + s.plan.channels][c];
    }
  }

  lemma FrontOfSuffix(samples: seq<real>, at: nat, count: nat)
    requires at + count <= |samples|
    ensures samples[at..][..count] == samples[at..at + count]
  {
  }

  /** What lies before the changed part of the buffer is still there. */
  lemma FramesKept(s: Setup, played: seq<real>, was: seq<real>, buffer: seq<real>, first: nat, frames: nat)
    requires |was| == |buffer| && Samples(frames, s.recordChannels) <= |was|
    requires was[..Samples(frames, s.recordChannels)] == buffer[..Samples(frames, s.recordChannels)]
    requires forall k: nat {:trigger IsFrameAt(s, played, was, first, k)} ::
               k < frames ==> IsFrameAt(s, played, was, first, k)
    ensures forall k: nat {:trigger IsFrameAt(s, played, buffer, first, k)} ::
              k < frames ==> IsFrameAt(s, played, buffer, first, k)
  {
    hide DelayedFrame, Samples;
    forall k: nat | k < frames ensures IsFrameAt(s, played, buffer, first, k) {
      assert IsFrameAt(s, played, was, first, k);
      var end, at, unit := Samples(frames, s.recordChannels), Samples(k, s.recordChannels), s.recordChannels;
      SamplesAdd(k, 1, unit);
      OneFrame(unit);
      SamplesMonotone(k + 1, frames, unit);
      SliceOfSlice(was, 0, end, at, at + unit);
      SliceOfSlice(buffer, 0, end, at, at + unit);
    }
  }

  // ---------------------------------------------------------------- all output buffers

  /** The output half of CaptureState. */
  class OutputSide {
    const s: Setup
    /** What the producer pushes into the playback ring, sooner or later. */
    const played: seq<real>
    const timeline: Timeline
    var consumedFrames: nat
    var consumed: bool
    var underflow: bool
    /** The frames of all buffers filled so far. */
    ghost var elapsed: nat

    ghost predicate Valid()
      reads this, timeline
    {
      && s.latency == 0 && s.plan.playbackFrames > 0
      && s.mapped == Min(s.recordChannels, s.plan.channels)
      && |played| == Samples(s.plan.playbackFrames, s.plan.channels)
      && timeline.total == s.TotalFrames() && timeline.output == Min(timeline.total, elapsed)
      && consumedFrames <= Due(timeline.output) && (!underflow ==> consumedFrames == Due(timeline.output))
      && (consumed <==> consumedFrames >= s.plan.playbackFrames)
    }

    /** The playback frames among the first `cursor` frames of output. */
    function Due(cursor: int): int {
      Min(Max(0, cursor - s.padding), s.plan.playbackFrames)
    }

    /** They are counted: a frame of output is one of them if it lies behind the padding and within the playback. */
    lemma DueCounts(cursor: nat)
      requires s.plan.playbackFrames > 0
      ensures Due(0) == 0
      ensures Due(cursor + 1)
           == Due(cursor) + if s.padding <= cursor < s.padding + s.plan.playbackFrames then 1 else 0
    {
    }

    lemma DueGrows(a: nat, b: nat)
      requires a <= b && s.plan.playbackFrames >= 0
      ensures 0 <= Due(a) <= Due(b) <= s.plan.playbackFrames
    {
    }

    /** The output is a buffer ahead of the recording. */
    ghost predicate Ahead()
      reads this, timeline
    {
      && timeline.output >= Min(timeline.total, timeline.recorded + timeline.bufferFrames)
      && timeline.recorded <= timeline.total
    }

    constructor (s: Setup, played: seq<real>, bufferFrames: pos)
      requires s.latency == 0 && s.plan.playbackFrames > 0
      requires s.mapped == Min(s.recordChannels, s.plan.channels)
      requires |played| == Samples(s.plan.playbackFrames, s.plan.channels)
      ensures Valid() && elapsed == 0 && !underflow && !consumed && fresh(timeline) && timeline.recorded == 0
      ensures this.s == s && this.played == played && timeline.bufferFrames == bufferFrames
    {
      this.s := s;
      this.played := played;
      this.timeline := new Timeline(s.TotalFrames(), bufferFrames);
      this.consumedFrames := 0;
      this.consumed := false;
      this.underflow := false;
      this.elapsed := 0;
    }

    /** The given frames of the playback. */
    function PlayedFrames(from: nat, count: nat): seq<real> {
      if Samples(from, s.plan.channels) <= Samples(from + count, s.plan.channels) <= |played| then
        played[Samples(from, s.plan.channels)..Samples(from + count, s.plan.channels)]
      else []
    }

    /** Frame k of the buffer that starts at `first` is not a frame of the playback. */
    predicate IsSilent(first: nat, k: nat) {
      s.PlaybackFrame(first + k) < 0 || s.PlaybackFrame(first + k) >= s.plan.playbackFrames
    }

    /** Frame j of a copied overlap is the playback frame it stands for. */
    lemma CopiedFrame(source: seq<real>, from: nat, overlap: nat, j: nat)
      requires j < overlap && from + overlap <= s.plan.playbackFrames && source == PlayedFrames(from, overlap)
      requires |played| == Samples(s.plan.playbackFrames, s.plan.channels)
      ensures
        var at, unit := Samples(from + j, s.plan.channels), s.plan.channels;
        && Samples(j, unit) + unit <= |source| && at + unit <= |played|
        && source[Samples(j, unit)..Samples(j, unit) + unit] == played[at..][..unit]
    {
      hide Samples;
      var unit := s.plan.channels;
      SamplesAdd(from, overlap, unit);
      SamplesAdd(from, j, unit);
      SamplesAdd(j, 1, unit);
      OneFrame(unit);
      SamplesMonotone(j + 1, overlap, unit);
      SamplesMonotone(from + overlap, s.plan.playbackFrames, unit);
      var base, at := Samples(from, unit), Samples(j, unit);
      SliceOfSlice(played, base, base + Samples(overlap, unit), at, at + unit);
      FrontOfSuffix(played, base + at, unit);
    }

    /** Frame k of the buffer that starts at `first` is to stay silent. */
    ghost predicate SilentOutside(first: nat, silent: nat, overlap: nat) {
      forall k: nat {:trigger IsSilent(first, k)} ::
        k < silent || silent + overlap <= k < timeline.bufferFrames ==> IsSilent(first, k)
    }

    /** The copied part stands for the frames of the playback that are due in this buffer. */
    ghost predicate IsOverlap(source: seq<real>, first: nat, silent: nat, overlap: nat) {
      && SilentOutside(first, silent, overlap)
      && (overlap > 0 ==>
            && 0 <= s.PlaybackFrame(first + silent) <= s.plan.playbackFrames - overlap
            && source == PlayedFrames(s.PlaybackFrame(first + silent), overlap))
    }

    /** The overlap of a block with the playback is copied, the rest of the buffer stays silent. */
    method FillOverlap(buffer: array<real>, source: seq<real>, silent: nat, overlap: nat, ghost first: nat,
                       ghost inStep: bool)
      requires Valid() && buffer.Length == Samples(timeline.bufferFrames, s.recordChannels)
      requires silent + overlap <= timeline.bufferFrames && |source| == Samples(overlap, s.plan.channels)
      requires forall i :: 0 <= i < buffer.Length ==> buffer[i] == 0.0
      requires inStep ==> IsOverlap(source, first, silent, overlap)
      modifies buffer
      ensures inStep ==> buffer[..] == DelayedFrames(s, played, first, timeline.bufferFrames)
    {
      hide DelayedFrame, Samples, PlayedFrames, IsFrameAt;
      ghost var frames := timeline.bufferFrames;
      forall k: nat | inStep && k < silent ensures IsFrameAt(s, played, buffer[..], first, k) {
        assert IsSilent(first, k);
        SamplesMonotone(k + 1, frames, s.recordChannels);
        SilenceIsFrame(s, played, buffer[..], first, k, frames);
      }
      for j := 0 to overlap
        invariant inStep ==> forall k: nat {:trigger IsFrameAt(s, played, buffer[..], first, k)} ::
                    k < silent + j ==> IsFrameAt(s, played, buffer[..], first, k)
        invariant forall i :: Samples(silent + j, s.recordChannels) <= i < buffer.Length ==> buffer[i] == 0.0
      {
        ghost var was := buffer[..];
        FrameInside(j, overlap, s.plan.channels);
        if inStep {
          CopiedFrame(source, s.PlaybackFrame(first + silent), overlap, j);
        }
        SamplesMonotone(silent + j, silent + j + 1, s.recordChannels);
        SamplesMonotone(silent + j + 1, frames, s.recordChannels);
        CopyFrame(s, played, source, Samples(j, s.plan.channels), buffer, silent + j, frames, first, inStep);
        if inStep {
          FramesKept(s, played, was, buffer[..], first, silent + j);
        }
      }
      forall k: nat | inStep && silent + overlap <= k < frames ensures IsFrameAt(s, played, buffer[..], first, k) {
        assert IsSilent(first, k);
        SamplesMonotone(silent + overlap, k, s.recordChannels);
        SamplesMonotone(k + 1, frames, s.recordChannels);
        SilenceIsFrame(s, played, buffer[..], first, k, frames);
      }
      if inStep {
        FramesAreSignal(s, played, buffer[..], first, frames);
        assert buffer[..][..buffer.Length] == buffer[..];
      }
    }

    lemma FrameInside(j: nat, count: nat, unit: nat)
      requires j < count
      ensures Samples(j, unit) + unit <= Samples(count, unit)
    {
      SamplesAdd(j, 1, unit);
      OneFrame(unit);
      SamplesMonotone(j + 1, count, unit);
    }

    lemma PlayedLength(from: nat, count: nat)
      requires from + count <= s.plan.playbackFrames && |played| == Samples(s.plan.playbackFrames, s.plan.channels)
      ensures |PlayedFrames(from, count)| == Samples(count, s.plan.channels)
    {
      SamplesAdd(from, count, s.plan.channels);
      SamplesMonotone(from + count, s.plan.playbackFrames, s.plan.channels);
    }

    /** The overlap of the next block with the playback is the stretch of the playback that is due. */
    lemma NextOverlapIsDue()
      requires Valid()
      ensures
        var block := timeline.RemainingBlock(timeline.output);
        var start := Max(block.start, s.padding);
        var overlap := Min(block.start + block.frames, s.padding + s.plan.playbackFrames) - start;
        && (overlap > 0 ==> consumedFrames + overlap <= s.plan.playbackFrames)
        && Due(block.start + block.frames) == Due(block.start) + Max(0, overlap)
        && (overlap <= 0 ==> IsOverlap([], elapsed, 0, 0))
        && (overlap > 0 && !underflow ==>
              IsOverlap(PlayedFrames(consumedFrames, overlap), elapsed, start - block.start, overlap))
    {
      hide Samples, PlayedFrames;
    }

    /** When `cursor` frames are out, `available` samples do for the playback frames of the next `frames` ones. */
    predicate HasSupply(cursor: nat, frames: nat, consumed: nat, available: nat) {
      var due := Due(cursor + frames) - Due(cursor);
      due <= 0 || Samples(consumed + due, s.plan.channels) <= available
    }

    /** write_output_buffer: `available` playback samples have been pushed by now. */
    method WriteOutput(buffer: array<real>, available: nat)
      requires Valid() && buffer.Length == Samples(timeline.bufferFrames, s.recordChannels)
      modifies this, timeline`output, buffer
      ensures Valid() && elapsed == old(elapsed) + timeline.bufferFrames
      ensures timeline.output == Min(timeline.total, old(timeline.output) + timeline.bufferFrames)
      ensures old(timeline.output) <= timeline.output
      ensures
        var frames, due := timeline.output - old(timeline.output), Due(timeline.output) - Due(old(timeline.output));
        if HasSupply(old(timeline.output), frames, old(consumedFrames), available) then
          underflow == old(underflow) && consumedFrames == old(consumedFrames) + due
        else
          underflow && consumedFrames == old(consumedFrames) && buffer[..] == Zeros(buffer.Length)
      ensures !underflow ==> buffer[..] == DelayedFrames(s, played, old(elapsed), timeline.bufferFrames)
    {
      hide DelayedFrame, DelayedFrames, Samples, PlayedFrames, IsOverlap, Due;
      ghost var first := elapsed;
      NextOverlapIsDue();
      DueGrows(timeline.output, timeline.output + timeline.RemainingBlock(timeline.output).frames);
      var block := timeline.NextOutputBlock();
      forall i | 0 <= i < buffer.Length {
        buffer[i] := 0.0;
      }
      var end := block.start + block.frames;
      var overlapStart, overlapEnd := Max(block.start, s.padding), Min(end, s.padding + s.plan.playbackFrames);
      elapsed := elapsed + timeline.bufferFrames;
      if overlapEnd > overlapStart {
        var overlap := overlapEnd - overlapStart;
        var pulled := Samples(consumedFrames, s.plan.channels);
        SamplesAdd(consumedFrames, overlap, s.plan.channels);
        if available < pulled + Samples(overlap, s.plan.channels) {
          underflow := true;
        } else {
          var source := PlayedFrames(consumedFrames, overlap);
          PlayedLength(consumedFrames, overlap);
          consumedFrames := consumedFrames + overlap;
          consumed := consumedFrames >= s.plan.playbackFrames;
          FillOverlap(buffer, source, overlapStart - block.start, overlap, first, !underflow);
        }
      } else {
        assert Samples(0, s.plan.channels) == 0 by { NoSamples(s.plan.channels); }
        FillOverlap(buffer, [], 0, 0, first, true);
      }
    }

    /** The frames that are out after n buffers. */
    function OutAfter(n: nat): nat {
      Min(Max(0, s.TotalFrames()), Samples(n, timeline.bufferFrames))
    }

    /** When buffer n is filled, the playback up to its end has been pushed, if there is any in it. */
    predicate IsSupplied(n: nat, available: nat) {
      Due(OutAfter(n + 1)) <= Due(OutAfter(n)) || Samples(Max(0, Due(OutAfter(n + 1))), s.plan.channels) <= available
    }

    /** Without an underflow so far this is what the next buffer needs. */
    lemma SupplyOfBuffer(n: nat, available: nat)
      requires Valid() && elapsed == Samples(n, timeline.bufferFrames)
      ensures timeline.output == OutAfter(n)
      ensures Min(timeline.total, timeline.output + timeline.bufferFrames) == OutAfter(n + 1) >= OutAfter(n)
      ensures !underflow ==>
        (HasSupply(timeline.output, OutAfter(n + 1) - timeline.output, consumedFrames, available)
         <==> IsSupplied(n, available))
    {
      hide Samples;
      SamplesAdd(n, 1, timeline.bufferFrames);
      OneFrame(timeline.bufferFrames);
    }

    /** Where the capture is after n buffers, if there was no underflow before. */
    ghost predicate IsAfter(n: nat)
      reads this, timeline
    {
      && Valid() && Ahead() && n > 0 && elapsed == Samples(n, timeline.bufferFrames)
      && timeline.firstInput == (n == 1)
      && timeline.recorded == Min(timeline.total, Samples(Max(0, n - 2), timeline.bufferFrames))
    }

    /** process: the next output buffer, then the next input block. */
    method Process(n: nat, buffer: array<real>, available: nat)
      requires IsAfter(n) && buffer.Length == Samples(timeline.bufferFrames, s.recordChannels)
      modifies this, timeline, buffer
      ensures IsAfter(n + 1)
      ensures if old(underflow) then underflow else underflow <==> !IsSupplied(n, available)
      ensures !underflow ==> buffer[..] == DelayedFrames(s, played, old(elapsed), timeline.bufferFrames)
    {
      hide DelayedFrame, DelayedFrames, Samples, Due, HasSupply, IsSupplied, OutAfter, PlayedFrames, Zeros;
      SamplesAdd(n, 1, timeline.bufferFrames);
      OneFrame(timeline.bufferFrames);
      SupplyOfBuffer(n, available);
      WriteOutput(buffer, available);
      InputFollows(n - 1);
      var block := timeline.NextInputBlock();
    }

    /** prime_output and one call of process for every further buffer: the outputs follow each other. */
    method PlayBuffers(buffers: nat, available: seq<nat>) returns (output: seq<real>)
      requires Valid() && elapsed == 0 && timeline.recorded == 0 && timeline.firstInput && |available| == buffers > 0
      modifies this, timeline
      ensures Valid() && Ahead()
      ensures !underflow ==>
        output == DelayedFrames(s, played, 0, Samples(buffers, timeline.bufferFrames))
      ensures timeline.RecordingComplete() && !underflow ==> consumed
      ensures timeline.RecordingComplete() <==> s.TotalFrames() <= Samples(Max(0, buffers - 2), timeline.bufferFrames)
      ensures !old(underflow) ==> (!underflow <==> forall n :: 0 <= n < buffers ==> IsSupplied(n, available[n]))
    {
      hide DelayedFrame, DelayedFrames, Samples, Due, HasSupply, IsSupplied, OutAfter, PlayedFrames, Zeros;
      var buffer := new real[Samples(timeline.bufferFrames, s.recordChannels)];
      NoSamples(timeline.bufferFrames);
      OneFrame(timeline.bufferFrames);
      SupplyOfBuffer(0, available[0]);
      WriteOutput(buffer, available[0]);
      output := buffer[..];
      for n := 1 to buffers
        invariant IsAfter(n)
        invariant !underflow ==> output == DelayedFrames(s, played, 0, Samples(n, timeline.bufferFrames))
        invariant !old(underflow) ==> (!underflow <==> forall k :: 0 <= k < n ==> IsSupplied(k, available[k]))
      {
        SamplesAdd(n, 1, timeline.bufferFrames);
        OneFrame(timeline.bufferFrames);
        DelayedFramesConcat(s, played, 0, elapsed, timeline.bufferFrames);
        Process(n, buffer, available[n]);
        output := output + buffer[..];
      }
      CompleteIsConsumed();
    }

    lemma InputFollows(n: nat)
      ensures Samples(n, timeline.bufferFrames)
           == Samples(Max(0, n - 1), timeline.bufferFrames) + if n > 0 then timeline.bufferFrames else 0
    {
    }

    lemma CompleteIsConsumed()
      requires Valid() && Ahead()
      ensures timeline.RecordingComplete() && !underflow ==> consumed
    {
      hide DelayedFrame, DelayedFrames, Samples;
    }
  }
}
