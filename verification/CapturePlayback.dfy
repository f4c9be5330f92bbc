/**
 What the device plays in a capture of a plan: the planned playback, delayed by the padding and
 mapped to the output channels, in every interleaving of the four actors.
 */
module CapturePlayback {
  import opened AlignedReader
  import opened Arithmetic
  import opened CaptureInvariant
  import opened CaptureOutcome
  import opened CaptureProtocol
  import opened FakeLoopback
  import opened PlaybackPlan

  /** The output side of the capture as a setup without latency: its recording is what is played. */
  function OutputSetup(c: Config, plan: Plan): Setup {
    Setup(plan, c.outputChannels, Min(c.outputChannels, c.playbackChannels), c.padding, 0, 1.0)
  }

  /** The capture plays this plan: its producer pushes what the plan says of the source. */
  ghost predicate PlaysPlan(c: Config, plan: Plan, source: seq<real>) {
    && IsPlan(plan) && c.playback == PlaybackPlan.Playback(plan, source)
    && c.playbackChannels == plan.channels && c.playbackFrames == plan.playbackFrames
  }

  lemma DueFrameIsDelayed(c: Config, plan: Plan, f: nat)
    requires c.playbackChannels == plan.channels && c.playbackFrames == plan.playbackFrames
    ensures DueFrame(c, f) == DelayedFrame(OutputSetup(c, plan), c.playback, f)
  {
    hide SampleOrZero, Samples;
    var setup := OutputSetup(c, plan);
    forall channel | 0 <= channel < c.outputChannels
      ensures DueFrame(c, f)[channel] == DelayedFrame(setup, c.playback, f)[channel]
    {
      assert DelayedFrame(setup, c.playback, f)[channel] == Delayed(setup, c.playback, f, channel);
    }
  }

  /** Until a failure every frame the callbacks write is the delayed playback of the plan. */
  lemma OutputIsDelayedPlayback(c: Config, plan: Plan, source: seq<real>, run: seq<State>, i: nat, f: nat)
    requires PlaysPlan(c, plan, source) && IsRun(c, run) && i < |run| && f < |run[i].output|
    requires run[i].failure == NoFailure && run[i].callback != Underflow
    ensures run[i].output[f] == DelayedFrame(OutputSetup(c, plan), PlaybackPlan.Playback(plan, source), f)
  {
    hide IsRun, DueFrame, DelayedFrame, PlaybackPlan.Playback, IsPlan;
    OutputIsDue(c, run, i);
    DueFrameIsDelayed(c, plan, f);
  }

  /** A capture that returns has played all of it. */
  lemma ReturnedCapturePlayedAll(c: Config, plan: Plan, source: seq<real>, run: seq<State>, i: nat)
    requires PlaysPlan(c, plan, source) && IsRun(c, run) && i < |run| && run[i].control == Returned
    ensures |run[i].output| >= c.TotalFrames()
    ensures forall f {:trigger run[i].output[f]} :: 0 <= f < c.TotalFrames() ==>
              run[i].output[f] == DelayedFrame(OutputSetup(c, plan), PlaybackPlan.Playback(plan, source), f)
  {
    hide IsRun, DueFrame, DelayedFrame, PlaybackPlan.Playback, IsPlan, Peak, Samples;
    ReturnedRecordingIsComplete(c, run, i);
    forall f {:trigger run[i].output[f]} | 0 <= f < c.TotalFrames()
      ensures run[i].output[f] == DelayedFrame(OutputSetup(c, plan), c.playback, f)
    {
      DueFrameIsDelayed(c, plan, f);
    }
  }
}
