/** What a capture may return, which failure it reports, and why its teardown ends. */
module CaptureOutcome {
  import opened Arithmetic
  import opened CaptureInvariant
  import opened CaptureProtocol
  import opened CaptureSafety

  // ---------------------------------------------------------------- a returned recording

  /** The caller of capture receives the recording that was made, and the device played the whole playback. */
  ghost predicate IsCompleteRecording(c: Config, s: State) {
    && s.file.samples == s.rec.recorded
    && |s.file.samples| == Samples(c.TotalFrames(), c.recordChannels)
    && s.file.rawPeak == Peak(s.rec.recorded)
    && s.play.pulled == |c.playback|
    && |s.output| >= c.TotalFrames() && AreDue(c, s.output)
    && !FatalDriverEvent(s)
  }

  lemma FinishedFileIsComplete(c: Config, s: State)
    requires Invariant(c, s) && s.control == Returned
    ensures IsCompleteRecording(c, s)
  {
    hide AreDue, Samples, Peak;
    WaitingIsWhole(c, s);
    assert s.rec.takenFrames == s.rec.ringFrames == s.time.input == c.TotalFrames();
    NothingIsEmpty(s.rec.ringFrames - s.rec.takenFrames, c.recordChannels);
    assert s.rec.ring[..s.rec.taken] == s.rec.ring;
  }

  lemma ReturnedRecordingIsComplete(c: Config, run: seq<State>, i: nat)
    requires IsRun(c, run) && i < |run| && run[i].control == Returned
    ensures IsCompleteRecording(c, run[i])
  {
    hide IsRun, Invariant, IsCompleteRecording;
    RunKeepsInvariant(c, run, i);
    FinishedFileIsComplete(c, run[i]);
  }

  /** Whatever the interleaving, until a failure every frame of output is the one that is due. */
  lemma OutputIsDue(c: Config, run: seq<State>, i: nat)
    requires IsRun(c, run) && i < |run| && run[i].failure == NoFailure && run[i].callback != Underflow
    ensures AreDue(c, run[i].output)
  {
    hide IsRun, AreDue;
    RunKeepsInvariant(c, run, i);
  }

  /** Nobody touches a returned recording: no actor has a step left. */
  lemma ReturnedIsFinal(c: Config, s: State, s': State)
    requires Invariant(c, s) && s.control == Returned
    ensures !Step(c, s, s')
  {
    hide PlaybackOk, OutputOk, TimelineOk, RecordingOk, WriterOk, CallbackStep, WriterStep, ControlStep;
    NoCallbackIsLeft(c, s, s');
    NoWorkerIsLeft(c, s, s');
  }

  lemma NoCallbackIsLeft(c: Config, s: State, s': State)
    requires s.callback == Idle && s.entered == NOBODY && !GateOpen(s)
    ensures !CallbackStep(c, s, s')
  {
  }

  lemma NoWorkerIsLeft(c: Config, s: State, s': State)
    requires s.writer == WriterExited && s.control == Returned
    ensures !WriterStep(c, s, s') && !ControlStep(c, s, s')
  {
  }

  // ---------------------------------------------------------------- the first failure stays

  ghost predicate FailureKept(s: State, s': State) {
    && (s.failure != NoFailure ==> s'.failure == s.failure)
    && (FatalDriverEvent(s) ==> FatalDriverEvent(s'))
  }

  lemma BlocksKeepFailure(c: Config, s: State, s': State)
    requires CallbackWritesOutput(c, s, s') || CallbackReadsInput(c, s, s')
    ensures FailureKept(s, s')
  {
    hide FilledBuffer, NextPlayback, Samples, DueOverlap, BlockFrames, CallbackReadsInput;
    if CallbackReadsInput(c, s, s') {
      InputMoves(c, s, s');
    }
  }

  lemma CallbackKeepsFailure(c: Config, s: State, s': State)
    requires CallbackStep(c, s, s')
    ensures FailureKept(s, s')
  {
    hide CallbackWritesOutput, CallbackReadsInput, FailureKept;
    if CallbackWritesOutput(c, s, s') || CallbackReadsInput(c, s, s') {
      BlocksKeepFailure(c, s, s');
    } else {
      MovesKeepFailure(c, s, s');
    }
  }

  lemma MovesKeepFailure(c: Config, s: State, s': State)
    requires
      || CallbackArrives(c, s, s') || CallbackTakes(c, s, s') || CallbackFlags(c, s, s')
      || CallbackPublishes(c, s, s') || CallbackConverts(c, s, s') || CallbackLooks(c, s, s')
      || CallbackClears(c, s, s')
    ensures FailureKept(s, s')
  {
  }

  lemma WorkersKeepFailure(c: Config, s: State, s': State)
    requires ProducerStep(c, s, s') || WriterStep(c, s, s')
    ensures FailureKept(s, s')
  {
  }

  lemma ControlKeepsFailure(c: Config, s: State, s': State)
    requires ControlStep(c, s, s')
    ensures FailureKept(s, s')
  {
  }

  lemma StepKeepsFailure(c: Config, s: State, s': State)
    requires Step(c, s, s')
    ensures FailureKept(s, s')
  {
    if CallbackStep(c, s, s') {
      CallbackKeepsFailure(c, s, s');
    } else if ProducerStep(c, s, s') || WriterStep(c, s, s') {
      WorkersKeepFailure(c, s, s');
    } else {
      ControlKeepsFailure(c, s, s');
    }
  }

  lemma ReturnedIsClean(c: Config, s: State)
    requires Invariant(c, s)
    ensures s.control == Returned ==> !FatalDriverEvent(s)
  {
  }

  /** The first failure of a run is the one reported, and it rules out a returned recording. */
  lemma {:induction false} FirstFailureStays(c: Config, run: seq<State>, i: nat, j: nat)
    requires IsRun(c, run) && i <= j < |run|
    ensures FailureKept(run[i], run[j])
    ensures FatalDriverEvent(run[i]) ==> run[j].control != Returned
    decreases j
  {
    hide Invariant, Step, Init, FatalDriverEvent;
    RunKeepsInvariant(c, run, j);
    ReturnedIsClean(c, run[j]);
    if i < j {
      FirstFailureStays(c, run, i, j - 1);
      assert IsStep(c, run, j);
      StepKeepsFailure(c, run[j - 1], run[j]);
    }
  }

  // ---------------------------------------------------------------- the join returns

  /** An upper bound of the producer's own steps once no callback runs. */
  function ProducerRank(s: State): nat {
    match s.producer
    case ProducerSawNoStop => 5
    case ProducerWrite => 4
    case ProducerCheck => 3
    case ProducerThrown => 2
    case ProducerFailed => 1
    case ProducerExited => 0
  }

  /** An upper bound of the writer's own steps: the ring only empties now. */
  function WriterRank(s: State): nat {
    var waiting := Waiting(s.rec);
    match s.writer
    case WriterEmpty => if waiting == 0 then 4 else 10 * waiting + 9
    case WriterSawFinished => if waiting == 0 then 3 else 10 * waiting + 8
    case WriterSawUnfinished => if s.flags.stop then 1 else 10 * waiting + 7
    case WriterSawNoStop => 10 * waiting + 6
    case WriterHolds(_, _) => 10 * waiting + 6
    case WriterPartial => 10 * waiting + 6
    case WriterTop => 10 * waiting + 5
    case WriterMeasured(_) => 10 * waiting + 4
    case WriterEnded => 2
    case WriterThrown => 1
    case WriterExited => 0
  }

  function Rank(s: State): nat {
    ProducerRank(s) + WriterRank(s)
  }

  /** On the drain path no stop is requested, but then the producer has pushed everything. */
  lemma JoiningProducerCanLeave(c: Config, s: State)
    requires Invariant(c, s) && s.control == Joining
    ensures s.play.pushed < |c.playback| ==> s.flags.stop
  {
    hide AreDue, Samples, Peak, WriterOk, OutputOk, TimelineOk;
  }

  lemma ProducerStepsDown(c: Config, s: State, s': State)
    requires Invariant(c, s) && s.control == Joining && ProducerStep(c, s, s')
    ensures Rank(s') < Rank(s) && s'.control == Joining
  {
    hide Invariant;
    JoiningProducerCanLeave(c, s);
  }

  lemma WriterReadsDown(c: Config, s: State, s': State)
    requires Invariant(c, s) && s.control == Joining && WriterReads(c, s, s')
    ensures Rank(s') < Rank(s) && s'.control == Joining
  {
    hide PlaybackOk, OutputOk, TimelineOk, RecordingOk, WriterOk, ControlOk, WriterReads;
    ReadIsWhole(c, s, s');
  }

  lemma WriterMeasuresDown(c: Config, s: State, s': State)
    requires Invariant(c, s) && s.control == Joining && WriterMeasures(c, s, s')
    ensures Rank(s') < Rank(s) && s'.control == Joining
  {
    hide PlaybackOk, OutputOk, TimelineOk, RecordingOk, WriterOk, ControlOk, WriterMeasures;
    MeasuredIsWhole(c, s, s');
    WaitingIsWhole(c, s);
  }

  lemma WriterLooksDown(c: Config, s: State, s': State)
    requires ControlOk(s) && WriterOk(c, s) && s.control == Joining && WriterLooks(c, s, s')
    ensures Rank(s') < Rank(s) && s'.control == Joining
  {
    hide Samples, Peak, IsWhole;
  }

  lemma WriterStepsDown(c: Config, s: State, s': State)
    requires Invariant(c, s) && s.control == Joining && WriterStep(c, s, s')
    ensures Rank(s') < Rank(s) && s'.control == Joining
  {
    hide PlaybackOk, OutputOk, TimelineOk, RecordingOk, WriterOk, ControlOk, WriterMeasures, WriterReads, WriterLooks;
    if WriterReads(c, s, s') {
      WriterReadsDown(c, s, s');
    } else if WriterMeasures(c, s, s') {
      WriterMeasuresDown(c, s, s');
    } else if WriterLooks(c, s, s') {
      WriterLooksDown(c, s, s');
    }
  }

  lemma OnlyWorkersRun(c: Config, s: State, s': State)
    requires ControlOk(s) && s.control == Joining && (CallbackStep(c, s, s') || ControlStep(c, s, s'))
    ensures s'.control == Checking
  {
    hide CallbackStep;
    NoCallbackIsLeft(c, s, s');
  }

  lemma JoiningStepsDown(c: Config, s: State, s': State)
    requires Invariant(c, s) && s.control == Joining && Step(c, s, s')
    ensures if s'.control == Joining then Rank(s') < Rank(s) else s'.control == Checking
  {
    hide PlaybackOk, OutputOk, TimelineOk, RecordingOk, WriterOk, ControlOk, Rank,
         ProducerStep, CallbackStep, WriterStep, ControlStep;
    if ProducerStep(c, s, s') {
      ProducerStepsDown(c, s, s');
    } else if WriterStep(c, s, s') {
      WriterStepsDown(c, s, s');
    } else {
      OnlyWorkersRun(c, s, s');
    }
  }

  /** While the control thread waits in join, the workers take at most Rank steps between them. */
  lemma {:induction false} JoinIsBounded(c: Config, run: seq<State>, i: nat, j: nat)
    requires IsRun(c, run) && i <= j < |run|
    requires forall k :: i <= k <= j ==> run[k].control == Joining
    ensures j - i + Rank(run[j]) <= Rank(run[i])
    decreases j
  {
    hide Invariant, Step, Init, Rank;
    if i < j {
      JoinIsBounded(c, run, i, j - 1);
      RunKeepsInvariant(c, run, j - 1);
      assert IsStep(c, run, j);
      JoiningStepsDown(c, run[j - 1], run[j]);
    }
  }

  /** ... and some step is always possible, so the join does return. */
  lemma JoinIsNotStuck(c: Config, s: State) returns (s': State)
    requires Invariant(c, s) && s.control == Joining
    ensures Step(c, s, s')
  {
    hide Invariant, ProducerStep, WriterStep;
    if s.producer != ProducerExited {
      s' := ProducerMove(c, s);
    } else if s.writer != WriterExited {
      s' := WriterMove(c, s);
    } else {
      s' := s.(control := Checking);
    }
  }

  lemma ProducerMove(c: Config, s: State) returns (s': State)
    requires Invariant(c, s) && s.producer != ProducerExited
    ensures ProducerStep(c, s, s')
  {
    hide OutputOk, TimelineOk, RecordingOk, WriterOk, ControlOk, Samples;
    match s.producer
    case ProducerCheck =>
      s' := if s.play.pushed < |c.playback| then
              s.(producer := if s.flags.stop then ProducerExited else ProducerSawNoStop)
            else s.(play := s.play.(producerFinished := true), producer := ProducerExited);
    case ProducerSawNoStop =>
      s' := s.(producer := if s.failure != NoFailure then ProducerExited else ProducerWrite);
    case ProducerWrite => s' := s.(producer := ProducerCheck);
    case ProducerThrown =>
      s' := s.(failure := Published(s.failure, SourceFailure), producer := ProducerFailed);
    case ProducerFailed =>
      s' := s.(play := s.play.(producerFinished := true), producer := ProducerExited);
  }

  lemma WriterMove(c: Config, s: State) returns (s': State)
    requires Invariant(c, s) && s.writer != WriterExited
    ensures WriterStep(c, s, s')
  {
    hide Invariant;
    match s.writer
    case WriterTop => s' := MeasureMove(c, s);
    case WriterMeasured(_) => s' := ReadMove(c, s);
    case WriterHolds(_, _) => s' := s.(writer := WriterThrown);
    case WriterEnded => s' := s.(writer := WriterThrown);
    case WriterThrown => s' := s.(failure := Published(s.failure, WriterFailure), writer := WriterExited);
    case _ => s' := LookMove(c, s);
  }

  lemma LookMove(c: Config, s: State) returns (s': State)
    requires s.writer == WriterPartial || s.writer == WriterEmpty || s.writer == WriterSawFinished
             || s.writer == WriterSawUnfinished || s.writer == WriterSawNoStop
    ensures WriterLooks(c, s, s')
  {
    match s.writer
    case WriterPartial => s' := s.(writer := if s.rec.finished then WriterThrown else WriterTop);
    case WriterEmpty => s' := s.(writer := if s.rec.finished then WriterSawFinished else WriterSawUnfinished);
    case WriterSawFinished => s' := s.(writer := if Waiting(s.rec) > 0 then WriterTop else WriterEnded);
    case WriterSawUnfinished => s' := s.(writer := if s.flags.stop then WriterExited else WriterSawNoStop);
    case WriterSawNoStop => s' := s.(writer := if s.failure != NoFailure then WriterExited else WriterTop);
  }

  lemma MeasureMove(c: Config, s: State) returns (s': State)
    requires s.writer == WriterTop
    ensures WriterMeasures(c, s, s')
  {
    var aligned := AlignedSamples(c, Waiting(s.rec));
    s' := s.(writer := if Waiting(s.rec) == 0 then WriterEmpty
                       else if aligned == 0 then WriterPartial else WriterMeasured(aligned));
  }

  lemma ReadMove(c: Config, s: State) returns (s': State)
    requires Invariant(c, s) && s.writer.WriterMeasured?
    ensures WriterReads(c, s, s')
  {
    hide PlaybackOk, OutputOk, TimelineOk, RecordingOk, ControlOk, Samples, IsWhole, Peak;
    var samples := s.writer.aligned;
    WholeIsDivisible(c, samples);
    s' := s.(rec := s.rec.(taken := s.rec.taken + samples,
                           takenFrames := s.rec.takenFrames + samples / c.recordChannels),
             writer := WriterHolds(s.rec.ring[s.rec.taken..s.rec.taken + samples], samples / c.recordChannels));
  }
}
