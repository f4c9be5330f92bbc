/** A capture can succeed: a run of one frame that ends with the returned recording. */
module CaptureWitness {
  import opened Arithmetic
  import opened CaptureProtocol

  // ---------------------------------------------------------------- growing a run

  ghost predicate Reaches(c: Config, s: State) {
    exists run: seq<State> :: EndsIn(c, run, s)
  }

  ghost predicate EndsIn(c: Config, run: seq<State>, s: State) {
    IsRun(c, run) && run[|run| - 1] == s
  }

  lemma Starts(c: Config, s: State)
    requires c.Valid() && Init(s)
    ensures Reaches(c, s)
  {
    assert EndsIn(c, [s], s);
  }

  lemma Extends(c: Config, s: State, s': State)
    requires Reaches(c, s) && Step(c, s, s')
    ensures Reaches(c, s')
  {
    hide Step, Init;
    var run :| EndsIn(c, run, s);
    var longer := run + [s'];
    forall i | 0 < i < |longer| ensures IsStep(c, longer, i) {
      if i < |run| {
        assert IsStep(c, run, i);
      }
    }
    assert EndsIn(c, longer, s');
  }

  lemma ProducerMoves(c: Config, s: State, s': State)
    requires Reaches(c, s) && ProducerStep(c, s, s')
    ensures Reaches(c, s')
  {
    hide Reaches, ProducerStep, CallbackStep, WriterStep, ControlStep;
    Extends(c, s, s');
  }

  lemma CallbackMoves(c: Config, s: State, s': State)
    requires Reaches(c, s) && CallbackStep(c, s, s')
    ensures Reaches(c, s')
  {
    hide Reaches, ProducerStep, CallbackStep, WriterStep, ControlStep;
    Extends(c, s, s');
  }

  lemma WriterMoves(c: Config, s: State, s': State)
    requires Reaches(c, s) && WriterStep(c, s, s')
    ensures Reaches(c, s')
  {
    hide Reaches, ProducerStep, CallbackStep, WriterStep, ControlStep;
    Extends(c, s, s');
  }

  lemma ControlMoves(c: Config, s: State, s': State)
    requires Reaches(c, s) && ControlStep(c, s, s')
    ensures Reaches(c, s')
  {
    hide Reaches, ProducerStep, CallbackStep, WriterStep, ControlStep;
    Extends(c, s, s');
  }

  // ---------------------------------------------------------------- the run

  /** One frame of one channel, everywhere. */
  function OneFrameCapture(played: real): Config {
    Config([played], 1, 1, 1, 1, 0, 1, 1, 1, 1)
  }

  function Started(): State {
    State(Playback(0, 0, 0, false, false), [], Recording([], 0, [], 0, 0, 0, 0, false), Timeline(0, 0, true),
          File([], 0, 0.0, 0.0, false), NoFailure, Flags(false, false, false, false, false, false), NOBODY,
          ProducerCheck, Output, WriterTop, Priming)
  }

  lemma ProducerRuns(c: Config, s: State) returns (s': State)
    requires |c.playback| == 1 && c.playbackCapacity == 1 && Reaches(c, s) && s == Started()
    ensures Reaches(c, s') && s' == s.(play := s'.play, producer := ProducerExited)
    ensures s'.play == Playback(1, 0, 0, false, true)
  {
    hide Reaches;
    var a := s.(producer := ProducerSawNoStop);
    ProducerMoves(c, s, a);
    var b := a.(producer := ProducerWrite);
    ProducerMoves(c, a, b);
    var d := b.(play := b.play.(pushed := 1), producer := ProducerCheck);
    ProducerMoves(c, b, d);
    s' := d.(play := d.play.(producerFinished := true), producer := ProducerExited);
    ProducerMoves(c, d, s');
  }

  /** Priming plays the only frame. */
  lemma PrimingRuns(c: Config, played: real, s: State) returns (s': State)
    requires c == OneFrameCapture(played) && Reaches(c, s) && s.play == Playback(1, 0, 0, false, true)
    requires s == Started().(play := s.play, producer := ProducerExited)
    ensures Reaches(c, s')
    ensures s' == s.(play := Playback(1, 1, 1, true, true), output := s'.output, time := Timeline(1, 0, true),
                     callback := Idle, control := Polling)
  {
    hide Reaches, FilledBuffer;
    OneFrame(1);
    var a := s.(time := s.time.(output := 1), play := s.play.(pulled := 1, framesConsumed := 1),
                output := s.output + FilledBuffer(c, NextPlayback(c, 0, 1), 0, 1), callback := Consumed);
    assert WritesPlayback(c, s, a, 1);
    CallbackMoves(c, s, a);
    var b := a.(play := a.play.(consumed := true), callback := Converting);
    CallbackMoves(c, a, b);
    s' := b.(callback := Idle, control := Polling);
    CallbackMoves(c, b, s');
  }

  /** A callback arrives and hands out silence, up to its input. */
  lemma SilentHalfRuns(c: Config, played: real, s: State) returns (s': State)
    requires c == OneFrameCapture(played) && Reaches(c, s) && s.time.output == 1
    requires s.control == Polling && s.entered == NOBODY && s.callback == Idle
    ensures Reaches(c, s') && s' == s.(output := s'.output, callback := Input)
  {
    hide Reaches, FilledBuffer;
    var a := s.(entered := s.entered.(arrived := 1));
    CallbackMoves(c, s, a);
    var b := s.(callback := Output);
    CallbackMoves(c, a, b);
    var d := b.(output := b.output + FilledBuffer(c, [], 0, 0), callback := Converting);
    assert WritesSilence(c, b, d, Converting);
    CallbackMoves(c, b, d);
    s' := d.(callback := Input);
    CallbackMoves(c, d, s');
  }

  /** The first input is dropped. */
  lemma FirstInputRuns(c: Config, played: real, s: State) returns (s': State)
    requires c == OneFrameCapture(played) && Reaches(c, s) && s.callback == Input && s.time == Timeline(1, 0, true)
    requires s.failure == NoFailure && !s.flags.reentrant && s.control == Polling
    ensures Reaches(c, s') && s' == s.(time := Timeline(1, 0, false), callback := Idle)
  {
    hide Reaches;
    var a := s.(time := s.time.(firstInput := false), callback := Finishing(true));
    CallbackMoves(c, s, a);
    var b := a.(callback := LookingForReentry);
    CallbackMoves(c, a, b);
    var d := b.(callback := Clearing(false));
    CallbackMoves(c, b, d);
    s' := d.(callback := Idle);
    CallbackMoves(c, d, s');
  }

  /** The second input is the recording. */
  lemma RecordingRuns(c: Config, played: real, recorded: real, s: State) returns (s': State)
    requires c == OneFrameCapture(played) && Reaches(c, s) && s.callback == Input && s.time == Timeline(1, 0, false)
    requires s.rec == Started().rec && s.control == Polling
    ensures Reaches(c, s')
    ensures s' == s.(time := Timeline(1, 1, false), callback := Finishing(true),
                     rec := Recording([recorded], 1, [recorded], 1, 0, 0, 1, false))
  {
    hide Reaches;
    OneFrame(1);
    var t := s.(time := s.time.(input := 1));
    var a := t.(rec := t.rec.(recorded := [] + [recorded], recordedFrames := 1, ring := [] + [recorded],
                              ringFrames := 1), callback := Completing);
    assert Records(c, t, a, [recorded], 1);
    CallbackMoves(c, s, a);
    s' := a.(rec := a.rec.(completedFrames := 1), callback := Finishing(true));
    CallbackMoves(c, a, s');
  }

  /** The recording is complete, and the callback says so. */
  lemma FinishingRuns(c: Config, played: real, s: State) returns (s': State)
    requires c == OneFrameCapture(played) && Reaches(c, s) && s.callback == Finishing(true)
    requires s.time == Timeline(1, 1, false) && s.play.consumed && s.failure == NoFailure && s.entered == NOBODY
    ensures Reaches(c, s')
    ensures s' == s.(rec := s.rec.(finished := true), callback := Clearing(true))
  {
    hide Reaches;
    var a := s.(callback := LookingForConsumed);
    CallbackMoves(c, s, a);
    var b := a.(callback := MarkFinished);
    CallbackMoves(c, a, b);
    s' := b.(rec := b.rec.(finished := true), callback := Clearing(true));
    CallbackMoves(c, b, s');
  }

  lemma EndingRuns(c: Config, d: State) returns (s': State)
    requires Reaches(c, d) && d.callback == Clearing(true) && d.entered == NOBODY
    ensures Reaches(c, s') && s' == d.(flags := d.flags.(done := true), callback := Idle)
  {
    hide Reaches;
    var e := d.(entered := d.entered.(ending := 1), callback := Idle);
    CallbackMoves(c, d, e);
    s' := e.(flags := e.flags.(done := true), entered := e.entered.(ending := 0));
    CallbackMoves(c, e, s');
  }

  lemma WriterTakes(c: Config, played: real, recorded: real, s: State) returns (s': State)
    requires c == OneFrameCapture(played) && Reaches(c, s) && s.writer == WriterTop
    requires s.rec == Recording([recorded], 1, [recorded], 1, 0, 0, 1, true) && s.file == Started().file
    ensures Reaches(c, s')
    ensures s' == s.(rec := s.rec.(taken := 1, takenFrames := 1), file := s'.file)
    ensures s'.file == File([recorded], 1, MaxReal(0.0, Peak([recorded])), 0.0, false)
  {
    hide Reaches, Peak;
    OneFrame(1);
    var a := s.(writer := WriterMeasured(1));
    WriterMoves(c, s, a);
    var b := a.(rec := a.rec.(taken := 1, takenFrames := 1), writer := WriterHolds([recorded], 1));
    assert a.rec.ring[0..1] == [recorded];
    assert Takes(c, a, b, 1, 1);
    WriterMoves(c, a, b);
    s' := b.(file := b.file.(samples := [] + [recorded], frames := 1, peak := MaxReal(0.0, Peak([recorded]))),
             writer := WriterTop);
    WriterMoves(c, b, s');
  }

  lemma WriterEnds(c: Config, played: real, s: State) returns (s': State)
    requires c == OneFrameCapture(played) && Reaches(c, s) && s.writer == WriterTop
    requires s.rec.taken == |s.rec.ring| && s.rec.finished && s.file.frames == 1
    ensures Reaches(c, s')
    ensures s' == s.(file := s.file.(rawPeak := s.file.peak, finished := true), writer := WriterExited)
  {
    hide Reaches;
    var a := s.(writer := WriterEmpty);
    WriterMoves(c, s, a);
    var b := a.(writer := WriterSawFinished);
    WriterMoves(c, a, b);
    var d := b.(writer := WriterEnded);
    WriterMoves(c, b, d);
    s' := d.(file := d.file.(rawPeak := d.file.peak, finished := true), writer := WriterExited);
    WriterMoves(c, d, s');
  }

  lemma ControlStops(c: Config, s: State) returns (s': State)
    requires Reaches(c, s) && s.control == Polling && s.flags.done && s.rec.finished
    requires s.callback == Idle && s.entered == NOBODY
    ensures Reaches(c, s') && s' == s.(control := Joining)
  {
    hide Reaches;
    var a := s.(control := Deciding);
    ControlMoves(c, s, a);
    var b := a.(control := SawDone);
    ControlMoves(c, a, b);
    var d := b.(control := Stopping(true));
    ControlMoves(c, b, d);
    var e := d.(control := Draining(true));
    ControlMoves(c, d, e);
    var f := e.(control := Drained(true));
    ControlMoves(c, e, f);
    s' := f.(control := Joining);
    ControlMoves(c, f, s');
  }

  lemma ControlReturns(c: Config, s: State) returns (s': State)
    requires Reaches(c, s) && s.control == Joining && s.producer == ProducerExited && s.writer == WriterExited
    requires !FatalDriverEvent(s) && s.rec.completedFrames >= c.TotalFrames() && s.file.finished
    ensures Reaches(c, s') && s' == s.(control := Returned)
  {
    hide Reaches;
    var a := s.(control := Checking);
    ControlMoves(c, s, a);
    s' := a.(control := Returned);
    ControlMoves(c, a, s');
  }

  /** Whatever sample is played and whatever is recorded, some run returns the recording. */
  lemma CaptureCanReturn(played: real, recorded: real) returns (run: seq<State>)
    ensures IsRun(OneFrameCapture(played), run)
    ensures run[|run| - 1].control == Returned && run[|run| - 1].file.samples == [recorded]
  {
    hide IsRun, Peak;
    var c, s := OneFrameCapture(played), Started();
    OneFrame(1);
    Starts(c, s);
    s := ProducerRuns(c, s);
    s := PrimingRuns(c, played, s);
    s := SilentHalfRuns(c, played, s);
    s := FirstInputRuns(c, played, s);
    s := SilentHalfRuns(c, played, s);
    s := RecordingRuns(c, played, recorded, s);
    s := FinishingRuns(c, played, s);
    s := EndingRuns(c, s);
    s := WriterTakes(c, played, recorded, s);
    s := WriterEnds(c, played, s);
    s := ControlStops(c, s);
    s := ControlReturns(c, s);
    run :| EndsIn(c, run, s);
    RunIsNotEmpty(c, run);
  }

  lemma RunIsNotEmpty(c: Config, run: seq<State>)
    requires IsRun(c, run)
    ensures |run| > 0
  {
  }
}
