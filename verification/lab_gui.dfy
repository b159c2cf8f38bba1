/**
 * The lab GUI driving the real camera: the series thread that runs a parsed
 * program against the camera, the button that parses and launches it, and
 * the camera-readiness test.
 */
module LabReadyGui {
  import opened Wrappers
  import opened Decimal
  import opened Tokens
  import opened Series
  import opened Timestamps
  import opened Devices
  import opened Acquisition

  /** Exposures (in ms) from this value up are saved after the burst, shorter ones during it. */
  const BatchThreshold: real := 1000.0

  predicate SavesWhileCapturing(exposure: real) { exposure < BatchThreshold }

  /** Python `int(x)` on a float: truncation toward zero. */
  function Trunc(x: real): (r: int)
    ensures x >= 0.0 ==> r as real <= x < r as real + 1.0
    ensures x < 0.0 ==> r as real - 1.0 < x <= r as real
  {
    if x >= 0.0 then x.Floor else -((-x).Floor)
  }

  /** Setting the exposure and starting the acquisition. */
  function Opening(exposure: real): seq<Event>
  {
    [SetExposure(Trunc(exposure)), Start]
  }

  /** The capture steps of a short-exposure burst: every frame is saved as it arrives. */
  function StreamedCaptures(fs: seq<Frame>, names: seq<string>): seq<Event>
    requires |names| == |fs|
  {
    if fs == [] then []
    else
      var n := |fs| - 1;
      StreamedCaptures(fs[..n], names[..n]) + [Wait, Read(fs[n]), Emit(fs[n]), Save(names[n], fs[n])]
  }

  /** The capture steps of a long-exposure burst: frames are only collected. */
  function BatchedCaptures(fs: seq<Frame>): seq<Event>
  {
    if fs == [] then [] else BatchedCaptures(fs[..|fs| - 1]) + [Wait, Read(fs[|fs| - 1]), Emit(fs[|fs| - 1])]
  }

  /**
   * The calls one burst makes when nothing fails, given the frames the
   * camera delivers and the clock readings taken for the file names.
   */
  function BurstLog(exposure: real, target: string, fs: seq<Frame>, ts: seq<DateTime>): seq<Event>
    requires |ts| == |fs| && AllValid(ts)
  {
    var names := Names(target, ts);
    Opening(exposure) +
    if SavesWhileCapturing(exposure) then StreamedCaptures(fs, names) + [Stop]
    else BatchedCaptures(fs) + [Stop] + Saves(fs, names)
  }

  /** A delay sleeps its value in milliseconds; a burst runs as BurstLog. */
  function CommandLog(c: Command, s: Supply): seq<Event>
    requires Fits(c, s)
  {
    match c
    case Delay(ms) => [Sleep(ms / 1000.0)]
    case Burst(n, e, target) => BurstLog(e, target, s.frames, s.stamps)
  }

  /** Each command's log, in program order; SimulatedGui.CommandLogs is its twin over the simulated CommandLog. */
  function CommandLogs(p: Program, supplies: seq<Supply>): (r: seq<seq<Event>>)
    requires AllFit(p, supplies)
    ensures |r| == |p|
  {
    seq(|p|, i requires 0 <= i < |p| => CommandLog(p[i], supplies[i]))
  }

  /** The calls a whole series makes when nothing fails: its commands' logs in program order. */
  function SeriesLog(p: Program, supplies: seq<Supply>): seq<Event>
    requires AllFit(p, supplies)
  {
    Concat(CommandLogs(p, supplies))
  }

  // ---- Facts about one burst ----

  lemma {:induction false} StreamedCapturesAt(fs: seq<Frame>, names: seq<string>)
    requires |names| == |fs|
    ensures var c := StreamedCaptures(fs, names);
      |c| == 4 * |fs| &&
      forall i :: 0 <= i < |fs| ==> c[4 * i..4 * i + 4] == [Wait, Read(fs[i]), Emit(fs[i]), Save(names[i], fs[i])]
  {
    if fs != [] {
      var n := |fs| - 1;
      StreamedCapturesAt(fs[..n], names[..n]);
      var c0 := StreamedCaptures(fs[..n], names[..n]);
      var step := [Wait, Read(fs[n]), Emit(fs[n]), Save(names[n], fs[n])];
      assert StreamedCaptures(fs, names) == c0 + step;
      forall i | 0 <= i < |fs|
        ensures (c0 + step)[4 * i..4 * i + 4] == [Wait, Read(fs[i]), Emit(fs[i]), Save(names[i], fs[i])]
      {
        if i < n {
          assert (c0 + step)[4 * i..4 * i + 4] == c0[4 * i..4 * i + 4];
          assert fs[..n][i] == fs[i] && names[..n][i] == names[i];
        } else {
          assert (c0 + step)[4 * i..4 * i + 4] == step;
        }
      }
    }
  }

  lemma {:induction false} BatchedCapturesAt(fs: seq<Frame>)
    ensures var c := BatchedCaptures(fs);
      |c| == 3 * |fs| &&
      (forall i :: 0 <= i < |fs| ==> c[3 * i..3 * i + 3] == [Wait, Read(fs[i]), Emit(fs[i])]) &&
      (forall j :: 0 <= j < |c| ==> !c[j].Save?)
  {
    if fs != [] {
      var n := |fs| - 1;
      BatchedCapturesAt(fs[..n]);
      var c := BatchedCaptures(fs);
      var c0 := BatchedCaptures(fs[..n]);
      forall i | 0 <= i < |fs|
        ensures c[3 * i..3 * i + 3] == [Wait, Read(fs[i]), Emit(fs[i])]
      {
        if i < n {
          assert c[3 * i..3 * i + 3] == c0[3 * i..3 * i + 3];
          assert fs[..n][i] == fs[i];
        }
      }
      forall j | 0 <= j < |c|
        ensures !c[j].Save?
      {
        if j < |c0| {
          assert c[j] == c0[j];
        }
      }
    }
  }

  /**
   * Below the threshold: exposure set to int(exposure), one start, then per
   * frame wait, read, emit and save under the target and that save's time
   * (so each save precedes the next wait), then one stop.
   */
  lemma StreamedBurstShape(exposure: real, target: string, fs: seq<Frame>, ts: seq<DateTime>)
    requires |ts| == |fs| && AllValid(ts)
    requires exposure < 1000.0
    ensures var log := BurstLog(exposure, target, fs, ts);
      |log| == 3 + 4 * |fs| &&
      log[0] == SetExposure(Trunc(exposure)) && log[1] == Start && log[|log| - 1] == Stop &&
      forall i :: 0 <= i < |fs| ==>
        log[2 + 4 * i..6 + 4 * i] == [Wait, Read(fs[i]), Emit(fs[i]), Save(FileName(target, ts[i]), fs[i])]
  {
    var names := Names(target, ts);
    StreamedCapturesAt(fs, names);
    assert BurstLog(exposure, target, fs, ts) == Opening(exposure) + StreamedCaptures(fs, names) + [Stop];
    StreamedLayout(Opening(exposure), StreamedCaptures(fs, names), fs, names);
    assert forall i :: 0 <= i < |fs| ==> names[i] == FileName(target, ts[i]);
  }

  /** The positions in `opening + captures + [Stop]`, for any streamed captures. */
  lemma StreamedLayout(o: seq<Event>, c: seq<Event>, fs: seq<Frame>, names: seq<string>)
    requires |o| == 2 && |names| == |fs| && |c| == 4 * |fs|
    requires forall i :: 0 <= i < |fs| ==> c[4 * i..4 * i + 4] == [Wait, Read(fs[i]), Emit(fs[i]), Save(names[i], fs[i])]
    ensures var log := o + c + [Stop];
      |log| == 3 + 4 * |fs| && log[..2] == o && log[|log| - 1] == Stop &&
      forall i :: 0 <= i < |fs| ==> log[2 + 4 * i..6 + 4 * i] == [Wait, Read(fs[i]), Emit(fs[i]), Save(names[i], fs[i])]
  {
    var log := o + c + [Stop];
    forall i | 0 <= i < |fs|
      ensures log[2 + 4 * i..6 + 4 * i] == [Wait, Read(fs[i]), Emit(fs[i]), Save(names[i], fs[i])]
    {
      assert log[2 + 4 * i..6 + 4 * i] == c[4 * i..4 * i + 4];
    }
  }

  /**
   * At or above the threshold: exposure set, one start, per frame wait, read
   * and emit, one stop, and only then one save per frame in capture order.
   */
  lemma BatchedBurstShape(exposure: real, target: string, fs: seq<Frame>, ts: seq<DateTime>)
    requires |ts| == |fs| && AllValid(ts)
    requires exposure >= 1000.0
    ensures var log := BurstLog(exposure, target, fs, ts);
      |log| == 3 + 4 * |fs| &&
      log[0] == SetExposure(Trunc(exposure)) && log[1] == Start && log[2 + 3 * |fs|] == Stop &&
      (forall i :: 0 <= i < |fs| ==> log[2 + 3 * i..5 + 3 * i] == [Wait, Read(fs[i]), Emit(fs[i])]) &&
      (forall i :: 0 <= i < |fs| ==> log[3 + 3 * |fs| + i] == Save(FileName(target, ts[i]), fs[i])) &&
      (forall j :: 0 <= j <= 2 + 3 * |fs| ==> !log[j].Save?)
  {
    BatchedCapturesAt(fs);
    var names := Names(target, ts);
    assert BurstLog(exposure, target, fs, ts) == Opening(exposure) + BatchedCaptures(fs) + [Stop] + Saves(fs, names);
    BatchedLayout(Opening(exposure), BatchedCaptures(fs), fs, names);
  }

  /** The positions in `opening + captures + [Stop] + saves`, for any batched captures. */
  lemma BatchedLayout(o: seq<Event>, c: seq<Event>, fs: seq<Frame>, names: seq<string>)
    requires |o| == 2 && !o[0].Save? && !o[1].Save? && |names| == |fs| && |c| == 3 * |fs|
    requires forall i :: 0 <= i < |fs| ==> c[3 * i..3 * i + 3] == [Wait, Read(fs[i]), Emit(fs[i])]
    requires forall j :: 0 <= j < |c| ==> !c[j].Save?
    ensures var log := o + c + [Stop] + Saves(fs, names);
      |log| == 3 + 4 * |fs| && log[..2] == o && log[2 + 3 * |fs|] == Stop &&
      (forall i :: 0 <= i < |fs| ==> log[2 + 3 * i..5 + 3 * i] == [Wait, Read(fs[i]), Emit(fs[i])]) &&
      (forall i :: 0 <= i < |fs| ==> log[3 + 3 * |fs| + i] == Save(names[i], fs[i])) &&
      (forall j :: 0 <= j <= 2 + 3 * |fs| ==> !log[j].Save?)
  {
    var s := Saves(fs, names);
    var log := o + c + [Stop] + s;
    var k := 2 + 3 * |fs|;
    assert log[..2] == o && log[2..k] == c && log[k] == Stop && log[k + 1..] == s;
    forall i | 0 <= i < |fs|
      ensures log[2 + 3 * i..5 + 3 * i] == [Wait, Read(fs[i]), Emit(fs[i])]
    {
      assert log[2 + 3 * i..5 + 3 * i] == log[2..k][3 * i..3 * i + 3];
    }
    forall i | 0 <= i < |fs|
      ensures log[k + 1 + i] == Save(names[i], fs[i])
    {
      assert log[k + 1 + i] == log[k + 1..][i];
    }
    forall j | 0 <= j <= k
      ensures !log[j].Save?
    {
      if j < 2 {
        assert log[j] == o[j];
      } else if j < k {
        assert log[j] == log[2..k][j - 2];
      } else {
        assert log[j] == Stop;
      }
    }
  }

  lemma {:induction false} StreamedCapturesFrames(fs: seq<Frame>, names: seq<string>, u: FrameUse)
    requires |names| == |fs|
    ensures FramesOf(StreamedCaptures(fs, names), u) == fs
  {
    if fs != [] {
      var n := |fs| - 1;
      var f := fs[n];
      var c0 := StreamedCaptures(fs[..n], names[..n]);
      var step := [Wait, Read(f), Emit(f), Save(names[n], f)];
      StreamedCapturesFrames(fs[..n], names[..n], u);
      FramesOfConcat(c0, step, u);
      StreamedStepFrames(f, names[n], u);
      calc {
        FramesOf(StreamedCaptures(fs, names), u);
        FramesOf(c0 + step, u);
        fs[..n] + [f];
        { LastSplit(fs); }
        fs;
      }
    }
  }

  /** One pass of the streamed capture loop reads, emits and saves its frame. */
  lemma StreamedStepFrames(f: Frame, name: string, u: FrameUse)
    ensures FramesOf([Wait, Read(f), Emit(f), Save(name, f)], u) == [f]
  {
    StepFrames(Wait, Read(f), Emit(f), Save(name, f), u);
  }

  lemma {:induction false} StreamedCapturesNames(fs: seq<Frame>, names: seq<string>)
    requires |names| == |fs|
    ensures SavedNames(StreamedCaptures(fs, names)) == names
  {
    if fs != [] {
      var n := |fs| - 1;
      var f := fs[n];
      StreamedCapturesNames(fs[..n], names[..n]);
      SavedNamesConcat(StreamedCaptures(fs[..n], names[..n]), [Wait, Read(f), Emit(f), Save(names[n], f)]);
      StepNames(Wait, Read(f), Emit(f), Save(names[n], f));
      assert names[..n] + [names[n]] == names;
    }
  }

  lemma {:induction false} StreamedCapturesCount(fs: seq<Frame>, names: seq<string>, e: Event)
    requires |names| == |fs|
    requires e == Start || e == Stop || e == Wait
    ensures Count(StreamedCaptures(fs, names), e) == if e == Wait then |fs| else 0
  {
    if fs != [] {
      var n := |fs| - 1;
      var f := fs[n];
      StreamedCapturesCount(fs[..n], names[..n], e);
      CountConcat(StreamedCaptures(fs[..n], names[..n]), [Wait, Read(f), Emit(f), Save(names[n], f)], e);
      StepCounts(Wait, Read(f), Emit(f), Save(names[n], f), e);
    }
  }

  lemma {:induction false} BatchedCapturesFrames(fs: seq<Frame>, u: FrameUse)
    ensures FramesOf(BatchedCaptures(fs), u) == if u == Saving then [] else fs
  {
    if fs != [] {
      var n := |fs| - 1;
      var f := fs[n];
      var c0 := BatchedCaptures(fs[..n]);
      var step := [Wait, Read(f), Emit(f)];
      BatchedCapturesFrames(fs[..n], u);
      FramesOfConcat(c0, step, u);
      BatchedStepFrames(f, u);
      if u == Saving {
        calc {
          FramesOf(BatchedCaptures(fs), u);
          FramesOf(c0 + step, u);
          [] + [];
        }
      } else {
        calc {
          FramesOf(BatchedCaptures(fs), u);
          FramesOf(c0 + step, u);
          fs[..n] + [f];
          { LastSplit(fs); }
          fs;
        }
      }
    }
  }

  /** One pass of the batched capture loop reads and emits its frame. */
  lemma BatchedStepFrames(f: Frame, u: FrameUse)
    ensures FramesOf([Wait, Read(f), Emit(f)], u) == if u == Saving then [] else [f]
  {
    StepFrames(Wait, Read(f), Emit(f), Stop, u);
  }

  lemma {:induction false} BatchedCapturesNames(fs: seq<Frame>)
    ensures SavedNames(BatchedCaptures(fs)) == []
  {
    if fs != [] {
      var n := |fs| - 1;
      var f := fs[n];
      BatchedCapturesNames(fs[..n]);
      SavedNamesConcat(BatchedCaptures(fs[..n]), [Wait, Read(f), Emit(f)]);
      StepNames(Wait, Read(f), Emit(f), Stop);
    }
  }

  lemma {:induction false} BatchedCapturesCount(fs: seq<Frame>, e: Event)
    requires e == Start || e == Stop || e == Wait
    ensures Count(BatchedCaptures(fs), e) == if e == Wait then |fs| else 0
  {
    if fs != [] {
      var n := |fs| - 1;
      var f := fs[n];
      BatchedCapturesCount(fs[..n], e);
      CountConcat(BatchedCaptures(fs[..n]), [Wait, Read(f), Emit(f)], e);
      StepCounts(Wait, Read(f), Emit(f), Stop, e);
    }
  }

  /** The burst's frames of one kind are exactly the captured frames, in capture order. */
  lemma BurstFramesOf(exposure: real, target: string, fs: seq<Frame>, ts: seq<DateTime>, u: FrameUse)
    requires |ts| == |fs| && AllValid(ts)
    ensures FramesOf(BurstLog(exposure, target, fs, ts), u) == fs
  {
    var o := Opening(exposure);
    StepFrames(SetExposure(Trunc(exposure)), Start, Stop, Stop, u);
    assert FramesOf(o, u) == [];
    var rest := if SavesWhileCapturing(exposure) then StreamedCaptures(fs, Names(target, ts)) + [Stop]
      else BatchedCaptures(fs) + [Stop] + Saves(fs, Names(target, ts));
    assert BurstLog(exposure, target, fs, ts) == o + rest;
    if SavesWhileCapturing(exposure) {
      StreamedRestFrames(fs, Names(target, ts), u);
    } else {
      BatchedRestFrames(fs, Names(target, ts), u);
    }
    FramesOfConcat(o, rest, u);
  }

  lemma StreamedRestFrames(fs: seq<Frame>, names: seq<string>, u: FrameUse)
    requires |names| == |fs|
    ensures FramesOf(StreamedCaptures(fs, names) + [Stop], u) == fs
  {
    StepFrames(Stop, Stop, Stop, Stop, u);
    StreamedCapturesFrames(fs, names, u);
    FramesOfConcat(StreamedCaptures(fs, names), [Stop], u);
  }

  lemma BatchedRestFrames(fs: seq<Frame>, names: seq<string>, u: FrameUse)
    requires |names| == |fs|
    ensures FramesOf(BatchedCaptures(fs) + [Stop] + Saves(fs, names), u) == fs
  {
    BatchedCapturesFrames(fs, u);
    SavesFrames(fs, names, u);
    StopBetween(BatchedCaptures(fs), Saves(fs, names), fs, u);
  }

  /** Frames that only the captures or only the saves use, around the stop. */
  lemma StopBetween(c: seq<Event>, s: seq<Event>, fs: seq<Frame>, u: FrameUse)
    requires FramesOf(c, u) == if u == Saving then [] else fs
    requires FramesOf(s, u) == if u == Saving then fs else []
    ensures FramesOf(c + [Stop] + s, u) == fs
  {
    assert FramesOf([Stop], u) == [] by {
      StepFrames(Stop, Stop, Stop, Stop, u);
    }
    FramesOfConcat(c, [Stop], u);
    FramesOfConcat(c + [Stop], s, u);
    if u == Saving {
      assert FramesOf(c + [Stop] + s, u) == [] + [] + fs;
    } else {
      assert FramesOf(c + [Stop] + s, u) == fs + [] + [];
    }
  }

  lemma BurstNames(exposure: real, target: string, fs: seq<Frame>, ts: seq<DateTime>)
    requires |ts| == |fs| && AllValid(ts)
    ensures SavedNames(BurstLog(exposure, target, fs, ts)) == Names(target, ts)
  {
    var o := Opening(exposure);
    var names := Names(target, ts);
    StepNames(SetExposure(Trunc(exposure)), Start, Stop, Stop);
    if SavesWhileCapturing(exposure) {
      var c := StreamedCaptures(fs, names);
      assert BurstLog(exposure, target, fs, ts) == o + (c + [Stop]);
      StreamedCapturesNames(fs, names);
      SavedNamesConcat(o, c + [Stop]);
      SavedNamesConcat(c, [Stop]);
    } else {
      var c := BatchedCaptures(fs);
      var s := Saves(fs, names);
      assert BurstLog(exposure, target, fs, ts) == o + (c + [Stop] + s);
      BatchedCapturesNames(fs);
      SavesNames(fs, names);
      SavedNamesConcat(o, c + [Stop] + s);
      SavedNamesConcat(c + [Stop], s);
      SavedNamesConcat(c, [Stop]);
    }
  }

  lemma BurstCount(exposure: real, target: string, fs: seq<Frame>, ts: seq<DateTime>, e: Event)
    requires |ts| == |fs| && AllValid(ts)
    requires e == Start || e == Stop || e == Wait
    ensures Count(BurstLog(exposure, target, fs, ts), e) == if e == Wait then |fs| else 1
  {
    StepCounts(SetExposure(Trunc(exposure)), Start, Stop, Stop, e);
    if SavesWhileCapturing(exposure) {
      StreamedBurstCount(exposure, target, fs, ts, e);
    } else {
      BatchedBurstCount(exposure, target, fs, ts, e);
    }
  }

  lemma StreamedBurstCount(exposure: real, target: string, fs: seq<Frame>, ts: seq<DateTime>, e: Event)
    requires |ts| == |fs| && AllValid(ts) && SavesWhileCapturing(exposure)
    requires e == Start || e == Stop || e == Wait
    ensures Count(BurstLog(exposure, target, fs, ts), e) == Count(Opening(exposure), e) + (if e == Wait then |fs| else 0) + Count([Stop], e)
  {
    var o := Opening(exposure);
    var names := Names(target, ts);
    var c := StreamedCaptures(fs, names);
    assert BurstLog(exposure, target, fs, ts) == o + (c + [Stop]);
    StreamedCapturesCount(fs, names, e);
    CountConcat(o, c + [Stop], e);
    CountConcat(c, [Stop], e);
  }

  lemma BatchedBurstCount(exposure: real, target: string, fs: seq<Frame>, ts: seq<DateTime>, e: Event)
    requires |ts| == |fs| && AllValid(ts) && !SavesWhileCapturing(exposure)
    requires e == Start || e == Stop || e == Wait
    ensures Count(BurstLog(exposure, target, fs, ts), e) == Count(Opening(exposure), e) + (if e == Wait then |fs| else 0) + Count([Stop], e)
  {
    var o := Opening(exposure);
    var names := Names(target, ts);
    var c := BatchedCaptures(fs);
    var s := Saves(fs, names);
    assert BurstLog(exposure, target, fs, ts) == o + (c + [Stop] + s);
    BatchedCapturesCount(fs, e);
    SavesCount(fs, names, e);
    CountConcat(o, c + [Stop] + s, e);
    CountConcat(c + [Stop], s, e);
    CountConcat(c, [Stop], e);
  }

  /**
   * In both modes a burst reads, emits and saves exactly the frames the
   * camera delivered, each once and in capture order, under the target's
   * name; it starts and stops the acquisition once and waits once per frame.
   */
  lemma BurstFrames(exposure: real, target: string, fs: seq<Frame>, ts: seq<DateTime>)
    requires |ts| == |fs| && AllValid(ts)
    ensures var log := BurstLog(exposure, target, fs, ts);
      FramesOf(log, Reading) == fs && FramesOf(log, Emitting) == fs && FramesOf(log, Saving) == fs &&
      SavedNames(log) == Names(target, ts) &&
      Count(log, Start) == 1 && Count(log, Stop) == 1 && Count(log, Wait) == |fs|
  {
    BurstFramesOf(exposure, target, fs, ts, Reading);
    BurstFramesOf(exposure, target, fs, ts, Emitting);
    BurstFramesOf(exposure, target, fs, ts, Saving);
    BurstNames(exposure, target, fs, ts);
    BurstCount(exposure, target, fs, ts, Start);
    BurstCount(exposure, target, fs, ts, Stop);
    BurstCount(exposure, target, fs, ts, Wait);
  }

  // ---- Running one burst against the camera ----

  /** The capture steps logged so far in either mode (in the batched mode no names are used yet). */
  function Captures(exposure: real, fs: seq<Frame>, names: seq<string>): seq<Event>
    requires SavesWhileCapturing(exposure) ==> |names| == |fs|
  {
    if SavesWhileCapturing(exposure) then StreamedCaptures(fs, names) else BatchedCaptures(fs)
  }

  lemma {:induction false} StreamedCapturesPrefix(fs: seq<Frame>, names: seq<string>, k: nat)
    requires |names| == |fs| && k <= |fs|
    ensures |StreamedCaptures(fs, names)| == 4 * |fs|
    ensures StreamedCaptures(fs, names)[..4 * k] == StreamedCaptures(fs[..k], names[..k])
  {
    StreamedCapturesAt(fs, names);
    if k < |fs| {
      var n := |fs| - 1;
      StreamedCapturesPrefix(fs[..n], names[..n], k);
      assert fs[..n][..k] == fs[..k] && names[..n][..k] == names[..k];
      var c0 := StreamedCaptures(fs[..n], names[..n]);
      assert StreamedCaptures(fs, names)[..4 * k] == c0[..4 * k];
    } else {
      assert fs[..k] == fs && names[..k] == names;
    }
  }

  lemma {:induction false} BatchedCapturesPrefix(fs: seq<Frame>, k: nat)
    requires k <= |fs|
    ensures |BatchedCaptures(fs)| == 3 * |fs|
    ensures BatchedCaptures(fs)[..3 * k] == BatchedCaptures(fs[..k])
  {
    BatchedCapturesAt(fs);
    if k < |fs| {
      var n := |fs| - 1;
      BatchedCapturesPrefix(fs[..n], k);
      assert fs[..n][..k] == fs[..k];
      var c0 := BatchedCaptures(fs[..n]);
      assert BatchedCaptures(fs)[..3 * k] == c0[..3 * k];
    } else {
      assert fs[..k] == fs;
    }
  }

  /** Stopping part-way through the step that follows `c0` in `c`, the log is a strict prefix. */
  lemma StepPrefix(o: seq<Event>, c: seq<Event>, c0: seq<Event>, step: seq<Event>, p: seq<Event>, tail: seq<Event>)
    requires |c0| + |step| <= |c| && c[..|c0| + |step|] == c0 + step
    requires |p| < |step| && p == step[..|p|]
    ensures StrictPrefix(o + c0 + p, o + (c + tail))
  {
    assert c[..|c0| + |p|] == (c0 + step)[..|c0| + |p|] == c0 + p;
    assert (o + (c + tail))[..|o| + |c0| + |p|] == o + c[..|c0| + |p|];
  }

  /** The first k + 1 passes of the capture loop are the first k and then the k-th. */
  lemma StreamedCapturesNth(fs: seq<Frame>, names: seq<string>, k: nat)
    requires |names| == |fs| && k < |fs|
    ensures |StreamedCaptures(fs, names)| == 4 * |fs|
    ensures StreamedCaptures(fs, names)[..4 * k + 4] ==
      StreamedCaptures(fs[..k], names[..k]) + [Wait, Read(fs[k]), Emit(fs[k]), Save(names[k], fs[k])]
  {
    StreamedCapturesPrefix(fs, names, k + 1);
    assert fs[..k + 1][..k] == fs[..k] && names[..k + 1][..k] == names[..k];
    assert fs[..k + 1][k] == fs[k] && names[..k + 1][k] == names[k];
  }

  lemma StreamedFailure(exposure: real, target: string, fs: seq<Frame>, ts: seq<DateTime>, k: nat, p: seq<Event>)
    requires |ts| == |fs| && AllValid(ts) && k < |fs| && SavesWhileCapturing(exposure)
    requires p == [] || p == [Wait] || p == [Wait, Read(fs[k]), Emit(fs[k])]
    ensures StrictPrefix(Opening(exposure) + StreamedCaptures(fs[..k], Names(target, ts)[..k]) + p, BurstLog(exposure, target, fs, ts))
  {
    var names := Names(target, ts);
    var c := StreamedCaptures(fs, names);
    var c0 := StreamedCaptures(fs[..k], names[..k]);
    var step := [Wait, Read(fs[k]), Emit(fs[k]), Save(names[k], fs[k])];
    StreamedCapturesNth(fs, names, k);
    assert p == step[..|p|];
    StepPrefix(Opening(exposure), c, c0, step, p, [Stop]);
  }

  lemma BatchedFailure(exposure: real, target: string, fs: seq<Frame>, ts: seq<DateTime>, k: nat, p: seq<Event>)
    requires |ts| == |fs| && AllValid(ts) && k < |fs| && !SavesWhileCapturing(exposure)
    requires p == [] || p == [Wait]
    ensures StrictPrefix(Opening(exposure) + BatchedCaptures(fs[..k]) + p, BurstLog(exposure, target, fs, ts))
  {
    var c := BatchedCaptures(fs);
    var c0 := BatchedCaptures(fs[..k]);
    var step := [Wait, Read(fs[k]), Emit(fs[k])];
    BatchedCapturesPrefix(fs, k + 1);
    BatchedCapturesPrefix(fs, k);
    assert fs[..k + 1][..k] == fs[..k];
    assert c[..3 * k + 3] == c0 + step;
    var tail := [Stop] + Saves(fs, Names(target, ts));
    assert BurstLog(exposure, target, fs, ts) == Opening(exposure) + (c + tail);
    StepPrefix(Opening(exposure), c, c0, step, p, tail);
  }

  /** A burst that fails inside the capture loop has logged a strict prefix of its full log. */
  lemma CaptureFailure(exposure: real, target: string, fs: seq<Frame>, ts: seq<DateTime>, k: nat, p: seq<Event>)
    requires |ts| == |fs| && AllValid(ts) && k < |fs|
    requires p == [] || p == [Wait] || (SavesWhileCapturing(exposure) && p == [Wait, Read(fs[k]), Emit(fs[k])])
    ensures StrictPrefix(Opening(exposure) + Captures(exposure, fs[..k], Names(target, ts)[..k]) + p, BurstLog(exposure, target, fs, ts))
  {
    if SavesWhileCapturing(exposure) {
      StreamedFailure(exposure, target, fs, ts, k, p);
    } else {
      BatchedFailure(exposure, target, fs, ts, k, p);
    }
  }

  /** A burst whose stop fails has logged everything before the stop. */
  lemma StopFailure(exposure: real, target: string, fs: seq<Frame>, ts: seq<DateTime>)
    requires |ts| == |fs| && AllValid(ts)
    ensures StrictPrefix(Opening(exposure) + Captures(exposure, fs, Names(target, ts)), BurstLog(exposure, target, fs, ts))
  {
    var o := Opening(exposure);
    var log := BurstLog(exposure, target, fs, ts);
    var c := Captures(exposure, fs, Names(target, ts));
    if SavesWhileCapturing(exposure) {
      assert log == o + c + [Stop];
    } else {
      assert log == o + c + ([Stop] + Saves(fs, Names(target, ts)));
    }
    assert log[..|o + c|] == o + c;
  }

  /** A long-exposure burst whose k-th save fails has logged the earlier saves. */
  lemma SaveFailure(exposure: real, target: string, fs: seq<Frame>, ts: seq<DateTime>, k: nat)
    requires |ts| == |fs| && AllValid(ts) && k < |fs| && !SavesWhileCapturing(exposure)
    ensures StrictPrefix(Opening(exposure) + BatchedCaptures(fs) + [Stop] + Saves(fs[..k], Names(target, ts)[..k]), BurstLog(exposure, target, fs, ts))
  {
    var a := Opening(exposure) + BatchedCaptures(fs) + [Stop];
    assert BurstLog(exposure, target, fs, ts) == a + Saves(fs, Names(target, ts));
    SavesStrictPrefix(a, fs, Names(target, ts), k);
  }

  /**
   * One burst of `CaptureSeriesThread.run`: set the exposure to int(exposure),
   * start, then per frame wait, read, emit, and below the threshold save at
   * once under the target name and the current time; stop; at or above the
   * threshold save all frames afterwards. The first call that raises ends the
   * burst with the acquisition as it is. `fs` and `ts` are the frames and
   * clock readings the run received (padded when it failed early).
   */
  method RunBurst(rig: Rig, n: int, exposure: real, target: string)
    returns (ok: bool, ghost fs: seq<Frame>, ghost ts: seq<DateTime>, ghost trace: seq<Event>)
    modifies rig
    ensures |fs| == |ts| == Max0(n) && AllValid(ts)
    ensures rig.log == old(rig.log) + trace
    ensures ok ==> trace == BurstLog(exposure, target, fs, ts)
    ensures !ok ==> StrictPrefix(trace, BurstLog(exposure, target, fs, ts))
  {
    ghost var log0 := rig.log;
    ghost var m := Max0(n);
    fs, ts, trace := Filled([], m, NoFrame), Filled([], m, Epoch), [];
    FilledValid([], m);
    ok := rig.SetExposureTime(Trunc(exposure));
    if !ok {
      OpeningFailure(exposure, target, fs, ts, trace);
      return;
    }
    trace := [SetExposure(Trunc(exposure))];
    ok := rig.StartAcquisition();
    if !ok {
      OpeningFailure(exposure, target, fs, ts, trace);
      return;
    }
    Extend(log0, trace, [Start]);
    ghost var tail;
    ok, fs, ts, tail := Acquire(rig, n, exposure, target);
    Extend(log0, Opening(exposure), tail);
    trace := Opening(exposure) + tail;
  }

  /**
   * The burst after the acquisition has started: the capture loop, then
   * Finish. `tail` is what it logs.
   */
  method Acquire(rig: Rig, n: int, exposure: real, target: string)
    returns (ok: bool, ghost fs: seq<Frame>, ghost ts: seq<DateTime>, ghost tail: seq<Event>)
    modifies rig
    ensures |fs| == |ts| == Max0(n) && AllValid(ts)
    ensures rig.log == old(rig.log) + tail
    ensures ok ==> Opening(exposure) + tail == BurstLog(exposure, target, fs, ts)
    ensures !ok ==> StrictPrefix(Opening(exposure) + tail, BurstLog(exposure, target, fs, ts))
  {
    ghost var m := Max0(n);
    var images;
    ghost var stamps, partial, pending;
    ok, images, stamps, partial, pending := CaptureFrames(rig, n, exposure, target);
    if !ok {
      tail := Captures(exposure, images, Names(target, stamps)) + partial;
      fs, ts := FailInCapture(exposure, target, images, stamps, m, pending, partial, tail);
      return;
    }
    ghost var c := Captures(exposure, images, Names(target, stamps));
    ghost var rest;
    ok, fs, ts, rest := Finish(rig, images, stamps, exposure, target);
    Extend(old(rig.log), c, rest);
    tail := c + rest;
  }

  /**
   * The end of a burst whose capture loop completed: stop the acquisition
   * and, at or above the threshold, run the save loop.
   */
  method Finish(rig: Rig, images: seq<Frame>, ghost stamps: seq<DateTime>, exposure: real, target: string)
    returns (ok: bool, ghost fs: seq<Frame>, ghost ts: seq<DateTime>, ghost rest: seq<Event>)
    requires AllValid(stamps) && |stamps| == if SavesWhileCapturing(exposure) then |images| else 0
    modifies rig
    ensures fs == images && |ts| == |images| && AllValid(ts)
    ensures rig.log == old(rig.log) + rest
    ensures var c := Captures(exposure, images, Names(target, stamps));
      (ok ==> Opening(exposure) + (c + rest) == BurstLog(exposure, target, fs, ts)) &&
      (!ok ==> StrictPrefix(Opening(exposure) + (c + rest), BurstLog(exposure, target, fs, ts)))
  {
    fs := images;
    ok := rig.StopAcquisition();
    if !ok {
      ts, rest := Filled(stamps, |images|, Epoch), [];
      FailAtStop(exposure, target, images, stamps);
    } else if SavesWhileCapturing(exposure) {
      ts, rest := stamps, [Stop];
      StreamedComplete(exposure, target, images, stamps);
    } else {
      ghost var saves;
      ok, ts, saves := SaveAfterStop(rig, images, exposure, target);
      Extend(Opening(exposure) + BatchedCaptures(images), [Stop], saves);
      rest := [Stop] + saves;
    }
    Extend(Opening(exposure), Captures(exposure, images, Names(target, stamps)), rest);
  }

  /** The save loop of a long-exposure burst, run once the acquisition has stopped. */
  method SaveAfterStop(rig: Rig, images: seq<Frame>, exposure: real, target: string)
    returns (ok: bool, ghost ts: seq<DateTime>, ghost saves: seq<Event>)
    requires !SavesWhileCapturing(exposure)
    modifies rig
    ensures |ts| == |images| && AllValid(ts)
    ensures rig.log == old(rig.log) + saves
    ensures var done := Opening(exposure) + BatchedCaptures(images) + [Stop] + saves;
      (ok ==> done == BurstLog(exposure, target, images, ts)) &&
      (!ok ==> StrictPrefix(done, BurstLog(exposure, target, images, ts)))
  {
    ghost var saved;
    ok, saved := SaveAll(rig, images, target);
    saves := Saves(images[..|saved|], Names(target, saved));
    if !ok {
      ts := Filled(saved, |images|, Epoch);
      FailInSaves(exposure, target, images, saved);
    } else {
      ts := saved;
      BatchedComplete(exposure, target, images, saved);
    }
  }

  lemma OpeningFailure(exposure: real, target: string, fs: seq<Frame>, ts: seq<DateTime>, trace: seq<Event>)
    requires |ts| == |fs| && AllValid(ts)
    requires trace == [] || trace == [SetExposure(Trunc(exposure))]
    ensures StrictPrefix(trace, BurstLog(exposure, target, fs, ts))
  {
    assert BurstLog(exposure, target, fs, ts)[..2] == Opening(exposure);
  }

  lemma FailAtStop(exposure: real, target: string, images: seq<Frame>, stamps: seq<DateTime>)
    requires AllValid(stamps) && |stamps| == (if SavesWhileCapturing(exposure) then |images| else 0)
    ensures var ts := Filled(stamps, |images|, Epoch);
      AllValid(ts) && Names(target, stamps) == (if SavesWhileCapturing(exposure) then Names(target, ts) else []) &&
      StrictPrefix(Opening(exposure) + Captures(exposure, images, Names(target, stamps)), BurstLog(exposure, target, images, ts))
  {
    var ts := Filled(stamps, |images|, Epoch);
    FilledValid(stamps, |images|);
    if SavesWhileCapturing(exposure) {
      assert ts == stamps;
    }
    StopFailure(exposure, target, images, ts);
  }

  lemma StreamedComplete(exposure: real, target: string, images: seq<Frame>, stamps: seq<DateTime>)
    requires AllValid(stamps) && |stamps| == |images| && SavesWhileCapturing(exposure)
    ensures Opening(exposure) + Captures(exposure, images, Names(target, stamps)) + [Stop] == BurstLog(exposure, target, images, stamps)
  {
  }

  lemma BatchedComplete(exposure: real, target: string, images: seq<Frame>, stamps: seq<DateTime>)
    requires AllValid(stamps) && |stamps| == |images| && !SavesWhileCapturing(exposure)
    ensures Opening(exposure) + Captures(exposure, images, []) + [Stop] + Saves(images[..|stamps|], Names(target, stamps)) ==
      BurstLog(exposure, target, images, stamps)
  {
    assert images[..|stamps|] == images;
  }

  /** What one pass of the capture loop logs: below the threshold the frame is also saved. */
  function CaptureStep(exposure: real, img: Frame, name: string): seq<Event>
  {
    if SavesWhileCapturing(exposure) then [Wait, Read(img), Emit(img), Save(name, img)] else [Wait, Read(img), Emit(img)]
  }

  predicate Unfinished(exposure: real, partial: seq<Event>, pending: Frame)
  {
    partial == [] || partial == [Wait] || (SavesWhileCapturing(exposure) && partial == [Wait, Read(pending), Emit(pending)])
  }

  /**
   * One pass of the capture loop: wait for a frame, read it, emit it and,
   * below the threshold, save it under the target and the current time `t`.
   * A failing call ends the pass; `partial` is what it logged.
   */
  method CaptureOne(rig: Rig, exposure: real, target: string)
    returns (ok: bool, img: Frame, t: DateTime, ghost partial: seq<Event>)
    modifies rig
    ensures Valid(t)
    ensures ok ==> rig.log == old(rig.log) + CaptureStep(exposure, img, FileName(target, t))
    ensures !ok ==> Unfinished(exposure, partial, img) && rig.log == old(rig.log) + partial
  {
    ghost var l0 := rig.log;
    t, partial := Epoch, [];
    img := NoFrame;
    ok := rig.WaitForFrame();
    if !ok {
      return;
    }
    ok, img := rig.ReadOldestImage();
    if !ok {
      partial := [Wait];
      return;
    }
    Extend(l0, [Wait], [Read(img)]);
    assert [Wait] + [Read(img)] == [Wait, Read(img)];
    rig.EmitImage(img);
    Extend(l0, [Wait, Read(img)], [Emit(img)]);
    assert [Wait, Read(img)] + [Emit(img)] == [Wait, Read(img), Emit(img)];
    if SavesWhileCapturing(exposure) {
      t := rig.Now();
      ok := rig.SaveCompressed(FileName(target, t), img);
      if !ok {
        partial := [Wait, Read(img), Emit(img)];
      } else {
        Extend(l0, [Wait, Read(img), Emit(img)], [Save(FileName(target, t), img)]);
        assert [Wait, Read(img), Emit(img)] + [Save(FileName(target, t), img)] == [Wait, Read(img), Emit(img), Save(FileName(target, t), img)];
      }
    }
  }

  lemma CapturesStep(exposure: real, images: seq<Frame>, target: string, stamps: seq<DateTime>, img: Frame, t: DateTime)
    requires AllValid(stamps) && Valid(t)
    requires |stamps| == if SavesWhileCapturing(exposure) then |images| else 0
    ensures var stamps' := if SavesWhileCapturing(exposure) then stamps + [t] else stamps;
      AllValid(stamps') &&
      Captures(exposure, images + [img], Names(target, stamps')) ==
      Captures(exposure, images, Names(target, stamps)) + CaptureStep(exposure, img, FileName(target, t))
  {
    if SavesWhileCapturing(exposure) {
      StreamedStep(images, target, stamps, img, t);
    } else {
      assert (images + [img])[..|images|] == images;
    }
  }

  /**
   * The capture loop of a burst: while fewer than `n` frames are held, one
   * pass of CaptureOne. On a failing call `partial` is what the unfinished
   * pass logged and `pending` the frame it had read.
   */
  method CaptureFrames(rig: Rig, n: int, exposure: real, target: string)
    returns (ok: bool, images: seq<Frame>, ghost stamps: seq<DateTime>, ghost partial: seq<Event>, ghost pending: Frame)
    modifies rig
    ensures AllValid(stamps) && |stamps| == if SavesWhileCapturing(exposure) then |images| else 0
    ensures ok ==> |images| == Max0(n) && partial == []
    ensures !ok ==> |images| < Max0(n) && Unfinished(exposure, partial, pending)
    ensures ok ==> rig.log == old(rig.log) + Captures(exposure, images, Names(target, stamps))
    ensures !ok ==> rig.log == old(rig.log) + Captures(exposure, images, Names(target, stamps)) + partial
  {
    images, stamps, partial, pending := [], [], [], NoFrame;
    while |images| < n
      invariant |images| <= Max0(n) && AllValid(stamps)
      invariant |stamps| == if SavesWhileCapturing(exposure) then |images| else 0
      invariant rig.log == old(rig.log) + Captures(exposure, images, Names(target, stamps))
      decreases n - |images|
    {
      var img;
      var t;
      ok, img, t, partial := CaptureOne(rig, exposure, target);
      if !ok {
        pending := img;
        return;
      }
      CapturesStep(exposure, images, target, stamps, img, t);
      Extend(old(rig.log), Captures(exposure, images, Names(target, stamps)), CaptureStep(exposure, img, FileName(target, t)));
      if SavesWhileCapturing(exposure) {
        stamps := stamps + [t];
      }
      images := images + [img];
    }
    ok, partial := true, [];
  }

  /** The capture loop's failure cases, stated on the padded frames and clock readings. */
  lemma FailInCapture(exposure: real, target: string, images: seq<Frame>, stamps: seq<DateTime>, m: nat, img: Frame, p: seq<Event>,
                       tail: seq<Event>)
    returns (fs: seq<Frame>, ts: seq<DateTime>)
    requires |images| < m && AllValid(stamps)
    requires |stamps| == if SavesWhileCapturing(exposure) then |images| else 0
    requires Unfinished(exposure, p, img)
    requires tail == Captures(exposure, images, Names(target, stamps)) + p
    ensures |fs| == |ts| == m && AllValid(ts)
    ensures fs[..|images|] == images && ts[..|stamps|] == stamps
    ensures StrictPrefix(Opening(exposure) + tail, BurstLog(exposure, target, fs, ts))
  {
    fs, ts := Filled(if |p| == 3 then images + [img] else images, m, NoFrame), Filled(stamps, m, Epoch);
    var k := |images|;
    var got := if |p| == 3 then images + [img] else images;
    FilledValid(stamps, m);
    assert fs[..k] == got[..k] == images;
    if |p| == 3 {
      assert fs[k] == fs[..k + 1][k] == img;
    }
    if SavesWhileCapturing(exposure) {
      NamesPrefix(target, ts, k);
      assert ts[..k] == stamps;
    }
    CaptureFailure(exposure, target, fs, ts, k, p);
    Extend(Opening(exposure), Captures(exposure, images, Names(target, stamps)), p);
  }

  lemma FailInSaves(exposure: real, target: string, images: seq<Frame>, stamps: seq<DateTime>)
    requires |stamps| < |images| && AllValid(stamps) && !SavesWhileCapturing(exposure)
    ensures var ts := Filled(stamps, |images|, Epoch);
      AllValid(ts) &&
      StrictPrefix(Opening(exposure) + BatchedCaptures(images) + [Stop] + Saves(images[..|stamps|], Names(target, stamps)), BurstLog(exposure, target, images, ts))
  {
    var ts := Filled(stamps, |images|, Epoch);
    FilledValid(stamps, |images|);
    NamesPrefix(target, ts, |stamps|);
    assert ts[..|stamps|] == stamps;
    SaveFailure(exposure, target, images, ts, |stamps|);
  }

  lemma StreamedStep(images: seq<Frame>, target: string, stamps: seq<DateTime>, img: Frame, t: DateTime)
    requires |stamps| == |images| && AllValid(stamps) && Valid(t)
    ensures AllValid(stamps + [t])
    ensures StreamedCaptures(images + [img], Names(target, stamps + [t])) ==
      StreamedCaptures(images, Names(target, stamps)) + [Wait, Read(img), Emit(img), Save(FileName(target, t), img)]
  {
    var ts := stamps + [t];
    assert AllValid(ts);
    NamesPrefix(target, ts, |stamps|);
    assert ts[..|stamps|] == stamps && (images + [img])[..|images|] == images;
  }

  // ---- The series thread ----

  lemma AllFitPrefix(p: Program, s: seq<Supply>, k: nat)
    requires AllFit(p, s) && k <= |p|
    ensures AllFit(p[..k], s[..k]) && CommandLogs(p[..k], s[..k]) == CommandLogs(p, s)[..k]
  {
    assert forall i :: 0 <= i < k ==> p[..k][i] == p[i] && s[..k][i] == s[i];
  }

  /** The series after one more command: its supply is appended and its log follows. */
  lemma SeriesStep(p: Program, done: seq<Supply>, sup: Supply)
    requires |done| < |p| && AllFit(p[..|done|], done) && Fits(p[|done|], sup)
    ensures AllFit(p[..|done| + 1], done + [sup])
    ensures SeriesLog(p[..|done| + 1], done + [sup]) == SeriesLog(p[..|done|], done) + CommandLog(p[|done|], sup)
  {
    var k := |done|;
    var q := p[..k + 1];
    var d := done + [sup];
    assert q[..k] == p[..k] && d[..k] == done;
    forall i | 0 <= i < k + 1
      ensures Fits(q[i], d[i])
    {
      if i < k {
        assert q[i] == p[..k][i];
      }
    }
    AllFitPrefix(q, d, k);
    var logs := CommandLogs(q, d);
    assert logs[..k] == CommandLogs(p[..k], done);
    assert logs[k] == CommandLog(p[k], sup);
  }

  /** A series that fails inside its next command has logged a strict prefix of its full log. */
  lemma SeriesFailure(p: Program, done: seq<Supply>, sup: Supply, partial: seq<Event>)
    requires |done| < |p| && AllFit(p[..|done|], done) && Fits(p[|done|], sup)
    requires StrictPrefix(partial, CommandLog(p[|done|], sup))
    ensures AllFit(p, Completed(p, done + [sup]))
    ensures StrictPrefix(SeriesLog(p[..|done|], done) + partial, SeriesLog(p, Completed(p, done + [sup])))
  {
    var k := |done|;
    var all := Completed(p, done + [sup]);
    assert all[..k + 1] == done + [sup];
    forall i | 0 <= i < |p|
      ensures Fits(p[i], all[i])
    {
      if i < k {
        assert all[i] == all[..k][i] == done[i];
        assert p[i] == p[..k][i];
      } else if i == k {
        assert all[i] == all[..k + 1][i];
      } else {
        assert all[i] == Filler(p[i]);
      }
    }
    AllFitPrefix(p, all, k);
    assert all[..k] == done;
    var logs := CommandLogs(p, all);
    assert logs[k] == CommandLog(p[k], sup);
    ConcatStrictPrefix(logs, k, partial);
  }

  /**
   * One command of `run`: a delay sleeps its value divided by 1000 seconds,
   * a burst runs as RunBurst. `sup` is what the camera and the clock
   * supplied and `step` what the command logged.
   */
  method RunCommand(rig: Rig, c: Command) returns (ok: bool, ghost sup: Supply, ghost step: seq<Event>)
    modifies rig
    ensures Fits(c, sup)
    ensures rig.log == old(rig.log) + step
    ensures ok ==> step == CommandLog(c, sup)
    ensures ok && c.Delay? ==> c.duration >= 0.0
    ensures !ok ==> StrictPrefix(step, CommandLog(c, sup))
  {
    match c {
      case Delay(ms) =>
        ok := rig.TimeSleep(ms / 1000.0);
        sup, step := Supply([], []), if ok then [Sleep(ms / 1000.0)] else [];
      case Burst(n, e, target) =>
        ghost var fs, ts;
        ok, fs, ts, step := RunBurst(rig, n, e, target);
        sup := Supply(fs, ts);
    }
  }

  /** The series thread of the lab GUI; `run` executes the commands in order against the camera. */
  class CaptureSeriesThread {
    const series: Program

    constructor (series: Program)
      ensures this.series == series
    {
      this.series := series;
    }

    /**
     * `CaptureSeriesThread.run`: a delay sleeps its value divided by 1000
     * seconds, a burst runs as RunBurst. The first exception ends the thread:
     * `supplies` is what camera and clock delivered (completed with stand-ins),
     * and the log holds a strict prefix of the full series log.
     */
    method Run(rig: Rig) returns (ok: bool, ghost supplies: seq<Supply>, ghost trace: seq<Event>)
      modifies rig
      ensures AllFit(series, supplies)
      ensures rig.log == old(rig.log) + trace
      ensures ok ==> trace == SeriesLog(series, supplies)
      ensures !ok ==> StrictPrefix(trace, SeriesLog(series, supplies))
      ensures ok ==> forall i :: 0 <= i < |series| && series[i].Delay? ==> series[i].duration >= 0.0
    {
      ghost var done: seq<Supply> := [];
      trace := [];
      for i := 0 to |series|
        invariant |done| == i && AllFit(series[..i], done)
        invariant trace == SeriesLog(series[..i], done)
        invariant rig.log == old(rig.log) + trace
        invariant forall j :: 0 <= j < i && series[j].Delay? ==> series[j].duration >= 0.0
      {
        ghost var sup, step;
        ok, sup, step := RunCommand(rig, series[i]);
        Extend(old(rig.log), trace, step);
        if !ok {
          supplies := Completed(series, done + [sup]);
          SeriesFailure(series, done, sup, step);
          trace := trace + step;
          return;
        }
        SeriesStep(series, done, sup);
        done, trace := done + [sup], trace + step;
      }
      assert series[..|series|] == series;
      ok, supplies := true, done;
    }
  }

  /**
   * The "Execute Series" button: parse the program box; a parse error raises
   * before any thread exists, so nothing reaches the camera; otherwise a
   * CaptureSeriesThread runs the parsed series.
   */
  method ExecuteSeries(text: string, rig: Rig)
    returns (parsed: Result<Program, ParseError>, ok: bool, ghost supplies: seq<Supply>, ghost trace: seq<Event>)
    modifies rig
    ensures parsed == ParseProgram(text)
    ensures parsed.Err? ==> !ok && rig.log == old(rig.log)
    ensures parsed.Ok? ==> AllFit(parsed.value, supplies) && rig.log == old(rig.log) + trace
    ensures parsed.Ok? && ok ==> trace == SeriesLog(parsed.value, supplies)
    ensures parsed.Ok? && !ok ==> StrictPrefix(trace, SeriesLog(parsed.value, supplies))
  {
    parsed := CompileSeries(text);
    if parsed.Err? {
      ok, supplies, trace := false, [], [];
      return;
    }
    var thread := new CaptureSeriesThread(parsed.value);
    ok, supplies, trace := thread.Run(rig);
  }

  // ---- What a run leaves behind ----

  /** The position of the stop in a burst's log. */
  function StopIndex(exposure: real, fs: seq<Frame>): nat
  {
    if SavesWhileCapturing(exposure) then 2 + 4 * |fs| else 2 + 3 * |fs|
  }

  lemma CountPrefix(a: seq<Event>, j: nat, e: Event)
    requires j <= |a|
    ensures Count(a[..j], e) <= Count(a, e)
  {
    assert a[..j] + a[j..] == a;
    CountConcat(a[..j], a[j..], e);
  }

  /** The counting behind OpenDuringBurst, for any log shaped like a burst's. */
  lemma OpenPrefix(x: Event, c: seq<Event>, s: seq<Event>, k: nat)
    requires x != Start && x != Stop
    requires Count(c, Start) == 0 && Count(c, Stop) == 0 && Count(s, Start) == 0 && Count(s, Stop) == 0
    requires k <= 3 + |c| + |s|
    ensures OpenAcquisitions(([x, Start] + c + [Stop] + s)[..k]) == if 2 <= k <= 2 + |c| then 1 else 0
  {
    if k <= 2 {
      BeforeCaptures(x, c, s, k);
    } else if k <= 2 + |c| {
      OpenInCaptures(x, c, s, k - 2);
    } else {
      ClosedInSaves(x, c, s, k - 3 - |c|);
    }
  }

  lemma BeforeCaptures(x: Event, c: seq<Event>, s: seq<Event>, k: nat)
    requires x != Start && x != Stop && k <= 2
    ensures OpenAcquisitions(([x, Start] + c + [Stop] + s)[..k]) == if k == 2 then 1 else 0
  {
    var o := [x, Start];
    assert (o + c + [Stop] + s)[..k] == o[..k];
    StepCounts(x, Start, Stop, Stop, Start);
    StepCounts(x, Start, Stop, Stop, Stop);
    if k == 2 {
      assert o[..2] == o;
    } else if k == 1 {
      assert o[..1] == [x];
    } else {
      var none := (o + c + [Stop] + s)[..0];
      assert none == [];
      assert Count(none, Start) == 0 && Count(none, Stop) == 0;
    }
  }

  lemma OpenInCaptures(x: Event, c: seq<Event>, s: seq<Event>, j: nat)
    requires x != Start && x != Stop
    requires Count(c, Start) == 0 && Count(c, Stop) == 0 && 0 < j <= |c|
    ensures OpenAcquisitions(([x, Start] + c + [Stop] + s)[..2 + j]) == 1
  {
    var o := [x, Start];
    assert (o + c + [Stop] + s)[..2 + j] == o + c[..j];
    StepCounts(x, Start, Stop, Stop, Start);
    StepCounts(x, Start, Stop, Stop, Stop);
    CountPrefix(c, j, Start);
    CountPrefix(c, j, Stop);
    CountConcat(o, c[..j], Start);
    CountConcat(o, c[..j], Stop);
  }

  lemma ClosedInSaves(x: Event, c: seq<Event>, s: seq<Event>, j: nat)
    requires x != Start && x != Stop
    requires Count(c, Start) == 0 && Count(c, Stop) == 0 && Count(s, Start) == 0 && Count(s, Stop) == 0 && j <= |s|
    ensures OpenAcquisitions(([x, Start] + c + [Stop] + s)[..3 + |c| + j]) == 0
  {
    var o := [x, Start];
    var a := o + c + [Stop];
    assert (a + s)[..3 + |c| + j] == a + s[..j];
    StepCounts(x, Start, Stop, Stop, Start);
    StepCounts(x, Start, Stop, Stop, Stop);
    StepCounts(Stop, Stop, Stop, Stop, Start);
    StepCounts(Stop, Stop, Stop, Stop, Stop);
    CountPrefix(s, j, Start);
    CountPrefix(s, j, Stop);
    CountConcat(a, s[..j], Start);
    CountConcat(a, s[..j], Stop);
    CountConcat(o + c, [Stop], Start);
    CountConcat(o + c, [Stop], Stop);
    CountConcat(o, c, Start);
    CountConcat(o, c, Stop);
  }

  /**
   * There is no try/finally around a burst: the acquisition is open (started
   * and not stopped) after exactly those prefixes of the burst's log that end
   * between the start and the stop. A burst that raises there leaves the
   * camera acquiring.
   */
  lemma OpenDuringBurst(exposure: real, target: string, fs: seq<Frame>, ts: seq<DateTime>, k: nat)
    requires |ts| == |fs| && AllValid(ts) && k <= |BurstLog(exposure, target, fs, ts)|
    ensures OpenAcquisitions(BurstLog(exposure, target, fs, ts)[..k]) == if 2 <= k <= StopIndex(exposure, fs) then 1 else 0
  {
    var names := Names(target, ts);
    var c := Captures(exposure, fs, names);
    var s := if SavesWhileCapturing(exposure) then [] else Saves(fs, names);
    assert BurstLog(exposure, target, fs, ts) == [SetExposure(Trunc(exposure)), Start] + c + [Stop] + s;
    if SavesWhileCapturing(exposure) {
      StreamedCapturesAt(fs, names);
      StreamedCapturesCount(fs, names, Start);
      StreamedCapturesCount(fs, names, Stop);
    } else {
      BatchedCapturesAt(fs);
      BatchedCapturesCount(fs, Start);
      BatchedCapturesCount(fs, Stop);
      SavesCount(fs, names, Start);
      SavesCount(fs, names, Stop);
    }
    OpenPrefix(SetExposure(Trunc(exposure)), c, s, k);
  }

  // ---- Totals over a whole series ----

  /** A series is its front followed by its last command (twin of SimulatedGui.SeriesLogSnoc). */
  lemma SeriesLogSnoc(p: Program, s: seq<Supply>)
    requires AllFit(p, s) && p != []
    ensures AllFit(p[..|p| - 1], s[..|p| - 1])
    ensures SeriesLog(p, s) == SeriesLog(p[..|p| - 1], s[..|p| - 1]) + CommandLog(p[|p| - 1], s[|p| - 1])
  {
    AllFitPrefix(p, s, |p| - 1);
  }

  lemma CommandTotals(c: Command, sup: Supply, e: Event)
    requires Fits(c, sup) && (e == Start || e == Stop || e == Wait)
    ensures Count(CommandLog(c, sup), e) == if !c.Burst? then 0 else if e == Wait then Max0(c.count) else 1
    ensures c.Delay? ==> forall i :: 0 <= i < |CommandLog(c, sup)| ==> !IsCameraCall(CommandLog(c, sup)[i])
  {
    if c.Burst? {
      BurstCount(c.exposure, c.target, sup.frames, sup.stamps, e);
    } else {
      StepCounts(CommandLog(c, sup)[0], Stop, Stop, Stop, e);
    }
  }

  lemma CommandFrames(c: Command, sup: Supply, u: FrameUse)
    requires Fits(c, sup)
    ensures FramesOf(CommandLog(c, sup), u) == if c.Burst? then sup.frames else []
  {
    if c.Burst? {
      BurstFramesOf(c.exposure, c.target, sup.frames, sup.stamps, u);
    } else {
      StepFrames(CommandLog(c, sup)[0], Stop, Stop, Stop, u);
    }
  }

  /**
   * A series that runs to the end starts and stops the acquisition once per
   * burst, so it leaves the camera idle, and waits once per frame asked for.
   */
  lemma {:induction false} SeriesTotals(p: Program, s: seq<Supply>, e: Event)
    requires AllFit(p, s) && (e == Start || e == Stop || e == Wait)
    ensures Count(SeriesLog(p, s), e) == if e == Wait then Exposures(p) else Bursts(p)
  {
    if p != [] {
      var n := |p| - 1;
      SeriesLogSnoc(p, s);
      SeriesTotals(p[..n], s[..n], e);
      CountConcat(SeriesLog(p[..n], s[..n]), CommandLog(p[n], s[n]), e);
      CommandTotals(p[n], s[n], e);
    }
  }

  lemma SeriesLeavesCameraIdle(p: Program, s: seq<Supply>)
    requires AllFit(p, s)
    ensures OpenAcquisitions(SeriesLog(p, s)) == 0
  {
    SeriesTotals(p, s, Start);
    SeriesTotals(p, s, Stop);
  }

  /**
   * Every frame the camera delivers to a series is read, emitted and saved
   * exactly once, in order, and there are as many as the bursts ask for.
   */
  lemma {:induction false} SeriesSavesEveryFrame(p: Program, s: seq<Supply>, u: FrameUse)
    requires AllFit(p, s)
    ensures FramesOf(SeriesLog(p, s), u) == SeriesFrames(p, s)
    ensures |SeriesFrames(p, s)| == Exposures(p)
  {
    SeriesFramesCount(p, s);
    if p != [] {
      var n := |p| - 1;
      SeriesLogSnoc(p, s);
      SeriesSavesEveryFrame(p[..n], s[..n], u);
      FramesOfConcat(SeriesLog(p[..n], s[..n]), CommandLog(p[n], s[n]), u);
      CommandFrames(p[n], s[n], u);
    }
  }

  // ---- Camera readiness ----

  function Abs(x: real): real { if x < 0.0 then -x else x }

  /**
   * `updateCameraStatus`: with the camera open, ready exactly when the sensor
   * reading lies strictly within two degrees of the set point, and the
   * Resume and Capture Series buttons are enabled exactly when it is ready;
   * with the camera closed the label is only cleared.
   */
  function CameraStatus(camOpen: bool, setPoint: int, reading: real): (r: Option<Indicator>)
    ensures r.Some? <==> camOpen
    ensures r.Some? ==> (r.value.ready <==> Abs(reading - setPoint as real) < 2.0)
    ensures r.Some? ==> r.value.text == if r.value.ready then ReadyText else NotReadyText
  {
    if !camOpen then None
    else if (setPoint - 2) as real < reading < (setPoint + 2) as real then Some(Indicator(true, ReadyText))
    else Some(Indicator(false, NotReadyText))
  }

  // ---- The texts the GUI offers ----

  /** The program box's initial text. */
  const DefaultSeriesText := "add delay 3000\n5 1200 HeNe_darks_1200ms"

  /** The "Example Series" button's text. */
  const ExampleSeriesText := "add delay 3000n 5 1200 HeNe_Darks_1200_ms"

  /** The initial text is a 3000 ms delay and five 1200 ms frames, saved after the burst. */
  lemma DefaultSeries()
    ensures ParseProgram(DefaultSeriesText) == Ok([Delay(3000.0), Burst(5, 1200.0, "HeNe_darks_1200ms")])
    ensures !SavesWhileCapturing(1200.0)
  {
    DelayLine();
    BurstLine("HeNe_darks_1200ms");
    ParsePair(Delay(3000.0), Burst(5, 1200.0, "HeNe_darks_1200ms"), "add delay 3000", "5 1200 " + "HeNe_darks_1200ms");
    DefaultText();
  }

  lemma DefaultText()
    ensures "add delay 3000" + "\n" + ("5 1200 " + "HeNe_darks_1200ms") == DefaultSeriesText
  {
  }

  /** The first line of the initial text (and of the intended example). */
  lemma DelayLine()
    ensures Printable(Delay(3000.0)) && CommandText(Delay(3000.0)) == "add delay 3000"
  {
    DelayText(3000);
    assert IntText(3000) == "3000";
    assert "add" + " " + ("delay" + " " + "3000") == "add delay 3000";
  }

  /** The second line of the initial text (and of the intended example). */
  lemma BurstLine(target: string)
    requires target == "HeNe_darks_1200ms" || target == "HeNe_Darks_1200_ms"
    ensures Printable(Burst(5, 1200.0, target)) && CommandText(Burst(5, 1200.0, target)) == "5 1200 " + target
  {
    assert |target| > 0 && NoSpace(target);
    BurstText(5, 1200, target);
    assert IntText(5) == "5";
    assert IntText(1200) == "1200";
    assert "5" + " " + ("1200" + " " + target) == "5 1200 " + target;
  }

  /**
   * The example text is one line (its "n" is not a line break), and the
   * parser rejects it on float("3000n") before any thread starts.
   */
  lemma ExampleSeriesFails()
    ensures ParseProgram(ExampleSeriesText) == Err(ParseError(0, NotNumber("3000n")))
  {
    ExampleWords();
    OneLineProgram(ExampleSeriesText);
    ExampleTokens();
  }

  /**
   * The example text with the line break it evidently lost ("\\n" typed as
   * "n"): a 3000 ms delay and five 1200 ms frames, like the initial text.
   */
  const IntendedExampleText := "add delay 3000\n5 1200 HeNe_Darks_1200_ms"

  lemma IntendedExampleSeries()
    ensures ParseProgram(IntendedExampleText) == Ok([Delay(3000.0), Burst(5, 1200.0, "HeNe_Darks_1200_ms")])
  {
    DelayLine();
    BurstLine("HeNe_Darks_1200_ms");
    ParsePair(Delay(3000.0), Burst(5, 1200.0, "HeNe_Darks_1200_ms"), "add delay 3000", "5 1200 " + "HeNe_Darks_1200_ms");
    IntendedText();
  }

  lemma IntendedText()
    ensures "add delay 3000" + "\n" + ("5 1200 " + "HeNe_Darks_1200_ms") == IntendedExampleText
  {
  }

  lemma ExampleTokens()
    ensures ParseTokens(["add", "delay", "3000n", "5", "1200", "HeNe_Darks_1200_ms"]) == Err(NotNumber("3000n"))
  {
    NotNumeric("3000n", 4);
  }

  lemma ExampleWords()
    ensures Split(ExampleSeriesText) == ["add", "delay", "3000n", "5", "1200", "HeNe_Darks_1200_ms"]
    ensures SplitLines(ExampleSeriesText) == [ExampleSeriesText]
  {
    var words := ["add", "delay", "3000n", "5", "1200", "HeNe_Darks_1200_ms"];
    ExampleJoin();
    ExampleWordsAreWords();
    OneLineOfWords(words);
  }

  lemma ExampleJoin()
    ensures JoinWords(["add", "delay", "3000n", "5", "1200", "HeNe_Darks_1200_ms"]) == ExampleSeriesText
  {
    JoinSixWords("add", "delay", "3000n", "5", "1200", "HeNe_Darks_1200_ms");
    ExampleText();
  }

  lemma JoinSixWords(a: string, b: string, c: string, d: string, e: string, f: string)
    ensures JoinWords([a, b, c, d, e, f]) == a + " " + (b + " " + (c + " " + (d + " " + (e + " " + f))))
  {
    var words := [a, b, c, d, e, f];
    JoinThreeWords(d, e, f);
    assert words[3..] == [d, e, f];
    assert words[2..][1..] == words[3..] && words[1..][1..] == words[2..];
    assert JoinWords(words[2..]) == c + " " + JoinWords(words[3..]);
    assert JoinWords(words[1..]) == b + " " + JoinWords(words[2..]);
  }

  lemma ExampleText()
    ensures "add" + " " + ("delay" + " " + ("3000n" + " " + ("5" + " " + ("1200" + " " + "HeNe_Darks_1200_ms")))) == ExampleSeriesText
  {
  }

  lemma ExampleWordsAreWords()
    ensures var words := ["add", "delay", "3000n", "5", "1200", "HeNe_Darks_1200_ms"];
      forall i :: 0 <= i < |words| ==> |words[i]| > 0 && NoSpace(words[i])
  {
  }
}
