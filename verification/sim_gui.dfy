/**
 * The simulation GUI: the same series parser driving a thread that shows
 * random frames instead of reading a camera, sleeps the exposure after each
 * one, and saves every frame after the burst under a fixed label; and its
 * readiness test on the displayed temperature.
 */
module SimulatedGui {
  import opened Wrappers
  import opened Decimal
  import opened Tokens
  import opened Series
  import opened Timestamps
  import opened Devices
  import opened Acquisition

  /** Every simulated frame is saved under this label, whatever target the command names. */
  const SimulatedLabel := "Simulated_Image"

  /** The showing steps of a burst: each frame is emitted, then the thread sleeps the exposure time (seconds). */
  function Shots(fs: seq<Frame>, exposure: real): seq<Event>
  {
    if fs == [] then [] else Shots(fs[..|fs| - 1], exposure) + [Emit(fs[|fs| - 1]), Sleep(exposure)]
  }

  /**
   * The calls one simulated burst makes when nothing fails, given the random
   * frames and the clock readings taken for the file names.
   */
  function BurstLog(exposure: real, fs: seq<Frame>, ts: seq<DateTime>): seq<Event>
    requires |ts| == |fs| && AllValid(ts)
  {
    Shots(fs, exposure) + Saves(fs, Names(SimulatedLabel, ts))
  }

  /** A delay sleeps its value in seconds; a burst runs as BurstLog, whatever its target. */
  function CommandLog(c: Command, s: Supply): seq<Event>
    requires Fits(c, s)
  {
    match c
    case Delay(seconds) => [Sleep(seconds)]
    case Burst(n, e, target) => BurstLog(e, s.frames, s.stamps)
  }

  /** Each command's log, in program order; LabReadyGui.CommandLogs over this module's CommandLog. */
  function CommandLogs(p: Program, supplies: seq<Supply>): (r: seq<seq<Event>>)
    requires AllFit(p, supplies)
    ensures |r| == |p|
  {
    seq(|p|, i requires 0 <= i < |p| => CommandLog(p[i], supplies[i]))
  }

  /** The calls a whole simulated series makes when nothing fails. */
  function SeriesLog(p: Program, supplies: seq<Supply>): seq<Event>
    requires AllFit(p, supplies)
  {
    Concat(CommandLogs(p, supplies))
  }

  // ---- Facts about one burst ----

  lemma ShotsSnoc(fs: seq<Frame>, img: Frame, exposure: real)
    ensures Shots(fs + [img], exposure) == Shots(fs, exposure) + [Emit(img), Sleep(exposure)]
  {
    assert (fs + [img])[..|fs|] == fs;
  }

  lemma {:induction false} ShotsAt(fs: seq<Frame>, exposure: real)
    ensures var s := Shots(fs, exposure);
      |s| == 2 * |fs| &&
      forall i :: 0 <= i < |fs| ==> s[2 * i..2 * i + 2] == [Emit(fs[i]), Sleep(exposure)]
  {
    if fs != [] {
      var n := |fs| - 1;
      ShotsAt(fs[..n], exposure);
      var s := Shots(fs, exposure);
      var s0 := Shots(fs[..n], exposure);
      forall i | 0 <= i < |fs|
        ensures s[2 * i..2 * i + 2] == [Emit(fs[i]), Sleep(exposure)]
      {
        if i < n {
          assert s[2 * i..2 * i + 2] == s0[2 * i..2 * i + 2];
          assert fs[..n][i] == fs[i];
        }
      }
    }
  }

  /**
   * A burst shows every frame once, in order, each followed by a sleep of
   * the exposure time; only after the last sleep are the frames saved, in
   * the same order, under the simulated label and each save's time.
   */
  lemma BurstShape(exposure: real, fs: seq<Frame>, ts: seq<DateTime>)
    requires |ts| == |fs| && AllValid(ts)
    ensures var log := BurstLog(exposure, fs, ts);
      |log| == 3 * |fs| &&
      (forall i :: 0 <= i < |fs| ==> log[2 * i..2 * i + 2] == [Emit(fs[i]), Sleep(exposure)]) &&
      (forall i :: 0 <= i < |fs| ==> log[2 * |fs| + i] == Save(FileName(SimulatedLabel, ts[i]), fs[i]))
  {
    var s := Shots(fs, exposure);
    var sv := Saves(fs, Names(SimulatedLabel, ts));
    ShotsAt(fs, exposure);
    ShowsFirst(s, sv, fs, exposure);
    SavesLast(s, sv, fs, ts);
  }

  lemma ShowsFirst(s: seq<Event>, sv: seq<Event>, fs: seq<Frame>, exposure: real)
    requires |s| == 2 * |fs|
    requires forall i :: 0 <= i < |fs| ==> s[2 * i..2 * i + 2] == [Emit(fs[i]), Sleep(exposure)]
    ensures forall i :: 0 <= i < |fs| ==> (s + sv)[2 * i..2 * i + 2] == [Emit(fs[i]), Sleep(exposure)]
  {
    forall i | 0 <= i < |fs|
      ensures (s + sv)[2 * i..2 * i + 2] == [Emit(fs[i]), Sleep(exposure)]
    {
      assert (s + sv)[2 * i..2 * i + 2] == s[2 * i..2 * i + 2];
    }
  }

  lemma SavesLast(s: seq<Event>, sv: seq<Event>, fs: seq<Frame>, ts: seq<DateTime>)
    requires |s| == 2 * |fs| && |ts| == |fs| && AllValid(ts)
    requires sv == Saves(fs, Names(SimulatedLabel, ts))
    ensures |s + sv| == 3 * |fs|
    ensures forall i :: 0 <= i < |fs| ==> (s + sv)[2 * |fs| + i] == Save(FileName(SimulatedLabel, ts[i]), fs[i])
  {
    forall i | 0 <= i < |fs|
      ensures (s + sv)[2 * |fs| + i] == Save(FileName(SimulatedLabel, ts[i]), fs[i])
    {
      assert (s + sv)[2 * |fs| + i] == sv[i];
    }
  }

  lemma {:induction false} ShotsFrames(fs: seq<Frame>, exposure: real, u: FrameUse)
    ensures FramesOf(Shots(fs, exposure), u) == if u == Emitting then fs else []
  {
    if fs != [] {
      var n := |fs| - 1;
      var f := fs[n];
      var step := [Emit(f), Sleep(exposure)];
      assert Shots(fs, exposure) == Shots(fs[..n], exposure) + step;
      ShotsFrames(fs[..n], exposure, u);
      FramesOfConcat(Shots(fs[..n], exposure), step, u);
      ShotFrames(f, exposure, u);
      if u == Emitting {
        LastSplit(fs);
      } else {
        assert FramesOf(Shots(fs, exposure), u) == [] + [];
      }
    }
  }

  lemma ShotFrames(f: Frame, exposure: real, u: FrameUse)
    ensures FramesOf([Emit(f), Sleep(exposure)], u) == if u == Emitting then [f] else []
  {
    StepFrames(Emit(f), Sleep(exposure), Stop, Stop, u);
  }

  lemma {:induction false} ShotsNames(fs: seq<Frame>, exposure: real)
    ensures SavedNames(Shots(fs, exposure)) == []
  {
    if fs != [] {
      var n := |fs| - 1;
      ShotsNames(fs[..n], exposure);
      SavedNamesConcat(Shots(fs[..n], exposure), [Emit(fs[n]), Sleep(exposure)]);
      StepNames(Emit(fs[n]), Sleep(exposure), Stop, Stop);
    }
  }

  /** No frame is read from a camera; every frame is emitted once and saved once, in order. */
  lemma BurstFrames(exposure: real, fs: seq<Frame>, ts: seq<DateTime>, u: FrameUse)
    requires |ts| == |fs| && AllValid(ts)
    ensures FramesOf(BurstLog(exposure, fs, ts), u) == if u == Reading then [] else fs
  {
    ShotsThenSavesFrames(exposure, fs, Names(SimulatedLabel, ts), u);
  }

  lemma ShotsThenSavesFrames(exposure: real, fs: seq<Frame>, names: seq<string>, u: FrameUse)
    requires |names| == |fs|
    ensures FramesOf(Shots(fs, exposure) + Saves(fs, names), u) == if u == Reading then [] else fs
  {
    ShotsFrames(fs, exposure, u);
    SavesFrames(fs, names, u);
    FramesOfConcat(Shots(fs, exposure), Saves(fs, names), u);
    if u == Emitting {
      assert fs + [] == fs;
    }
  }

  /** The saved names are the simulated label with each save's time, in order. */
  lemma BurstNames(exposure: real, fs: seq<Frame>, ts: seq<DateTime>)
    requires |ts| == |fs| && AllValid(ts)
    ensures SavedNames(BurstLog(exposure, fs, ts)) == Names(SimulatedLabel, ts)
  {
    var names := Names(SimulatedLabel, ts);
    ShotsNames(fs, exposure);
    SavesNames(fs, names);
    SavedNamesConcat(Shots(fs, exposure), Saves(fs, names));
  }

  /** A file name made of "Simulated_Image_" and the timestamp of t. */
  predicate Labelled(name: string, t: DateTime)
  {
    |name| >= 16 && name[..16] == "Simulated_Image_" && ParseTimestamp(name[16..]) == Some(t)
  }

  /**
   * Every saved name is "Simulated_Image_" followed by a timestamp: the
   * command's target name never reaches a file name, so the burst's log is
   * the same whatever target the command names.
   */
  lemma TargetUnused(n: int, exposure: real, target1: string, target2: string, s: Supply)
    requires Fits(Burst(n, exposure, target1), s)
    ensures CommandLog(Burst(n, exposure, target1), s) == CommandLog(Burst(n, exposure, target2), s)
    ensures SavedNames(CommandLog(Burst(n, exposure, target1), s)) == Names(SimulatedLabel, s.stamps)
    ensures forall i :: 0 <= i < |s.stamps| ==> Labelled(Names(SimulatedLabel, s.stamps)[i], s.stamps[i])
  {
    BurstNames(exposure, s.frames, s.stamps);
    forall i | 0 <= i < |s.stamps|
      ensures Labelled(Names(SimulatedLabel, s.stamps)[i], s.stamps[i])
    {
      LabelledName(s.stamps[i]);
    }
  }

  lemma LabelledName(t: DateTime)
    requires Valid(t)
    ensures Labelled(FileName(SimulatedLabel, t), t)
  {
    var f := FileName(SimulatedLabel, t);
    FileNameParts(SimulatedLabel, t);
    assert f[..16] == f[..15] + [f[15]];
  }

  /** No event of a simulated burst is a camera call. */
  predicate NoCameraCall(log: seq<Event>)
  {
    forall i :: 0 <= i < |log| ==> !IsCameraCall(log[i])
  }

  lemma NoCameraCallConcat(a: seq<Event>, b: seq<Event>)
    requires NoCameraCall(a) && NoCameraCall(b)
    ensures NoCameraCall(a + b)
  {
    forall i | 0 <= i < |a + b|
      ensures !IsCameraCall((a + b)[i])
    {
      if i >= |a| {
        assert (a + b)[i] == b[i - |a|];
      }
    }
  }

  lemma {:induction false} ShotsNoCameraCall(fs: seq<Frame>, exposure: real)
    ensures NoCameraCall(Shots(fs, exposure))
  {
    if fs != [] {
      var n := |fs| - 1;
      ShotsNoCameraCall(fs[..n], exposure);
      NoCameraCallConcat(Shots(fs[..n], exposure), [Emit(fs[n]), Sleep(exposure)]);
    }
  }

  lemma BurstNoCameraCall(exposure: real, fs: seq<Frame>, ts: seq<DateTime>)
    requires |ts| == |fs| && AllValid(ts)
    ensures NoCameraCall(BurstLog(exposure, fs, ts))
  {
    ShotsNoCameraCall(fs, exposure);
    NoCameraCallConcat(Shots(fs, exposure), Saves(fs, Names(SimulatedLabel, ts)));
  }

  // ---- Running one burst ----

  /**
   * The showing loop of a burst: `for exposure in range(num_exposures)` makes
   * a random frame, keeps it, emits it and sleeps the exposure time. A sleep
   * that raises ends the loop right after that frame's emit; a negative
   * exposure makes the first sleep raise.
   */
  method ShowFrames(rig: Rig, n: int, exposure: real) returns (ok: bool, images: seq<Frame>)
    modifies rig
    ensures exposure < 0.0 && n > 0 ==> !ok && |images| == 1
    ensures ok ==> |images| == Max0(n) && rig.log == old(rig.log) + Shots(images, exposure)
    ensures !ok ==> 0 < |images| <= Max0(n)
    ensures !ok ==> rig.log == old(rig.log) + Shots(images[..|images| - 1], exposure) + [Emit(images[|images| - 1])]
  {
    ok, images := true, [];
    var i := 0;
    while i < n
      invariant 0 <= i <= Max0(n) && |images| == i
      invariant i > 0 ==> exposure >= 0.0
      invariant rig.log == old(rig.log) + Shots(images, exposure)
    {
      var img := rig.RandomImage();
      rig.EmitImage(img);
      ok := rig.TimeSleep(exposure);
      if !ok {
        assert (images + [img])[..i] == images;
        images := images + [img];
        return;
      }
      ShotsSnoc(images, img, exposure);
      images := images + [img];
      i := i + 1;
    }
  }

  /**
   * One burst of the simulated `CaptureSeriesThread.run`: show the frames,
   * then save each under "Simulated_Image_" and the current time. The first
   * call that raises ends the burst; `fs` and `ts` are the frames and clock
   * readings received (padded when it failed early).
   */
  method RunBurst(rig: Rig, n: int, exposure: real)
    returns (ok: bool, ghost fs: seq<Frame>, ghost ts: seq<DateTime>, ghost trace: seq<Event>)
    modifies rig
    ensures |fs| == |ts| == Max0(n) && AllValid(ts)
    ensures rig.log == old(rig.log) + trace
    ensures ok ==> trace == BurstLog(exposure, fs, ts)
    ensures !ok ==> StrictPrefix(trace, BurstLog(exposure, fs, ts))
    ensures exposure < 0.0 && n > 0 ==> !ok && trace == [Emit(fs[0])]
  {
    var images;
    ok, images := ShowFrames(rig, n, exposure);
    if !ok {
      var k := |images| - 1;
      fs, ts := Filled(images, Max0(n), NoFrame), Filled([], Max0(n), Epoch);
      trace := Shots(images[..k], exposure) + [Emit(images[k])];
      FilledValid([], Max0(n));
      assert fs[..k] == images[..k] && fs[k] == images[k];
      FailInShots(exposure, fs, ts, k);
      return;
    }
    ghost var stamps;
    ok, stamps := SaveAll(rig, images, SimulatedLabel);
    fs := images;
    trace := Shots(images, exposure) + Saves(images[..|stamps|], Names(SimulatedLabel, stamps));
    if ok {
      ts := stamps;
      assert images[..|stamps|] == images;
    } else {
      ts := Filled(stamps, |images|, Epoch);
      FailInSaves(exposure, images, stamps);
    }
  }

  /** A showing loop cut short by the sleep after frame k has logged a strict prefix of the burst. */
  lemma FailInShots(exposure: real, fs: seq<Frame>, ts: seq<DateTime>, k: nat)
    requires |ts| == |fs| && AllValid(ts) && k < |fs|
    ensures StrictPrefix(Shots(fs[..k], exposure) + [Emit(fs[k])], BurstLog(exposure, fs, ts))
  {
    ShotsPrefix(fs, exposure, k + 1);
    ShotsSnoc(fs[..k], fs[k], exposure);
    assert fs[..k + 1] == fs[..k] + [fs[k]];
    var s := Shots(fs[..k], exposure) + [Emit(fs[k]), Sleep(exposure)];
    var p := Shots(fs[..k], exposure) + [Emit(fs[k])];
    assert p == s[..|p|];
  }

  /** The shots of the first k frames begin the shots of all of them. */
  lemma {:induction false} ShotsPrefix(fs: seq<Frame>, exposure: real, k: nat)
    requires k <= |fs|
    ensures Prefix(Shots(fs[..k], exposure), Shots(fs, exposure))
    decreases |fs|
  {
    if k < |fs| {
      var m := |fs| - 1;
      assert fs[..m][..k] == fs[..k];
      ShotsPrefix(fs[..m], exposure, k);
      assert Shots(fs, exposure) == Shots(fs[..m], exposure) + [Emit(fs[m]), Sleep(exposure)];
    } else {
      assert fs[..k] == fs;
    }
  }

  lemma FailInSaves(exposure: real, images: seq<Frame>, stamps: seq<DateTime>)
    requires |stamps| < |images| && AllValid(stamps)
    ensures var ts := Filled(stamps, |images|, Epoch);
      AllValid(ts) &&
      StrictPrefix(Shots(images, exposure) + Saves(images[..|stamps|], Names(SimulatedLabel, stamps)), BurstLog(exposure, images, ts))
  {
    var k := |stamps|;
    var ts := Filled(stamps, |images|, Epoch);
    FilledValid(stamps, |images|);
    NamesPrefix(SimulatedLabel, ts, k);
    assert ts[..k] == stamps;
    SavesStrictPrefix(Shots(images, exposure), images, Names(SimulatedLabel, ts), k);
  }

  // ---- The series thread ----

  /** As LabReadyGui.AllFitPrefix, for the simulated CommandLogs. */
  lemma AllFitPrefix(p: Program, s: seq<Supply>, k: nat)
    requires AllFit(p, s) && k <= |p|
    ensures AllFit(p[..k], s[..k]) && CommandLogs(p[..k], s[..k]) == CommandLogs(p, s)[..k]
  {
    assert forall i :: 0 <= i < k ==> p[..k][i] == p[i] && s[..k][i] == s[i];
  }

  /** The series after one more command: its supply is appended and its log follows (as LabReadyGui.SeriesStep). */
  lemma SeriesStep(p: Program, done: seq<Supply>, sup: Supply)
    requires |done| < |p| && AllFit(p[..|done|], done) && Fits(p[|done|], sup)
    ensures AllFit(p[..|done| + 1], done + [sup])
    ensures SeriesLog(p[..|done| + 1], done + [sup]) == SeriesLog(p[..|done|], done) + CommandLog(p[|done|], sup)
  {
    var k := |done|;
    var q := p[..k + 1];
    var d := done + [sup];
    assert q[..k] == p[..k] && d[..k] == done;
    forall i | 0 <= i < k + 1
      ensures Fits(q[i], d[i])
    {
      if i < k {
        assert q[i] == p[..k][i];
      }
    }
    AllFitPrefix(q, d, k);
    var logs := CommandLogs(q, d);
    assert logs[..k] == CommandLogs(p[..k], done);
    assert logs[k] == CommandLog(p[k], sup);
  }

  /** A series that fails inside its next command has logged a strict prefix of its full log (as LabReadyGui.SeriesFailure). */
  lemma SeriesFailure(p: Program, done: seq<Supply>, sup: Supply, partial: seq<Event>)
    requires |done| < |p| && AllFit(p[..|done|], done) && Fits(p[|done|], sup)
    requires StrictPrefix(partial, CommandLog(p[|done|], sup))
    ensures AllFit(p, Completed(p, done + [sup]))
    ensures StrictPrefix(SeriesLog(p[..|done|], done) + partial, SeriesLog(p, Completed(p, done + [sup])))
  {
    var k := |done|;
    var all := Completed(p, done + [sup]);
    assert all[..k + 1] == done + [sup];
    forall i | 0 <= i < |p|
      ensures Fits(p[i], all[i])
    {
      if i < k {
        assert all[i] == all[..k][i] == done[i];
        assert p[i] == p[..k][i];
      } else if i == k {
        assert all[i] == all[..k + 1][i];
      } else {
        assert all[i] == Filler(p[i]);
      }
    }
    AllFitPrefix(p, all, k);
    assert all[..k] == done;
    var logs := CommandLogs(p, all);
    assert logs[k] == CommandLog(p[k], sup);
    ConcatStrictPrefix(logs, k, partial);
  }

  /** A command the thread completed satisfied what `time.sleep` demands of its argument. */
  predicate SleepsAllowed(c: Command)
  {
    match c
    case Delay(seconds) => seconds >= 0.0
    case Burst(n, e, target) => n > 0 ==> e >= 0.0
  }

  /**
   * One command of the simulated `run`: a delay sleeps its value in seconds,
   * a burst runs as RunBurst. `sup` is what the frame source and the clock
   * supplied and `step` what the command logged.
   */
  method RunCommand(rig: Rig, c: Command) returns (ok: bool, ghost sup: Supply, ghost step: seq<Event>)
    modifies rig
    ensures Fits(c, sup)
    ensures rig.log == old(rig.log) + step
    ensures ok ==> step == CommandLog(c, sup) && SleepsAllowed(c)
    ensures !ok ==> StrictPrefix(step, CommandLog(c, sup))
  {
    match c {
      case Delay(seconds) =>
        ok := rig.TimeSleep(seconds);
        sup, step := Supply([], []), if ok then [Sleep(seconds)] else [];
      case Burst(n, e, target) =>
        ghost var fs, ts;
        ok, fs, ts, step := RunBurst(rig, n, e);
        sup := Supply(fs, ts);
    }
  }

  /** The series thread of the simulation GUI. */
  class CaptureSeriesThread {
    const series: Program

    constructor (series: Program)
      ensures this.series == series
    {
      this.series := series;
    }

    /**
     * The simulated `CaptureSeriesThread.run`: a delay sleeps its value in
     * seconds, a burst runs as RunBurst. The first exception ends the thread,
     * with a strict prefix of the full series log; a run that completes had
     * no negative sleep.
     */
    method Run(rig: Rig) returns (ok: bool, ghost supplies: seq<Supply>, ghost trace: seq<Event>)
      modifies rig
      ensures AllFit(series, supplies)
      ensures rig.log == old(rig.log) + trace
      ensures ok ==> trace == SeriesLog(series, supplies)
      ensures !ok ==> StrictPrefix(trace, SeriesLog(series, supplies))
      ensures ok ==> forall i :: 0 <= i < |series| ==> SleepsAllowed(series[i])
    {
      ghost var done: seq<Supply> := [];
      trace := [];
      for i := 0 to |series|
        invariant |done| == i && AllFit(series[..i], done)
        invariant trace == SeriesLog(series[..i], done)
        invariant rig.log == old(rig.log) + trace
        invariant forall j :: 0 <= j < i ==> SleepsAllowed(series[j])
      {
        ghost var sup, step;
        ok, sup, step := RunCommand(rig, series[i]);
        Extend(old(rig.log), trace, step);
        if !ok {
          supplies := Completed(series, done + [sup]);
          SeriesFailure(series, done, sup, step);
          trace := trace + step;
          return;
        }
        SeriesStep(series, done, sup);
        done, trace := done + [sup], trace + step;
      }
      assert series[..|series|] == series;
      ok, supplies := true, done;
    }
  }

  /**
   * The "Execute Series" button: parse the program box; a parse error raises
   * before any thread exists; otherwise a CaptureSeriesThread runs the series.
   */
  method ExecuteSeries(text: string, rig: Rig)
    returns (parsed: Result<Program, ParseError>, ok: bool, ghost supplies: seq<Supply>, ghost trace: seq<Event>)
    modifies rig
    ensures parsed == ParseProgram(text)
    ensures parsed.Err? ==> !ok && rig.log == old(rig.log)
    ensures parsed.Ok? ==> AllFit(parsed.value, supplies) && rig.log == old(rig.log) + trace
    ensures parsed.Ok? && ok ==> trace == SeriesLog(parsed.value, supplies)
    ensures parsed.Ok? && !ok ==> StrictPrefix(trace, SeriesLog(parsed.value, supplies))
  {
    parsed := CompileSeries(text);
    if parsed.Err? {
      ok, supplies, trace := false, [], [];
      return;
    }
    var thread := new CaptureSeriesThread(parsed.value);
    ok, supplies, trace := thread.Run(rig);
  }

  // ---- What a run leaves behind ----

  /** A series is its front followed by its last command (twin of LabReadyGui.SeriesLogSnoc). */
  lemma SeriesLogSnoc(p: Program, s: seq<Supply>)
    requires AllFit(p, s) && p != []
    ensures AllFit(p[..|p| - 1], s[..|p| - 1])
    ensures SeriesLog(p, s) == SeriesLog(p[..|p| - 1], s[..|p| - 1]) + CommandLog(p[|p| - 1], s[|p| - 1])
  {
    AllFitPrefix(p, s, |p| - 1);
  }

  lemma CommandFrames(c: Command, sup: Supply, u: FrameUse)
    requires Fits(c, sup)
    ensures FramesOf(CommandLog(c, sup), u) == if c.Burst? && u != Reading then sup.frames else []
    ensures NoCameraCall(CommandLog(c, sup))
  {
    if c.Burst? {
      BurstFrames(c.exposure, sup.frames, sup.stamps, u);
      BurstNoCameraCall(c.exposure, sup.frames, sup.stamps);
    } else {
      StepFrames(CommandLog(c, sup)[0], Stop, Stop, Stop, u);
    }
  }

  /**
   * A simulated series never calls the camera, and every frame it makes is
   * emitted once and saved once, in order: as many as its bursts ask for.
   */
  lemma {:induction false} SeriesSavesEveryFrame(p: Program, s: seq<Supply>, u: FrameUse)
    requires AllFit(p, s)
    ensures NoCameraCall(SeriesLog(p, s))
    ensures FramesOf(SeriesLog(p, s), u) == if u == Reading then [] else SeriesFrames(p, s)
    ensures |SeriesFrames(p, s)| == Exposures(p)
  {
    SeriesFramesCount(p, s);
    SeriesNoCameraCall(p, s);
    if p != [] {
      var n := |p| - 1;
      var prev, step := SeriesLog(p[..n], s[..n]), CommandLog(p[n], s[n]);
      var extra := if p[n].Burst? then s[n].frames else [];
      SeriesLogSnoc(p, s);
      SeriesSavesEveryFrame(p[..n], s[..n], u);
      CommandFrames(p[n], s[n], u);
      FramesOfConcat(prev, step, u);
      assert SeriesFrames(p, s) == SeriesFrames(p[..n], s[..n]) + extra;
      if u == Reading {
        assert FramesOf(prev + step, u) == [] + [];
      } else {
        assert FramesOf(prev + step, u) == SeriesFrames(p[..n], s[..n]) + extra;
      }
    }
  }

  lemma {:induction false} SeriesNoCameraCall(p: Program, s: seq<Supply>)
    requires AllFit(p, s)
    ensures NoCameraCall(SeriesLog(p, s))
  {
    if p != [] {
      var n := |p| - 1;
      SeriesLogSnoc(p, s);
      SeriesNoCameraCall(p[..n], s[..n]);
      CommandFrames(p[n], s[n], Reading);
      NoCameraCallConcat(SeriesLog(p[..n], s[..n]), CommandLog(p[n], s[n]));
    } else {
      assert SeriesLog(p, s) == [];
    }
  }

  // ---- Camera readiness ----

  /**
   * `updateCameraStatus`: the label is cleared, then `int()` of the displayed
   * temperature decides it: ready exactly when that integer lies in
   * [-72, -68], whatever the set point. Text that is not an integer raises,
   * leaving the label cleared (None).
   */
  function CameraStatus(displayed: string): (r: Option<Indicator>)
    ensures r.Some? <==> ParseInt(displayed).Some?
    ensures r.Some? ==> (r.value.ready <==> -72 <= ParseInt(displayed).value <= -68)
    ensures r.Some? ==> r.value.text == if r.value.ready then ReadyText else NotReadyText
  {
    match ParseInt(displayed)
    case None => None
    case Some(t) =>
      if -72 <= t <= -68 then Some(Indicator(true, ReadyText)) else Some(Indicator(false, NotReadyText))
  }

  /** A temperature shown as `str(t)` is read back, so the status depends only on t. */
  lemma StatusOfShownTemperature(t: int)
    ensures CameraStatus(IntText(t)).Some?
    ensures CameraStatus(IntText(t)).value.ready <==> -72 <= t <= -68
  {
    ParseIntText(t);
  }

  // ---- The texts the GUI offers ----

  /** The program box's initial text. */
  const DefaultSeriesText := "add delay 3\n5 2 target_name"

  /** The "Example Series" button's text. */
  const ExampleSeriesText := "add delay 3\n5 10 target_name"

  /** The initial text is a 3 s delay and five frames of 2 s each. */
  lemma DefaultSeries()
    ensures ParseProgram(DefaultSeriesText) == Ok([Delay(3.0), Burst(5, 2.0, "target_name")])
  {
    DelayLine();
    Numerals();
    BurstLine(2, "2");
    ParsePair(Delay(3.0), Burst(5, 2.0, "target_name"), "add delay 3", "5 " + "2" + " target_name");
    DefaultText();
  }

  lemma DefaultText()
    ensures "add delay 3" + "\n" + ("5 " + "2" + " target_name") == DefaultSeriesText
  {
  }

  /** The example text is a 3 s delay and five frames of 10 s each. */
  lemma ExampleSeries()
    ensures ParseProgram(ExampleSeriesText) == Ok([Delay(3.0), Burst(5, 10.0, "target_name")])
  {
    DelayLine();
    Numerals();
    BurstLine(10, "10");
    ParsePair(Delay(3.0), Burst(5, 10.0, "target_name"), "add delay 3", "5 " + "10" + " target_name");
    ExampleText();
  }

  lemma ExampleText()
    ensures "add delay 3" + "\n" + ("5 " + "10" + " target_name") == ExampleSeriesText
  {
  }

  /** The first line of both texts. */
  lemma DelayLine()
    ensures Printable(Delay(3.0)) && CommandText(Delay(3.0)) == "add delay 3"
  {
    DelayText(3);
    assert IntText(3) == "3";
    assert "add" + " " + ("delay" + " " + "3") == "add delay 3";
  }

  /** The second line of both texts, with exposure e written as et. */
  lemma BurstLine(e: int, et: string)
    requires IntText(e) == et
    ensures Printable(Burst(5, e as real, "target_name"))
    ensures CommandText(Burst(5, e as real, "target_name")) == "5 " + et + " target_name"
  {
    assert |"target_name"| > 0 && NoSpace("target_name");
    BurstText(5, e, "target_name");
    assert IntText(5) == "5";
    assert "5" + " " + (et + " " + "target_name") == "5 " + et + " target_name";
  }

  lemma Numerals()
    ensures IntText(2) == "2" && IntText(10) == "10"
  {
  }
}
