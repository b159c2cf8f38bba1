/**
 * What both GUIs' series threads share: what the camera (or the random
 * generator) and the clock supply to a burst, the file names built from the
 * clock, the loop that saves a burst's frames one by one, and the stand-ins
 * that complete the supply of a run that ended early.
 */
module Acquisition {
  import opened Series
  import opened Timestamps
  import opened Devices

  function Max0(n: int): nat { if n < 0 then 0 else n }

  predicate AllValid(ts: seq<DateTime>) { forall i :: 0 <= i < |ts| ==> Valid(ts[i]) }

  /** The file names of a burst's frames: the target and the time of each save. */
  function Names(target: string, ts: seq<DateTime>): (r: seq<string>)
    requires AllValid(ts)
    ensures |r| == |ts|
  {
    seq(|ts|, i requires 0 <= i < |ts| => FileName(target, ts[i]))
  }

  /** The saves that follow a burst's captures, one per frame, in capture order. */
  function Saves(fs: seq<Frame>, names: seq<string>): seq<Event>
    requires |names| == |fs|
  {
    seq(|fs|, i requires 0 <= i < |fs| => Save(names[i], fs[i]))
  }

  /** What the frame source and the clock supplied to one command (nothing, for a delay). */
  datatype Supply = Supply(frames: seq<Frame>, stamps: seq<DateTime>)

  predicate Fits(c: Command, s: Supply)
  {
    c.Burst? ==> |s.frames| == |s.stamps| == Max0(c.count) && AllValid(s.stamps)
  }

  predicate AllFit(p: Program, supplies: seq<Supply>)
  {
    |supplies| == |p| && forall i :: 0 <= i < |p| ==> Fits(p[i], supplies[i])
  }

  lemma SavesSnoc(fs: seq<Frame>, names: seq<string>)
    requires |names| == |fs| && fs != []
    ensures Saves(fs, names) == Saves(fs[..|fs| - 1], names[..|fs| - 1]) + [Save(names[|fs| - 1], fs[|fs| - 1])]
  {
  }

  lemma {:induction false} SavesFrames(fs: seq<Frame>, names: seq<string>, u: FrameUse)
    requires |names| == |fs|
    ensures FramesOf(Saves(fs, names), u) == if u == Saving then fs else []
  {
    if fs != [] {
      var n := |fs| - 1;
      var e := Save(names[n], fs[n]);
      var s0 := Saves(fs[..n], names[..n]);
      SavesSnoc(fs, names);
      SavesFrames(fs[..n], names[..n], u);
      FramesOfConcat(s0, [e], u);
      StepFrames(e, e, e, e, u);
      if u == Saving {
        calc {
          FramesOf(Saves(fs, names), u);
          FramesOf(s0 + [e], u);
          fs[..n] + [fs[n]];
          { LastSplit(fs); }
          fs;
        }
      } else {
        calc {
          FramesOf(Saves(fs, names), u);
          FramesOf(s0 + [e], u);
          [] + [];
        }
      }
    }
  }

  lemma {:induction false} SavesNames(fs: seq<Frame>, names: seq<string>)
    requires |names| == |fs|
    ensures SavedNames(Saves(fs, names)) == names
  {
    if fs != [] {
      var n := |fs| - 1;
      var e := Save(names[n], fs[n]);
      SavesSnoc(fs, names);
      SavesNames(fs[..n], names[..n]);
      SavedNamesConcat(Saves(fs[..n], names[..n]), [e]);
      StepNames(e, e, e, e);
      assert names[..n] + [names[n]] == names;
    }
  }

  lemma {:induction false} SavesCount(fs: seq<Frame>, names: seq<string>, e: Event)
    requires |names| == |fs|
    requires !e.Save?
    ensures Count(Saves(fs, names), e) == 0
  {
    if fs != [] {
      var n := |fs| - 1;
      var x := Save(names[n], fs[n]);
      SavesSnoc(fs, names);
      SavesCount(fs[..n], names[..n], e);
      CountConcat(Saves(fs[..n], names[..n]), [x], e);
      StepCounts(x, x, x, x, e);
    }
  }

  /** Stand-ins for the frames and clock readings a failed burst never got to. */
  const NoFrame: Frame := Frame([])

  const Epoch: DateTime := DateTime(2000, 1, 1, 0, 0, 0)

  function Filled<T>(xs: seq<T>, n: nat, filler: T): (r: seq<T>)
    requires |xs| <= n
    ensures |r| == n && r[..|xs|] == xs
  {
    xs + seq(n - |xs|, _ => filler)
  }

  lemma FilledValid(ts: seq<DateTime>, n: nat)
    requires |ts| <= n && AllValid(ts)
    ensures AllValid(Filled(ts, n, Epoch))
  {
    var r := Filled(ts, n, Epoch);
    forall i | 0 <= i < n
      ensures Valid(r[i])
    {
      if i < |ts| {
        assert r[i] == r[..|ts|][i];
      }
    }
  }

  lemma PrefixValid(ts: seq<DateTime>, k: nat)
    requires k <= |ts| && AllValid(ts)
    ensures AllValid(ts[..k])
    ensures Names("", ts[..k]) == Names("", ts)[..k]
  {
    assert forall i :: 0 <= i < k ==> ts[..k][i] == ts[i];
  }

  lemma NamesPrefix(target: string, ts: seq<DateTime>, k: nat)
    requires k <= |ts| && AllValid(ts)
    ensures AllValid(ts[..k]) && Names(target, ts[..k]) == Names(target, ts)[..k]
  {
    PrefixValid(ts, k);
  }

  /** Stopping after k of the saves leaves a strict prefix of the log with all of them. */
  lemma SavesStrictPrefix(a: seq<Event>, fs: seq<Frame>, names: seq<string>, k: nat)
    requires |names| == |fs| && k < |fs|
    ensures StrictPrefix(a + Saves(fs[..k], names[..k]), a + Saves(fs, names))
  {
    var s := Saves(fs, names);
    assert s[..k] == Saves(fs[..k], names[..k]);
    assert (a + s)[..|a| + k] == a + s[..k];
  }

  /**
   * The save loop after a burst's captures (a long-exposure burst of the lab
   * GUI, every burst of the simulated one): each frame in turn is saved
   * under the target and the time read just before; the first failing save
   * ends the loop. `stamps` are the clock readings of the saves that succeeded.
   */
  method SaveAll(rig: Rig, images: seq<Frame>, target: string) returns (ok: bool, ghost stamps: seq<DateTime>)
    modifies rig
    ensures AllValid(stamps) && |stamps| <= |images| && (ok <==> |stamps| == |images|)
    ensures rig.log == old(rig.log) + Saves(images[..|stamps|], Names(target, stamps))
  {
    stamps := [];
    for j := 0 to |images|
      invariant |stamps| == j && AllValid(stamps)
      invariant rig.log == old(rig.log) + Saves(images[..j], Names(target, stamps))
    {
      var t := rig.Now();
      ok := rig.SaveCompressed(FileName(target, t), images[j]);
      if !ok {
        return;
      }
      SaveStep(images, target, stamps, t);
      stamps := stamps + [t];
    }
    ok := true;
  }

  lemma SaveStep(images: seq<Frame>, target: string, stamps: seq<DateTime>, t: DateTime)
    requires |stamps| < |images| && AllValid(stamps) && Valid(t)
    ensures AllValid(stamps + [t])
    ensures Saves(images[..|stamps| + 1], Names(target, stamps + [t])) ==
      Saves(images[..|stamps|], Names(target, stamps)) + [Save(FileName(target, t), images[|stamps|])]
  {
    var ts := stamps + [t];
    assert AllValid(ts);
    NamesPrefix(target, ts, |stamps|);
    assert ts[..|stamps|] == stamps;
  }

  /** A stand-in supply for a command the series never reached. */
  function Filler(c: Command): (s: Supply)
    ensures Fits(c, s)
  {
    if c.Burst? then
      FilledValid([], Max0(c.count));
      Supply(Filled([], Max0(c.count), NoFrame), Filled([], Max0(c.count), Epoch))
    else Supply([], [])
  }

  /** The supplies received so far, completed with stand-ins for the commands never reached. */
  function Completed(p: Program, done: seq<Supply>): (r: seq<Supply>)
    requires |done| <= |p|
    ensures |r| == |p| && r[..|done|] == done
  {
    done + seq(|p| - |done|, j requires 0 <= j < |p| - |done| => Filler(p[|done| + j]))
  }

  // ---- Totals over a whole series ----

  function Bursts(p: Program): nat
  {
    if p == [] then 0 else Bursts(p[..|p| - 1]) + (if p[|p| - 1].Burst? then 1 else 0)
  }

  /** The number of frames a series asks for: int(n) per burst, none for a negative n. */
  function Exposures(p: Program): nat
  {
    if p == [] then 0 else Exposures(p[..|p| - 1]) + (if p[|p| - 1].Burst? then Max0(p[|p| - 1].count) else 0)
  }

  /** The frames the frame source delivered to the series' bursts, in order. */
  function SeriesFrames(p: Program, supplies: seq<Supply>): seq<Frame>
    requires |supplies| == |p|
  {
    if p == [] then []
    else
      var n := |p| - 1;
      SeriesFrames(p[..n], supplies[..n]) + (if p[n].Burst? then supplies[n].frames else [])
  }

  /** The frame source delivers exactly as many frames as the bursts ask for. */
  lemma {:induction false} SeriesFramesCount(p: Program, supplies: seq<Supply>)
    requires AllFit(p, supplies)
    ensures |SeriesFrames(p, supplies)| == Exposures(p)
  {
    if p != [] {
      var n := |p| - 1;
      assert AllFit(p[..n], supplies[..n]) by {
        assert forall i :: 0 <= i < n ==> p[..n][i] == p[i] && supplies[..n][i] == supplies[i];
      }
      SeriesFramesCount(p[..n], supplies[..n]);
      assert Fits(p[n], supplies[n]);
    }
  }

  // ---- Camera readiness ----

  const ReadyText := "Camera is ready for Image Capture"
  const NotReadyText := "Camera is not ready for Image Capture"

  /** The status label the readiness check sets. */
  datatype Indicator = Indicator(ready: bool, text: string)
}
