/**
 * The hardware and the environment both GUIs drive — the PICam camera, the
 * Qt image signal, the file writer, the clock and `time.sleep` — seen only
 * through the calls made on them, which are recorded in an event log.
 */
module Devices {
  import opened Timestamps

  /** An image buffer, as the camera or the random generator hands it over. */
  datatype Frame = Frame(pixels: seq<seq<int>>)

  /** A 1024 x 1024 image with every pixel in `randint(1, 100)`'s range 1..99. */
  predicate RandomShape(f: Frame)
  {
    |f.pixels| == 1024 &&
    forall i :: 0 <= i < |f.pixels| ==>
      |f.pixels[i]| == 1024 && forall j :: 0 <= j < |f.pixels[i]| ==> 1 <= f.pixels[i][j] < 100
  }

  /** One completed call on the environment. */
  datatype Event =
    | SetExposure(ms: int)            // cam1.set_attribute_value('Exposure Time', ms)
    | Start                           // cam1.start_acquisition()
    | Wait                            // cam1.wait_for_frame()
    | Read(frame: Frame)              // cam1.read_oldest_image()
    | Emit(frame: Frame)              // self.update_image.emit(img)
    | Save(name: string, frame: Frame)  // np.savez_compressed(os.path.join(folder, name), array = img)
    | Stop                            // cam1.stop_acquisition()
    | Sleep(seconds: real)            // time.sleep(seconds)

  predicate IsCameraCall(e: Event)
  {
    e.SetExposure? || e.Start? || e.Wait? || e.Read? || e.Stop?
  }

  /** p is a proper prefix of s: the run that produced p ended before s was complete. */
  predicate StrictPrefix<T(==)>(p: seq<T>, s: seq<T>)
  {
    |p| < |s| && p == s[..|p|]
  }

  predicate Prefix<T(==)>(p: seq<T>, s: seq<T>)
  {
    |p| <= |s| && p == s[..|p|]
  }

  /** The three ways a frame appears in the log. */
  datatype FrameUse = Reading | Emitting | Saving

  predicate UsesFrame(e: Event, u: FrameUse)
  {
    match u
    case Reading => e.Read?
    case Emitting => e.Emit?
    case Saving => e.Save?
  }

  /** The frame an event contributes to the frames of one kind. */
  function FrameOf(e: Event, u: FrameUse): seq<Frame>
  {
    if UsesFrame(e, u) then [e.frame] else []
  }

  function NameOf(e: Event): seq<string>
  {
    if e.Save? then [e.name] else []
  }

  /** A non-empty sequence is its front and its last element. */
  lemma LastSplit<T>(s: seq<T>)
    requires |s| > 0
    ensures s[..|s| - 1] + [s[|s| - 1]] == s
  {
  }

  /** Appending to a log in two steps is appending the two parts at once. */
  lemma Extend(log0: seq<Event>, trace: seq<Event>, more: seq<Event>)
    ensures log0 + trace + more == log0 + (trace + more)
  {
  }

  /** The frames of the events of one kind, in log order. */
  function FramesOf(log: seq<Event>, u: FrameUse): seq<Frame>
  {
    if log == [] then [] else FramesOf(log[..|log| - 1], u) + FrameOf(log[|log| - 1], u)
  }

  /** The file names of the saves, in log order. */
  function SavedNames(log: seq<Event>): seq<string>
  {
    if log == [] then [] else SavedNames(log[..|log| - 1]) + NameOf(log[|log| - 1])
  }

  lemma {:induction false} FramesOfConcat(a: seq<Event>, b: seq<Event>, u: FrameUse)
    ensures FramesOf(a + b, u) == FramesOf(a, u) + FramesOf(b, u)
  {
    if b != [] {
      assert (a + b)[..|a + b| - 1] == a + b[..|b| - 1];
      FramesOfConcat(a, b[..|b| - 1], u);
    } else {
      assert a + b == a;
    }
  }

  lemma {:induction false} SavedNamesConcat(a: seq<Event>, b: seq<Event>)
    ensures SavedNames(a + b) == SavedNames(a) + SavedNames(b)
  {
    if b != [] {
      assert (a + b)[..|a + b| - 1] == a + b[..|b| - 1];
      SavedNamesConcat(a, b[..|b| - 1]);
    } else {
      assert a + b == a;
    }
  }

  /** The frames of up to four literal events. */
  lemma StepFrames(w: Event, x: Event, y: Event, z: Event, u: FrameUse)
    ensures FramesOf([w], u) == FrameOf(w, u)
    ensures FramesOf([w, x], u) == FrameOf(w, u) + FrameOf(x, u)
    ensures FramesOf([w, x, y], u) == FrameOf(w, u) + FrameOf(x, u) + FrameOf(y, u)
    ensures FramesOf([w, x, y, z], u) == FrameOf(w, u) + FrameOf(x, u) + FrameOf(y, u) + FrameOf(z, u)
  {
    assert [w, x, y, z][..3] == [w, x, y];
    assert [w, x, y][..2] == [w, x];
    assert [w, x][..1] == [w];
    assert [w][..0] == [];
  }

  /** The saved names of up to four literal events. */
  lemma StepNames(w: Event, x: Event, y: Event, z: Event)
    ensures SavedNames([w]) == NameOf(w)
    ensures SavedNames([w, x]) == NameOf(w) + NameOf(x)
    ensures SavedNames([w, x, y]) == NameOf(w) + NameOf(x) + NameOf(y)
    ensures SavedNames([w, x, y, z]) == NameOf(w) + NameOf(x) + NameOf(y) + NameOf(z)
  {
    assert [w, x, y, z][..3] == [w, x, y];
    assert [w, x, y][..2] == [w, x];
    assert [w, x][..1] == [w];
    assert [w][..0] == [];
  }

  /** The logs of consecutive steps, one after the other. */
  function Concat(logs: seq<seq<Event>>): seq<Event>
  {
    if logs == [] then [] else Concat(logs[..|logs| - 1]) + logs[|logs| - 1]
  }

  /** The steps done so far have logged a prefix of the whole. */
  lemma {:induction false} ConcatPrefix(logs: seq<seq<Event>>, k: nat)
    requires k <= |logs|
    ensures Prefix(Concat(logs[..k]), Concat(logs))
  {
    if k < |logs| {
      var n := |logs| - 1;
      ConcatPrefix(logs[..n], k);
      assert logs[..n][..k] == logs[..k];
      var a := Concat(logs[..n]);
      assert (a + logs[n])[..|a|] == a;
    } else {
      assert logs[..k] == logs;
    }
  }

  /** Stopping inside step k gives a strict prefix of the whole log. */
  lemma ConcatStrictPrefix(logs: seq<seq<Event>>, k: nat, partial: seq<Event>)
    requires k < |logs| && StrictPrefix(partial, logs[k])
    ensures StrictPrefix(Concat(logs[..k]) + partial, Concat(logs))
  {
    ConcatPrefix(logs, k + 1);
    var a := Concat(logs[..k]);
    var b := a + logs[k];
    assert logs[..k + 1][..k] == logs[..k] && logs[..k + 1][k] == logs[k];
    assert Concat(logs[..k + 1]) == b;
    var whole := Concat(logs);
    assert whole[..|b|] == b;
    assert whole[..|a + partial|] == whole[..|b|][..|a + partial|];
    assert b[..|a + partial|] == a + logs[k][..|partial|];
  }

  /** How many times the event occurs in the log. */
  function Count(log: seq<Event>, e: Event): nat
  {
    if log == [] then 0 else Count(log[..|log| - 1], e) + (if log[|log| - 1] == e then 1 else 0)
  }

  lemma {:induction false} CountConcat(a: seq<Event>, b: seq<Event>, e: Event)
    ensures Count(a + b, e) == Count(a, e) + Count(b, e)
  {
    if b != [] {
      assert (a + b)[..|a + b| - 1] == a + b[..|b| - 1];
      CountConcat(a, b[..|b| - 1], e);
    } else {
      assert a + b == a;
    }
  }

  /** The count in a log of up to four literal events. */
  lemma StepCounts(w: Event, x: Event, y: Event, z: Event, e: Event)
    ensures Count([w], e) == (if w == e then 1 else 0)
    ensures Count([w, x], e) == Count([w], e) + (if x == e then 1 else 0)
    ensures Count([w, x, y], e) == Count([w, x], e) + (if y == e then 1 else 0)
    ensures Count([w, x, y, z], e) == Count([w, x, y], e) + (if z == e then 1 else 0)
  {
    assert [w, x, y, z][..3] == [w, x, y];
    assert [w, x, y][..2] == [w, x];
    assert [w, x][..1] == [w];
    assert [w][..0] == [];
  }

  /** Number of acquisitions left open: starts minus stops. */
  function OpenAcquisitions(log: seq<Event>): int
  {
    Count(log, Start) - Count(log, Stop)
  }

  /**
   * The camera, signal, file store, clock and sleep. A call that raises
   * records nothing and reports `ok == false`; which calls fail, which
   * frames arrive and what the clock reads are not known to the GUIs.
   */
  class Rig {
    ghost var log: seq<Event>

    constructor ()
      ensures log == []
    {
      log := [];
    }

    method SetExposureTime(ms: int) returns (ok: bool)
      modifies this
      ensures ok ==> log == old(log) + [SetExposure(ms)]
      ensures !ok ==> log == old(log)
    {
      ok :| true;
      if ok { log := log + [SetExposure(ms)]; }
    }

    method StartAcquisition() returns (ok: bool)
      modifies this
      ensures ok ==> log == old(log) + [Start]
      ensures !ok ==> log == old(log)
    {
      ok :| true;
      if ok { log := log + [Start]; }
    }

    method WaitForFrame() returns (ok: bool)
      modifies this
      ensures ok ==> log == old(log) + [Wait]
      ensures !ok ==> log == old(log)
    {
      ok :| true;
      if ok { log := log + [Wait]; }
    }

    method ReadOldestImage() returns (ok: bool, img: Frame)
      modifies this
      ensures ok ==> log == old(log) + [Read(img)]
      ensures !ok ==> log == old(log)
    {
      ok :| true;
      img :| true;
      if ok { log := log + [Read(img)]; }
    }

    method StopAcquisition() returns (ok: bool)
      modifies this
      ensures ok ==> log == old(log) + [Stop]
      ensures !ok ==> log == old(log)
    {
      ok :| true;
      if ok { log := log + [Stop]; }
    }

    /** Emitting a Qt signal never fails. */
    method EmitImage(img: Frame)
      modifies this
      ensures log == old(log) + [Emit(img)]
    {
      log := log + [Emit(img)];
    }

    method SaveCompressed(name: string, img: Frame) returns (ok: bool)
      modifies this
      ensures ok ==> log == old(log) + [Save(name, img)]
      ensures !ok ==> log == old(log)
    {
      ok :| true;
      if ok { log := log + [Save(name, img)]; }
    }

    /**
     * `time.sleep` raises ValueError on a negative length, and OverflowError
     * on a length too long for the platform's timer. That limit belongs to
     * the platform, so the only failure promised here is the negative one.
     */
    method TimeSleep(seconds: real) returns (ok: bool)
      modifies this
      ensures seconds < 0.0 ==> !ok
      ensures ok ==> log == old(log) + [Sleep(seconds)]
      ensures !ok ==> log == old(log)
    {
      ok :| seconds < 0.0 ==> !ok;
      if ok { log := log + [Sleep(seconds)]; }
    }

    /** `datetime.datetime.now()`. */
    method Now() returns (t: DateTime)
      ensures Valid(t)
    {
      assert Valid(DateTime(2000, 1, 1, 0, 0, 0));
      t :| Valid(t);
    }

    /**
     * `np.random.randint(1, 100, size = (1024, 1024))`: some 1024 x 1024
     * image whose pixels lie in 1..99. It never raises and calls nothing the
     * log records; which pixels it draws is the generator's choice.
     */
    method RandomImage() returns (img: Frame)
      ensures RandomShape(img)
    {
      assert RandomShape(Frame(seq(1024, i => seq(1024, j => 1))));
      img :| RandomShape(img);
    }
  }
}
