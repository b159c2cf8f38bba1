# SHIMCO camera GUI: exposure series, modelled in Dafny

The SHIMCO camera GUIs let an operator type an *exposure series* into a text
box and run it with **Execute Series**. Each non-blank line of the text is one
command:

- `add delay <ms>` is a pause;
- `<count> <exposure> <target>` is a burst of `count` frames at `exposure`,
  saved under the name `target`.

`ExecuteSeries` parses the text into a list of commands and hands it to a
`CaptureSeriesThread`. The thread runs the commands in order. There are two
versions of the thread:

- **Lab GUI** (`Lab_Ready_GUI/LabReadyGUI.py`). It drives the PICam camera.
  It sets the exposure time, starts an acquisition, then waits for, reads and
  displays each frame, and stops the acquisition at the end.
  - An exposure below 1000 ms saves each frame as soon as it is read.
  - A longer exposure saves all frames after the acquisition has stopped.
  - A delay sleeps its value in milliseconds.
- **Simulation GUI** (`Test_GUIs/OptimizedQthreadGUI.py`). It shows random
  frames, sleeps the exposure after each one, and then saves all of them under
  the fixed label `Simulated_Image`. A delay sleeps its value in seconds.

Each saved file is named `<label>_<YYYY-mm-dd_HH-MM-SS>`. Both GUIs also show
a *camera status* line, and they fill the text box with a default series and
an example series.

## How the model is built

- **Parser.** `Series` holds the parser that both GUIs share (the two copies
  are the same code). It is built on Python's `str.splitlines`, `str.split`,
  `int` and `float`, written out in `Tokens` and `Decimal`.
  - A parse either yields a `Program` or yields the exception the source would
    raise: the row, plus the `IndexError` or `ValueError` it comes from.
  - `CompileSeries` is the source's `for row in rows` loop, proved equal to
    the recursive definition `ParseProgram`.
  - `Render` writes a program back as text, and `RenderRoundTrip` proves that
    parsing it gives the program again.
- **Environment.** Everything the threads call is the class `Devices.Rig`:
  the camera, the Qt image signal, `np.savez_compressed`, the clock,
  `np.random.randint` and `time.sleep`.
  - The rig keeps a ghost event log.
  - A call that raises records nothing and returns `ok == false`.
  - Which frames arrive and what the clock reads are the rig's choice, so they
    are unknown to the threads.
- **Specification logs.** Each executor's methods (`RunBurst`, `RunCommand`,
  `CaptureSeriesThread.Run`, `ExecuteSeries`) are proved against a
  specification log: `BurstLog`, `CommandLog` and `SeriesLog`, built from the
  frames and time stamps the rig supplied.
  - A run that completes leaves exactly that log.
  - A run that raises leaves a strict prefix of it.
  - Lemmas then prove what the log means: its layout, which frames are
    displayed and saved and under which names, how many acquisitions are
    opened and closed, and that the camera is idle at the end.
- **Interpretation.** Python's `int(x)` on a float truncates toward zero; it
  is `Trunc`. `float` values are Dafny `real`s.

## Model

| member | source | states |
|---|---|---|
| Decimal.ParseIntText | Lab_Ready_GUI/LabReadyGUI.py:403 | `int(str(n)) == n` for every integer n |
| Decimal.IntLiteralIsReal | Lab_Ready_GUI/LabReadyGUI.py:401-404 | every token `int` accepts, `float` accepts with the same value |
| Decimal.ParseRealIntText | Lab_Ready_GUI/LabReadyGUI.py:404 | `float(str(n)) == n` for every integer n |
| Decimal.NotNumeric | Lab_Ready_GUI/LabReadyGUI.py:401-404 | a token holding a character other than a digit, a point or a sign is rejected by both `int` and `float` |
| Decimal.NatText | Test_GUIs/OptimizedQthreadGUI.py:302 | `str(n)` of a natural number is all digits, has value n and has no leading zero |
| Tokens.Split | Lab_Ready_GUI/LabReadyGUI.py:396 | `split()` yields only non-empty, whitespace-free words |
| Tokens.SplitLines | Lab_Ready_GUI/LabReadyGUI.py:394 | `splitlines()` yields only lines without line breaks |
| Tokens.SplitJoinWords | Lab_Ready_GUI/LabReadyGUI.py:396 | splitting space-joined words gives back those words |
| Tokens.SplitJoinLines | Lab_Ready_GUI/LabReadyGUI.py:394 | splitting "\n"-joined non-empty lines gives back those lines |
| Tokens.OneLineOfWords | Lab_Ready_GUI/LabReadyGUI.py:394-396 | words joined by spaces form one line that splits back into the words |
| Series.LineMeaning | Lab_Ready_GUI/LabReadyGUI.py:400-406 | an `add delay` line succeeds iff it has a third token and `float` accepts it, and is then that delay; any other line succeeds iff it has three tokens, `int` accepts the first and `float` the second, and is then that burst; a bare `add` raises IndexError on `parts[1]` |
| Series.AddLinesRejected | Lab_Ready_GUI/LabReadyGUI.py:400-403 | a line starting with `add` that is not `add delay` fails: IndexError on `parts[1]` for a bare `add`, otherwise the ValueError of `int("add")` |
| Series.ExtraTokensIgnored | Lab_Ready_GUI/LabReadyGUI.py:400-406 | tokens after the third never change what a line means |
| Series.ParseRowsOk | Lab_Ready_GUI/LabReadyGUI.py:394-406 | a successful parse has one command per non-blank row, each the meaning of that row |
| Series.ParseRowsAllLinesOk | Lab_Ready_GUI/LabReadyGUI.py:394-406 | if every non-blank row parses, the whole text parses |
| Series.ParseRowsErr | Lab_Ready_GUI/LabReadyGUI.py:394-406 | a failed parse names a non-blank row that fails with the reported reason, and every non-blank row before it parses |
| Series.ParseRowsErrSticks | Lab_Ready_GUI/LabReadyGUI.py:395-406 | once a prefix of the rows fails, later rows do not change the error |
| Series.CompileSeries | Lab_Ready_GUI/LabReadyGUI.py:390-406 | the row loop computes exactly the parse of the text, the program or the first error |
| Series.CommandRoundTrip | Lab_Ready_GUI/LabReadyGUI.py:396-406 | the text of a printable command is one non-blank line whose tokens parse back to the command |
| Series.RenderRoundTrip | Lab_Ready_GUI/LabReadyGUI.py:390-406 | parsing the rendered text of a program of printable commands gives back the program |
| Series.RowsRoundTrip | Lab_Ready_GUI/LabReadyGUI.py:394-406 | rows that are the texts of printable commands parse to those commands |
| Series.OneLineProgram | Lab_Ready_GUI/LabReadyGUI.py:394-406 | a one-line text parses to that line's command, or fails at row 0 with that line's reason |
| Series.ParsePair | Lab_Ready_GUI/LabReadyGUI.py:394-406 | two command texts joined by "\n" parse to the two commands |
| Series.DelayText | Lab_Ready_GUI/LabReadyGUI.py:400-401 | a whole-millisecond delay is printable as `add delay <ms>` |
| Series.BurstText | Lab_Ready_GUI/LabReadyGUI.py:403-406 | a burst with whole exposure and a one-word target is printable as `<count> <exposure> <target>` |
| Timestamps.Pad | Lab_Ready_GUI/LabReadyGUI.py:70 | a `%Y`/`%m`/`%d`-style field has exactly its width and only digits |
| Timestamps.PadValue | Lab_Ready_GUI/LabReadyGUI.py:70 | a zero-padded field reads back as its number |
| Timestamps.Timestamp | Lab_Ready_GUI/LabReadyGUI.py:70 | `strftime("%Y-%m-%d_%H-%M-%S")` is 19 characters with its separators in place |
| Timestamps.TimestampRoundTrip | Lab_Ready_GUI/LabReadyGUI.py:70 | the time stamp text determines the date and time it was made from |
| Timestamps.FileNameParts | Lab_Ready_GUI/LabReadyGUI.py:71 | a file name is the target, an underscore and the time stamp of its time |
| Timestamps.FileNameCollision | Lab_Ready_GUI/LabReadyGUI.py:71 | two file names are equal iff their targets and their times (to the second) are equal |
| Devices.Rig.SetExposureTime | Lab_Ready_GUI/LabReadyGUI.py:60 | logs the exposure set, or nothing when the call raises |
| Devices.Rig.StartAcquisition | Lab_Ready_GUI/LabReadyGUI.py:61 | logs the start, or nothing when the call raises |
| Devices.Rig.WaitForFrame | Lab_Ready_GUI/LabReadyGUI.py:65 | logs the wait, or nothing when the call raises |
| Devices.Rig.ReadOldestImage | Lab_Ready_GUI/LabReadyGUI.py:66 | logs the frame read, or nothing when the call raises |
| Devices.Rig.EmitImage | Lab_Ready_GUI/LabReadyGUI.py:68 | logs the frame displayed |
| Devices.Rig.SaveCompressed | Lab_Ready_GUI/LabReadyGUI.py:73 | logs the file written with its name and frame, or nothing when the call raises |
| Devices.Rig.StopAcquisition | Lab_Ready_GUI/LabReadyGUI.py:76 | logs the stop, or nothing when the call raises |
| Devices.Rig.TimeSleep | Lab_Ready_GUI/LabReadyGUI.py:56 | a negative duration raises; a sleep that succeeds logs its duration, and one that raises logs nothing |
| Devices.Rig.Now | Lab_Ready_GUI/LabReadyGUI.py:70 | the clock reads a valid calendar date and time |
| Devices.Rig.RandomImage | Test_GUIs/OptimizedQthreadGUI.py:44 | returns some 1024 x 1024 frame with every pixel in 1..99, never raises and logs nothing; which pixels it draws is not modelled |
| Devices.ConcatPrefix | Lab_Ready_GUI/LabReadyGUI.py:54 | the logs of the first k commands are a prefix of the whole series log |
| Devices.ConcatStrictPrefix | Lab_Ready_GUI/LabReadyGUI.py:54 | completed commands followed by part of the next one are a strict prefix of the series log |
| Devices.FramesOfConcat | Lab_Ready_GUI/LabReadyGUI.py:54-82 | the frames a log reads, shows or saves distribute over concatenation |
| Devices.CountConcat | Lab_Ready_GUI/LabReadyGUI.py:54-82 | event counts distribute over concatenation |
| Acquisition.SaveAll | Lab_Ready_GUI/LabReadyGUI.py:78-82 | saves every image in order under `<target>_<time>`; on success all are saved, and when a save raises, the images before it are saved and nothing after |
| Acquisition.SavesFrames | Lab_Ready_GUI/LabReadyGUI.py:78-82 | the saving loop writes exactly the images, in order, and reads or shows none |
| Acquisition.SavesNames | Lab_Ready_GUI/LabReadyGUI.py:78-82 | the saving loop writes exactly the given names, in order |
| Acquisition.SavesCount | Lab_Ready_GUI/LabReadyGUI.py:78-82 | the saving loop makes no camera call |
| Acquisition.SavesStrictPrefix | Lab_Ready_GUI/LabReadyGUI.py:78-82 | saves cut short are a strict prefix of the full saves |
| Acquisition.SeriesFramesCount | Lab_Ready_GUI/LabReadyGUI.py:54-76 | a series handles one frame per requested exposure, summed over its bursts |
| LabReadyGui.Trunc | Lab_Ready_GUI/LabReadyGUI.py:60 | `int(exposure_time)` truncates toward zero |
| LabReadyGui.StreamedBurstShape | Lab_Ready_GUI/LabReadyGUI.py:59-76 | below 1000 ms a burst sets the truncated exposure, starts, runs wait/read/show/save per frame under `<target>_<time>`, and stops |
| LabReadyGui.BatchedBurstShape | Lab_Ready_GUI/LabReadyGUI.py:59-82 | from 1000 ms on, a burst sets the exposure, starts, runs wait/read/show per frame, stops, and only then saves every frame in order; no file is written before the stop |
| LabReadyGui.BurstFrames | Lab_Ready_GUI/LabReadyGUI.py:58-82 | every frame of a burst is read, shown and saved, each exactly once and in capture order |
| LabReadyGui.BurstNames | Lab_Ready_GUI/LabReadyGUI.py:69-82 | a burst's files are named `<target>_<time>` in capture order |
| LabReadyGui.BurstCount | Lab_Ready_GUI/LabReadyGUI.py:58-82 | a burst opens and closes one acquisition and waits once per frame |
| LabReadyGui.OpenDuringBurst | Lab_Ready_GUI/LabReadyGUI.py:61-76 | during a burst the acquisition is open from the start to the stop and closed before and after, saves after a long exposure included |
| LabReadyGui.CaptureFailure | Lab_Ready_GUI/LabReadyGUI.py:62-74 | a capture loop cut short by a raising camera call leaves a strict prefix of the burst log |
| LabReadyGui.SaveFailure | Lab_Ready_GUI/LabReadyGUI.py:77-82 | a save raising after a long exposure leaves a strict prefix of the burst log, with the acquisition already stopped |
| LabReadyGui.CaptureOne | Lab_Ready_GUI/LabReadyGUI.py:64-73 | one capture waits, reads, shows and, below 1000 ms, saves under the clock's time; when a call raises, the calls before it are all that is logged |
| LabReadyGui.CaptureFrames | Lab_Ready_GUI/LabReadyGUI.py:62-75 | the `while True` loop captures exactly max(count, 0) frames, or stops at the first raising call with fewer |
| LabReadyGui.Finish | Lab_Ready_GUI/LabReadyGUI.py:76-82 | the stop and the later saves complete the burst log, or leave a strict prefix of it |
| LabReadyGui.SaveAfterStop | Lab_Ready_GUI/LabReadyGUI.py:77-82 | saves after the stop complete the burst log, or leave a strict prefix of it |
| LabReadyGui.Acquire | Lab_Ready_GUI/LabReadyGUI.py:61-82 | start, captures, stop and saves give the burst log after its opening, or a strict prefix of it |
| LabReadyGui.RunBurst | Lab_Ready_GUI/LabReadyGUI.py:58-82 | a burst run leaves the burst log of the frames and times it got, or a strict prefix of it when a call raises |
| LabReadyGui.RunCommand | Lab_Ready_GUI/LabReadyGUI.py:55-82 | a delay sleeps its value in milliseconds (it raises when negative) and a burst runs as RunBurst |
| LabReadyGui.CaptureSeriesThread.constructor | Lab_Ready_GUI/LabReadyGUI.py:49-51 | the thread keeps the series it is given |
| LabReadyGui.CaptureSeriesThread.Run | Lab_Ready_GUI/LabReadyGUI.py:53-82 | the commands run in order and leave the series log, or a strict prefix of it at the first raised exception; a completed run had no negative delay |
| LabReadyGui.ExecuteSeries | Lab_Ready_GUI/LabReadyGUI.py:390-411 | a text that fails to parse touches no device; otherwise the parsed series runs as CaptureSeriesThread.Run |
| LabReadyGui.SeriesFailure | Lab_Ready_GUI/LabReadyGUI.py:53-82 | completed commands followed by part of the failing one are a strict prefix of the whole series log |
| LabReadyGui.CommandTotals | Lab_Ready_GUI/LabReadyGUI.py:55-82 | a delay makes no camera call at all; a burst starts and stops once and waits once per frame |
| LabReadyGui.CommandFrames | Lab_Ready_GUI/LabReadyGUI.py:55-82 | a burst reads, shows and saves exactly its frames; a delay handles none |
| LabReadyGui.SeriesTotals | Lab_Ready_GUI/LabReadyGUI.py:53-82 | a series starts and stops one acquisition per burst and waits once per exposure |
| LabReadyGui.SeriesLeavesCameraIdle | Lab_Ready_GUI/LabReadyGUI.py:53-82 | after a completed series no acquisition is left open |
| LabReadyGui.SeriesSavesEveryFrame | Lab_Ready_GUI/LabReadyGUI.py:53-82 | a completed series reads, shows and saves every frame of every burst, in order, one per requested exposure |
| LabReadyGui.CameraStatus | Lab_Ready_GUI/LabReadyGUI.py:319-329 | with the camera open, the status is "ready" iff the sensor reading is strictly within 2 degrees of the set point, with the matching text; with the camera closed nothing is shown |
| LabReadyGui.DefaultSeries | Lab_Ready_GUI/LabReadyGUI.py:153 | the default text parses to a 3000 ms delay and a burst of five 1200 ms frames saved after the stop |
| LabReadyGui.ExampleSeriesFails | Lab_Ready_GUI/LabReadyGUI.py:414 | the example text is one line and fails at row 0 because `float("3000n")` raises |
| LabReadyGui.IntendedExampleSeries | Lab_Ready_GUI/LabReadyGUI.py:414 | the example with the stray `n` removed and a line break in place parses to a 3000 ms delay and a five-frame burst |
| SimulatedGui.ShotsAt | Test_GUIs/OptimizedQthreadGUI.py:43-48 | the frame loop shows each frame and then sleeps the exposure, frame by frame |
| SimulatedGui.ShowFrames | Test_GUIs/OptimizedQthreadGUI.py:43-48 | shows and sleeps for each of max(count, 0) random frames; a sleep that raises ends the loop right after that frame is shown, and a negative exposure makes the first sleep raise |
| SimulatedGui.FailInShots | Test_GUIs/OptimizedQthreadGUI.py:43-48 | a showing loop cut short by the sleep after frame k has logged a strict prefix of the burst log |
| SimulatedGui.BurstShape | Test_GUIs/OptimizedQthreadGUI.py:43-55 | a burst shows and sleeps per frame, then saves every frame as `Simulated_Image_<time>` in order |
| SimulatedGui.BurstFrames | Test_GUIs/OptimizedQthreadGUI.py:43-55 | every frame is shown and saved exactly once, in order; no camera frame is read |
| SimulatedGui.BurstNames | Test_GUIs/OptimizedQthreadGUI.py:51-55 | the files are named `Simulated_Image_<time>` in order |
| SimulatedGui.TargetUnused | Test_GUIs/OptimizedQthreadGUI.py:42-55 | the target name of a burst never changes what it does; every file carries the fixed label and its own time |
| SimulatedGui.BurstNoCameraCall | Test_GUIs/OptimizedQthreadGUI.py:36-55 | a simulated burst makes no camera call |
| SimulatedGui.RunBurst | Test_GUIs/OptimizedQthreadGUI.py:40-55 | a burst run leaves the burst log, or a strict prefix of it; a negative exposure fails right after the first frame is shown |
| SimulatedGui.RunCommand | Test_GUIs/OptimizedQthreadGUI.py:37-55 | a delay sleeps its value in seconds and a burst runs as RunBurst; a completed command had no negative sleep |
| SimulatedGui.CaptureSeriesThread.constructor | Test_GUIs/OptimizedQthreadGUI.py:32-34 | the thread keeps the series it is given |
| SimulatedGui.CaptureSeriesThread.Run | Test_GUIs/OptimizedQthreadGUI.py:36-55 | the commands run in order and leave the series log, or a strict prefix of it at the first raised exception |
| SimulatedGui.ExecuteSeries | Test_GUIs/OptimizedQthreadGUI.py:344-365 | a text that fails to parse does nothing; otherwise the parsed series runs as CaptureSeriesThread.Run |
| SimulatedGui.SeriesFailure | Test_GUIs/OptimizedQthreadGUI.py:36-55 | completed commands followed by part of the failing one are a strict prefix of the whole series log |
| SimulatedGui.CommandFrames | Test_GUIs/OptimizedQthreadGUI.py:37-55 | a burst shows and saves exactly its frames and makes no camera call; a delay handles none |
| SimulatedGui.SeriesSavesEveryFrame | Test_GUIs/OptimizedQthreadGUI.py:36-55 | a completed series makes no camera call and shows and saves every frame, in order, one per requested exposure |
| SimulatedGui.CameraStatus | Test_GUIs/OptimizedQthreadGUI.py:292-299 | the status exists iff `int` accepts the displayed text, and is "ready" iff that value is within -72..-68 inclusive, with the matching text |
| SimulatedGui.StatusOfShownTemperature | Test_GUIs/OptimizedQthreadGUI.py:294 | for a temperature shown by `str`, the status is "ready" iff it is within -72..-68 |
| SimulatedGui.DefaultSeries | Test_GUIs/OptimizedQthreadGUI.py:125 | the default text parses to a 3 s delay and a burst of five 2 s frames |
| SimulatedGui.ExampleSeries | Test_GUIs/OptimizedQthreadGUI.py:368 | the example text parses to a 3 s delay and a burst of five 10 s frames |

## Left out

- Python's full numeric-literal grammar is not modelled. `int` and `float`
  accept `[+-]digits[.digits]` only (at least one digit around the optional
  point). Exponents, `inf`/`nan`, underscores and non-ASCII digits are out,
  so such tokens are rejected by the model.
- Floating point is modelled as exact reals. Rounding near the 1000 ms
  threshold and in `command[0]/1000` is not captured.
- `os.path.join` with the image folder and the `.npz` extension that
  `np.savez_compressed` adds are left out. A file is identified by its name.
- Devices.Rig.TimeSleep: the OverflowError `time.sleep` raises for a length
  too long for the platform's timer is not modelled as such. Where that limit
  lies depends on the platform, so a sleep of any non-negative length may
  succeed or raise, and the model promises only that a negative one raises.
- SimulatedGui.ShowFrames: for the same reason it does not promise that a
  non-negative exposure completes the loop. It promises only that a negative
  exposure with frames to show fails right after the first frame.
- Frame contents, the wall clock and `np.random.randint` are inputs chosen by
  the environment. Years outside 1000..9999 are excluded from `Valid`, since
  `%Y` pads to four digits.
- The Qt widgets, signals and slots, the live capture loop, the pause, resume
  and stop buttons, temperature control (`setFunction`, `TempStatus`), the
  module-level camera set-up and `MWE.py` are not part of this model.
- The thread runs synchronously inside `ExecuteSeries`. `QThread.start`
  concurrency and a second series started while one runs are not modelled.
- SimulatedGui.CameraStatus: the text colour is not modelled, and a text
  that `int` rejects, which raises ValueError in the source, gives `None`.
- LabReadyGui.CameraStatus: the enabling of the resume and capture buttons is
  represented only by the `ready` flag.
- The run loop of the lab thread is split into helper methods (`Acquire`,
  `CaptureFrames`, `CaptureOne`, `Finish`, `SaveAfterStop`). The single
  parser models both identical copies of `ExecuteSeries`.
- One would expect the parser to check its input more strictly than the
  code does. The model follows the code:
  - It does not reject zero or negative counts or exposures. A negative count
    captures nothing, and a negative exposure reaches the camera.
  - It does not reject extra tokens on a line.
  - It has no dedicated error for an `add` line other than `add delay`. Such
    a line is read as a burst and fails because `int("add")` raises
    ValueError, or with IndexError when `add` stands alone.
  - It reports no line number. The row in `ParseError` is the model's record
    of where the exception was raised.
  - It does not close the acquisition when a camera call raises, because
    there is no `try`/`finally`.
  - A failing save raises and ends the thread instead of being skipped.

## Findings

| source | as written | input that shows it | evidently intended | confidence | as-written member | corrected member |
|---|---|---|---|---|---|---|
| Lab_Ready_GUI/LabReadyGUI.py:414 | the example series text is `add delay 3000n 5 1200 HeNe_Darks_1200_ms`, one line | press Example Series, then Execute Series: the line is read as a delay and `float("3000n")` raises ValueError, so the example never runs | `add delay 3000\n5 1200 HeNe_Darks_1200_ms`, a 3000 ms delay then a five-frame burst, like the default text at line 153 | high (not executed) | LabReadyGui.ExampleSeriesFails | LabReadyGui.IntendedExampleSeries |
