/**
 * The replay application: the windows it tracks, the running and paused
 * flags driven by frame playback, and the measurement range whose frame
 * rate it reports. The file processor is seen only through its current
 * frame number, the outcome of processing a frame, and its error state,
 * which the operations take as inputs.
 */
module Replay {

  newtype u32 = x: int | 0 <= x < 0x1_0000_0000
  newtype i64 = x: int | -0x8000_0000_0000_0000 <= x < 0x8000_0000_0000_0000

  const U32Max: u32 := 0xFFFF_FFFF

  /** `a - b` on `uint32_t`, which wraps around below zero. */
  function WrapSub(a: u32, b: u32): (r: u32)
    ensures b <= a ==> r as int == a as int - b as int
    ensures a < b ==> r as int == a as int - b as int + 0x1_0000_0000
  {
    ((a as int - b as int) % 0x1_0000_0000) as u32
  }

  /** A window created by the platform layer; only its identity matters here. */
  class Window {}

  /** The decoder that feeds replay; only its identity matters here. */
  class FileProcessor {}

  // ------------------------------------------------------------ window list

  /** Position of the first occurrence of x in s, or |s| when there is none (what `std::find` yields). */
  function IndexOf<T(==)>(s: seq<T>, x: T): (r: nat)
    ensures r <= |s|
    ensures r < |s| ==> s[r] == x
    ensures forall i :: 0 <= i < r ==> s[i] != x
    decreases |s|
  {
    if s == [] then 0 else if s[0] == x then 0 else 1 + IndexOf(s[1..], x)
  }

  /** s with its first occurrence of x erased, or s itself when x does not occur. */
  function RemoveFirst<T(==)>(s: seq<T>, x: T): seq<T> {
    var i := IndexOf(s, x);
    if i == |s| then s else s[..i] + s[i + 1..]
  }

  predicate NoDuplicates<T(==)>(s: seq<T>) {
    forall i, j :: 0 <= i < j < |s| ==> s[i] != s[j]
  }

  /**
   * Erasing keeps the order of the other elements and removes exactly one
   * occurrence; from a duplicate-free list it removes x altogether and keeps
   * the list duplicate-free.
   */
  lemma RemoveFirstSpec<T>(s: seq<T>, x: T)
    ensures x !in s ==> RemoveFirst(s, x) == s
    ensures x in s ==>
      |RemoveFirst(s, x)| == |s| - 1 && multiset(RemoveFirst(s, x)) == multiset(s) - multiset{x}
    ensures NoDuplicates(s) ==> NoDuplicates(RemoveFirst(s, x)) && x !in RemoveFirst(s, x)
  {
    var i := IndexOf(s, x);
    if i < |s| {
      RemoveAtMultiset(s, i);
      if NoDuplicates(s) {
        RemoveAtNoDuplicates(s, i);
      }
    }
  }

  /** Erasing position i takes one copy of s[i] out of the multiset. */
  lemma RemoveAtMultiset<T>(s: seq<T>, i: nat)
    requires i < |s|
    ensures multiset(s[..i] + s[i + 1..]) == multiset(s) - multiset{s[i]}
  {
    assert s == s[..i] + [s[i]] + s[i + 1..];
    assert multiset(s) == multiset(s[..i]) + multiset{s[i]} + multiset(s[i + 1..]);
  }

  /** Erasing position i of a duplicate-free list keeps it duplicate-free and drops s[i] altogether. */
  lemma RemoveAtNoDuplicates<T>(s: seq<T>, i: nat)
    requires i < |s| && NoDuplicates(s)
    ensures NoDuplicates(s[..i] + s[i + 1..]) && s[i] !in s[..i] + s[i + 1..]
  {
    var r := s[..i] + s[i + 1..];
    forall a, b | 0 <= a < b < |r| ensures r[a] != r[b] {
      var a' := if a < i then a else a + 1;
      var b' := if b < i then b else b + 1;
      assert r[a] == s[a'] && r[b] == s[b'];
    }
    forall k | 0 <= k < |r| ensures r[k] != s[i] {
      var k' := if k < i then k else k + 1;
      assert r[k] == s[k'];
    }
  }

  /** Registering a new window and unregistering it again restores the list. */
  lemma RegisterUnregisterRoundTrip<T>(s: seq<T>, x: T)
    requires x !in s
    ensures RemoveFirst(s + [x], x) == s
  {
    assert IndexOf(s + [x], x) == |s| by {
      forall i | 0 <= i < |s| ensures (s + [x])[i] != x {
        assert (s + [x])[i] == s[i];
      }
      assert (s + [x])[|s|] == x;
    }
    assert (s + [x])[..|s|] == s;
  }

  /** Appending a new element to a duplicate-free list keeps it duplicate-free. */
  lemma AppendFreshNoDuplicates<T>(s: seq<T>, x: T)
    requires NoDuplicates(s) && x !in s
    ensures NoDuplicates(s + [x])
  {
    forall i, j | 0 <= i < j < |s + [x]| ensures (s + [x])[i] != (s + [x])[j] {
      assert (s + [x])[i] == s[i];
      if j < |s| {
        assert (s + [x])[j] == s[j];
      }
    }
  }

  // ------------------------------------------------------------ measurement range

  /** The arguments of `Run` that control the measurement range. */
  datatype RunOptions = RunOptions(
    measurementStartFrame: u32,
    measurementEndFrame: u32,
    quitAfterRange: bool,
    flushMeasurementRange: bool)

  /** By default the range starts at frame 0 and never ends, and replay neither quits nor flushes. */
  const DefaultRunOptions := RunOptions(0, U32Max, false, false)

  /** Whether the frame check stops replay at this frame (the end frame, when it is not also the start frame). */
  predicate QuitsAt(opts: RunOptions, currentFrame: u32) {
    currentFrame != opts.measurementStartFrame && currentFrame == opts.measurementEndFrame && opts.quitAfterRange
  }

  /** With the default arguments the frame check never stops replay. */
  lemma DefaultsNeverQuit(currentFrame: u32)
    ensures !QuitsAt(DefaultRunOptions, currentFrame)
  {
  }

  /** What the frame-rate report comes to: one of four refusals, or the measured range. */
  datatype FpsOutcome =
    | ReplayFailed
    | StillRunning
    | EmptyRange
    | NeverStarted
    | Measured(startFrame: u32, endFrame: u32, totalFrames: u32, clipped: bool)

  /**
   * The guard cascade of the frame-rate report. Past the guards the end frame
   * is clipped to the current frame when replay stopped early.
   */
  function MeasurementOutcome(hasError: bool, running: bool, currentFrame: u32, start: u32, end: u32): FpsOutcome {
    if hasError then ReplayFailed
    else if running && currentFrame < end then StillRunning
    else if start >= end then EmptyRange
    else if currentFrame < start then NeverStarted
    else
      var clipped := currentFrame < end;
      var endFrame := if clipped then currentFrame else end;
      Measured(start, endFrame, WrapSub(endFrame, start), clipped)
  }

  /**
   * A range is measured exactly when no guard fires; then the clipped range
   * lies inside the requested one and the frame count is its exact length,
   * with no wrap-around.
   */
  lemma MeasuredSpec(hasError: bool, running: bool, currentFrame: u32, start: u32, end: u32)
    ensures var o := MeasurementOutcome(hasError, running, currentFrame, start, end);
      o.Measured? <==> !hasError && start < end && start <= currentFrame && (!running || end <= currentFrame)
    ensures var o := MeasurementOutcome(hasError, running, currentFrame, start, end);
      o.Measured? ==>
        o.startFrame == start && start <= o.endFrame <= end && o.endFrame <= currentFrame
        && o.totalFrames as int == o.endFrame as int - start as int
        && (o.clipped <==> currentFrame < end) && (o.clipped ==> !running)
  {
  }

  /** The guards are tried in order: an error hides every other refusal, and so on down the cascade. */
  lemma RefusalOrder(hasError: bool, running: bool, currentFrame: u32, start: u32, end: u32)
    ensures var o := MeasurementOutcome(hasError, running, currentFrame, start, end);
      (o == ReplayFailed <==> hasError)
      && (o == StillRunning <==> !hasError && running && currentFrame < end)
      && (o == EmptyRange <==> !hasError && !(running && currentFrame < end) && start >= end)
      && (o == NeverStarted <==> !hasError && !(running && currentFrame < end) && start < end && currentFrame < start)
  {
  }

  /** After a default run that stopped cleanly, the report covers every frame played. */
  lemma DefaultRangeReport(currentFrame: u32)
    requires currentFrame < U32Max
    ensures MeasurementOutcome(false, false, currentFrame, DefaultRunOptions.measurementStartFrame,
                               DefaultRunOptions.measurementEndFrame)
      == Measured(0, currentFrame, currentFrame, true)
  {
  }

  // ------------------------------------------------------------ the application

  class Application {
    /** Registered windows, in registration order. */
    var windows: seq<Window>
    var fileProcessor: FileProcessor?
    var running: bool
    var paused: bool
    /** Shown in window title bars; fixed at construction. */
    const name: string
    /** Frame after which replay pauses. */
    var pauseFrame: u32
    var measurementStartTime: i64
    var measurementEndTime: i64

    /** No window is registered twice. */
    predicate Valid()
      reads this
    {
      NoDuplicates(windows)
    }

    function GetName(): string
      reads this
    {
      name
    }

    function IsRunning(): bool
      reads this
    {
      running
    }

    function GetPaused(): bool
      reads this
    {
      paused
    }

    /** A new application: not running, not paused, no file processor, no windows. The pause frame and times are left unset. */
    constructor (n: string)
      ensures GetName() == n && !IsRunning() && !GetPaused()
      ensures fileProcessor == null && windows == []
      ensures Valid()
    {
      name := n;
      fileProcessor := null;
      running := false;
      paused := false;
      windows := [];
    }

    method SetFileProcessor(fp: FileProcessor?)
      modifies this
      ensures fileProcessor == fp
      ensures windows == old(windows) && running == old(running) && paused == old(paused)
      ensures pauseFrame == old(pauseFrame)
      ensures measurementStartTime == old(measurementStartTime) && measurementEndTime == old(measurementEndTime)
    {
      fileProcessor := fp;
    }

    method SetPaused(p: bool)
      modifies this
      ensures GetPaused() == p
      ensures windows == old(windows) && fileProcessor == old(fileProcessor) && running == old(running)
      ensures pauseFrame == old(pauseFrame)
      ensures measurementStartTime == old(measurementStartTime) && measurementEndTime == old(measurementEndTime)
    {
      paused := p;
    }

    method SetPauseFrame(frame: u32)
      modifies this
      ensures pauseFrame == frame
      ensures windows == old(windows) && fileProcessor == old(fileProcessor)
      ensures running == old(running) && paused == old(paused)
      ensures measurementStartTime == old(measurementStartTime) && measurementEndTime == old(measurementEndTime)
    {
      pauseFrame := frame;
    }

    method StopRunning()
      modifies this
      ensures !IsRunning()
      ensures windows == old(windows) && fileProcessor == old(fileProcessor) && paused == old(paused)
      ensures pauseFrame == old(pauseFrame)
      ensures measurementStartTime == old(measurementStartTime) && measurementEndTime == old(measurementEndTime)
    {
      running := false;
    }

    /**
     * Plays one frame. `processed` is the file processor's verdict on the
     * frame, `currentFrame` its frame number afterwards. Without a file
     * processor nothing happens; a failed frame stops replay; a played frame
     * pauses replay when it is the pause frame, and never resumes it.
     */
    method PlaySingleFrame(processed: bool, currentFrame: u32) returns (success: bool)
      modifies this
      ensures success <==> fileProcessor != null && processed
      ensures running == (old(running) && (fileProcessor == null || processed))
      ensures paused == (old(paused) || (success && currentFrame == pauseFrame))
      ensures windows == old(windows) && fileProcessor == old(fileProcessor) && pauseFrame == old(pauseFrame)
      ensures measurementStartTime == old(measurementStartTime) && measurementEndTime == old(measurementEndTime)
    {
      success := false;
      if fileProcessor != null {
        success := processed;
        if success {
          if currentFrame == pauseFrame {
            paused := true;
          }
        } else {
          running := false;
        }
      }
    }

    /** Adds a window unless it is already registered; `registered` says which happened. */
    method RegisterWindow(window: Window) returns (registered: bool)
      modifies this
      ensures registered <==> window !in old(windows)
      ensures windows == if registered then old(windows) + [window] else old(windows)
      ensures fileProcessor == old(fileProcessor) && running == old(running) && paused == old(paused)
      ensures pauseFrame == old(pauseFrame)
      ensures measurementStartTime == old(measurementStartTime) && measurementEndTime == old(measurementEndTime)
      ensures old(Valid()) ==> Valid()
    {
      if IndexOf(windows, window) != |windows| {
        return false;
      }
      if Valid() {
        AppendFreshNoDuplicates(windows, window);
      }
      windows := windows + [window];
      return true;
    }

    /** Erases a registered window, keeping the others in order; `removed` says whether it was registered. */
    method UnregisterWindow(window: Window) returns (removed: bool)
      modifies this
      ensures removed <==> window in old(windows)
      ensures windows == RemoveFirst(old(windows), window)
      ensures old(Valid()) ==> Valid() && window !in windows
      ensures fileProcessor == old(fileProcessor) && running == old(running) && paused == old(paused)
      ensures pauseFrame == old(pauseFrame)
      ensures measurementStartTime == old(measurementStartTime) && measurementEndTime == old(measurementEndTime)
    {
      RemoveFirstSpec(windows, window);
      var pos := IndexOf(windows, window);
      if pos == |windows| {
        return false;
      }
      windows := windows[..pos] + windows[pos + 1..];
      return true;
    }

    /**
     * The per-frame check of the measurement range: at the start frame the
     * start time is taken, otherwise at the end frame the end time is taken
     * and replay stops if asked to. `timestamp` is the clock reading;
     * `waited` says whether the decoders were first drained.
     */
    method HandleMeasurementRange(opts: RunOptions, currentFrame: u32, timestamp: i64) returns (waited: bool)
      requires fileProcessor != null
      modifies this
      ensures running == (old(running) && !QuitsAt(opts, currentFrame))
      ensures measurementStartTime ==
        if currentFrame == opts.measurementStartFrame then timestamp else old(measurementStartTime)
      ensures measurementEndTime ==
        if currentFrame != opts.measurementStartFrame && currentFrame == opts.measurementEndFrame
        then timestamp else old(measurementEndTime)
      ensures waited <==>
        (opts.flushMeasurementRange && (currentFrame == opts.measurementStartFrame || currentFrame == opts.measurementEndFrame))
      ensures windows == old(windows) && fileProcessor == old(fileProcessor)
      ensures paused == old(paused) && pauseFrame == old(pauseFrame)
    {
      waited := false;
      if currentFrame == opts.measurementStartFrame {
        if opts.flushMeasurementRange {
          waited := true;
        }
        measurementStartTime := timestamp;
      } else if currentFrame == opts.measurementEndFrame {
        if opts.flushMeasurementRange {
          waited := true;
        }
        measurementEndTime := timestamp;
        if opts.quitAfterRange {
          running := false;
        }
      }
    }

    /**
     * The guards and range clipping of the frame-rate report. `hasError` is
     * the file processor's error state, `currentFrame` its frame number and
     * `timestamp` the clock reading taken when the range is clipped.
     */
    method WriteMeasurementRangeFps(start: u32, end: u32, hasError: bool, currentFrame: u32, timestamp: i64)
      returns (outcome: FpsOutcome)
      requires fileProcessor != null
      modifies this
      ensures outcome == MeasurementOutcome(hasError, running, currentFrame, start, end)
      ensures measurementEndTime == if outcome.Measured? && outcome.clipped then timestamp else old(measurementEndTime)
      ensures windows == old(windows) && fileProcessor == old(fileProcessor)
      ensures running == old(running) && paused == old(paused) && pauseFrame == old(pauseFrame)
      ensures measurementStartTime == old(measurementStartTime)
    {
      if hasError {
        return ReplayFailed;
      }
      if running && currentFrame < end {
        return StillRunning;
      }
      if start >= end {
        return EmptyRange;
      }
      if currentFrame < start {
        return NeverStarted;
      }
      var endFrame := end;
      var clipped := false;
      if currentFrame < end {
        measurementEndTime := timestamp;
        endFrame := currentFrame;
        clipped := true;
      }
      var totalFrames := WrapSub(endFrame, start);
      return Measured(start, endFrame, totalFrames, clipped);
    }
  }
}
