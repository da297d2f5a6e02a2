/**
 * The screen-context monitor of the assistant (`ContextManager`): the test
 * that decides whether a new grayscale frame differs enough from the last one
 * analysed, the three substring classifiers for YouTube, PDF and e-mail, the
 * text that OCR contributes, one cycle of the monitoring loop that publishes a
 * fresh context dictionary, and the accessors `get_context` and `stop`.
 *
 * Screen capture, OCR and the active-window lookup are collaborators: each
 * monitoring cycle receives what they returned as a `Sample`.
 */
module ScreenContext {
  import opened Wrappers
  import opened Text

  /** One grayscale pixel, as `np.uint8`. */
  type Pixel = x: int | 0 <= x < 256
  /** A captured frame, its pixels in row-major order. */
  type Frame = seq<Pixel>

  /** The default `threshold` of `is_screen_changed`, used by the monitor. */
  const THRESHOLD: int := 100

  // ---------------------------------------------------------------------------
  // Has the screen changed?

  /** The outcome of `is_screen_changed`; numpy raises when the two frames differ in size. */
  datatype Comparison = Changed | Unchanged | ShapeMismatch

  /** The two's-complement 16-bit value `np.int16` stores for the integer `x`. */
  function Int16(x: int): (r: int)
    ensures -32768 <= r < 32768
    ensures (r - x) % 65536 == 0
    ensures -32768 <= x < 32768 ==> r == x
  {
    (x + 32768) % 65536 - 32768
  }

  /** The exact squared difference of two pixels; below 32768 exactly when they differ by at most 181. */
  function SquaredDiff(p: Pixel, q: Pixel): (r: nat)
    ensures r <= 65025
    ensures r < 32768 <==> -181 <= p - q <= 181
    ensures r == 0 <==> p == q
  {
    var d := p as int - q as int;
    var m: nat := if d < 0 then -d else d;
    SquareBounds(m);
    m * m
  }

  lemma SquareBounds(d: nat)
    requires d <= 255
    ensures d * d <= 65025
    ensures d * d < 32768 <==> d <= 181
    ensures d * d == 0 <==> d == 0
  {
    MultiplyMonotone(d, 255, d);
    if d <= 181 {
      MultiplyMonotone(d, 181, d);
    } else {
      MultiplyMonotone(182, d, d);
    }
    if d > 0 {
      MultiplyMonotone(1, d, d);
    }
  }

  lemma {:induction false} MultiplyMonotone(a: nat, b: nat, c: nat)
    requires a <= b
    ensures a * c <= b * c
  {
    if c > 0 {
      MultiplyMonotone(a, b, c - 1);
      assert a * c == a * (c - 1) + a && b * c == b * (c - 1) + b;
    }
  }

  /** The sum of the exact squared differences of corresponding pixels; zero exactly for identical frames. */
  function SquareSum(a: Frame, b: Frame): (r: nat)
    requires |a| == |b|
    ensures r == 0 <==> a == b
  {
    if a == [] then
      0
    else
      var rest := SquareSum(a[1..], b[1..]);
      assert a == [a[0]] + a[1..] && b == [b[0]] + b[1..];
      SquaredDiff(a[0], b[0]) + rest
  }

  /**
   * The sum numpy computes for `(new.astype(np.int16) - old.astype(np.int16)) ** 2`:
   * each squared difference is itself an int16, so squares of 32768 and more
   * wrap around to negative values.
   */
  function WrappedSquareSum(a: Frame, b: Frame): int
    requires |a| == |b|
  {
    if a == [] then 0 else Int16(SquaredDiff(a[0], b[0])) + WrappedSquareSum(a[1..], b[1..])
  }

  /** `np.mean(...) > threshold`, on the reals, for a non-empty frame. */
  ghost predicate MeanExceeds(sum: int, n: nat, threshold: int)
    requires n > 0
  {
    (sum as real) / (n as real) > threshold as real
  }

  /** The mean of n values exceeds the threshold exactly when their sum exceeds threshold × n. */
  lemma MeanInIntegers(sum: int, n: nat, threshold: int)
    requires n > 0
    ensures MeanExceeds(sum, n, threshold) <==> sum > threshold * n
  {
    var mean := (sum as real) / (n as real);
    assert mean * (n as real) == sum as real;
    if mean > threshold as real {
      assert mean * (n as real) > (threshold as real) * (n as real);
    } else {
      assert mean * (n as real) <= (threshold as real) * (n as real);
    }
  }

  /**
   * `is_screen_changed` as written: without a baseline the screen has changed;
   * frames of different sizes make numpy raise; an empty frame has a mean of
   * NaN, which is never above the threshold; otherwise the mean of the
   * int16-wrapped squared differences is compared with the threshold.
   */
  function ScreenChangedAsWritten(frame: Frame, baseline: Option<Frame>, threshold: int): (r: Comparison)
    ensures baseline.None? ==> r == Changed
    ensures baseline.Some? && |frame| != |baseline.value| ==> r == ShapeMismatch
    ensures baseline.Some? && |frame| == |baseline.value| && frame != [] ==>
      (r == Changed <==> MeanExceeds(WrappedSquareSum(frame, baseline.value), |frame|, threshold))
  {
    if baseline.None? then
      Changed
    else if |frame| != |baseline.value| then
      ShapeMismatch
    else if frame == [] then
      Unchanged
    else
      MeanInIntegers(WrappedSquareSum(frame, baseline.value), |frame|, threshold);
      if WrappedSquareSum(frame, baseline.value) > threshold * |frame| then Changed else Unchanged
  }

  /**
   * `is_screen_changed` with exact squares, as intended: the mean squared
   * pixel difference is compared with the threshold, so an identical frame is
   * never a change (for a non-negative threshold).
   */
  function ScreenChanged(frame: Frame, baseline: Option<Frame>, threshold: int): (r: Comparison)
    ensures baseline.None? ==> r == Changed
    ensures baseline.Some? ==> (r == ShapeMismatch <==> |frame| != |baseline.value|)
    ensures baseline.Some? && |frame| == |baseline.value| && frame != [] ==>
      (r == Changed <==> MeanExceeds(SquareSum(frame, baseline.value), |frame|, threshold))
    ensures baseline == Some(frame) && threshold >= 0 ==> r == Unchanged
  {
    if baseline.None? then
      Changed
    else if |frame| != |baseline.value| then
      ShapeMismatch
    else if frame == [] then
      Unchanged
    else
      MeanInIntegers(SquareSum(frame, baseline.value), |frame|, threshold);
      if SquareSum(frame, baseline.value) > threshold * |frame| then Changed else Unchanged
  }

  /** No pixel differs from its counterpart by more than 181, so no square reaches 32768. */
  ghost predicate SmallDifferences(a: Frame, b: Frame)
    requires |a| == |b|
  {
    forall k :: 0 <= k < |a| ==> -181 <= a[k] as int - b[k] as int <= 181
  }

  /** A wrapped square is never larger than the exact one. */
  lemma {:induction false} WrappedSumAtMostExact(a: Frame, b: Frame)
    requires |a| == |b|
    ensures WrappedSquareSum(a, b) <= SquareSum(a, b)
  {
    if a != [] {
      WrappedSumAtMostExact(a[1..], b[1..]);
    }
  }

  /** While every difference stays within ±181, numpy's wrapped sum is the exact one. */
  lemma {:induction false} WrappedSumExactForSmallDifferences(a: Frame, b: Frame)
    requires |a| == |b| && SmallDifferences(a, b)
    ensures WrappedSquareSum(a, b) == SquareSum(a, b)
  {
    if a != [] {
      assert SmallDifferences(a[1..], b[1..]) by {
        forall k | 0 <= k < |a| - 1 ensures -181 <= a[1..][k] as int - b[1..][k] as int <= 181 {
          assert a[1..][k] == a[k + 1] && b[1..][k] == b[k + 1];
        }
      }
      WrappedSumExactForSmallDifferences(a[1..], b[1..]);
      assert -181 <= a[0] as int - b[0] as int <= 181;
    }
  }

  /** The code as written never reports a change that the exact test would miss. */
  lemma AsWrittenChangeIsReal(frame: Frame, baseline: Option<Frame>, threshold: int)
    ensures ScreenChangedAsWritten(frame, baseline, threshold) == Changed ==> ScreenChanged(frame, baseline, threshold) == Changed
  {
    if baseline.Some? && |frame| == |baseline.value| {
      WrappedSumAtMostExact(frame, baseline.value);
    }
  }

  /** Both tests agree on frames whose pixels differ by at most 181. */
  lemma AsWrittenAgreesOnSmallDifferences(frame: Frame, baseline: Frame, threshold: int)
    requires |frame| == |baseline| && SmallDifferences(frame, baseline)
    ensures ScreenChangedAsWritten(frame, Some(baseline), threshold) == ScreenChanged(frame, Some(baseline), threshold)
  {
    WrappedSumExactForSmallDifferences(frame, baseline);
  }

  /** A black screen turning white is not a change for the code as written: 255² wraps to -511. */
  lemma AsWrittenMissesBlackToWhite()
    ensures ScreenChangedAsWritten([255], Some([0]), THRESHOLD) == Unchanged
    ensures ScreenChanged([255], Some([0]), THRESHOLD) == Changed
  {
    assert WrappedSquareSum([255], [0]) == -511 by {
      assert Int16(65025) == -511;
    }
    assert SquareSum([255], [0]) == 65025;
  }

  // ---------------------------------------------------------------------------
  // What is on the screen

  const CHROME: string := "chrome"

  /** `is_youtube_video`: Chrome is in front and the screen shows a YouTube watch URL, in any letter case. */
  predicate IsYoutubeVideo(screen: string, app: string)
  {
    Contains(Lower(app), CHROME) && Contains(Lower(screen), "youtube.com/watch")
  }

  /** `is_pdf_open`: Adobe Acrobat is in front, or Chrome shows text mentioning ".pdf". */
  predicate IsPdfOpen(screen: string, app: string)
  {
    Contains(Lower(app), "adobe acrobat") || (Contains(Lower(screen), ".pdf") && Contains(Lower(app), CHROME))
  }

  /** `is_email_open`: the application name mentions Gmail or Outlook; the screen text plays no part. */
  predicate IsEmailOpen(screen: string, app: string)
  {
    Contains(Lower(app), "gmail") || Contains(Lower(app), "outlook")
  }

  /** The three classifiers give the same answers on the lower-case forms of their inputs. */
  lemma ClassifiersIgnoreCase(screen: string, app: string)
    ensures IsYoutubeVideo(Lower(screen), Lower(app)) == IsYoutubeVideo(screen, app)
    ensures IsPdfOpen(Lower(screen), Lower(app)) == IsPdfOpen(screen, app)
    ensures IsEmailOpen(Lower(screen), Lower(app)) == IsEmailOpen(screen, app)
  {
    LowerOfLower(Lower(screen));
    LowerOfLower(Lower(app));
  }

  /** A YouTube video and a PDF seen in the browser both need Chrome in front. */
  lemma BrowserFlagsNeedChrome(screen: string, app: string)
    ensures IsYoutubeVideo(screen, app) ==> Contains(Lower(app), CHROME)
    ensures IsPdfOpen(screen, app) && !Contains(Lower(app), "adobe acrobat") ==> Contains(Lower(app), CHROME)
  {
  }

  /** What `extract_text` got from OCR: an exception, or the recognized text. */
  datatype OcrResult = OcrFailed | Recognized(raw: string)

  /**
   * `extract_text`: "OCR failed" on an exception, "No text detected" for an
   * empty result, otherwise the stripped text. It never has whitespace at
   * either end, and it is empty exactly when OCR produced whitespace only.
   */
  function ScreenText(ocr: OcrResult): (text: string)
    ensures ocr.OcrFailed? ==> text == "OCR failed"
    ensures ocr == Recognized([]) ==> text == "No text detected"
    ensures Trimmed(text)
    ensures text == [] <==> ocr.Recognized? && ocr.raw != [] && AllSpace(ocr.raw)
    ensures ocr.Recognized? && ocr.raw != [] ==> exists i :: StrippedAt(ocr.raw, text, i)
  {
    match ocr
    case OcrFailed => "OCR failed"
    case Recognized(raw) =>
      if raw == [] then
        "No text detected"
      else
        StripEmpty(raw);
        Strip(raw)
  }

  // ---------------------------------------------------------------------------
  // The published context

  /**
   * A value of the context dictionary: a string, a boolean, or a value of
   * any other type (a list, a number, `None`) that callers add before a
   * query, given by the text Python's `str()` produces for it.
   */
  datatype ContextValue = Str(s: string) | Flag(b: bool) | Other(text: string)

  const ACTIVE_APP: string := "active_app"
  const SCREEN_CONTENT: string := "screen_content"
  const IS_YOUTUBE: string := "is_youtube"
  const IS_PDF: string := "is_pdf"
  const IS_EMAIL: string := "is_email"

  type Context = map<string, ContextValue>

  /**
   * A published context: exactly the five keys, the application name and
   * screen text as strings, and the three flags computed from those two.
   */
  ghost predicate Published(c: Context)
  {
    && c.Keys == {ACTIVE_APP, SCREEN_CONTENT, IS_YOUTUBE, IS_PDF, IS_EMAIL}
    && c[ACTIVE_APP].Str? && c[SCREEN_CONTENT].Str?
    && var app, text := c[ACTIVE_APP].s, c[SCREEN_CONTENT].s;
       && c[IS_YOUTUBE] == Flag(IsYoutubeVideo(text, app))
       && c[IS_PDF] == Flag(IsPdfOpen(text, app))
       && c[IS_EMAIL] == Flag(IsEmailOpen(text, app))
  }

  /** The dictionary `_continuous_monitor` stores for a changed screen. */
  function Publish(text: string, app: string): (c: Context)
    ensures Published(c)
    ensures c[ACTIVE_APP] == Str(app) && c[SCREEN_CONTENT] == Str(text)
  {
    map[ACTIVE_APP := Str(app), SCREEN_CONTENT := Str(text),
        IS_YOUTUBE := Flag(IsYoutubeVideo(text, app)),
        IS_PDF := Flag(IsPdfOpen(text, app)),
        IS_EMAIL := Flag(IsEmailOpen(text, app))]
  }

  // ---------------------------------------------------------------------------
  // The monitoring loop

  /** What the collaborators returned in one cycle: the capture (None when it failed), the OCR result and the active application. */
  datatype Sample = Sample(capture: Option<Frame>, ocr: OcrResult, app: string)

  /** The monitor's state: the context, the last analysed frame and whether the loop has died on an exception. */
  datatype Monitor = Monitor(context: Context, baseline: Option<Frame>, crashed: bool)

  const INITIAL: Monitor := Monitor(map[], None, false)

  /**
   * One iteration of `_continuous_monitor`: a failed capture or an unchanged
   * frame leaves everything as it was; frames of another size raise out of the
   * loop; a changed frame publishes a new context and becomes the baseline.
   */
  function Cycle(m: Monitor, sample: Sample): Monitor
  {
    if m.crashed || sample.capture.None? then
      m
    else
      var frame := sample.capture.value;
      match ScreenChanged(frame, m.baseline, THRESHOLD)
      case ShapeMismatch => m.(crashed := true)
      case Unchanged => m
      case Changed => Monitor(Publish(ScreenText(sample.ocr), sample.app), Some(frame), false)
  }

  /**
   * One iteration of `_continuous_monitor` as written: the same steps as
   * `Cycle`, with the int16 change test that `is_screen_changed` computes.
   */
  function CycleAsWritten(m: Monitor, sample: Sample): Monitor
  {
    if m.crashed || sample.capture.None? then
      m
    else
      var frame := sample.capture.value;
      match ScreenChangedAsWritten(frame, m.baseline, THRESHOLD)
      case ShapeMismatch => m.(crashed := true)
      case Unchanged => m
      case Changed => Monitor(Publish(ScreenText(sample.ocr), sample.app), Some(frame), false)
  }

  /** The state after the cycles for `samples`, in order. */
  function Run(m: Monitor, samples: seq<Sample>): Monitor
  {
    if samples == [] then m else Cycle(Run(m, samples[..|samples| - 1]), samples[|samples| - 1])
  }

  /**
   * The monitor's invariant: the context is empty until the first frame is
   * analysed, and from then on it is a published context.
   */
  ghost predicate Coherent(m: Monitor)
  {
    if m.baseline.None? then m.context == map[] else Published(m.context)
  }

  lemma CycleCoherent(m: Monitor, sample: Sample)
    requires Coherent(m)
    ensures Coherent(Cycle(m, sample))
  {
  }

  lemma {:induction false} RunCoherent(m: Monitor, samples: seq<Sample>)
    requires Coherent(m)
    ensures Coherent(Run(m, samples))
  {
    if samples != [] {
      RunCoherent(m, samples[..|samples| - 1]);
      CycleCoherent(Run(m, samples[..|samples| - 1]), samples[|samples| - 1]);
    }
  }

  /** Capturing the same frame again changes nothing: the monitor is idempotent on a still screen. */
  lemma SameCaptureTwice(m: Monitor, first: Sample, second: Sample)
    requires second.capture == first.capture
    ensures Cycle(Cycle(m, first), second) == Cycle(m, first)
  {
    var m1 := Cycle(m, first);
    if !m1.crashed && first.capture.Some? && m1 != m {
      assert m1.baseline == first.capture;
    }
  }

  /** Once the loop has died, further samples change nothing. */
  lemma {:induction false} RunAfterCrash(m: Monitor, samples: seq<Sample>)
    requires m.crashed
    ensures Run(m, samples) == m
  {
    if samples != [] {
      RunAfterCrash(m, samples[..|samples| - 1]);
    }
  }

  /** A context is published only by a cycle whose capture differed from the baseline. */
  lemma CyclePublishes(m: Monitor, sample: Sample)
    requires !m.crashed
    ensures var next := Cycle(m, sample);
      next.context != m.context || next.baseline != m.baseline ==>
        && sample.capture.Some? && ScreenChanged(sample.capture.value, m.baseline, THRESHOLD) == Changed
        && next.baseline == sample.capture
        && next.context == Publish(ScreenText(sample.ocr), sample.app)
  {
  }

  /**
   * A captured frame that differs from the baseline replaces the context
   * wholesale with the dictionary published from this cycle's text and
   * application, and becomes the new baseline.
   */
  lemma ChangedFramePublishes(m: Monitor, sample: Sample)
    requires !m.crashed && sample.capture.Some?
    requires ScreenChanged(sample.capture.value, m.baseline, THRESHOLD) == Changed
    ensures Cycle(m, sample) == Monitor(Publish(ScreenText(sample.ocr), sample.app), sample.capture, false)
  {
  }

  /** The first captured frame is always analysed: it publishes a context and becomes the baseline. */
  lemma FirstCapturePublishes(sample: Sample)
    requires sample.capture.Some?
    ensures Cycle(INITIAL, sample).baseline == sample.capture
    ensures Published(Cycle(INITIAL, sample).context)
  {
  }

  /**
   * The monitor runs the corrected change test. In one cycle from the same
   * state, every change the code as written detects, the monitor detects and
   * publishes too. Along a run the two can part ways, see `MonitorAndCodeDiverge`.
   */
  lemma CycleCatchesCodeChanges(m: Monitor, sample: Sample)
    requires !m.crashed && sample.capture.Some?
    requires ScreenChangedAsWritten(sample.capture.value, m.baseline, THRESHOLD) == Changed
    ensures Cycle(m, sample) == Monitor(Publish(ScreenText(sample.ocr), sample.app), sample.capture, false)
  {
    AsWrittenChangeIsReal(sample.capture.value, m.baseline, THRESHOLD);
  }

  /**
   * While no pixel has moved by more than 181 since the baseline, a cycle
   * takes exactly the step the code as written takes.
   */
  lemma CycleFollowsCodeOnSmallDifferences(m: Monitor, sample: Sample)
    requires !m.crashed && sample.capture.Some? && m.baseline.Some?
    requires |sample.capture.value| == |m.baseline.value|
    requires SmallDifferences(sample.capture.value, m.baseline.value)
    ensures Cycle(m, sample) == CycleAsWritten(m, sample)
  {
    AsWrittenAgreesOnSmallDifferences(sample.capture.value, m.baseline.value, THRESHOLD);
  }

  /**
   * Along a run the two can part ways in both directions. From a one-pixel
   * black baseline, a pixel of 182 squares to 33124, which wraps to -32412:
   * the code keeps its baseline, while the monitor publishes the frame. A
   * following pixel of 181 is then a change for the code, whose baseline is
   * still black (181² = 32761), and none for the monitor, which compares it
   * with 182.
   */
  lemma MonitorAndCodeDiverge(m: Monitor, first: Sample, second: Sample)
    requires !m.crashed && m.baseline == Some([0])
    requires first.capture == Some([182]) && second.capture == Some([181])
    ensures CycleAsWritten(m, first) == m
    ensures Cycle(m, first).baseline == Some([182])
    ensures CycleAsWritten(CycleAsWritten(m, first), second).baseline == Some([181])
    ensures Cycle(Cycle(m, first), second) == Cycle(m, first)
  {
    assert WrappedSquareSum([182], [0]) == -32412 by {
      assert Int16(33124) == -32412;
    }
    assert SquareSum([182], [0]) == 33124;
    assert WrappedSquareSum([181], [0]) == 32761 by {
      assert Int16(32761) == 32761;
    }
    assert SquareSum([181], [182]) == 1;
  }

  // ---------------------------------------------------------------------------
  // The monitor object

  class ContextManager {
    /** The latest published context, `{}` until the first one. */
    var context: Context
    /** `last_gray_img`: the frame the context was computed from. */
    var baseline: Option<Frame>
    /** Cleared by `Stop`; the monitoring loop runs only while it is set. */
    var running: bool
    /** The monitoring loop has ended on an exception. */
    var crashed: bool

    ghost function State(): Monitor
      reads this
    {
      Monitor(context, baseline, crashed)
    }

    ghost predicate Valid()
      reads this
    {
      Coherent(State())
    }

    constructor()
      ensures State() == INITIAL && running
      ensures Valid()
    {
      context := map[];
      baseline := None;
      running := true;
      crashed := false;
    }

    /** One iteration of `_continuous_monitor`, on the fields: it is `Cycle`, and it keeps `Valid`. */
    method MonitorCycle(sample: Sample)
      modifies this`context, this`baseline, this`crashed
      ensures State() == Cycle(old(State()), sample)
      ensures old(Valid()) ==> Valid()
    {
      if Valid() {
        CycleCoherent(State(), sample);
      }
      if !crashed && sample.capture.Some? {
        var frame := sample.capture.value;
        var comparison := ScreenChanged(frame, baseline, THRESHOLD);
        if comparison == ShapeMismatch {
          crashed := true;
        } else if comparison == Changed {
          var text := ScreenText(sample.ocr);
          context := Publish(text, sample.app);
          baseline := Some(frame);
        }
      }
    }

    /**
     * `_continuous_monitor`: while running and alive, one cycle per sample, in
     * order; the resulting state is `Run` over the samples, and it keeps `Valid`.
     */
    method ContinuousMonitor(samples: seq<Sample>)
      modifies this`context, this`baseline, this`crashed
      ensures State() == if running then Run(old(State()), samples) else old(State())
      ensures old(Valid()) ==> Valid()
    {
      ghost var start := State();
      var i := 0;
      while running && !crashed && i < |samples|
        invariant 0 <= i <= |samples|
        invariant State() == Run(start, samples[..i])
        invariant !running ==> i == 0
      {
        MonitorCycle(samples[i]);
        assert samples[..i + 1][..i] == samples[..i];
        i := i + 1;
      }
      if running && crashed {
        RunAfterCrash(State(), samples[i..]);
        RunSplit(start, samples[..i], samples[i..]);
        assert samples[..i] + samples[i..] == samples;
      } else if running {
        assert samples[..i] == samples;
      }
      if old(Valid()) {
        RunCoherent(start, samples);
      }
    }

    /** `get_context`: the stored context, which is empty or holds the active application and the screen text. */
    method GetContext() returns (c: Context)
      requires Valid()
      ensures c == context
      ensures c == map[] || (ACTIVE_APP in c && SCREEN_CONTENT in c)
    {
      c := if context == map[] then map[] else context;
    }

    /** `stop`: clears the running flag and nothing else; stopping twice is the same as once. */
    method Stop()
      modifies this`running
      ensures !running
    {
      running := false;
    }
  }

  /** Running over a concatenation is running over the first part, then over the second. */
  lemma {:induction false} RunSplit(m: Monitor, front: seq<Sample>, back: seq<Sample>)
    ensures Run(m, front + back) == Run(Run(m, front), back)
  {
    if back == [] {
      assert front + back == front;
    } else {
      var all := front + back;
      assert all[..|all| - 1] == front + back[..|back| - 1];
      RunSplit(m, front, back[..|back| - 1]);
    }
  }
}
