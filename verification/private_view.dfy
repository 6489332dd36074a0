/** Masking of private views in SDK screenshots. When the SDK asks for a
    screenshot, the manager asks the Flutter side for the rectangles of the
    private views, captures the screen (with pixel copy where the platform
    supports it, falling back once to a capture of the view boundary), waits
    for the rectangles, paints them over the screenshot and reports the
    result through the SDK's capturing callback.

    Threads, the latch and the capture strategies are not modelled as such:
    a request is a function of an `Env`ironment that says what each
    asynchronous step produced, and the result is the trace of `Event`s the
    request causes, in the order they happen. The canvas is replaced by a log
    of the rectangles drawn. */
module PrivateViewManager {
  import opened Common

  const ExceptionMessage: string := "LCQ-Flutter-Screenshot: error capturing screenshot"

  /** `Build.VERSION_CODES.O`, the first API level with pixel copy. */
  const AndroidO: int := 26

  /** A screenshot, compared by identity. */
  datatype Bitmap = Bitmap(id: nat)

  /** What a capture strategy hands to `onScreenshotResult`. */
  datatype ScreenshotResult = ScreenshotResult(screenshot: Bitmap, pixelRatio: real)

  /** Which of the two methods of `ScreenshotResultCallback` a capture
      strategy calls. */
  datatype CaptureOutcome = Captured(result: ScreenshotResult) | CaptureError

  /** How the wait for the private-view rectangles ends: the Flutter side
      answers (with a possibly null list of numbers), the waiting thread is
      interrupted, or no answer ever comes. */
  datatype LatchOutcome = Released(privateViews: Option<seq<real>>) | WaitInterrupted | NeverReleased

  datatype Strategy = PixelCopy | Boundary

  /** What happened on the platform when a request ran. */
  datatype Env = Env(
    activityAttached: bool,
    sdkInt: int,
    pixelCopy: CaptureOutcome,
    boundary: CaptureOutcome,
    latch: LatchOutcome)

  datatype Rect = Rect(left: real, top: real, right: real, bottom: real)

  /** The exception a failure is reported with. */
  datatype CaptureFailure = ScreenshotException(message: string) | InterruptedException

  datatype Event =
    | FetchPosted                          // the request for the private views is posted to the main thread
    | CaptureStarted(strategy: Strategy)   // a capture strategy is invoked
    | LatchReleased                        // the wait for the private views returns
    | Drawn(bitmap: Bitmap, rect: Rect)    // one rectangle painted over the screenshot
    | MaskAborted                          // an index failure ended the masking loop and was caught
    | Succeeded(bitmap: Bitmap)            // `onCapturingSuccess`
    | Failed(failure: CaptureFailure)      // `onCapturingFailure`

  // ------------------------------------------------------------ trace views

  predicate IsAttempt(e: Event)
  {
    e.CaptureStarted?
  }

  predicate IsTerminal(e: Event)
  {
    e.Succeeded? || e.Failed?
  }

  predicate IsDraw(e: Event)
  {
    e.Drawn?
  }

  /** The events of `t` that satisfy `keep`, in order. */
  function Select(t: seq<Event>, keep: Event -> bool): seq<Event>
  {
    if t == [] then []
    else if keep(t[0]) then [t[0]] + Select(t[1..], keep)
    else Select(t[1..], keep)
  }

  lemma {:induction false} SelectAppend(a: seq<Event>, b: seq<Event>, keep: Event -> bool)
    ensures Select(a + b, keep) == Select(a, keep) + Select(b, keep)
  {
    if a == [] {
      assert a + b == b;
    } else {
      assert (a + b)[0] == a[0];
      assert (a + b)[1..] == a[1..] + b;
      SelectAppend(a[1..], b, keep);
    }
  }

  lemma {:induction false} SelectNone(t: seq<Event>, keep: Event -> bool)
    requires forall i :: 0 <= i < |t| ==> !keep(t[i])
    ensures Select(t, keep) == []
  {
    if t != [] {
      SelectNone(t[1..], keep);
    }
  }

  /** The strategies a trace invokes, in order. */
  function Attempts(t: seq<Event>): seq<Event>
  {
    Select(t, IsAttempt)
  }

  /** The callback deliveries of a trace, in order. */
  function Terminals(t: seq<Event>): seq<Event>
  {
    Select(t, IsTerminal)
  }

  // ----------------------------------------------------- maskPrivateViews

  /** The rectangle one group of four numbers encodes, scaled by `ratio`. */
  function GroupRect(g: seq<real>, ratio: real): Rect
    requires |g| == 4
  {
    Rect(g[0] * ratio, g[1] * ratio, g[2] * ratio, g[3] * ratio)
  }

  /** The rectangles encoded by a flat list of numbers read four at a time as
      left, top, right, bottom, each scaled by `ratio`. A trailing group of
      fewer than four numbers encodes nothing. */
  function ScaledRects(v: seq<real>, ratio: real): (rects: seq<Rect>)
    ensures |rects| == |v| / 4
    decreases |v|
  {
    if |v| < 4 then []
    else [GroupRect(v[..4], ratio)] + ScaledRects(v[4..], ratio)
  }

  /** Rectangle `k` is the one encoded by the numbers at positions `4k` to
      `4k + 3`. */
  lemma {:induction false} ScaledRectsAt(v: seq<real>, ratio: real, k: nat)
    requires k < |v| / 4
    ensures 4 * k + 4 <= |v|
    ensures ScaledRects(v, ratio)[k] == GroupRect(v[4 * k..4 * k + 4], ratio)
  {
    assert ScaledRects(v, ratio) == [GroupRect(v[..4], ratio)] + ScaledRects(v[4..], ratio);
    if k > 0 {
      var w := v[4..];
      ScaledRectsAt(w, ratio, k - 1);
      assert w[4 * (k - 1)..4 * (k - 1) + 4] == v[4 * k..4 * k + 4];
    } else {
      assert v[..4] == v[0..4];
    }
  }

  /** Rectangle `k` is (v[4k]·r, v[4k+1]·r, v[4k+2]·r, v[4k+3]·r). */
  lemma ScaledRectsAtValues(v: seq<real>, ratio: real, k: nat)
    requires k < |v| / 4
    ensures 4 * k + 3 < |v|
    ensures ScaledRects(v, ratio)[k]
            == Rect(v[4 * k] * ratio, v[4 * k + 1] * ratio, v[4 * k + 2] * ratio, v[4 * k + 3] * ratio)
  {
    ScaledRectsAt(v, ratio, k);
    var g := v[4 * k..4 * k + 4];
    assert g[0] == v[4 * k] && g[1] == v[4 * k + 1] && g[2] == v[4 * k + 2] && g[3] == v[4 * k + 3];
  }

  /** The log of painting `rects` on `bitmap`, one event per rectangle. */
  function DrawLog(bitmap: Bitmap, rects: seq<Rect>): (log: seq<Event>)
    ensures |log| == |rects|
    ensures forall k :: 0 <= k < |rects| ==> log[k] == Drawn(bitmap, rects[k])
  {
    seq(|rects|, k requires 0 <= k < |rects| => Drawn(bitmap, rects[k]))
  }

  /** `maskPrivateViews`: a null or empty list paints nothing; otherwise one
      rectangle per complete group of four, scaled by the pixel ratio and
      painted on the result's screenshot, in list order. A trailing partial
      group makes the loop read past the end of the list; the exception is
      caught and the rectangles already painted stay. */
  function MaskPrivateViews(result: ScreenshotResult, privateViews: Option<seq<real>>): (log: seq<Event>)
    ensures privateViews.None? || privateViews.value == [] ==> log == []
  {
    if privateViews.None? || |privateViews.value| == 0 then []
    else
      var v := privateViews.value;
      DrawLog(result.screenshot, ScaledRects(v, result.pixelRatio)) + (if |v| % 4 != 0 then [MaskAborted] else [])
  }

  /** Every event of a masking log is a painted rectangle on the result's
      screenshot or the caught abort. */
  lemma MaskLogShape(result: ScreenshotResult, privateViews: Option<seq<real>>)
    ensures var log := MaskPrivateViews(result, privateViews);
            forall i :: 0 <= i < |log| ==> (log[i].Drawn? && log[i].bitmap == result.screenshot) || log[i] == MaskAborted
  {
  }

  /** The masking loop as the adapter runs it: `i` advances by four, and the
      first read past the end of the list aborts the loop. It paints exactly
      what `MaskPrivateViews` describes. */
  method MaskPrivateViewsLoop(result: ScreenshotResult, privateViews: Option<seq<real>>) returns (log: seq<Event>)
    ensures log == MaskPrivateViews(result, privateViews)
  {
    log := [];
    if privateViews.None? || |privateViews.value| == 0 {
      return;
    }
    var v := privateViews.value;
    var ratio := result.pixelRatio;
    ghost var rects := ScaledRects(v, ratio);
    var i := 0;
    ghost var k := 0;
    while i < |v|
      invariant i == 4 * k && 0 <= i <= |v|
      invariant k <= |rects|
      invariant log == DrawLog(result.screenshot, rects[..k])
      decreases |v| - i
    {
      if i + 3 >= |v| {
        GroupsDone(|v|, k);
        assert rects[..k] == rects;
        log := log + [MaskAborted];
        return;
      }
      var rect := Rect(v[i] * ratio, v[i + 1] * ratio, v[i + 2] * ratio, v[i + 3] * ratio);
      GroupFits(|v|, k);
      ScaledRectsAtValues(v, ratio, k);
      assert i == 4 * k && k < |rects|;
      assert rects[k] == rect;
      assert rects[..k + 1] == rects[..k] + [rect];
      DrawLogAppend(result.screenshot, rects[..k], rect);
      log := log + [Drawn(result.screenshot, rect)];
      i, k := i + 4, k + 1;
    }
    GroupsDone(|v|, k);
    assert rects[..k] == rects;
  }

  lemma DrawLogAppend(bitmap: Bitmap, rects: seq<Rect>, rect: Rect)
    ensures DrawLog(bitmap, rects + [rect]) == DrawLog(bitmap, rects) + [Drawn(bitmap, rect)]
  {
    assert (rects + [rect])[|rects|] == rect;
  }

  /** Where the masking loop stops: at the first group of four that is not
      complete. */
  lemma GroupsDone(n: nat, k: nat)
    requires 4 * k <= n < 4 * k + 4
    ensures n / 4 == k
    ensures n % 4 == 0 <==> n == 4 * k
  {
  }

  lemma GroupFits(n: nat, k: nat)
    requires 4 * k + 4 <= n
    ensures k < n / 4
  {
  }

  lemma SelectSingle(e: Event, keep: Event -> bool)
    ensures Select([e], keep) == if keep(e) then [e] else []
  {
    assert [e][1..] == [];
  }

  /** Exactly one rectangle is painted per complete group of four numbers,
      in list order, and the loop is reported aborted exactly when a partial
      group is left over. */
  lemma {:induction false} MaskCountsGroups(result: ScreenshotResult, v: seq<real>)
    requires v != []
    ensures var log := MaskPrivateViews(result, Some(v));
            |Select(log, IsDraw)| == |v| / 4
            && (MaskAborted in log <==> |v| % 4 != 0)
  {
    var draws := DrawLog(result.screenshot, ScaledRects(v, result.pixelRatio));
    var tail: seq<Event> := if |v| % 4 != 0 then [MaskAborted] else [];
    SelectAppend(draws, tail, IsDraw);
    SelectAll(draws, IsDraw);
    SelectNone(tail, IsDraw);
    assert MaskAborted !in draws;
  }

  lemma {:induction false} SelectAll(t: seq<Event>, keep: Event -> bool)
    requires forall i :: 0 <= i < |t| ==> keep(t[i])
    ensures Select(t, keep) == t
  {
    if t != [] {
      SelectAll(t[1..], keep);
      assert [t[0]] + t[1..] == t;
    }
  }

  /** An element kept by `Select` appears among the selected events. */
  lemma {:induction false} SelectedAt(t: seq<Event>, keep: Event -> bool, i: nat)
    requires i < |t| && keep(t[i])
    ensures t[i] in Select(t, keep)
  {
    if i > 0 {
      SelectedAt(t[1..], keep, i - 1);
    }
  }

  // ------------------------------------------------- processScreenshot, mask

  /** `processScreenshot`: on the screenshot thread, wait for the private
      views, mask them on the screenshot and report success with that same
      bitmap; an interrupted wait reports failure instead. If the views never
      arrive the request stays pending and nothing is reported. */
  function ProcessScreenshot(result: ScreenshotResult, latch: LatchOutcome): (t: seq<Event>)
    ensures t == [] <==> latch.NeverReleased?
    ensures latch.Released? ==> t[0] == LatchReleased && t[|t| - 1] == Succeeded(result.screenshot)
    ensures latch.WaitInterrupted? ==> t == [Failed(InterruptedException)]
  {
    match latch
    case Released(views) => [LatchReleased] + MaskPrivateViews(result, views) + [Succeeded(result.screenshot)]
    case WaitInterrupted => [Failed(InterruptedException)]
    case NeverReleased => []
  }

  /** What the capture callback does with a strategy's outcome: a result is
      processed, and an error goes to `onError`, whose trace is given. */
  function OnOutcome(outcome: CaptureOutcome, latch: LatchOutcome, onError: seq<Event>): (t: seq<Event>)
    ensures outcome.CaptureError? ==> t == onError
    ensures outcome.Captured? && latch.Released? ==> |t| > 0 && t[|t| - 1] == Succeeded(outcome.result.screenshot)
    ensures outcome.Captured? && latch.WaitInterrupted? ==> t == [Failed(InterruptedException)]
  {
    match outcome
    case Captured(result) => ProcessScreenshot(result, latch)
    case CaptureError => onError
  }

  /** The boundary capture, whose error is reported as a failure with
      `ExceptionMessage` and has no further fallback. */
  function BoundaryCapture(env: Env): (t: seq<Event>)
    ensures t != [] && t[0] == CaptureStarted(Boundary)
    ensures env.boundary.CaptureError? ==> t == [CaptureStarted(Boundary), Failed(ScreenshotException(ExceptionMessage))]
  {
    [CaptureStarted(Boundary)] + OnOutcome(env.boundary, env.latch, [Failed(ScreenshotException(ExceptionMessage))])
  }

  /** The capture itself: pixel copy on API level O and later, falling back to
      the boundary capture if it errors; the boundary capture directly on
      earlier levels. */
  function Capture(env: Env): (t: seq<Event>)
    ensures t != [] && t[0] == CaptureStarted(if env.sdkInt >= AndroidO then PixelCopy else Boundary)
  {
    if env.sdkInt >= AndroidO then [CaptureStarted(PixelCopy)] + OnOutcome(env.pixelCopy, env.latch, BoundaryCapture(env))
    else BoundaryCapture(env)
  }

  /** `mask`: with no activity the request fails at once; otherwise the fetch
      of the private views is posted before the capture starts. */
  function Mask(env: Env): (t: seq<Event>)
    ensures !env.activityAttached ==> t == [Failed(ScreenshotException(ExceptionMessage))]
    ensures env.activityAttached ==> t != [] && t[0] == FetchPosted
  {
    if env.activityAttached then [FetchPosted] + Capture(env)
    else [Failed(ScreenshotException(ExceptionMessage))]
  }

  /** The capture result that reaches `processScreenshot`, if any. */
  function Delivered(env: Env): (r: Option<ScreenshotResult>)
    ensures r.None? <==>
              !env.activityAttached || ((env.sdkInt < AndroidO || env.pixelCopy.CaptureError?) && env.boundary.CaptureError?)
    ensures r.Some? ==>
              (env.sdkInt >= AndroidO && env.pixelCopy == Captured(r.value))
              || ((env.sdkInt < AndroidO || env.pixelCopy.CaptureError?) && env.boundary == Captured(r.value))
  {
    if !env.activityAttached then None
    else if env.sdkInt >= AndroidO && env.pixelCopy.Captured? then Some(env.pixelCopy.result)
    else if env.boundary.Captured? then Some(env.boundary.result)
    else None
  }

  /** Whether the request waits forever: a screenshot was captured but the
      private views never arrive. */
  predicate Stalls(env: Env)
  {
    Delivered(env).Some? && env.latch.NeverReleased?
  }

  /** What the SDK is told about a processed screenshot. */
  function Reported(result: ScreenshotResult, latch: LatchOutcome): seq<Event>
  {
    match latch
    case Released(_) => [Succeeded(result.screenshot)]
    case WaitInterrupted => [Failed(InterruptedException)]
    case NeverReleased => []
  }

  /** Processing a screenshot starts no capture, and reports per `Reported`. */
  lemma {:induction false} ProcessShape(result: ScreenshotResult, latch: LatchOutcome)
    ensures Attempts(ProcessScreenshot(result, latch)) == []
    ensures Terminals(ProcessScreenshot(result, latch)) == Reported(result, latch)
  {
    if latch.Released? {
      var masked := MaskPrivateViews(result, latch.privateViews);
      MaskLogShape(result, latch.privateViews);
      SelectNone(masked, IsAttempt);
      SelectNone(masked, IsTerminal);
      forall keep: Event -> bool | keep == IsAttempt || keep == IsTerminal
        ensures Select(ProcessScreenshot(result, latch), keep)
                == Select([LatchReleased], keep) + Select(masked, keep) + Select([Succeeded(result.screenshot)], keep)
      {
        SelectAppend([LatchReleased] + masked, [Succeeded(result.screenshot)], keep);
        SelectAppend([LatchReleased], masked, keep);
      }
      SelectSingle(LatchReleased, IsAttempt);
      SelectSingle(LatchReleased, IsTerminal);
      SelectSingle(Succeeded(result.screenshot), IsAttempt);
      SelectSingle(Succeeded(result.screenshot), IsTerminal);
    } else if latch.WaitInterrupted? {
      SelectSingle(Failed(InterruptedException), IsAttempt);
      SelectSingle(Failed(InterruptedException), IsTerminal);
    }
  }

  /** The boundary capture starts exactly one capture, and reports its error
      as a failure with `ExceptionMessage`. */
  lemma {:induction false} BoundaryShape(env: Env)
    ensures Attempts(BoundaryCapture(env)) == [CaptureStarted(Boundary)]
    ensures Terminals(BoundaryCapture(env)) ==
              if env.boundary.Captured? then Reported(env.boundary.result, env.latch)
              else [Failed(ScreenshotException(ExceptionMessage))]
  {
    var rest := OnOutcome(env.boundary, env.latch, [Failed(ScreenshotException(ExceptionMessage))]);
    SelectAppend([CaptureStarted(Boundary)], rest, IsAttempt);
    SelectAppend([CaptureStarted(Boundary)], rest, IsTerminal);
    SelectSingle(CaptureStarted(Boundary), IsAttempt);
    SelectSingle(CaptureStarted(Boundary), IsTerminal);
    if env.boundary.Captured? {
      ProcessShape(env.boundary.result, env.latch);
    } else {
      SelectSingle(Failed(ScreenshotException(ExceptionMessage)), IsAttempt);
      SelectSingle(Failed(ScreenshotException(ExceptionMessage)), IsTerminal);
    }
  }

  /** The expected view of a whole request on selector `keep` is the view of
      its capture, behind a fetch that `keep` ignores. */
  lemma {:induction false} MaskView(env: Env, keep: Event -> bool)
    requires env.activityAttached && !keep(FetchPosted)
    ensures Select(Mask(env), keep) == Select(Capture(env), keep)
  {
    SelectAppend([FetchPosted], Capture(env), keep);
    SelectSingle(FetchPosted, keep);
  }

  /** With pixel copy available, the request's view is pixel copy's own
      attempt followed by the view of what its outcome leads to. */
  lemma {:induction false} PixelCopyView(env: Env, keep: Event -> bool)
    requires env.sdkInt >= AndroidO
    ensures Select(Capture(env), keep)
            == Select([CaptureStarted(PixelCopy)], keep) + Select(OnOutcome(env.pixelCopy, env.latch, BoundaryCapture(env)), keep)
  {
    SelectAppend([CaptureStarted(PixelCopy)], OnOutcome(env.pixelCopy, env.latch, BoundaryCapture(env)), keep);
  }

  /** The strategies a request invokes: pixel copy first on API level O and
      later, then the boundary capture exactly once if pixel copy errored;
      the boundary capture alone on earlier levels; nothing without an
      activity. */
  lemma {:induction false} CaptureOrder(env: Env)
    ensures Attempts(Mask(env)) ==
              if !env.activityAttached then []
              else if env.sdkInt < AndroidO then [CaptureStarted(Boundary)]
              else if env.pixelCopy.CaptureError? then [CaptureStarted(PixelCopy), CaptureStarted(Boundary)]
              else [CaptureStarted(PixelCopy)]
  {
    if env.activityAttached {
      MaskView(env, IsAttempt);
      BoundaryShape(env);
      if env.sdkInt >= AndroidO {
        PixelCopyView(env, IsAttempt);
        SelectSingle(CaptureStarted(PixelCopy), IsAttempt);
        if env.pixelCopy.Captured? {
          ProcessShape(env.pixelCopy.result, env.latch);
        }
      }
    } else {
      SelectSingle(Failed(ScreenshotException(ExceptionMessage)), IsAttempt);
    }
  }

  /** What a request reports, as a function of the environment: a failure
      with `ExceptionMessage` when there is no activity or every tried
      strategy errored; otherwise what processing the captured screenshot
      reports (success with the captured bitmap once the views arrive, an
      interruption failure if the wait is interrupted, nothing while it
      stalls). */
  lemma {:induction false} Delivery(env: Env)
    ensures Terminals(Mask(env)) ==
              if Delivered(env).None? then [Failed(ScreenshotException(ExceptionMessage))]
              else Reported(Delivered(env).value, env.latch)
  {
    if env.activityAttached {
      MaskView(env, IsTerminal);
      BoundaryShape(env);
      if env.sdkInt >= AndroidO {
        PixelCopyView(env, IsTerminal);
        SelectSingle(CaptureStarted(PixelCopy), IsTerminal);
        if env.pixelCopy.Captured? {
          ProcessShape(env.pixelCopy.result, env.latch);
        }
      }
    } else {
      SelectSingle(Failed(ScreenshotException(ExceptionMessage)), IsTerminal);
    }
  }

  /** Each request is answered at most once, never with both success and
      failure, and exactly once unless it stalls waiting for the views. */
  lemma {:induction false} ExactlyOnce(env: Env)
    ensures |Terminals(Mask(env))| == if Stalls(env) then 0 else 1
  {
    Delivery(env);
  }

  /** Without an activity the request fails once with `ExceptionMessage`,
      starts no capture and posts no fetch. */
  lemma {:induction false} NoActivityFails(env: Env)
    requires !env.activityAttached
    ensures Terminals(Mask(env)) == [Failed(ScreenshotException(ExceptionMessage))]
    ensures Attempts(Mask(env)) == [] && FetchPosted !in Mask(env)
  {
    Delivery(env);
    CaptureOrder(env);
  }

  /** If the boundary capture is tried and errors, the request fails once
      with `ExceptionMessage`, and the boundary capture was the last capture
      started. */
  lemma {:induction false} BoundaryErrorIsFinal(env: Env)
    requires env.activityAttached && env.boundary.CaptureError?
    requires env.sdkInt < AndroidO || env.pixelCopy.CaptureError?
    ensures Terminals(Mask(env)) == [Failed(ScreenshotException(ExceptionMessage))]
    ensures var a := Attempts(Mask(env)); a != [] && a[|a| - 1] == CaptureStarted(Boundary)
  {
    Delivery(env);
    CaptureOrder(env);
  }

  /** The events before a processed screenshot: the fetch and the captures
      started. */
  function Preamble(env: Env): seq<Event>
  {
    if env.sdkInt < AndroidO then [FetchPosted, CaptureStarted(Boundary)]
    else if env.pixelCopy.Captured? then [FetchPosted, CaptureStarted(PixelCopy)]
    else [FetchPosted, CaptureStarted(PixelCopy), CaptureStarted(Boundary)]
  }

  /** A request whose capture succeeded is its preamble followed by the
      processing of the captured screenshot. */
  lemma {:induction false} DeliveredTrace(env: Env)
    requires Delivered(env).Some?
    ensures Mask(env) == Preamble(env) + ProcessScreenshot(Delivered(env).value, env.latch)
  {
    if env.sdkInt < AndroidO {
      BoundaryTrace(env);
    } else if env.pixelCopy.Captured? {
      PixelCopyTrace(env);
    } else {
      FallbackTrace(env);
    }
  }

  lemma BoundaryTrace(env: Env)
    requires env.activityAttached && env.sdkInt < AndroidO && env.boundary.Captured?
    ensures Mask(env) == [FetchPosted, CaptureStarted(Boundary)] + ProcessScreenshot(env.boundary.result, env.latch)
  {
    var p := ProcessScreenshot(env.boundary.result, env.latch);
    assert Capture(env) == [CaptureStarted(Boundary)] + p;
    assert [FetchPosted] + ([CaptureStarted(Boundary)] + p) == [FetchPosted, CaptureStarted(Boundary)] + p;
  }

  lemma PixelCopyTrace(env: Env)
    requires env.activityAttached && env.sdkInt >= AndroidO && env.pixelCopy.Captured?
    ensures Mask(env) == [FetchPosted, CaptureStarted(PixelCopy)] + ProcessScreenshot(env.pixelCopy.result, env.latch)
  {
    var p := ProcessScreenshot(env.pixelCopy.result, env.latch);
    assert Capture(env) == [CaptureStarted(PixelCopy)] + p;
    assert [FetchPosted] + ([CaptureStarted(PixelCopy)] + p) == [FetchPosted, CaptureStarted(PixelCopy)] + p;
  }

  lemma FallbackTrace(env: Env)
    requires env.activityAttached && env.sdkInt >= AndroidO && env.pixelCopy.CaptureError? && env.boundary.Captured?
    ensures Mask(env)
            == [FetchPosted, CaptureStarted(PixelCopy), CaptureStarted(Boundary)] + ProcessScreenshot(env.boundary.result, env.latch)
  {
    var p := ProcessScreenshot(env.boundary.result, env.latch);
    assert BoundaryCapture(env) == [CaptureStarted(Boundary)] + p;
    assert Capture(env) == [CaptureStarted(PixelCopy)] + ([CaptureStarted(Boundary)] + p);
    assert [FetchPosted] + ([CaptureStarted(PixelCopy)] + ([CaptureStarted(Boundary)] + p))
        == [FetchPosted, CaptureStarted(PixelCopy), CaptureStarted(Boundary)] + p;
  }

  /** A success among the reports comes from a captured screenshot whose
      views arrived, and carries that screenshot's bitmap. */
  lemma {:induction false} SuccessReported(env: Env, b: Bitmap)
    requires Succeeded(b) in Terminals(Mask(env))
    ensures Delivered(env).Some? && env.latch.Released?
    ensures b == Delivered(env).value.screenshot
  {
    Delivery(env);
  }

  /** Success is reported only after the wait for the views was released, as
      the request's last event, with the bitmap that was captured, right
      after that bitmap was masked with the views received. */
  lemma {:induction false} SuccessAfterRelease(env: Env, b: Bitmap)
    requires Succeeded(b) in Mask(env)
    ensures Delivered(env).Some? && env.latch.Released?
    ensures b == Delivered(env).value.screenshot
    ensures Mask(env) == Preamble(env) + [LatchReleased]
                         + MaskPrivateViews(Delivered(env).value, env.latch.privateViews) + [Succeeded(b)]
  {
    var t := Mask(env);
    var i :| 0 <= i < |t| && t[i] == Succeeded(b);
    SelectedAt(t, IsTerminal, i);
    SuccessReported(env, b);
    ReleasedTrace(env);
  }

  /** A captured request whose views arrived: the preamble, the release, the
      masking, and the success. */
  lemma ReleasedTrace(env: Env)
    requires Delivered(env).Some? && env.latch.Released?
    ensures var r := Delivered(env).value;
            Mask(env) == Preamble(env) + [LatchReleased]
                         + MaskPrivateViews(r, env.latch.privateViews) + [Succeeded(r.screenshot)]
  {
    DeliveredTrace(env);
    var r := Delivered(env).value;
    ProcessReleased(r, env.latch.privateViews);
    ConcatAssoc(Preamble(env), [LatchReleased], MaskPrivateViews(r, env.latch.privateViews), [Succeeded(r.screenshot)]);
  }

  lemma ProcessReleased(r: ScreenshotResult, views: Option<seq<real>>)
    ensures ProcessScreenshot(r, Released(views)) == [LatchReleased] + MaskPrivateViews(r, views) + [Succeeded(r.screenshot)]
  {
  }

  lemma ConcatAssoc(a: seq<Event>, b: seq<Event>, c: seq<Event>, d: seq<Event>)
    ensures a + (b + c + d) == a + b + c + d
  {
  }

  /** An interrupted wait reports failure and never success. */
  lemma {:induction false} InterruptedFails(env: Env)
    requires Delivered(env).Some? && env.latch.WaitInterrupted?
    ensures Terminals(Mask(env)) == [Failed(InterruptedException)]
    ensures forall b: Bitmap :: Succeeded(b) !in Mask(env)
  {
    Delivery(env);
    forall b: Bitmap ensures Succeeded(b) !in Mask(env) {
      if Succeeded(b) in Mask(env) {
        SuccessAfterRelease(env, b);
      }
    }
  }

  /** A list with a trailing partial group still has its complete groups
      painted, no exception escapes the masking, and the same bitmap is then
      reported as a success. */
  lemma {:induction false} PartialGroupStillSucceeds(env: Env, v: seq<real>)
    requires Delivered(env).Some? && env.latch == Released(Some(v)) && |v| % 4 != 0
    ensures var r := Delivered(env).value;
            Mask(env) == Preamble(env) + [LatchReleased]
                         + DrawLog(r.screenshot, ScaledRects(v, r.pixelRatio)) + [MaskAborted, Succeeded(r.screenshot)]
  {
    ReleasedTrace(env);
    var r := Delivered(env).value;
    var draws := DrawLog(r.screenshot, ScaledRects(v, r.pixelRatio));
    assert MaskPrivateViews(r, Some(v)) == draws + [MaskAborted];
    assert Preamble(env) + [LatchReleased] + (draws + [MaskAborted]) + [Succeeded(r.screenshot)]
        == Preamble(env) + [LatchReleased] + draws + [MaskAborted, Succeeded(r.screenshot)];
  }
}
