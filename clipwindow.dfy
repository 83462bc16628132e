/** The clip-window policy of `process_video_file`: a video shorter than five seconds
    is skipped; otherwise a start is drawn uniformly from `[0, duration - 5]` and the
    window runs five seconds from it. Durations are modelled as reals. */
module ClipWindow {

  /** The length of every proxy clip, and the shortest duration accepted, in seconds. */
  const ClipLength: real := 5.0

  /** A value of `random.random()` as `random.uniform` scales it. CPython documents
      that the upper bound of `uniform` may be reached by rounding, so the draw is
      allowed to be exactly 1. */
  type UnitDraw = r: real | 0.0 <= r <= 1.0

  /** `random.uniform(a, b)`: `a + (b - a) * random()`. */
  function Uniform(a: real, b: real, draw: UnitDraw): (x: real)
    ensures a <= b ==> a <= x <= b
  {
    ScaledDrawBound(b - a, draw);
    a + (b - a) * draw
  }

  /** A draw in `[0, 1]` scales a non-negative width to a value in `[0, width]`. */
  lemma ScaledDrawBound(width: real, draw: UnitDraw)
    ensures width >= 0.0 ==> 0.0 <= width * draw <= width
  {
    if width >= 0.0 {
      assert width * draw <= width * 1.0;
    }
  }

  /** The `(start_time, end_time)` pair handed to `subclip`. */
  datatype Window = Window(start: real, end: real)

  /** The outcome of the policy: skipped for being too short, or a chosen window. */
  datatype Selection = TooShort | Selected(window: Window)

  /** The window chosen for a video of the given duration with the given draw. */
  function SelectWindow(duration: real, draw: UnitDraw): (s: Selection)
    ensures s.TooShort? <==> duration < ClipLength
    ensures s.Selected? ==> 0.0 <= s.window.start <= duration - ClipLength
    ensures s.Selected? ==> s.window.end - s.window.start == ClipLength
    ensures s.Selected? ==> s.window.end <= duration
  {
    if duration < ClipLength then TooShort
    else
      var maxStartTime := duration - ClipLength;
      var startTime := Uniform(0.0, maxStartTime, draw);
      Selected(Window(startTime, startTime + ClipLength))
  }

  /** The window lies inside the video and is exactly one clip long. */
  predicate Fits(w: Window, duration: real)
  {
    0.0 <= w.start && w.end <= duration && w.end - w.start == ClipLength
  }

  /** Every window that fits a long-enough video is chosen by some draw, and every
      chosen window fits: the policy picks among exactly the fitting windows. */
  lemma {:induction false} WindowsReachable(duration: real, w: Window)
    requires duration >= ClipLength
    ensures Fits(w, duration) <==> exists draw: UnitDraw :: SelectWindow(duration, draw) == Selected(w)
  {
    var maxStartTime := duration - ClipLength;
    if Fits(w, duration) {
      var draw: UnitDraw;
      if maxStartTime == 0.0 {
        draw := 0.0;
      } else {
        draw := w.start / maxStartTime;
        assert maxStartTime * draw == w.start;
      }
      assert SelectWindow(duration, draw) == Selected(w);
    }
  }

  /** A three-second video is skipped; a five-second video has the single window
      `[0, 5]`. */
  lemma ShortAndExactExamples(draw: UnitDraw)
    ensures SelectWindow(3.0, draw) == TooShort
    ensures SelectWindow(5.0, draw) == Selected(Window(0.0, 5.0))
  {
  }
}
