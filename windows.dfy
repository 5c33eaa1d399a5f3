/**
 * Assignment of event timestamps to one-hour tumbling windows. The pipeline
 * only names the size (`TimeWindows.of(60 * 60 * 1000L)`); the assignment is
 * done by the streams library and is modelled here as a pure function.
 */
module Windows {
  import opened Records

  /** One hour in milliseconds. */
  const WindowSizeMs: nat := 60 * 60 * 1000

  /** A window of the tumbling one-hour grid: aligned to the size, one size long. */
  ghost predicate IsTumblingWindow(w: Window)
  {
    w.start >= 0 && w.start % WindowSizeMs == 0 && w.end == w.start + WindowSizeMs
  }

  /** The tumbling window that holds timestamp `t`. */
  function WindowFor(t: nat): (w: Window)
    ensures IsTumblingWindow(w)
    ensures w.start <= t < w.end
  {
    var start := t - t % WindowSizeMs;
    Window(start, start + WindowSizeMs)
  }

  /** Windows do not overlap: the only grid window holding `t` is `WindowFor(t)`. */
  lemma WindowForUnique(t: nat, w: Window)
    requires IsTumblingWindow(w)
    requires w.start <= t < w.end
    ensures w == WindowFor(t)
  {
    var k := w.start / WindowSizeMs;
    var r := t - w.start;
    assert w.start == k * WindowSizeMs;
    assert t == k * WindowSizeMs + r && 0 <= r < WindowSizeMs;
    assert t / WindowSizeMs == k && t % WindowSizeMs == r;
  }
}
