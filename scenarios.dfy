/** Two concrete runs worked out from the general properties. */
module Scenarios {

  import opened Wrappers
  import opened Scaling
  import opened Percentages
  import opened Media
  import opened Conversion
  import opened ConversionProperties

  /**
   * A 100-frame 1920x1080 source in the 720x480 preview box: the writer is
   * opened at 720x405, every frame is written at that size in order, the
   * reports are 1, 2, ..., 100 and the run succeeds.
   */
  lemma FullHdPreviewRun(src: string, dst: string, fps: real, frames: seq<Frame>)
    requires fps != 0.0 && |frames| == 100
    ensures var t := Run(src, dst, Size(720, 480), Backend(Source(true, fps, 1920, 1080, 100, frames), true), false, None);
            t.writer == Some(WriterConfig(dst, MJPG, fps, Size(720, 405))) &&
            t.written == seq(100, k requires 0 <= k < 100 => Resize(frames[k], Size(720, 405))) &&
            t.events == seq(100, k => Progress(k + 1)) + [Finished(None)]
  {
    var backend := Backend(Source(true, fps, 1920, 1080, 100, frames), true);
    var t := Run(src, dst, Size(720, 480), backend, false, None);
    assert t.writer == Some(WriterConfig(dst, MJPG, fps, Size(720, 405))) by {
      FullHdPreview();
    }
    assert |t.written| == 100 && t.events[100] == Finished(None) by {
      LoopEnding(src, dst, Size(720, 480), backend, false, None);
    }
    assert t.written == seq(100, k requires 0 <= k < 100 => Resize(frames[k], Size(720, 405)));
    assert t.events == seq(100, k => Progress(k + 1)) + [Finished(None)] by {
      forall k | 0 <= k < 100
        ensures t.events[k] == Progress(k + 1)
      {
        PercentOfHundred(k + 1);
      }
    }
  }

  /**
   * A ten-frame 640x480 source whose abort arrives around the third report
   * (before the check after frame 3, or just after it): the run ends
   * aborted after at most four progress reports, and the frames keep their
   * size because the box does not shrink them.
   */
  lemma AbortAroundThirdReport(src: string, dst: string, fps: real, frames: seq<Frame>, abortAt: Option<nat>)
    requires fps != 0.0 && |frames| == 10
    requires abortAt == Some(3) || abortAt == Some(4)
    ensures var t := Run(src, dst, Size(720, 480), Backend(Source(true, fps, 640, 480, 10, frames), true), false, abortAt);
            t.writer == Some(WriterConfig(dst, MJPG, fps, Size(640, 480))) &&
            FinalError(t) == Some(Aborted) && |t.events| - 1 <= 4
  {
    var backend := Backend(Source(true, fps, 640, 480, 10, frames), true);
    TightSide(640, 480, Size(720, 480));
    LoopEnding(src, dst, Size(720, 480), backend, false, abortAt);
  }
}
