/**
 * The conversion task object. Its request (source path, destination path
 * and bounding box) is fixed at construction; the abort flag is its only
 * mutable state, set by `Abort` and read by `Run` after every frame.
 */
module Task {

  import opened Wrappers
  import opened Scaling
  import opened Percentages
  import opened Media
  import opened Conversion
  import opened ConversionProperties

  class ConvertTask {
    const srcFilename: string
    const destFilename: string
    const dimensions: Size
    var abortFlag: bool

    /** A fresh task stores its request unchanged and has not been aborted. */
    constructor (srcFilename: string, destFilename: string, dimensions: Size)
      ensures this.srcFilename == srcFilename && this.destFilename == destFilename
      ensures this.dimensions == dimensions
      ensures !abortFlag
    {
      this.srcFilename := srcFilename;
      this.destFilename := destFilename;
      this.dimensions := dimensions;
      abortFlag := false;
    }

    /**
     * Ask a running conversion to stop. The flag only ever goes from false
     * to true, so a second call leaves the task as the first one did.
     */
    method Abort()
      modifies this
      ensures abortFlag
    {
      abortFlag := true;
    }

    /**
     * Perform the conversion against `backend`. The other thread's `Abort`
     * is interleaved as `abortAt` says: when the check after the k-th
     * written frame is the first at or after the scheduled point, the flag
     * is set just before that check reads it. The trace is the one the
     * specification `Conversion.Run` gives for the flag the run began with,
     * and the flag afterwards is set iff it was already set or the abort
     * landed by the last check.
     */
    method Run(backend: Backend, abortAt: Option<nat>) returns (t: Trace)
      modifies this
      ensures t == Conversion.Run(srcFilename, destFilename, dimensions, backend, old(abortFlag), abortAt)
      ensures abortFlag == (old(abortFlag) || (t.written != [] && Requested(abortAt, |t.written|)))
    {
      var cap := backend.source;
      if !cap.isOpen {
        return Trace([Finished(Some(SourceUnreadable(srcFilename)))], None, []);
      }

      var fps, width, height, totalFrames := cap.fps, cap.width, cap.height, cap.frameCount;
      if fps == 0.0 || width == 0 || height == 0 || totalFrames == 0 {
        return Trace([Finished(Some(InvalidProperties))], None, []);
      }

      var size := TargetSize(width, height, dimensions);
      var enc := WriterConfig(destFilename, MJPG, fps, size);
      if !backend.destOpens {
        return Trace([Finished(Some(DestUnopenable(destFilename)))], Some(enc), []);
      }

      var o := EncodeFrames(cap.frames, totalFrames, size, abortAt);
      return Trace(o.events, Some(enc), o.written);
    }

    /**
     * The frame loop of `Run`, entered once the writer is open: read a
     * frame (a failed read ends the loop with success), resize it, write
     * it, report the progress of the decoder's position, then check the
     * flag and stop with Aborted if it is set.
     */
    method EncodeFrames(frames: seq<Frame>, totalFrames: int, size: Size, abortAt: Option<nat>)
      returns (o: LoopOut)
      requires totalFrames != 0
      modifies this
      ensures o == Loop(frames, totalFrames, size, old(abortFlag), abortAt, 0)
      ensures abortFlag == (old(abortFlag) || (o.written != [] && Requested(abortAt, |o.written|)))
    {
      ghost var flag := abortFlag;
      ghost var whole := Loop(frames, totalFrames, size, flag, abortAt, 0);
      var events: seq<Event> := [];
      var written: seq<Frame> := [];
      var pos: nat := 0;
      while true
        invariant pos <= |frames| && |written| == pos
        invariant abortFlag == flag && (pos == 0 || !Observed(flag, abortAt, pos))
        invariant whole.events == events + Loop(frames, totalFrames, size, flag, abortAt, pos).events
        invariant whole.written == written + Loop(frames, totalFrames, size, flag, abortAt, pos).written
        decreases |frames| - pos
      {
        if pos == |frames| {
          break;
        }
        ghost var rest := Loop(frames, totalFrames, size, flag, abortAt, pos);
        var src := frames[pos];
        pos := pos + 1;

        var dest := Resize(src, size);
        ghost var writtenBefore := written;
        written := written + [dest];

        var curFrame := pos;
        var report := Progress(Percent(curFrame, totalFrames));
        ghost var eventsBefore := events;
        events := events + [report];

        // the other thread's abort() lands here when the schedule says so
        if Requested(abortAt, pos) {
          Abort();
        }
        if abortFlag {
          assert rest == LoopOut([report, Finished(Some(Aborted))], [dest]);
          AppendAssoc(eventsBefore, [report], [Finished(Some(Aborted))]);
          events := events + [Finished(Some(Aborted))];
          return LoopOut(events, written);
        }
        ghost var next := Loop(frames, totalFrames, size, flag, abortAt, pos);
        assert rest.events == [report] + next.events;
        assert rest.written == [dest] + next.written;
        AppendAssoc(eventsBefore, [report], next.events);
        AppendAssoc(writtenBefore, [dest], next.written);
      }

      events := events + [Finished(None)];
      return LoopOut(events, written);
    }
  }

  /**
   * A task is single-use: once a run has been aborted, running the same
   * object again stops with Aborted after the first frame, even though
   * nobody asks it to abort again.
   */
  method RunAgainAfterAbort(backend: Backend) returns (first: Trace, second: Trace)
    requires ReachesLoop(backend) && backend.source.frames != []
    ensures |first.events| == |first.written| + 1 && first.events[|first.written|] == Finished(Some(Aborted))
    ensures |second.events| == 2 && second.events[1] == Finished(Some(Aborted)) && |second.written| == 1
  {
    var task := new ConvertTask("source", "preview", Size(720, 480));
    first := task.Run(backend, Some(1));
    LoopEnding("source", "preview", Size(720, 480), backend, false, Some(1));
    second := task.Run(backend, None);
    LoopEnding("source", "preview", Size(720, 480), backend, true, None);
  }

  lemma AppendAssoc<T>(a: seq<T>, b: seq<T>, c: seq<T>)
    ensures (a + b) + c == a + (b + c)
  {}
}
