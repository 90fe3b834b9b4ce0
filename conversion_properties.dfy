/**
 * Properties of a conversion run: how it ends, when it stops after an
 * abort, and what its progress reports say.
 */
module ConversionProperties {

  import opened Wrappers
  import opened Scaling
  import opened Percentages
  import opened Media
  import opened Conversion

  /**
   * How many frames a run that reaches the frame loop writes, computed
   * directly from the schedule: the first position in 1..count at which
   * the flag is observed, or all `count` frames if it never is.
   */
  function StopAt(flag: bool, abortAt: Option<nat>, count: nat): (n: nat)
    ensures n <= count && (0 < count ==> 0 < n)
    ensures 0 < n < count ==> Observed(flag, abortAt, n)
    ensures forall m :: 1 <= m < n ==> !Observed(flag, abortAt, m)
  {
    if count == 0 then 0
    else if flag then 1
    else match abortAt
      case None => count
      case Some(k) => if k <= 1 then 1 else if k < count then k else count
  }

  /**
   * Entered at a position where the flag has not yet been seen, the loop
   * writes the frames up to the stop position and ends aborted exactly
   * when the check after the last frame it could reach sees the flag.
   */
  lemma {:induction false} LoopOutcome(
    frames: seq<Frame>, total: int, size: Size, flag: bool, abortAt: Option<nat>, pos: nat)
    requires pos <= |frames| && total != 0
    requires pos == 0 || !Observed(flag, abortAt, pos)
    ensures var o := Loop(frames, total, size, flag, abortAt, pos);
            pos <= StopAt(flag, abortAt, |frames|) &&
            |o.written| == StopAt(flag, abortAt, |frames|) - pos &&
            |o.events| == |o.written| + 1 &&
            o.events[|o.written|] ==
              Finished(if 0 < |frames| && Observed(flag, abortAt, |frames|) then Some(Aborted) else None)
    decreases |frames| - pos
  {
    LoopShape(frames, total, size, flag, abortAt, pos);
    if pos < |frames| && !Observed(flag, abortAt, pos + 1) {
      LoopOutcome(frames, total, size, flag, abortAt, pos + 1);
    }
  }

  /** The run gets past opening the source, checking its properties and opening the writer. */
  predicate ReachesLoop(backend: Backend) {
    backend.source.isOpen && ValidProperties(backend.source) && backend.destOpens
  }

  /**
   * Each early exit is reported by its own error and by nothing else: a
   * single `finished`, no progress and no written frame; only the
   * destination failure has got as far as trying a writer.
   */
  lemma EarlyExits(src: string, dst: string, box: Size, backend: Backend, flag: bool, abortAt: Option<nat>)
    ensures var t := Run(src, dst, box, backend, flag, abortAt);
            var s := backend.source;
            (!s.isOpen <==> FinalError(t) == Some(SourceUnreadable(src))) &&
            (s.isOpen && !ValidProperties(s) <==> FinalError(t) == Some(InvalidProperties)) &&
            (s.isOpen && ValidProperties(s) && !backend.destOpens <==> FinalError(t) == Some(DestUnopenable(dst))) &&
            (!ReachesLoop(backend) ==> t.events == [Finished(FinalError(t))] && t.written == []) &&
            (t.writer.None? <==> !s.isOpen || !ValidProperties(s))
  {
    var s := backend.source;
    if ReachesLoop(backend) {
      LoopShape(s.frames, s.frameCount, TargetSize(s.width, s.height, box), flag, abortAt, 0);
    }
  }

  /**
   * The writer is opened on the destination path with the motion-JPEG
   * codec, the source frame rate and the target size computed from the
   * reported width and height, which for a positive source size lies within
   * the bounding box.
   */
  lemma WriterConfiguration(src: string, dst: string, box: Size, backend: Backend, flag: bool, abortAt: Option<nat>)
    ensures var t := Run(src, dst, box, backend, flag, abortAt);
            var s := backend.source;
            t.writer.Some? ==>
              t.writer.value.path == dst && t.writer.value.fourcc == MJPG && t.writer.value.fps == s.fps &&
              s.width != 0 && s.height != 0 && t.writer.value.size == TargetSize(s.width, s.height, box) &&
              (0 < s.width && 0 < s.height && 0 <= box.width && 0 <= box.height ==>
                 0 <= t.writer.value.size.width <= box.width && 0 <= t.writer.value.size.height <= box.height)
  {
  }

  /**
   * For a positive source size and box, the writer's size is the closed
   * form of the fit: the side with the smaller ratio meets the box exactly,
   * the other is scaled and truncated; every written frame has that size.
   */
  lemma OutputSize(src: string, dst: string, box: Size, backend: Backend, flag: bool, abortAt: Option<nat>)
    requires 0 < backend.source.width && 0 < backend.source.height && 0 < box.width && 0 < box.height
    ensures var t := Run(src, dst, box, backend, flag, abortAt);
            var w, h := backend.source.width, backend.source.height;
            t.writer.Some? ==>
              t.writer.value.size ==
                (if box.width * h <= box.height * w
                 then Size(box.width, h * box.width / w)
                 else Size(w * box.height / h, box.height)) &&
              forall k :: 0 <= k < |t.written| ==> t.written[k].size == t.writer.value.size
  {
    TightSide(backend.source.width, backend.source.height, box);
  }

  /**
   * A run that reaches the loop writes exactly the frames up to the stop
   * position, and it ends aborted exactly when the check after the last
   * source frame sees the flag; otherwise it ends with a null error.
   */
  lemma LoopEnding(src: string, dst: string, box: Size, backend: Backend, flag: bool, abortAt: Option<nat>)
    requires ReachesLoop(backend)
    ensures var t := Run(src, dst, box, backend, flag, abortAt);
            var n := |backend.source.frames|;
            |t.written| == StopAt(flag, abortAt, n) &&
            FinalError(t) == if 0 < n && Observed(flag, abortAt, n) then Some(Aborted) else None
  {
    var s := backend.source;
    LoopOutcome(s.frames, s.frameCount, TargetSize(s.width, s.height, box), flag, abortAt, 0);
  }

  /**
   * The `finished` error is null exactly on success, and success means the
   * whole source was read and written without the flag being seen.
   */
  lemma SuccessIsNullError(src: string, dst: string, box: Size, backend: Backend, flag: bool, abortAt: Option<nat>)
    ensures var t := Run(src, dst, box, backend, flag, abortAt);
            var n := |backend.source.frames|;
            (FinalError(t) == None <==> ReachesLoop(backend) && (n == 0 || !Observed(flag, abortAt, n))) &&
            (FinalError(t) == None ==> |t.written| == n)
  {
    if ReachesLoop(backend) {
      LoopEnding(src, dst, box, backend, flag, abortAt);
    }
  }

  /**
   * Cooperative abort: no frame is read after a check that sees the flag,
   * so once the flag is observed after the n-th frame at most n frames are
   * written; an aborted run saw the flag at its last check and at no
   * earlier one.
   */
  lemma AbortIsPrompt(src: string, dst: string, box: Size, backend: Backend, flag: bool, abortAt: Option<nat>)
    ensures var t := Run(src, dst, box, backend, flag, abortAt);
            (forall n :: 1 <= n && Observed(flag, abortAt, n) ==> |t.written| <= n) &&
            (FinalError(t) == Some(Aborted) ==>
               Observed(flag, abortAt, |t.written|) &&
               forall m :: 1 <= m < |t.written| ==> !Observed(flag, abortAt, m))
  {
    if ReachesLoop(backend) {
      LoopEnding(src, dst, box, backend, flag, abortAt);
    }
  }

  /**
   * A task whose flag is already set when the run begins (for instance one
   * that has been run and aborted before) writes at most one frame and
   * cannot finish with success once it reaches a non-empty source.
   */
  lemma AbortedTaskIsSpent(src: string, dst: string, box: Size, backend: Backend, abortAt: Option<nat>)
    ensures var t := Run(src, dst, box, backend, true, abortAt);
            |t.written| <= 1 &&
            (ReachesLoop(backend) && backend.source.frames != [] ==> FinalError(t) == Some(Aborted))
  {
    if ReachesLoop(backend) {
      LoopEnding(src, dst, box, backend, true, abortAt);
    }
  }

  /** For a positive frame count, successive progress values never decrease. */
  lemma ProgressNonDecreasing(src: string, dst: string, box: Size, backend: Backend, flag: bool, abortAt: Option<nat>)
    requires 0 < backend.source.frameCount
    ensures var t := Run(src, dst, box, backend, flag, abortAt);
            forall j, k :: 0 <= j <= k < |t.written| ==> t.events[j].value <= t.events[k].value
  {
    var t := Run(src, dst, box, backend, flag, abortAt);
    forall j, k | 0 <= j <= k < |t.written|
      ensures t.events[j].value <= t.events[k].value
    {
      PercentMonotone(j + 1, k + 1, backend.source.frameCount);
    }
  }

  /**
   * While the source has no more frames than it reports, every progress
   * value is a percentage in 0..100.
   */
  lemma ProgressIsPercentage(src: string, dst: string, box: Size, backend: Backend, flag: bool, abortAt: Option<nat>)
    requires |backend.source.frames| <= backend.source.frameCount
    ensures var t := Run(src, dst, box, backend, flag, abortAt);
            forall k :: 0 <= k < |t.written| ==> 0 <= t.events[k].value <= 100
  {
    var t := Run(src, dst, box, backend, flag, abortAt);
    forall k | 0 <= k < |t.written|
      ensures 0 <= t.events[k].value <= 100
    {
      PercentRange(k + 1, backend.source.frameCount);
    }
  }

  /**
   * Without an abort, a source that delivers exactly the N frames it
   * reports yields N progress events, the last of them 100, followed by
   * success.
   */
  lemma CompleteRunReaches100(src: string, dst: string, box: Size, backend: Backend, flag: bool, abortAt: Option<nat>)
    requires ReachesLoop(backend) && |backend.source.frames| == backend.source.frameCount
    requires !Observed(flag, abortAt, |backend.source.frames|)
    ensures var t := Run(src, dst, box, backend, flag, abortAt);
            var n := backend.source.frameCount;
            |t.events| == n + 1 && t.events[n - 1] == Progress(100) && t.events[n] == Finished(None)
  {
    LoopEnding(src, dst, box, backend, flag, abortAt);
    PercentComplete(backend.source.frameCount);
  }
}
