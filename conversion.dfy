/**
 * What one run of a conversion task does, as a function of the task's
 * request, the backend and the abort schedule: the events it emits, the
 * writer it opens and the frames it writes.
 */
module Conversion {

  import opened Wrappers
  import opened Scaling
  import opened Percentages
  import opened Media

  /** The non-null argument of `finished`: why a run stopped without success. */
  datatype Error =
    | SourceUnreadable(path: string)
    | InvalidProperties
    | DestUnopenable(path: string)
    | Aborted

  /** A signal emission: `progress(value)` or `finished(error)`, a null error meaning success. */
  datatype Event = Progress(value: int) | Finished(error: Option<Error>)

  /**
   * The observable effect of one run: the emitted events in order, the
   * configuration of the writer it tried to open (None if it never got that
   * far) and the frames written to that writer in order. Writes and reports
   * are kept apart: the k-th written frame is paired with the k-th event.
   */
  datatype Trace = Trace(events: seq<Event>, writer: Option<WriterConfig>, written: seq<Frame>)

  /**
   * The abort schedule: `Some(k)` says the other thread's `abort()` has
   * landed by the check that follows the k-th written frame, `None` that it
   * never lands during this run.
   */
  predicate Requested(abortAt: Option<nat>, n: nat) {
    abortAt.Some? && abortAt.value <= n
  }

  /** The abort flag as the check after the n-th frame reads it, given its value when the run began. */
  predicate Observed(flag: bool, abortAt: Option<nat>, n: nat) {
    flag || Requested(abortAt, n)
  }

  /** None of the four reported properties is zero. */
  predicate ValidProperties(s: Source) {
    s.fps != 0.0 && s.width != 0 && s.height != 0 && s.frameCount != 0
  }

  /** The part of a trace the frame loop produces. */
  datatype LoopOut = LoopOut(events: seq<Event>, written: seq<Frame>)

  /**
   * The frame loop entered with `pos` frames already read: read a frame
   * (a failed read ends the loop with success), resize it, write it,
   * report the progress of the decoder's position, then check the flag.
   * What it emits and writes is stated by `LoopShape`.
   */
  function Loop(frames: seq<Frame>, total: int, size: Size, flag: bool, abortAt: Option<nat>, pos: nat): (o: LoopOut)
    requires pos <= |frames| && total != 0
    decreases |frames| - pos
  {
    if pos == |frames| then
      LoopOut([Finished(None)], [])
    else
      var dest := Resize(frames[pos], size);
      var report := Progress(Percent(pos + 1, total));
      if Observed(flag, abortAt, pos + 1) then
        LoopOut([report, Finished(Some(Aborted))], [dest])
      else
        var rest := Loop(frames, total, size, flag, abortAt, pos + 1);
        LoopOut([report] + rest.events, [dest] + rest.written)
  }

  /**
   * Every frame the loop takes is written resized, in source order, and
   * followed by the progress of its position; one terminal event closes
   * the output, with no error or with Aborted.
   */
  lemma {:induction false} LoopShape(
    frames: seq<Frame>, total: int, size: Size, flag: bool, abortAt: Option<nat>, pos: nat)
    requires pos <= |frames| && total != 0
    ensures var o := Loop(frames, total, size, flag, abortAt, pos);
            |o.events| == |o.written| + 1 && pos + |o.written| <= |frames| &&
            (o.events[|o.written|] == Finished(None) || o.events[|o.written|] == Finished(Some(Aborted))) &&
            forall k :: 0 <= k < |o.written| ==>
              o.written[k] == Resize(frames[pos + k], size) &&
              o.events[k] == Progress(Percent(pos + k + 1, total))
    decreases |frames| - pos
  {
    if pos < |frames| && !Observed(flag, abortAt, pos + 1) {
      LoopShape(frames, total, size, flag, abortAt, pos + 1);
      var rest := Loop(frames, total, size, flag, abortAt, pos + 1);
      var o := Loop(frames, total, size, flag, abortAt, pos);
      assert o.events == [Progress(Percent(pos + 1, total))] + rest.events;
      assert o.written == [Resize(frames[pos], size)] + rest.written;
      forall k | 1 <= k < |o.written|
        ensures o.written[k] == Resize(frames[pos + k], size) &&
                o.events[k] == Progress(Percent(pos + k + 1, total))
      {
        assert o.written[k] == rest.written[k - 1];
        assert o.events[k] == rest.events[k - 1];
      }
    }
  }

  /**
   * One run of a task with source path `src`, destination path `dst`,
   * bounding box `box` and abort flag `flag` when it began. Exactly one
   * `finished` event is emitted, and it is the last; every other event is a
   * progress report, one per written frame, carrying the percentage of that
   * frame's position; frames are written only through an opened writer,
   * resized to its size and in source order.
   */
  function Run(src: string, dst: string, box: Size, backend: Backend, flag: bool, abortAt: Option<nat>): (t: Trace)
    ensures |t.events| == |t.written| + 1 && t.events[|t.written|].Finished?
    ensures t.written != [] ==>
              t.writer.Some? && backend.destOpens && ValidProperties(backend.source) &&
              |t.written| <= |backend.source.frames|
    ensures forall k :: 0 <= k < |t.written| ==> t.events[k] == Progress(Percent(k + 1, backend.source.frameCount))
    ensures t.writer.Some? ==>
              forall k :: 0 <= k < |t.written| ==> t.written[k] == Resize(backend.source.frames[k], t.writer.value.size)
  {
    var s := backend.source;
    if !s.isOpen then
      Trace([Finished(Some(SourceUnreadable(src)))], None, [])
    else if !ValidProperties(s) then
      Trace([Finished(Some(InvalidProperties))], None, [])
    else
      var size := TargetSize(s.width, s.height, box);
      var enc := WriterConfig(dst, MJPG, s.fps, size);
      if !backend.destOpens then
        Trace([Finished(Some(DestUnopenable(dst)))], Some(enc), [])
      else
        LoopShape(s.frames, s.frameCount, size, flag, abortAt, 0);
        var o := Loop(s.frames, s.frameCount, size, flag, abortAt, 0);
        Trace(o.events, Some(enc), o.written)
  }

  /** The error carried by the terminal event of a trace. */
  function FinalError(t: Trace): (e: Option<Error>)
    requires |t.events| > 0 && t.events[|t.events| - 1].Finished?
  {
    t.events[|t.events| - 1].error
  }
}
