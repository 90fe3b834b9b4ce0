# ConvertTask: a verified model of vtripod's preview conversion job

vtripod makes a small "preview" copy of a video. It does this with a
one-shot background job, `ConvertTask`, which runs these steps in order:

1. open the source video;
2. read its frame rate, width, height and frame count, and refuse the
   video if any of them is zero;
3. compute an output size that keeps the aspect ratio and fits a bounding
   box;
4. open a motion-JPEG writer;
5. loop over the frames: read one, resize it, write it, report a progress
   percentage, then check an abort flag that another thread can set;
6. emit exactly one `finished` signal. Its error is null on success and
   non-null when the source cannot be read, the properties are invalid,
   the destination cannot be opened, or the user aborted.

The model turns the media library into plain values:

- a `Source` record: whether it opened, the four reported numbers, and
  the frames that successive reads return;
- a flag saying whether the writer opens;
- an abort schedule saying when the other thread's `abort()` lands.

With those values fixed, a run is deterministic. `Conversion.Run` is the
specification function. It gives the run's `Trace`: the emitted events,
the writer configuration and the written frames. The class
`Task.ConvertTask` holds the source's fields. Its constructor, `Abort`
and `Run` are imperative methods. `Run` is proved to produce exactly the
trace `Conversion.Run` specifies.

Modules:

- `Scaling`: frame sizes, truncation, and the target-size computation.
- `Percentages`: the progress percentage.
- `Media`: the backend values (frames, source, writer configuration).
- `Conversion`: the events, the trace and the specification of one run.
- `ConversionProperties`: how a run ends, abort promptness, and progress
  properties.
- `Scenarios`: two concrete runs.
- `Task`: the `ConvertTask` class.

Where the documentation and the code differ, the model follows the code:

- The class comment promises H.264 output. The code opens the writer with
  the motion-JPEG four-character code, and so does the model.
- The progress value is documented as a percentage. It is only guaranteed
  to lie in 0..100 when the source delivers no more frames than it
  reports. The code does not clamp it.

Notes on what the code does:

- The size is a truncating cast of `width * scale`, not a floor. The two
  agree for the non-negative values that matter.
- The code rejects only a zero frame count. A negative count passes the
  check, and the reports are then negative and decreasing. The monotonicity
  lemmas therefore require a positive frame count.
- The code reads width, height and frame count as `double`. The model
  holds them as `int`, since the backend reports whole numbers for them.
- An abort that lands after the last frame is written, but before the
  check that follows it, still ends the run with "aborted". The check
  comes before the read that would have found the end of the source.

## Model

| member | source | states |
|---|---|---|
| `Scaling.Trunc` | src/converttask.cpp:64-67 | `static_cast<int>` truncates toward zero: the result is the integer part, with the sign of the argument. |
| `Scaling.TargetSize` | src/converttask.cpp:59-67 | For a positive source size and a non-negative box, the output size is non-negative and no larger than the box in either dimension. |
| `Scaling.Min` | src/converttask.cpp:62 | `qMin`: the result is at most each argument and equals one of them. |
| `Scaling.Scale` | src/converttask.cpp:60-62 | The scale is the smaller of `boxWidth / width` and `boxHeight / height`. For a positive source size and a non-negative box, both sides times the scale lie between zero and their bounds in exact arithmetic, and one of them meets its bound exactly. |
| `Scaling.WidthTight` | src/converttask.cpp:59-67 | When the width ratio is the smaller one, the output width equals the box width. The output height is `height * boxWidth / width`, truncated. |
| `Scaling.HeightTight` | src/converttask.cpp:59-67 | When the height ratio is strictly smaller, the output height equals the box height. The output width is `width * boxHeight / height`, truncated. |
| `Scaling.TightSide` | src/converttask.cpp:59-67 | The output size, stated by cases on which ratio is the minimum (compared as cross products). |
| `Scaling.AspectPreserved` | src/converttask.cpp:59-67 | The aspect ratio is kept up to truncation: `-height < outW*height - outH*width < width`. |
| `Scaling.FullHdPreview` | src/converttask.cpp:59-67 | A 1920x1080 source in a 720x480 box gives 720x405. |
| `Percentages.Percent` | src/converttask.cpp:95-97 | Definition: the reported value is `trunc(position / total * 100)`, with `position` the decoder's position and `total` the reported frame count. Its properties are stated by the lemmas below. |
| `Percentages.PercentQuotient` | src/converttask.cpp:95-97 | For a positive frame count, `trunc(pos / total * 100)` equals the integer quotient `pos*100 / total`. |
| `Percentages.PercentRange` | src/converttask.h:55-59 | While the position does not exceed the frame count, the progress value is a percentage in 0..100. |
| `Percentages.PercentMonotone` | src/converttask.cpp:95-97 | A later frame position never gives a smaller percentage. |
| `Percentages.PercentComplete` | src/converttask.cpp:95-97 | The position of the last of N frames gives exactly 100. |
| `Percentages.PercentOfHundred` | src/converttask.cpp:95-97 | With 100 frames, the percentage equals the frame position. |
| `Media.Resize` | src/converttask.cpp:88-90 | Definition standing in for `cv::resize`: the same picture at the requested size. |
| `Conversion.ValidProperties` | src/converttask.cpp:53-57 | Definition: a source is accepted exactly when none of its frame rate, width, height and frame count is zero. `EarlyExits` states what a run does otherwise. |
| `Conversion.Loop` | src/converttask.cpp:80-111 | Definition of the frame loop: read, resize, write, report, check. A failed read ends it with a null error, and a set flag at the check ends it with "aborted". `LoopShape` and `LoopOutcome` state its properties. |
| `Conversion.LoopShape` | src/converttask.cpp:80-109 | Each frame the loop reads is resized to the target size and written once, in source order. The k-th written frame is paired with the k-th event, a progress event for its position. One terminal event, null or "aborted", closes the loop. Writes and events are recorded in separate sequences, so the order between a write and its report is not stated. |
| `Conversion.Run` | src/converttask.cpp:39-112 | Exactly one `finished` event, and it comes last. There is one progress event per written frame, each carrying the percentage of that frame's position. Frames are written only after the properties were valid and the writer opened, and only resized source frames are written, in order. |
| `ConversionProperties.StopAt` | src/converttask.cpp:99-108 | The number of frames a run that reaches the loop writes. It is at most the frame total. It is the first position at which the flag is observed, or the total if the flag never is. No earlier position observes the flag. |
| `ConversionProperties.LoopOutcome` | src/converttask.cpp:80-111 | Entered where the flag has not yet been seen, the loop writes up to the stop position. It ends "aborted" exactly when the check after the last frame sees the flag, and with a null error otherwise. |
| `ConversionProperties.EarlyExits` | src/converttask.cpp:41-78 | Each early exit is reported by its own error, and only then. These exits are an unreadable source, invalid properties and an unopenable destination. Each emits a single `finished`, no progress and no frame. Only the destination failure got as far as a writer. |
| `ConversionProperties.WriterConfiguration` | src/converttask.cpp:59-74 | The writer is opened on the destination path with the MJPG code and the source frame rate. Its size is exactly `TargetSize` of the reported width and height, which for a positive source size lies within the box. |
| `ConversionProperties.OutputSize` | src/converttask.cpp:59-90 | For a positive source size and box, the writer's size is the closed form of the fit. The side with the smaller ratio meets the box, and the other is scaled by that ratio and truncated. Every written frame has that size. |
| `ConversionProperties.LoopEnding` | src/converttask.cpp:80-111 | A run that reaches the loop writes exactly `StopAt` frames. It is "aborted" exactly when the flag is observed after the last source frame, and null otherwise. |
| `ConversionProperties.SuccessIsNullError` | src/converttask.h:61-65 | The `finished` error is null exactly when the run reached the loop and never saw the flag. On that path every frame read before the first failed read was written. |
| `ConversionProperties.AbortIsPrompt` | src/converttask.cpp:99-108 | Once the flag is observed after the n-th frame, at most n frames are written. An aborted run saw the flag at its last check and at no earlier one. |
| `ConversionProperties.AbortedTaskIsSpent` | src/converttask.h:36-37 | A task whose flag is already set writes at most one frame. Given a non-empty source that reaches the loop, it ends "aborted". |
| `ConversionProperties.ProgressNonDecreasing` | src/converttask.cpp:95-97 | For a positive frame count, successive progress values never decrease. |
| `ConversionProperties.ProgressIsPercentage` | src/converttask.cpp:95-97 | When the source has no more frames than it reports, every progress value lies in 0..100. |
| `ConversionProperties.CompleteRunReaches100` | src/converttask.cpp:80-111 | Without an abort, a source that delivers exactly the N frames it reports yields N progress events. The last is 100, followed by success. |
| `Scenarios.FullHdPreviewRun` | src/converttask.cpp:59-111 | For 100 frames of 1920x1080 in a 720x480 box, the writer is 720x405, the reports are 1..100 and the run succeeds. |
| `Scenarios.AbortAroundThirdReport` | src/converttask.cpp:80-108 | For 10 frames of 640x480, with the abort landing around the third report, the run ends "aborted" after at most 4 progress events. |
| `Task.ConvertTask.constructor` | src/converttask.cpp:31-37 | A new task stores its source, destination and dimensions unchanged, with the abort flag false. These fields are `const`, so nothing changes them later. |
| `Task.ConvertTask.Abort` | src/converttask.cpp:114-120 | Sets the flag to true. The flag is the only mutable field, so a second call changes nothing. |
| `Task.ConvertTask.Run` | src/converttask.cpp:39-112 | The trace equals `Conversion.Run` for the flag the run began with. Afterwards the flag is set iff it was set before or the abort landed by the last check, so it is never reset. |
| `Task.ConvertTask.EncodeFrames` | src/converttask.cpp:80-111 | The imperative frame loop produces exactly the output of `Conversion.Loop`, and it leaves the flag as stated for `Run`. |
| `Task.RunAgainAfterAbort` | src/converttask.h:36-37 | A task cannot be reused. After one run is aborted, a second run of the same object stops "aborted" after its first frame. |

## Left out

- The OpenCV calls (`cv::VideoCapture`, `cap.get`, `cv::VideoWriter`, `cv::resize`) are not modelled. They become the `Media.Source` and `Media.Backend` values. Resizing keeps a frame's picture and replaces its size.
- The decoder's frame position (`CV_CAP_PROP_POS_FRAMES`) is modelled as the number of frames read so far. Containers that report other positions are not modelled.
- Whether the writer opens is an input. It does not depend on the codec, rate or size.
- Floating point is not modelled. The scale and progress arithmetic is done in `double` in the code and in exact rationals (`real`) here. In particular, `double` rounding can make `width * (boxWidth / width)` fall just below `boxWidth`, and truncation then gives one pixel less. A frame rate of NaN would also pass the zero check in the code.
- `Scaling.TargetSize`: the fits-the-box bound is proved only for a positive source size and a non-negative box. The code rejects only zero, so a negative width or height reported by the backend is not covered.
- Casting a `double` outside the `int` range to `int` is not modelled.
- Threads and locking are not modelled: `QMutex`, `QMutexLocker`, and signal delivery across threads. The abort flag is read once per frame. The other thread's `abort()` is an abort schedule (`Some(k)`: it has landed by the check after the k-th frame). `Task.ConvertTask.Run` applies the schedule by calling `Abort` just before that check. Other interleavings are not modelled.
- The message texts are not modelled. They are translated and formatted with `.arg()`. The `Conversion.Error` datatype carries the path for the two file errors instead.
- `Converter` (src/converter.cpp, src/converter.h) and `MainWindow` (src/mainwindow.cpp) are not part of this model. They hold the worker thread, the progress dialog, the signal wiring, and the user interface.
- The order between a frame's write and its progress report is not modelled. A `Conversion.Trace` keeps the events and the written frames in two sequences, paired by index.
- A decode failure in the middle of the file ends the loop just as the end of the source does: the run reports success and the output holds only the frames read before it. `Media.Source.frames` holds exactly the frames before the first failed read, so the model covers this case.
- A source that never runs out, or a read that blocks forever, is not modelled, because the frames a source delivers form a finite sequence.
- Partial output after an abort (the file is left truncated) is not modelled. The model records only which frames were written.
