/**
 * The media backend a conversion task drives, reduced to the values the
 * task sees: whether the source opens, the four numbers it reports, the
 * frames it decodes in order, and whether the destination writer opens.
 */
module Media {

  import opened Scaling

  /** A decoded picture: an identity for its content and its size in pixels. */
  datatype Frame = Frame(picture: nat, size: Size)

  /** The backend's resize primitive: the same picture at the requested size. */
  function Resize(f: Frame, size: Size): (r: Frame) {
    Frame(f.picture, size)
  }

  /**
   * What opening the source path yields: whether it is open, its frame rate,
   * frame width, frame height and frame count as the backend reports them
   * (only zero is treated as missing), and the frames a sequence of reads
   * returns before a read fails.
   */
  datatype Source = Source(
    isOpen: bool,
    fps: real,
    width: int,
    height: int,
    frameCount: int,
    frames: seq<Frame>)

  /** The four-character code of the motion-JPEG codec every output uses. */
  const MJPG: string := "MJPG"

  /** The arguments a destination writer is opened with. */
  datatype WriterConfig = WriterConfig(path: string, fourcc: string, fps: real, size: Size)

  /** The backend for one run: the source and whether the writer opens. */
  datatype Backend = Backend(source: Source, destOpens: bool)
}
