/** The JPEG markers that the camera driver looks for in a frame. */
module Markers {
  import opened Words

  /** FF D8 FF at offset i. */
  predicate SoiAt(buf: seq<byte>, i: int) {
    0 <= i < |buf| - 2 && buf[i] == 0xFF && buf[i + 1] == 0xD8 && buf[i + 2] == 0xFF
  }

  /** FF D9 at offset i. */
  predicate EoiAt(buf: seq<byte>, i: int) {
    0 <= i < |buf| - 1 && buf[i] == 0xFF && buf[i + 1] == 0xD9
  }

  /** cam_verify_jpeg_soi(...) == 0. It compares three bytes even when fewer
      have arrived; stale stands for the answer of the bytes beyond. */
  predicate StartsWithSoi(data: seq<byte>, stale: bool) {
    if |data| == 0 then false
    else if |data| >= 3 then SoiAt(data, 0)
    else stale
  }
}
