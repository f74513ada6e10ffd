/** Types and numeric limits shared by every component. */
module Base {
  datatype Option<+T> = None | Some(value: T)

  const MAX_SAFE_INTEGER := 9007199254740991
  const MAX_DURATION_MS := 31536000000
  const MAX_TRACKED_TTL_MS := 3600000
  const MIN_WATERMARK_TTL_MS := 7200000
  const WATERMARK_MARGIN_MS := 60000

  function Max(a: int, b: int): int {
    if a < b then b else a
  }
}
