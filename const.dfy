/** The integration's default window bounds, as whole hours. */
module Const {
  /** `DEFAULT_WINDOW_START`: the integer 21. */
  const DefaultWindowStart: int := 21
  /** `DEFAULT_WINDOW_END`: the integer 5. */
  const DefaultWindowEnd: int := 5
}
