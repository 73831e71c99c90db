/** Small shared vocabulary: optional values and the unsigned 32-bit integers that
    PipeWire ids, Wayland global names and ScreenSaver cookies are made of. */
module Base {

  datatype Option<+T> = None | Some(value: T)

  /** The outcome of a fallible call whose success carries nothing (`Result<(), _>`);
      the error's content is not modelled. */
  datatype Status = Ok | Err

  /** The Rust `u32`. No arithmetic is done on these values, so no wrap-around is modelled. */
  newtype u32 = x: int | 0 <= x < 0x1_0000_0000

  /** True when `t` occurs as a contiguous piece of `s` (Rust's `str::contains`). */
  predicate Contains(s: string, t: string)
    decreases |s|
  {
    |t| <= |s| && (s[..|t|] == t || Contains(s[1..], t))
  }
}
