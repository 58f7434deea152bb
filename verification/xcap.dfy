/**
 * The native display library (xcap) seen as data.  Every query the library
 * offers on a display handle can fail independently, so each is a `Result`
 * fixed at the moment of enumeration; the capture call is the outcome the
 * library would produce for that display.  Enumeration itself is a
 * `Result<seq<NativeDisplay>, NativeError>` supplied by the caller.
 */
module Xcap {
  import opened Wrappers

  /** Rust's `u32`. */
  type u32 = x: int | 0 <= x < 0x1_0000_0000

  /** An error reported by the native library, kept only for its message. */
  datatype NativeError = NativeError(message: string)

  /** The raw RGBA buffer the native capture call returns. */
  datatype RawImage = RawImage(width: u32, height: u32, rgba: seq<bv8>)

  /** One display as the native library reports it. */
  datatype NativeDisplay = NativeDisplay(
    id: Result<u32, NativeError>,
    width: Result<u32, NativeError>,
    height: Result<u32, NativeError>,
    name: Result<string, NativeError>,
    isPrimary: Result<bool, NativeError>,
    capture: Result<RawImage, NativeError>)

  /** What one call of `Monitor::all` returns. */
  type Enumeration = Result<seq<NativeDisplay>, NativeError>
}
