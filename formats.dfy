/**
 * The table of textureFromFile that picks the pixel format of a decoded image
 * from its channel count.
 */
module Formats {
  import opened Wrappers

  /** The pixel formats the loader uploads with. */
  datatype PixelFormat = Red | Rgb | Rgba

  /** The number of channels each format carries. */
  function Channels(f: PixelFormat): nat
  {
    match f
    case Red => 1
    case Rgb => 3
    case Rgba => 4
  }

  /**
   * The channel-count table of textureFromFile: 1, 3 and 4 channels select
   * GL_RED, GL_RGB and GL_RGBA; any other count leaves the format unset (None).
   */
  function PixelFormatFor(channels: int): (r: Option<PixelFormat>)
    ensures r.Some? <==> channels == 1 || channels == 3 || channels == 4
    ensures r.Some? ==> Channels(r.value) == channels
  {
    if channels == 1 then Some(Red)
    else if channels == 3 then Some(Rgb)
    else if channels == 4 then Some(Rgba)
    else None
  }

  /** Every format is the one the table picks for its own channel count. */
  lemma PixelFormatRoundTrip(f: PixelFormat)
    ensures PixelFormatFor(Channels(f)) == Some(f)
  {
  }
}
