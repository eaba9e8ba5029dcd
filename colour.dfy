/** Values shared by every tool of the toolkit: an 8-bit colour channel,
    an RGB colour and an optional result. */
module Colour {

  /** One 8-bit channel, as a pixel buffer holds it and as every colour
      the toolkit hands to the display holds it. */
  type Channel = x: int | 0 <= x < 256

  /** An RGB colour; the source writes it as `{r, g, b}` or `[r, g, b]`. */
  datatype Rgb = Rgb(r: Channel, g: Channel, b: Channel)

  /** A value or nothing: the source's `null` (or `undefined`) result. */
  datatype Option<T> = None | Some(value: T)
}
