/**
  The WPF media values the converters produce: ARGB colours and solid brushes.
 */
module Media {

  /** One 8-bit colour channel. */
  type Byte = x: int | 0 <= x < 256

  /** An ARGB colour; `a` is the opacity (0 transparent, 0xFF opaque). */
  datatype Color = Color(a: Byte, r: Byte, g: Byte, b: Byte)

  /** `Color.FromRgb`: an opaque colour. */
  function FromRgb(r: Byte, g: Byte, b: Byte): Color {
    Color(0xFF, r, g, b)
  }

  /** `Colors.Gray` (#FF808080). */
  const Gray: Color := Color(0xFF, 0x80, 0x80, 0x80)

  /** `Colors.Transparent` (#00FFFFFF). */
  const Transparent: Color := Color(0x00, 0xFF, 0xFF, 0xFF)

  /** `SolidColorBrush`; `frozen` records a call to `Freeze()`. */
  datatype Brush = SolidColorBrush(color: Color, frozen: bool)
}
