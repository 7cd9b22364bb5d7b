/**
  The drawing-surface collaborator, reduced to the values the views hand
  to it: colours, points, rectangles and a list of drawing commands in the
  order they are issued.
 */
module Canvas {
  import opened Numeric

  datatype Color = Color(r: Byte, g: Byte, b: Byte, a: Byte)

  /** `Color::RGB`: opaque. */
  function Rgb(r: Byte, g: Byte, b: Byte): Color
  {
    Color(r, g, b, 255)
  }

  const Black: Color := Rgb(0, 0, 0)
  const Green: Color := Rgb(0, 255, 0)
  const Red: Color := Rgb(255, 0, 0)
  const Blue: Color := Rgb(0, 0, 255)
  const Magenta: Color := Rgb(255, 0, 255)

  datatype Point = Point(x: int, y: int)

  /** `Rect::new(x, y, w, h)`. */
  datatype Rect = Rect(x: int, y: int, w: nat, h: nat)

  datatype Blend = BlendNone | BlendAdd

  /**
    One drawing command with the draw colour and blend mode in force when
    it is issued. `Clear` ignores the blend mode.
   */
  datatype Draw =
    | Clear(color: Color)
    | FillAll(color: Color, blend: Blend)
    | FillRect(rect: Rect, color: Color, blend: Blend)
    | Line(from: Point, to: Point, color: Color, blend: Blend)
    | Dot(at: Point, color: Color, blend: Blend)
}
