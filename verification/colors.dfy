/**
 * `PadButton.change_color`: the eight `COLOR_*` codes and the (red, green, blue)
 * bits each one sets on a button.
 */
module Colors {
  import opened Wrappers
  import opened Bits

  /** The (red, green, blue) bits a `PadButton` stores. */
  datatype Led = Led(red: bit, green: bit, blue: bit)

  /** A newly made button: all three bits 0. */
  const Off: Led := Led(0, 0, 0)

  datatype Color = Red | Blue | Green | Magenta | Yellow | Cyan | White | Black
  {
    /** The `COLOR_*` constant. */
    function Code(): int
    {
      match this
      case Red => 100
      case Blue => 101
      case Green => 102
      case Magenta => 103
      case Yellow => 104
      case Cyan => 105
      case White => 106
      case Black => 107
    }

    /** The bits the color lights: a subset of the three channels. */
    function Rgb(): Led
    {
      match this
      case Red => Led(1, 0, 0)
      case Blue => Led(0, 0, 1)
      case Green => Led(0, 1, 0)
      case Magenta => Led(1, 0, 1)
      case Yellow => Led(1, 1, 0)
      case Cyan => Led(0, 1, 1)
      case White => Led(1, 1, 1)
      case Black => Led(0, 0, 0)
    }
  }

  /** The color a code names, if any. */
  function ColorOf(code: int): (r: Option<Color>)
    ensures r.Some? <==> 100 <= code <= 107
    ensures r.Some? ==> r.value.Code() == code
  {
    if code == 100 then Some(Red)
    else if code == 101 then Some(Blue)
    else if code == 102 then Some(Green)
    else if code == 103 then Some(Magenta)
    else if code == 104 then Some(Yellow)
    else if code == 105 then Some(Cyan)
    else if code == 106 then Some(White)
    else if code == 107 then Some(Black)
    else None
  }

  /** Every color has its own code. */
  lemma ColorOfCode(c: Color)
    ensures ColorOf(c.Code()) == Some(c)
  {
  }

  /**
   * The `if`/`elif` chain of `change_color`: a recognised code sets all three bits,
   * any other code leaves the button as it was.
   */
  function ChangeColor(led: Led, code: int): (r: Led)
    ensures ColorOf(code) == None ==> r == led
    ensures ColorOf(code).Some? ==> r == ColorOf(code).value.Rgb()
  {
    if code == 100 then Led(1, 0, 0)
    else if code == 101 then Led(0, 0, 1)
    else if code == 102 then Led(0, 1, 0)
    else if code == 103 then Led(1, 0, 1)
    else if code == 105 then Led(0, 1, 1)
    else if code == 104 then Led(1, 1, 0)
    else if code == 106 then Led(1, 1, 1)
    else if code == 107 then Led(0, 0, 0)
    else led
  }

  /** Applying the same code twice is applying it once. */
  lemma ChangeColorIdempotent(led: Led, code: int)
    ensures ChangeColor(ChangeColor(led, code), code) == ChangeColor(led, code)
  {
  }

  /** The color a button shows: the table read backwards. */
  function ColorOfLed(led: Led): (c: Color)
    ensures c.Rgb() == led
  {
    match led
    case Led(1, 0, 0) => Red
    case Led(0, 0, 1) => Blue
    case Led(0, 1, 0) => Green
    case Led(1, 0, 1) => Magenta
    case Led(1, 1, 0) => Yellow
    case Led(0, 1, 1) => Cyan
    case Led(1, 1, 1) => White
    case Led(0, 0, 0) => Black
  }

  /** The table is one-to-one: each of the eight bit patterns belongs to exactly one color. */
  lemma RgbInjective(c: Color, d: Color)
    ensures c.Rgb() == d.Rgb() <==> c == d
  {
  }

  /** Reading the color back from the bits it set gives the color again. */
  lemma ColorOfRgb(c: Color)
    ensures ColorOfLed(c.Rgb()) == c
  {
  }
}
